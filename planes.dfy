/** Plane buffers shared by the TIFF and CZI readers: the in-memory image record, the widening of
    8-bit samples to 16-bit little-endian samples, byte copies into a destination buffer at an
    offset, and the channel-major, slice-minor layout of planes in the volume buffer. */
module Planes {
  import opened Common
  import opened MixedRadix
  import opened VolumeDims

  /** The loaded volume: extents, in-memory bit depth, the raw sample bytes, voxel sizes and
      channel names. */
  datatype ImageXYZC = ImageXYZC(
    sizeX: u32, sizeY: u32, sizeZ: u32, sizeC: u32,
    bitsPerPixel: u32,
    data: seq<byte>,
    physicalSizeX: real, physicalSizeY: real, physicalSizeZ: real,
    channelNames: seq<string>)

  /** The bit depth every loaded volume has in memory. */
  const InMemoryBpp: u32 := 16

  /** Bytes of one plane of `d` in memory, at `InMemoryBpp` bits per sample. */
  function PlaneSize(d: VolumeDimensions): nat
  {
    d.sizeX * d.sizeY * (InMemoryBpp / 8)
  }

  /** `n` zero bytes (none when `n` is negative). */
  function Zeros(n: int): (r: seq<byte>)
    ensures |r| == if n < 0 then 0 else n
  {
    if n <= 0 then [] else seq(n, i => 0)
  }

  /** Each source byte becomes one 16-bit sample stored low byte first. */
  function Widen(bs: seq<byte>): (r: seq<byte>)
    ensures |r| == 2 * |bs|
  {
    seq(2 * |bs|, k requires 0 <= k < 2 * |bs| => if k % 2 == 0 then bs[k / 2] else 0)
  }

  /** The 16-bit little-endian sample number `k` of `data`. */
  function Sample16(data: seq<byte>, k: nat): int
    requires 2 * k + 1 < |data|
  {
    var lo: int, hi: int := data[2 * k], data[2 * k + 1];
    lo + 256 * hi
  }

  lemma WidenBytes(bs: seq<byte>, k: nat)
    requires k < |bs|
    ensures Widen(bs)[2 * k] == bs[k] && Widen(bs)[2 * k + 1] == 0
  {
    assert (2 * k) / 2 == k && (2 * k) % 2 == 0 && (2 * k + 1) % 2 == 1;
  }

  /** Sample `k` of a widened sequence is byte `k`. */
  lemma WidenAt(bs: seq<byte>, w: seq<byte>, k: nat)
    requires w == Widen(bs) && k < |bs|
    ensures 2 * k + 1 < |w| && Sample16(w, k) == bs[k]
  {
    WidenBytes(bs, k);
  }

  /** Widening keeps every value: sample `k` of the result is source byte `k`. */
  lemma WidenSamples(bs: seq<byte>)
    ensures forall k :: 0 <= k < |bs| ==> Sample16(Widen(bs), k) == bs[k]
  {
    forall k | 0 <= k < |bs| ensures Sample16(Widen(bs), k) == bs[k] {
      WidenBytes(bs, k);
    }
  }

  lemma WidenAppend(a: seq<byte>, b: seq<byte>)
    ensures Widen(a + b) == Widen(a) + Widen(b)
  {
    var l, r := Widen(a + b), Widen(a) + Widen(b);
    forall k | 0 <= k < |l| ensures l[k] == r[k] {
      if k >= 2 * |a| {
        var j := k - 2 * |a|;
        assert j / 2 == k / 2 - |a| && j % 2 == k % 2;
      }
    }
  }

  /** `a` with the bytes `w` written over it from position `off` on. */
  function Overwrite(a: seq<byte>, off: nat, w: seq<byte>): (r: seq<byte>)
    requires off + |w| <= |a|
    ensures |r| == |a|
  {
    seq(|a|, k requires 0 <= k < |a| => if off <= k < off + |w| then w[k - off] else a[k])
  }

  /** Byte `k` after the write is byte `k - off` of `w` inside the written range and byte `k` of
      `a` outside it. */
  lemma OverwriteAt(a: seq<byte>, off: nat, w: seq<byte>)
    requires off + |w| <= |a|
    ensures forall k :: 0 <= k < |a| ==>
      Overwrite(a, off, w)[k] == (if off <= k < off + |w| then w[k - off] else a[k])
  {
  }

  /** Writing `u` and then `v` right after it is writing `u + v`. */
  lemma OverwriteAppend(a: seq<byte>, off: nat, u: seq<byte>, v: seq<byte>)
    requires off + |u| + |v| <= |a|
    ensures Overwrite(Overwrite(a, off, u), off + |u|, v) == Overwrite(a, off, u + v)
  {
    var l := Overwrite(Overwrite(a, off, u), off + |u|, v);
    var r := Overwrite(a, off, u + v);
    OverwriteAt(a, off, u);
    OverwriteAt(Overwrite(a, off, u), off + |u|, v);
    OverwriteAt(a, off, u + v);
    forall k | 0 <= k < |a| ensures l[k] == r[k] {
      if off + |u| <= k < off + |u| + |v| {
        assert (u + v)[k - off] == v[k - off - |u|];
      } else if off <= k < off + |u| {
        assert (u + v)[k - off] == u[k - off];
      }
    }
  }

  /** `memcpy(dest + off, src, |src|)`. */
  method CopyInto(src: seq<byte>, dest: array<byte>, off: nat)
    requires off + |src| <= dest.Length
    modifies dest
    ensures dest[..] == Overwrite(old(dest[..]), off, src)
  {
    var i := 0;
    while i < |src|
      invariant 0 <= i <= |src|
      invariant forall k :: 0 <= k < dest.Length ==> dest[k] == (if off <= k < off + i then src[k - off] else old(dest[k]))
    {
      dest[off + i] := src[i];
      i := i + 1;
    }
    OverwriteAt(old(dest[..]), off, src);
    assert dest[..] == Overwrite(old(dest[..]), off, src);
  }

  /** `memcpy` of `w` to `pos`, right after the bytes `done` already written from `off` on. */
  method CopyAfter(dest: array<byte>, ghost a: seq<byte>, off: nat, ghost done: seq<byte>, pos: nat, w: seq<byte>)
    requires |a| == dest.Length && pos == off + |done| && pos + |w| <= |a|
    requires dest[..] == Overwrite(a, off, done)
    modifies dest
    ensures dest[..] == Overwrite(a, off, done + w)
  {
    CopyInto(w, dest, pos);
    OverwriteAppend(a, off, done, w);
  }

  /** Stores each byte of `src` as a 16-bit sample, low byte first, from `dest + off` on. */
  method WidenInto(src: seq<byte>, dest: array<byte>, off: nat)
    requires off + 2 * |src| <= dest.Length
    modifies dest
    ensures dest[..] == Overwrite(old(dest[..]), off, Widen(src))
  {
    ghost var w := Widen(src);
    var i := 0;
    while i < |src|
      invariant 0 <= i <= |src|
      invariant forall k :: 0 <= k < dest.Length ==> dest[k] == (if off <= k < off + 2 * i then w[k - off] else old(dest[k]))
    {
      WidenBytes(src, i);
      dest[off + 2 * i] := src[i];
      dest[off + 2 * i + 1] := 0;
      i := i + 1;
    }
    OverwriteAt(old(dest[..]), off, w);
    assert dest[..] == Overwrite(old(dest[..]), off, w);
  }

  /** `w` stored as 16-bit samples from `pos` on, right after the bytes `done` already written
      from `off` on. */
  method WidenAfter(dest: array<byte>, ghost a: seq<byte>, off: nat, ghost done: seq<byte>, pos: nat, w: seq<byte>)
    requires |a| == dest.Length && pos == off + |done| && pos + 2 * |w| <= |a|
    requires dest[..] == Overwrite(a, off, done)
    modifies dest
    ensures dest[..] == Overwrite(a, off, done + Widen(w))
  {
    WidenInto(w, dest, pos);
    OverwriteAppend(a, off, done, Widen(w));
  }

  /** A plane's bytes in a slot of `size` bytes: followed by zeros, or cut to the slot when
      longer (the readers' preconditions rule that out). */
  function Pad(w: seq<byte>, size: nat): (r: seq<byte>)
    ensures |r| == size
    ensures forall k :: 0 <= k < size ==> r[k] == (if k < |w| then w[k] else 0)
  {
    if |w| <= size then w + Zeros(size - |w|) else w[..size]
  }

  predicate Fits(planes: seq<seq<byte>>, size: nat)
  {
    forall j :: 0 <= j < |planes| ==> |planes[j]| <= size
  }

  /** The volume buffer holding `planes` one after the other, each in a slot of `size` bytes. */
  function Assemble(planes: seq<seq<byte>>, size: nat): seq<byte>
  {
    if planes == [] then [] else Assemble(planes[..|planes| - 1], size) + Pad(planes[|planes| - 1], size)
  }

  /** The assembled buffer has one slot per plane. */
  lemma {:induction false} AssembleLength(planes: seq<seq<byte>>, size: nat)
    ensures |Assemble(planes, size)| == |planes| * size
  {
    if planes != [] {
      var n := |planes| - 1;
      AssembleLength(planes[..n], size);
      MulSucc(n, |planes|, size);
    }
  }

  /** Slot `j` of the assembled buffer is plane `j`, zero-padded. */
  lemma {:induction false} AssembleAt(planes: seq<seq<byte>>, size: nat, j: nat, k: nat)
    requires j < |planes| && k < size
    ensures j * size + k < |Assemble(planes, size)|
    ensures Assemble(planes, size)[j * size + k] == Pad(planes[j], size)[k]
  {
    var n := |planes| - 1;
    var front := Assemble(planes[..n], size);
    assert Assemble(planes, size) == front + Pad(planes[n], size);
    assert |front| == n * size by {
      AssembleLength(planes[..n], size);
    }
    if j < n {
      assert j * size + size <= n * size by {
        MulMono(j + 1, n, size);
      }
      AssembleAt(planes[..n], size, j, k);
      assert planes[..n][j] == planes[j];
    }
  }

  /** `buf` starts with `prefix` and holds zeros after it. */
  predicate ZeroAfter(buf: seq<byte>, prefix: seq<byte>)
  {
    |prefix| <= |buf| && buf[..|prefix|] == prefix && forall i :: |prefix| <= i < |buf| ==> buf[i] == 0
  }

  /** Writing the next plane into the first zeroed slot extends the assembled prefix by one
      slot. */
  lemma AssembleStep(planes: seq<seq<byte>>, w: seq<byte>, size: nat, buf: seq<byte>)
    requires |w| <= size && ZeroAfter(buf, Assemble(planes, size))
    requires |Assemble(planes, size)| + size <= |buf|
    ensures ZeroAfter(Overwrite(buf, |Assemble(planes, size)|, w), Assemble(planes + [w], size))
  {
    var n := |planes|;
    var ps := planes + [w];
    assert ps[..n] == planes;
    var front := Assemble(planes, size);
    var off := |front|;
    var back := Assemble(ps, size);
    assert back == front + Pad(w, size);
    var l := Overwrite(buf, off, w);
    forall k | 0 <= k < |back| ensures l[k] == back[k] {
      if k < off {
        assert buf[..off][k] == front[k];
      } else {
        assert back[k] == Pad(w, size)[k - off];
      }
    }
    assert l[..|back|] == back;
  }

  /** Distinct slots do not overlap, and every slot of an `n`-slot buffer lies inside it. */
  lemma SlotsDisjoint(i: nat, j: nat, n: nat, size: nat)
    requires i < j < n
    ensures i * size + size <= j * size
    ensures j * size + size <= n * size
  {
    MulMono(i + 1, j, size);
    MulMono(j + 1, n, size);
  }

  /** The rows one after the other. */
  function Flatten<T>(rows: seq<seq<T>>): seq<T>
  {
    if rows == [] then [] else Flatten(rows[..|rows| - 1]) + rows[|rows| - 1]
  }

  /** Every row holds `n` planes, each fitting a slot of `size` bytes. */
  predicate Grid(rows: seq<seq<seq<byte>>>, n: nat, size: nat)
  {
    forall c :: 0 <= c < |rows| ==> |rows[c]| == n && Fits(rows[c], size)
  }

  /** The planes stored ahead of plane `s` of row `c`: all earlier rows, then the first `s` planes
      of row `c` (row `|rows|` is the end of the grid). */
  function Before(rows: seq<seq<seq<byte>>>, c: nat, s: nat): seq<seq<byte>>
    requires c <= |rows| && (c < |rows| ==> s <= |rows[c]|) && (c == |rows| ==> s == 0)
  {
    Flatten(rows[..c]) + (if c < |rows| then rows[c][..s] else [])
  }

  lemma {:induction false} FlattenGrid(rows: seq<seq<seq<byte>>>, n: nat, size: nat)
    requires Grid(rows, n, size)
    ensures |Flatten(rows)| == |rows| * n
  {
    if rows != [] {
      var m := |rows| - 1;
      assert Grid(rows[..m], n, size) by {
        forall k | 0 <= k < m ensures |rows[..m][k]| == n && Fits(rows[..m][k], size) {
          assert rows[..m][k] == rows[k];
        }
      }
      FlattenGrid(rows[..m], n, size);
      assert |rows| * n == m * n + n;
    }
  }

  /** Position of plane (c, s) among the planes of the grid. */
  lemma GridPosition(rows: seq<seq<seq<byte>>>, n: nat, size: nat, c: nat, s: nat)
    requires Grid(rows, n, size) && c < |rows| && s < n
    ensures |Before(rows, c, s)| == c * n + s
    ensures c * n + s < |rows| * n
  {
    assert |Flatten(rows[..c])| == c * n by {
      assert Grid(rows[..c], n, size) by {
        forall k | 0 <= k < c ensures |rows[..c][k]| == n && Fits(rows[..c][k], size) {
          assert rows[..c][k] == rows[k];
        }
      }
      FlattenGrid(rows[..c], n, size);
    }
    assert c * n + s + 1 <= |rows| * n by {
      MulMono(c + 1, |rows|, n);
    }
  }

  /** The planes ahead of plane (c, s + 1) are those ahead of plane (c, s), then plane (c, s). */
  lemma GridStep(rows: seq<seq<seq<byte>>>, n: nat, size: nat, c: nat, s: nat)
    requires Grid(rows, n, size) && c < |rows| && s < n
    ensures Before(rows, c, s + 1) == Before(rows, c, s) + [rows[c][s]]
  {
    assert rows[c][..s + 1] == rows[c][..s] + [rows[c][s]];
  }

  /** The state of the volume buffer once the planes ahead of plane (c, s) are read: those planes
      in their slots, zeros after them. */
  predicate Partial(buf: seq<byte>, rows: seq<seq<seq<byte>>>, c: nat, s: nat, size: nat)
    requires c <= |rows| && (c < |rows| ==> s <= |rows[c]|) && (c == |rows| ==> s == 0)
  {
    ZeroAfter(buf, Assemble(Before(rows, c, s), size))
  }

  /** Offset and extent of the slot of plane (c, s) in a buffer sized for the whole grid. */
  lemma SlotBounds(rows: seq<seq<seq<byte>>>, n: nat, size: nat, c: nat, s: nat)
    requires Grid(rows, n, size) && c < |rows| && s < n
    ensures |Assemble(Before(rows, c, s), size)| == (c * n + s) * size
    ensures (c * n + s) * size + size <= |Assemble(Flatten(rows), size)|
  {
    SlotStart(rows, n, size, c, s);
    SlotBelowEnd(rows, n, size, c, s);
  }

  lemma SlotStart(rows: seq<seq<seq<byte>>>, n: nat, size: nat, c: nat, s: nat)
    requires Grid(rows, n, size) && c < |rows| && s < n
    ensures |Assemble(Before(rows, c, s), size)| == (c * n + s) * size
  {
    var b := Before(rows, c, s);
    GridPosition(rows, n, size, c, s);
    AssembleLength(b, size);
    MulEq(|b|, c * n + s, size);
  }

  lemma SlotBelowEnd(rows: seq<seq<seq<byte>>>, n: nat, size: nat, c: nat, s: nat)
    requires Grid(rows, n, size) && c < |rows| && s < n
    ensures (c * n + s) * size + size <= |Assemble(Flatten(rows), size)|
  {
    GridPosition(rows, n, size, c, s);
    FlattenGrid(rows, n, size);
    AssembleLength(Flatten(rows), size);
    MulEq(|Flatten(rows)|, |rows| * n, size);
    SlotEnd(c * n + s, |rows| * n, size);
  }

  lemma MulEq(a: int, b: int, k: int)
    requires a == b
    ensures a * k == b * k
  {
  }

  /** Reading plane (c, s) into its slot, right after the planes ahead of it, in a buffer sized
      for the whole grid, fills one more slot. */
  lemma SlotFilled(rows: seq<seq<seq<byte>>>, n: nat, size: nat, c: nat, s: nat, buf: seq<byte>)
    requires Grid(rows, n, size) && c < |rows| && s < n
    requires |buf| == |Assemble(Flatten(rows), size)| && Partial(buf, rows, c, s, size)
    ensures |Assemble(Before(rows, c, s), size)| + |rows[c][s]| <= |buf|
    ensures Partial(Overwrite(buf, |Assemble(Before(rows, c, s), size)|, rows[c][s]), rows, c, s + 1, size)
  {
    var b := Before(rows, c, s);
    var w := rows[c][s];
    assert Before(rows, c, s + 1) == b + [w] && |Assemble(b, size)| + size <= |buf| by {
      SlotBounds(rows, n, size, c, s);
      GridStep(rows, n, size, c, s);
    }
    assert |w| <= size by {
      assert Fits(rows[c], size);
    }
    AssembleStep(b, w, size, buf);
  }

  /** `SlotFilled` for a buffer of `|rows| * n * size` bytes and the slot offset as the reader
      computes it, `c * (size * n) + s * size`. */
  lemma SlotFilledAt(rows: seq<seq<seq<byte>>>, n: nat, size: nat, c: nat, s: nat, buf: seq<byte>, off: int)
    requires Grid(rows, n, size) && c < |rows| && s < n
    requires |buf| == |rows| * n * size && Partial(buf, rows, c, s, size)
    requires off == c * (size * n) + s * size
    ensures 0 <= off && off + |rows[c][s]| <= |buf|
    ensures Partial(Overwrite(buf, off, rows[c][s]), rows, c, s + 1, size)
  {
    assert off == |Assemble(Before(rows, c, s), size)| by {
      SlotBounds(rows, n, size, c, s);
      SlotOffset(c, s, n, size);
    }
    assert |buf| == |Assemble(Flatten(rows), size)| by {
      FlattenGrid(rows, n, size);
      AssembleLength(Flatten(rows), size);
    }
    SlotFilled(rows, n, size, c, s, buf);
  }

  /** Every plane read: the buffer is the assembled grid. */
  lemma GridComplete(rows: seq<seq<seq<byte>>>, n: nat, size: nat, buf: seq<byte>)
    requires Grid(rows, n, size)
    requires |buf| == |rows| * n * size && Partial(buf, rows, |rows|, 0, size)
    ensures buf == Assemble(Flatten(rows), size)
  {
    assert Before(rows, |rows|, 0) == Flatten(rows) by {
      assert rows[..|rows|] == rows;
    }
    assert |Assemble(Flatten(rows), size)| == |buf| by {
      FlattenGrid(rows, n, size);
      AssembleLength(Flatten(rows), size);
    }
    assert buf[..|buf|] == buf;
  }

  /** A slot before the last ends inside the buffer. */
  lemma SlotEnd(k: nat, m: nat, size: nat)
    requires k < m
    ensures k * size + size <= m * size
  {
    MulMono(k + 1, m, size);
    assert (k + 1) * size == k * size + size;
  }

  lemma Mul3Reverse(a: nat, b: nat, c: nat)
    ensures a * b * c == c * b * a
  {
    assert a * b * c == a * (b * c);
  }

  /** The slot of plane (c, s) starts at `c * (size * n) + s * size`. */
  lemma SlotOffset(c: nat, s: nat, n: nat, size: nat)
    ensures c * (size * n) + s * size == (c * n + s) * size
  {
    assert c * (size * n) == (c * n) * size;
  }

  /** The end of row `c` is the start of row `c + 1`; the start of row `|rows|` is the whole grid. */
  lemma GridRowEnd(rows: seq<seq<seq<byte>>>, n: nat, c: nat)
    requires c < |rows| && n == |rows[c]|
    ensures Before(rows, c, n) == Before(rows, c + 1, 0)
    ensures c + 1 == |rows| ==> Before(rows, c + 1, 0) == Flatten(rows)
  {
    assert rows[c][..n] == rows[c];
    assert rows[..c + 1][..c] == rows[..c];
    assert Flatten(rows[..c + 1]) == Flatten(rows[..c]) + rows[c];
    if c + 1 < |rows| {
      assert rows[c + 1][..0] == [];
    } else {
      assert rows[..c + 1] == rows;
    }
  }

  /** A buffer holding every plane of row `c` holds the rows before `c + 1`. */
  lemma PartialRowEnd(buf: seq<byte>, rows: seq<seq<seq<byte>>>, n: nat, size: nat, c: nat)
    requires Grid(rows, n, size) && c < |rows| && n == |rows[c]|
    requires Partial(buf, rows, c, n, size)
    ensures Partial(buf, rows, c + 1, 0, size)
  {
    GridRowEnd(rows, n, c);
  }

  /** The slot of plane (c, s), at `c * (size * n) + s * size`, holds a plane of at most `size`
      bytes inside a buffer of `m * n * size` bytes. */
  lemma SlotInside(c: nat, s: nat, m: nat, n: nat, size: nat, len: nat)
    requires c < m && s < n && len <= size
    ensures 0 <= c * (size * n) + s * size
    ensures c * (size * n) + s * size + len <= m * n * size
  {
    SlotOffset(c, s, n, size);
    assert c * n + s < m * n by {
      MulMono(c + 1, m, n);
    }
    SlotEnd(c * n + s, m * n, size);
  }

  /** The volume buffer once the planes ahead of plane (c, s) are written, each at the start of
      its slot `c * (size * n) + s * size`, into a zeroed buffer of `|rows| * n` slots. */
  function Written(rows: seq<seq<seq<byte>>>, n: nat, size: nat, c: nat, s: nat): (r: seq<byte>)
    requires Grid(rows, n, size) && c <= |rows| && s <= n && (c == |rows| ==> s == 0)
    ensures |r| == |rows| * n * size
    decreases c, s
  {
    if s == 0 then
      if c == 0 then Zeros(|rows| * n * size) else Written(rows, n, size, c - 1, n)
    else
      var w := rows[c][s - 1];
      SlotInside(c, s - 1, |rows|, n, size, |w|);
      Overwrite(Written(rows, n, size, c, s - 1), c * (size * n) + (s - 1) * size, w)
  }

  /** The written planes are in their slots and zeros follow them. */
  lemma {:induction false} WrittenPartial(rows: seq<seq<seq<byte>>>, n: nat, size: nat, c: nat, s: nat)
    requires Grid(rows, n, size) && c <= |rows| && s <= n && (c == |rows| ==> s == 0)
    ensures Partial(Written(rows, n, size, c, s), rows, c, s, size)
    decreases c, s, 1
  {
    if s == 0 && c == 0 {
      WrittenNone(rows, n, size);
    } else if s == 0 {
      RowStartPartial(rows, n, size, c);
    } else {
      SlotPartial(rows, n, size, c, s);
    }
  }

  lemma {:induction false} RowStartPartial(rows: seq<seq<seq<byte>>>, n: nat, size: nat, c: nat)
    requires Grid(rows, n, size) && 0 < c <= |rows|
    ensures Partial(Written(rows, n, size, c, 0), rows, c, 0, size)
    decreases c, 0, 0
  {
    WrittenPartial(rows, n, size, c - 1, n);
    WrittenRowEnd(rows, n, size, c);
  }

  lemma {:induction false} SlotPartial(rows: seq<seq<seq<byte>>>, n: nat, size: nat, c: nat, s: nat)
    requires Grid(rows, n, size) && c < |rows| && 0 < s <= n
    ensures Partial(Written(rows, n, size, c, s), rows, c, s, size)
    decreases c, s, 0
  {
    var s' := s - 1;
    WrittenPartial(rows, n, size, c, s');
    WrittenNext(rows, n, size, c, s', s);
  }

  lemma WrittenNone(rows: seq<seq<seq<byte>>>, n: nat, size: nat)
    requires Grid(rows, n, size)
    ensures Partial(Written(rows, n, size, 0, 0), rows, 0, 0, size)
  {
    assert Before(rows, 0, 0) == [] by {
      assert rows[..0] == [];
    }
  }

  lemma WrittenRowEnd(rows: seq<seq<seq<byte>>>, n: nat, size: nat, c: nat)
    requires Grid(rows, n, size) && 0 < c <= |rows|
    requires Partial(Written(rows, n, size, c - 1, n), rows, c - 1, n, size)
    ensures Partial(Written(rows, n, size, c, 0), rows, c, 0, size)
  {
    var buf := Written(rows, n, size, c - 1, n);
    assert Written(rows, n, size, c, 0) == buf;
    PartialRowEnd(buf, rows, n, size, c - 1);
  }

  lemma WrittenNext(rows: seq<seq<seq<byte>>>, n: nat, size: nat, c: nat, s: nat, t: nat)
    requires Grid(rows, n, size) && c < |rows| && s < n && t == s + 1
    requires Partial(Written(rows, n, size, c, s), rows, c, s, size)
    ensures Partial(Written(rows, n, size, c, t), rows, c, t, size)
  {
    var off := c * (size * n) + s * size;
    var prev := Written(rows, n, size, c, s);
    SlotFilledAt(rows, n, size, c, s, prev, off);
    WrittenStep(rows, n, size, c, s, t, off);
  }

  /** Plane (c, s) is written over the buffer holding its predecessors. */
  lemma WrittenStep(rows: seq<seq<seq<byte>>>, n: nat, size: nat, c: nat, s: nat, t: nat, off: int)
    requires Grid(rows, n, size) && c < |rows| && s < n && t == s + 1
    requires off == c * (size * n) + s * size
    ensures 0 <= off && off + |rows[c][s]| <= |rows| * n * size
    ensures Written(rows, n, size, c, t) == Overwrite(Written(rows, n, size, c, s), off, rows[c][s])
  {
    assert Fits(rows[c], size);
    SlotInside(c, s, |rows|, n, size, |rows[c][s]|);
  }

  /** The next row starts where the previous one ended. */
  lemma WrittenRowStart(rows: seq<seq<seq<byte>>>, n: nat, size: nat, c: nat, t: nat)
    requires Grid(rows, n, size) && c < |rows| && t == c + 1
    ensures Written(rows, n, size, t, 0) == Written(rows, n, size, c, n)
  {
  }

  /** Once every plane is written, the buffer is the assembled grid. */
  lemma WrittenAll(rows: seq<seq<seq<byte>>>, n: nat, size: nat)
    requires Grid(rows, n, size)
    ensures Written(rows, n, size, |rows|, 0) == Assemble(Flatten(rows), size)
  {
    WrittenPartial(rows, n, size, |rows|, 0);
    GridComplete(rows, n, size, Written(rows, n, size, |rows|, 0));
  }
}
