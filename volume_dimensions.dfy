/** The volume-dimension record of a multi-channel, multi-timepoint stack, its validation, and the
    mapping between a linear plane index and a (Z, C, T) plane coordinate. */
module VolumeDims {
  import opened Common
  import opened Text
  import opened MixedRadix

  /** `VolumeDimensions`: the five extents, the axis-order string, the physical voxel sizes, the
      source bit depth and the channel names. */
  datatype VolumeDimensions = VolumeDimensions(
    sizeX: u32, sizeY: u32, sizeZ: u32, sizeC: u32, sizeT: u32,
    dimensionOrder: string,
    physicalSizeX: real, physicalSizeY: real, physicalSizeZ: real,
    bitsPerPixel: u32,
    channelNames: seq<string>)

  /** The legal letters of an axis-order string. */
  const StandardDims: set<char> := {'X', 'Y', 'Z', 'C', 'T'}

  /** The checks `validate()` makes, in the order it makes them; each one that fails is logged. */
  datatype Check =
    | OrderNotEmpty | OrderStartsSpatial | OrderLetters
    | SizeXPositive | SizeYPositive | SizeZPositive | SizeCPositive | SizeTPositive
    | PhysicalXPositive | PhysicalYPositive | PhysicalZPositive
    | ChannelNamesCount

  predicate HasDuplicates(s: string)
  {
    exists i, j :: 0 <= i < j < |s| && s[i] == s[j]
  }

  predicate OnlyStandardDims(s: string)
  {
    forall i :: 0 <= i < |s| ==> s[i] in StandardDims
  }

  /** Check `ch` holds of `d`. */
  predicate Holds(ch: Check, d: VolumeDimensions)
  {
    match ch
    case OrderNotEmpty => d.dimensionOrder != ""
    case OrderStartsSpatial => StartsWith(d.dimensionOrder, "XY") || StartsWith(d.dimensionOrder, "YX")
    case OrderLetters => !HasDuplicates(d.dimensionOrder) && OnlyStandardDims(d.dimensionOrder)
    case SizeXPositive => d.sizeX > 0
    case SizeYPositive => d.sizeY > 0
    case SizeZPositive => d.sizeZ > 0
    case SizeCPositive => d.sizeC > 0
    case SizeTPositive => d.sizeT > 0
    case PhysicalXPositive => d.physicalSizeX > 0.0
    case PhysicalYPositive => d.physicalSizeY > 0.0
    case PhysicalZPositive => d.physicalSizeZ > 0.0
    case ChannelNamesCount => |d.channelNames| == 0 || |d.channelNames| == d.sizeC
  }

  /** The record is usable: every check holds. */
  predicate IsValid(d: VolumeDimensions)
  {
    forall ch: Check :: Holds(ch, d)
  }

  /** The same conditions written out, independently of the list of checks. */
  predicate IsValidExplicit(d: VolumeDimensions)
  {
    var o := d.dimensionOrder;
    && |o| >= 2 && (o[..2] == "XY" || o[..2] == "YX")
    && (forall i, j :: 0 <= i < j < |o| ==> o[i] != o[j])
    && (forall i :: 0 <= i < |o| ==> o[i] in StandardDims)
    && d.sizeX > 0 && d.sizeY > 0 && d.sizeZ > 0 && d.sizeC > 0 && d.sizeT > 0
    && d.physicalSizeX > 0.0 && d.physicalSizeY > 0.0 && d.physicalSizeZ > 0.0
    && (d.channelNames == [] || |d.channelNames| == d.sizeC)
  }

  lemma IsValidMeans(d: VolumeDimensions)
    ensures IsValid(d) <==> IsValidExplicit(d)
  {
    if IsValidExplicit(d) {
      forall ch: Check ensures Holds(ch, d) {
      }
    }
    if IsValid(d) {
      assert Holds(OrderStartsSpatial, d) && Holds(OrderLetters, d);
      assert Holds(SizeXPositive, d) && Holds(SizeYPositive, d) && Holds(SizeZPositive, d);
      assert Holds(SizeCPositive, d) && Holds(SizeTPositive, d);
      assert Holds(PhysicalXPositive, d) && Holds(PhysicalYPositive, d) && Holds(PhysicalZPositive, d);
      assert Holds(ChannelNamesCount, d);
    }
  }

  /** The letter scan of `validate()`: walks the order once, inserting each letter into a set and
      raising `dups` on a letter already seen and `badDims` on a letter outside X, Y, Z, C, T. */
  method ScanOrder(order: string) returns (dups: bool, badDims: bool)
    ensures dups <==> HasDuplicates(order)
    ensures badDims <==> !OnlyStandardDims(order)
  {
    var seen: set<char> := {};
    dups, badDims := false, false;
    var i := 0;
    while i < |order|
      invariant 0 <= i <= |order|
      invariant seen == set k | 0 <= k < i :: order[k]
      invariant dups <==> HasDuplicates(order[..i])
      invariant badDims <==> !OnlyStandardDims(order[..i])
    {
      var ch := order[i];
      assert order[..i + 1] == order[..i] + [ch];
      if ch !in seen {
        seen := seen + {ch};
        assert !HasDuplicates(order[..i]) ==> !HasDuplicates(order[..i + 1]) by {
          if !HasDuplicates(order[..i]) {
            forall a, b | 0 <= a < b < i + 1 ensures order[a] != order[b] {
              if b == i {
                assert order[a] in seen;
              } else {
                assert order[..i][a] != order[..i][b];
              }
            }
          }
        }
        assert HasDuplicates(order[..i]) ==> HasDuplicates(order[..i + 1]) by {
          if HasDuplicates(order[..i]) {
            var a, b :| 0 <= a < b < i && order[..i][a] == order[..i][b];
            assert order[..i + 1][a] == order[..i + 1][b];
          }
        }
      } else {
        var k :| 0 <= k < i && order[k] == ch;
        assert order[..i + 1][k] == order[..i + 1][i];
        dups := true;
      }
      if ch !in StandardDims {
        badDims := true;
      }
      assert !OnlyStandardDims(order[..i + 1]) <==> !OnlyStandardDims(order[..i]) || ch !in StandardDims by {
        if !OnlyStandardDims(order[..i]) {
          var k :| 0 <= k < i && order[..i][k] !in StandardDims;
          assert order[..i + 1][k] !in StandardDims;
        }
      }
      i := i + 1;
    }
    assert order[..i] == order;
  }

  /** `VolumeDimensions::validate()`: every check runs (there is no early return; each failing one
      is logged) and the result is their conjunction. */
  method Validate(d: VolumeDimensions) returns (ok: bool)
    ensures ok <==> IsValid(d)
  {
    ok := true;
    var order := d.dimensionOrder;
    if order == "" {
      ok := false;
    }
    if !StartsWith(order, "XY") && !StartsWith(order, "YX") {
      ok := false;
    }
    var dups, badDims := ScanOrder(order);
    if dups || badDims {
      ok := false;
    }
    if d.sizeX <= 0 { ok := false; }
    if d.sizeY <= 0 { ok := false; }
    if d.sizeZ <= 0 { ok := false; }
    if d.sizeC <= 0 { ok := false; }
    if d.sizeT <= 0 { ok := false; }
    if d.physicalSizeX <= 0.0 { ok := false; }
    if d.physicalSizeY <= 0.0 { ok := false; }
    if d.physicalSizeZ <= 0.0 { ok := false; }
    if |d.channelNames| != 0 && |d.channelNames| != d.sizeC {
      ok := false;
    }
    IsValidMeans(d);
  }

  /** The order is a five-letter axis order: "XY" or "YX" followed by Z, C and T in some order. */
  predicate IsAxisOrder(o: string)
  {
    && |o| == 5
    && ((o[0] == 'X' && o[1] == 'Y') || (o[0] == 'Y' && o[1] == 'X'))
    && o[2] in "ZCT" && o[3] in "ZCT" && o[4] in "ZCT"
    && o[2] != o[3] && o[2] != o[4] && o[3] != o[4]
  }

  /** A valid order is a five-letter axis order exactly when it has five letters: `validate()`
      itself never looks at the length. */
  lemma ValidOrderOfLengthFive(d: VolumeDimensions)
    requires IsValid(d)
    ensures IsAxisOrder(d.dimensionOrder) <==> |d.dimensionOrder| == 5
  {
    IsValidMeans(d);
    var o := d.dimensionOrder;
    if |o| == 5 {
      assert o[0] != o[2] && o[1] != o[2] && o[0] != o[3] && o[1] != o[3] && o[0] != o[4] && o[1] != o[4];
      assert o[0] in "XY" && o[1] in "XY" by {
        assert o[..2][0] == o[0] && o[..2][1] == o[1];
      }
    }
  }

  /** The order "XYZ" passes the order checks. */
  lemma XYZValid(d: VolumeDimensions)
    requires d.dimensionOrder == "XYZ"
    ensures IsValid(d) <==>
      && d.sizeX > 0 && d.sizeY > 0 && d.sizeZ > 0 && d.sizeC > 0 && d.sizeT > 0
      && d.physicalSizeX > 0.0 && d.physicalSizeY > 0.0 && d.physicalSizeZ > 0.0
      && (d.channelNames == [] || |d.channelNames| == d.sizeC)
  {
    assert StartsWith("XYZ", "XY");
    assert !HasDuplicates("XYZ");
    IsValidMeans(d);
  }

  /** `validate()` accepts an order shorter than five letters, for instance "XYZ". */
  lemma ValidateAcceptsShortOrder()
    ensures IsValid(VolumeDimensions(1, 1, 1, 1, 1, "XYZ", 1.0, 1.0, 1.0, 16, []))
    ensures !IsAxisOrder("XYZ")
  {
    XYZValid(VolumeDimensions(1, 1, 1, 1, 1, "XYZ", 1.0, 1.0, 1.0, 16, []));
  }

  /** A record whose order is a five-letter axis order passes the order checks: it is valid
      exactly when its sizes and voxel sizes are positive and its channel names fit. */
  lemma AxisOrderValid(d: VolumeDimensions)
    requires IsAxisOrder(d.dimensionOrder)
    ensures IsValid(d) <==>
      && d.sizeX > 0 && d.sizeY > 0 && d.sizeZ > 0 && d.sizeC > 0 && d.sizeT > 0
      && d.physicalSizeX > 0.0 && d.physicalSizeY > 0.0 && d.physicalSizeZ > 0.0
      && (d.channelNames == [] || |d.channelNames| == d.sizeC)
  {
    var o := d.dimensionOrder;
    IsValidMeans(d);
    assert o[..2] == [o[0], o[1]];
    assert forall i, j :: 0 <= i < j < |o| ==> o[i] != o[j] by {
      assert o[0] !in "ZCT" && o[1] !in "ZCT";
    }
  }

  const TWO64: int := 0x1_0000_0000_0000_0000

  /** `dimensionOrder.find(axis) - 2`, computed in `size_t` and so wrapping modulo 2^64: 0, 1 or 2
      when the letter sits at position 2, 3 or 4; a huge value when it is missing (`npos - 2`, with
      `npos` = 2^64 - 1) or sits at position 0 or 1. */
  function Slot(order: string, axis: char): (r: int)
    ensures 0 <= r && (|order| <= TWO64 ==> r < TWO64)
    ensures r <= 2 <==> 2 <= FindChar(order, axis) <= 4
  {
    var p := FindChar(order, axis);
    if p == -1 then TWO64 - 3 else if p < 2 then TWO64 - 2 + p else p - 2
  }

  /** `VolumeDimensions::getPlaneIndex(z, c, t)`. Out-of-range coordinates are only logged: the
      formula's value is returned regardless. The sum is formed in `int` and returned as
      `uint32_t`, hence the final reduction modulo 2^32. */
  function GetPlaneIndex(d: VolumeDimensions, z: u32, c: u32, t: u32): u32
  {
    ToU32(PlaneIndexSum(d, z, c, t))
  }

  /** The sum `getPlaneIndex` forms before the conversion: each slot takes Z if Z's slot is that
      one, else C if C's slot is, else T. */
  function PlaneIndexSum(d: VolumeDimensions, z: u32, c: u32, t: u32): int
  {
    var iz := Slot(d.dimensionOrder, 'Z');
    var ic := Slot(d.dimensionOrder, 'C');
    var v0 := if iz == 0 then z else if ic == 0 then c else t;
    var v1 := if iz == 1 then z else if ic == 1 then c else t;
    var v2 := if iz == 2 then z else if ic == 2 then c else t;
    var len0 := if iz == 0 then d.sizeZ else if ic == 0 then d.sizeC else d.sizeT;
    var len1 := if iz == 1 then d.sizeZ else if ic == 1 then d.sizeC else d.sizeT;
    v0 + v1 * len0 + v2 * len0 * len1
  }

  /** The extent of the axis `getPlaneZCT` takes for slot `k`: Z, else C, else T. */
  function SlotExtent(d: VolumeDimensions, k: int): u32
  {
    if Slot(d.dimensionOrder, 'Z') == k then d.sizeZ
    else if Slot(d.dimensionOrder, 'C') == k then d.sizeC
    else d.sizeT
  }

  /** `VolumeDimensions::getPlaneZCT(planeIndex)`: `{z, c, t}`. An index beyond the plane count is
      only logged. Only the extents of the first two slots are divisors, so only they must be
      non-zero, which `validate()` guarantees. */
  function GetPlaneZCT(d: VolumeDimensions, planeIndex: u32): (r: seq<u32>)
    requires SlotExtent(d, 0) > 0 && SlotExtent(d, 1) > 0
    ensures |r| == 3
  {
    var iz := Slot(d.dimensionOrder, 'Z');
    var ic := Slot(d.dimensionOrder, 'C');
    var it := Slot(d.dimensionOrder, 'T');
    var n: nat, l0: nat, l1: nat := planeIndex, SlotExtent(d, 0), SlotExtent(d, 1);
    DivModBounds(n, l0);
    var q: nat := n / l0;
    DivModBounds(q, l1);
    var v0: u32 := n % l0;
    var v1: u32 := q % l1;
    var v2: u32 := q / l1;
    var z := if iz == 0 then v0 else if iz == 1 then v1 else v2;
    var c := if ic == 0 then v0 else if ic == 1 then v1 else v2;
    var t := if it == 0 then v0 else if it == 1 then v1 else v2;
    [z, c, t]
  }

  /** The coordinate of axis `axis` in (z, c, t). */
  function CoordOf(axis: char, z: int, c: int, t: int): int
  {
    if axis == 'Z' then z else if axis == 'C' then c else t
  }

  /** The extent of axis `axis`. */
  function ExtentOf(d: VolumeDimensions, axis: char): int
  {
    if axis == 'Z' then d.sizeZ else if axis == 'C' then d.sizeC else d.sizeT
  }

  /** Mixed-radix position of (z, c, t) when slot k holds the axis at position k + 2 of the order,
      slot 0 varying fastest. */
  function Linear(d: VolumeDimensions, z: int, c: int, t: int): int
    requires |d.dimensionOrder| == 5
  {
    var o := d.dimensionOrder;
    CoordOf(o[2], z, c, t)
      + CoordOf(o[3], z, c, t) * ExtentOf(d, o[2])
      + CoordOf(o[4], z, c, t) * ExtentOf(d, o[2]) * ExtentOf(d, o[3])
  }

  /** For an axis order, the position of each of Z, C, T is two more than its slot. */
  lemma SlotsOfAxisOrder(o: string)
    requires IsAxisOrder(o)
    ensures forall k :: 2 <= k < 5 ==> Slot(o, o[k]) == k - 2
  {
    assert o[0] !in "ZCT" && o[1] !in "ZCT" by {
      assert o[..2][0] == o[0] && o[..2][1] == o[1];
    }
    forall k | 2 <= k < 5 ensures Slot(o, o[k]) == k - 2 {
      var p := FindChar(o, o[k]);
      assert p != -1 && o[p] == o[k];
      assert 2 <= p;
    }
  }

  /** For an axis order, Z, C and T each find a slot 0, 1 or 2, and the slot holds that letter. */
  lemma AxisSlots(o: string)
    requires IsAxisOrder(o)
    ensures 0 <= Slot(o, 'Z') <= 2 && 0 <= Slot(o, 'C') <= 2 && 0 <= Slot(o, 'T') <= 2
    ensures o[Slot(o, 'Z') + 2] == 'Z' && o[Slot(o, 'C') + 2] == 'C' && o[Slot(o, 'T') + 2] == 'T'
  {
    SlotsOfAxisOrder(o);
    assert o[2] == 'Z' || o[3] == 'Z' || o[4] == 'Z';
    assert o[2] == 'C' || o[3] == 'C' || o[4] == 'C';
    assert o[2] == 'T' || o[3] == 'T' || o[4] == 'T';
  }

  /** When Z, C and T sit in slots `iz`, `ic` and `it`, the choice `getPlaneIndex` makes for slot
      `j` picks the axis at position `j + 2`. */
  lemma SlotPick(d: VolumeDimensions, j: nat, iz: int, ic: int, it: int, z: int, c: int, t: int)
    requires |d.dimensionOrder| == 5 && j <= 2
    requires 0 <= iz <= 2 && 0 <= ic <= 2 && 0 <= it <= 2
    requires d.dimensionOrder[iz + 2] == 'Z' && d.dimensionOrder[ic + 2] == 'C' && d.dimensionOrder[it + 2] == 'T'
    ensures (if iz == j then z else if ic == j then c else t) == CoordOf(d.dimensionOrder[j + 2], z, c, t)
    ensures (if iz == j then d.sizeZ as int else if ic == j then d.sizeC as int else d.sizeT as int)
         == ExtentOf(d, d.dimensionOrder[j + 2])
  {
    if iz != j && ic != j {
      assert it == j;
    }
  }

  /** For a five-letter axis order, `getPlaneIndex` is the mixed-radix formula, reduced to 32 bits.
      The coordinates need not be in range. */
  lemma PlaneIndexFormula(d: VolumeDimensions, z: u32, c: u32, t: u32)
    requires IsAxisOrder(d.dimensionOrder)
    ensures GetPlaneIndex(d, z, c, t) == ToU32(Linear(d, z, c, t))
  {
    LinearSum(d, z, c, t);
  }

  lemma LinearSum(d: VolumeDimensions, z: u32, c: u32, t: u32)
    requires IsAxisOrder(d.dimensionOrder)
    ensures PlaneIndexSum(d, z, c, t) == Linear(d, z, c, t)
  {
    var o := d.dimensionOrder;
    AxisSlots(o);
    var iz, ic, it := Slot(o, 'Z'), Slot(o, 'C'), Slot(o, 'T');
    SlotPick(d, 0, iz, ic, it, z, c, t);
    SlotPick(d, 1, iz, ic, it, z, c, t);
    SlotPick(d, 2, iz, ic, it, z, c, t);
  }

  /** "XYZCT": z + c*sizeZ + t*sizeZ*sizeC. */
  lemma PlaneIndexXYZCT(d: VolumeDimensions, z: u32, c: u32, t: u32)
    requires d.dimensionOrder == "XYZCT"
    ensures GetPlaneIndex(d, z, c, t) == ToU32(z + c * d.sizeZ + t * d.sizeZ * d.sizeC)
  {
    PlaneIndexFormula(d, z, c, t);
  }

  /** "XYCZT": c + z*sizeC + t*sizeC*sizeZ. */
  lemma PlaneIndexXYCZT(d: VolumeDimensions, z: u32, c: u32, t: u32)
    requires d.dimensionOrder == "XYCZT"
    ensures GetPlaneIndex(d, z, c, t) == ToU32(c + z * d.sizeC + t * d.sizeC * d.sizeZ)
  {
    PlaneIndexFormula(d, z, c, t);
  }

  /** A worked case: 100 x 50 x 5 planes, 2 channels, 1 time point, "XYZCT": (3, 1, 0) is plane 8. */
  lemma PlaneIndexExample()
    ensures GetPlaneIndex(VolumeDimensions(100, 50, 5, 2, 1, "XYZCT", 1.0, 1.0, 1.0, 16, []), 3, 1, 0) == 8
  {
    PlaneIndexXYZCT(VolumeDimensions(100, 50, 5, 2, 1, "XYZCT", 1.0, 1.0, 1.0, 16, []), 3, 1, 0);
  }

  /** The three extents of the order's slots multiply to sizeZ * sizeC * sizeT. */
  lemma SlotExtentsProduct(d: VolumeDimensions)
    requires IsAxisOrder(d.dimensionOrder)
    ensures ExtentOf(d, d.dimensionOrder[2]) * ExtentOf(d, d.dimensionOrder[3]) * ExtentOf(d, d.dimensionOrder[4])
         == d.sizeZ * d.sizeC * d.sizeT
  {
    var o := d.dimensionOrder;
    var z: int, c: int, t: int := d.sizeZ, d.sizeC, d.sizeT;
    if o[2..] == "ZCT" {
    } else if o[2..] == "ZTC" {
      assert z * t * c == z * c * t;
    } else if o[2..] == "CZT" {
      assert c * z * t == z * c * t;
    } else if o[2..] == "CTZ" {
      assert c * t * z == z * c * t;
    } else if o[2..] == "TZC" {
      assert t * z * c == z * c * t;
    } else {
      assert o[2..] == "TCZ" by {
        assert o[2..][0] == o[2] && o[2..][1] == o[3] && o[2..][2] == o[4];
      }
      assert t * c * z == z * c * t;
    }
  }

  predicate InRange(d: VolumeDimensions, z: int, c: int, t: int)
  {
    0 <= z < d.sizeZ && 0 <= c < d.sizeC && 0 <= t < d.sizeT
  }

  /** An in-range coordinate lies below the extent of its axis. */
  lemma CoordBelowExtent(d: VolumeDimensions, axis: char, z: int, c: int, t: int)
    requires InRange(d, z, c, t)
    ensures 0 <= CoordOf(axis, z, c, t) < ExtentOf(d, axis)
  {
  }

  /** For in-range coordinates the mixed-radix position lies below the plane count. */
  lemma LinearBound(d: VolumeDimensions, z: u32, c: u32, t: u32)
    requires IsAxisOrder(d.dimensionOrder) && InRange(d, z, c, t)
    ensures 0 <= Linear(d, z, c, t) < d.sizeZ * d.sizeC * d.sizeT
  {
    var o := d.dimensionOrder;
    var v0, v1, v2 := CoordOf(o[2], z, c, t), CoordOf(o[3], z, c, t), CoordOf(o[4], z, c, t);
    var l0, l1, l2 := ExtentOf(d, o[2]), ExtentOf(d, o[3]), ExtentOf(d, o[4]);
    CoordBelowExtent(d, o[2], z, c, t);
    CoordBelowExtent(d, o[3], z, c, t);
    CoordBelowExtent(d, o[4], z, c, t);
    SlotExtentsProduct(d);
    MixedRadixBound(v0, v1, v2, l0, l1, l2);
  }

  /** In-range coordinates give a plane index below sizeZ * sizeC * sizeT; no 32-bit reduction
      happens when the plane count fits. */
  lemma PlaneIndexBound(d: VolumeDimensions, z: u32, c: u32, t: u32)
    requires IsAxisOrder(d.dimensionOrder) && InRange(d, z, c, t)
    ensures GetPlaneIndex(d, z, c, t) < d.sizeZ * d.sizeC * d.sizeT
    ensures d.sizeZ * d.sizeC * d.sizeT <= TWO32 ==> GetPlaneIndex(d, z, c, t) == Linear(d, z, c, t)
  {
    PlaneIndexFormula(d, z, c, t);
    LinearBound(d, z, c, t);
    var n: nat := Linear(d, z, c, t);
    assert ToU32(n) <= n;
  }

  /** The value `getPlaneZCT` gives the axis whose slot is `k`. */
  function SlotValue(k: int, n0: int, n1: int, n2: int): int
  {
    if k == 0 then n0 else if k == 1 then n1 else n2
  }

  /** When Z, C and T sit in slots `iz`, `ic` and `it`, the coordinate `getPlaneZCT` builds puts
      digit `j` on the axis at position `j + 2`. */
  lemma SlotUnpick(o: string, j: nat, iz: int, ic: int, it: int, n0: int, n1: int, n2: int)
    requires |o| == 5 && j <= 2
    requires 0 <= iz <= 2 && 0 <= ic <= 2 && 0 <= it <= 2
    requires o[iz + 2] == 'Z' && o[ic + 2] == 'C' && o[it + 2] == 'T'
    ensures CoordOf(o[j + 2], SlotValue(iz, n0, n1, n2), SlotValue(ic, n0, n1, n2), SlotValue(it, n0, n1, n2))
         == SlotValue(j, n0, n1, n2)
  {
    if iz != j && ic != j {
      assert it == j;
    }
  }

  /** Digit by digit, `getPlaneZCT` puts the mixed-radix digits of the index on the axes of the
      order's slots. */
  lemma PlaneZCTDigits(d: VolumeDimensions, i: u32)
    requires IsAxisOrder(d.dimensionOrder) && d.sizeZ > 0 && d.sizeC > 0 && d.sizeT > 0
    ensures var v := GetPlaneZCT(d, i); var o := d.dimensionOrder;
      var l0, l1 := ExtentOf(d, o[2]), ExtentOf(d, o[3]);
      && l0 > 0 && l1 > 0
      && CoordOf(o[2], v[0], v[1], v[2]) == i % l0
      && CoordOf(o[3], v[0], v[1], v[2]) == i / l0 % l1
      && CoordOf(o[4], v[0], v[1], v[2]) == i / l0 / l1
  {
    var o := d.dimensionOrder;
    AxisSlots(o);
    var iz, ic, it := Slot(o, 'Z'), Slot(o, 'C'), Slot(o, 'T');
    SlotPick(d, 0, iz, ic, it, 0, 0, 0);
    SlotPick(d, 1, iz, ic, it, 0, 0, 0);
    var l0, l1 := ExtentOf(d, o[2]), ExtentOf(d, o[3]);
    var n0, n1, n2 := i % l0, i / l0 % l1, i / l0 / l1;
    SlotUnpick(o, 0, iz, ic, it, n0, n1, n2);
    SlotUnpick(o, 1, iz, ic, it, n0, n1, n2);
    SlotUnpick(o, 2, iz, ic, it, n0, n1, n2);
  }

  /** A coordinate is fixed by its values on the three slots of an axis order. */
  lemma SlotsDetermine(o: string, z: int, c: int, t: int, z': int, c': int, t': int)
    requires IsAxisOrder(o)
    requires CoordOf(o[2], z, c, t) == CoordOf(o[2], z', c', t')
    requires CoordOf(o[3], z, c, t) == CoordOf(o[3], z', c', t')
    requires CoordOf(o[4], z, c, t) == CoordOf(o[4], z', c', t')
    ensures z == z' && c == c' && t == t'
  {
    AxisSlots(o);
  }

  /** A coordinate lies in range when its value on each slot lies below that slot's extent. */
  lemma InRangeBySlots(d: VolumeDimensions, z: int, c: int, t: int)
    requires IsAxisOrder(d.dimensionOrder)
    requires 0 <= CoordOf(d.dimensionOrder[2], z, c, t) < ExtentOf(d, d.dimensionOrder[2])
    requires 0 <= CoordOf(d.dimensionOrder[3], z, c, t) < ExtentOf(d, d.dimensionOrder[3])
    requires 0 <= CoordOf(d.dimensionOrder[4], z, c, t) < ExtentOf(d, d.dimensionOrder[4])
    ensures InRange(d, z, c, t)
  {
    AxisSlots(d.dimensionOrder);
  }

  /** Round trip one way: decoding the plane index of an in-range coordinate gives the coordinate
      back, provided the plane count fits the 32-bit index. */
  lemma PlaneZCTOfPlaneIndex(d: VolumeDimensions, z: u32, c: u32, t: u32)
    requires IsAxisOrder(d.dimensionOrder) && InRange(d, z, c, t)
    requires d.sizeZ * d.sizeC * d.sizeT <= TWO32
    ensures GetPlaneZCT(d, GetPlaneIndex(d, z, c, t)) == [z, c, t]
  {
    var o := d.dimensionOrder;
    PlaneIndexBound(d, z, c, t);
    var i := GetPlaneIndex(d, z, c, t);
    var v := GetPlaneZCT(d, i);
    PlaneZCTDigits(d, i);
    CoordBelowExtent(d, o[2], z, c, t);
    CoordBelowExtent(d, o[3], z, c, t);
    MixedRadixDecode(CoordOf(o[2], z, c, t), CoordOf(o[3], z, c, t), CoordOf(o[4], z, c, t),
                     ExtentOf(d, o[2]), ExtentOf(d, o[3]));
    SlotsDetermine(o, v[0], v[1], v[2], z, c, t);
  }

  /** Round trip the other way: every index below the plane count is the plane index of its
      decoded coordinate, and that coordinate is in range. */
  lemma PlaneIndexOfPlaneZCT(d: VolumeDimensions, i: u32)
    requires IsAxisOrder(d.dimensionOrder) && d.sizeZ > 0 && d.sizeC > 0 && d.sizeT > 0
    requires i < d.sizeZ * d.sizeC * d.sizeT
    ensures var v := GetPlaneZCT(d, i); InRange(d, v[0], v[1], v[2]) && GetPlaneIndex(d, v[0], v[1], v[2]) == i
  {
    var o := d.dimensionOrder;
    var v := GetPlaneZCT(d, i);
    PlaneZCTDigits(d, i);
    var l0, l1, l2 := ExtentOf(d, o[2]), ExtentOf(d, o[3]), ExtentOf(d, o[4]);
    MixedRadixRecompose(i, l0, l1);
    DivModBounds(i, l0);
    DivModBounds(i / l0, l1);
    SlotExtentsProduct(d);
    DivBelow(i, l0, l1, l2);
    InRangeBySlots(d, v[0], v[1], v[2]);
    PlaneIndexFormula(d, v[0], v[1], v[2]);
  }

  /** `getPlaneIndex` is a bijection from the in-range coordinates onto [0, sizeZ*sizeC*sizeT)
      whenever the plane count fits the 32-bit index: distinct coordinates get distinct indices,
      and `getPlaneZCT` gives every index a coordinate it comes from. */
  lemma PlaneIndexBijective(d: VolumeDimensions)
    requires IsAxisOrder(d.dimensionOrder) && d.sizeZ * d.sizeC * d.sizeT <= TWO32
    requires d.sizeZ > 0 && d.sizeC > 0 && d.sizeT > 0
    ensures forall z: u32, c: u32, t: u32, z': u32, c': u32, t': u32 ::
      InRange(d, z, c, t) && InRange(d, z', c', t') && GetPlaneIndex(d, z, c, t) == GetPlaneIndex(d, z', c', t')
      ==> z == z' && c == c' && t == t'
    ensures forall i: u32 :: i < d.sizeZ * d.sizeC * d.sizeT ==>
      var v := GetPlaneZCT(d, i); InRange(d, v[0], v[1], v[2]) && GetPlaneIndex(d, v[0], v[1], v[2]) == i
  {
    forall z: u32, c: u32, t: u32, z': u32, c': u32, t': u32 |
      InRange(d, z, c, t) && InRange(d, z', c', t') && GetPlaneIndex(d, z, c, t) == GetPlaneIndex(d, z', c', t')
      ensures z == z' && c == c' && t == t'
    {
      PlaneZCTOfPlaneIndex(d, z, c, t);
      PlaneZCTOfPlaneIndex(d, z', c', t');
    }
    forall i: u32 | i < d.sizeZ * d.sizeC * d.sizeT
      ensures var v := GetPlaneZCT(d, i); InRange(d, v[0], v[1], v[2]) && GetPlaneIndex(d, v[0], v[1], v[2]) == i
    {
      PlaneIndexOfPlaneZCT(d, i);
    }
  }

  /** With the order "XYZ", which `validate()` accepts, "C" and "T" are not found: every slot but
      the first takes the time coordinate, so the channel is ignored and two channels share a plane. */
  lemma ShortOrderIgnoresChannel()
    ensures var d := VolumeDimensions(4, 4, 3, 2, 1, "XYZ", 1.0, 1.0, 1.0, 16, []);
      IsValid(d) && GetPlaneIndex(d, 0, 0, 0) == GetPlaneIndex(d, 0, 1, 0)
  {
    XYZValid(VolumeDimensions(4, 4, 3, 2, 1, "XYZ", 1.0, 1.0, 1.0, 16, []));
    XYZSlots();
  }

  /** In "XYZ" the letter Z takes slot 0, and C and T are missing. */
  lemma XYZSlots()
    ensures Slot("XYZ", 'Z') == 0 && Slot("XYZ", 'C') == Slot("XYZ", 'T') == TWO64 - 3
  {
    assert FindChar("XYZ", 'Z') == 2;
    assert FindChar("XYZ", 'C') == -1;
    assert FindChar("XYZ", 'T') == -1;
  }
}
