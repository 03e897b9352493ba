/** The string operations the readers rely on: `std::string::find`, `compare` and `substr`, the
    `startsWith`/`endsWith`/`split` helpers built on them, ASCII lower-casing and `std::to_string`. */
module Text {

  /** `s.find(p, from)`: the first position at or after `from` where `p` occurs; -1 stands for
      `std::string::npos` (nothing found). */
  function Find(s: string, p: string, from: nat): (r: int)
    ensures r == -1 || (from <= r && MatchAt(s, p, r))
    ensures forall i :: from <= i && (r == -1 || i < r) ==> !MatchAt(s, p, i)
    decreases |s| + 1 - from
  {
    if from + |p| > |s| then -1
    else if s[from..from + |p|] == p then from
    else Find(s, p, from + 1)
  }

  /** `p` occurs in `s` starting at position `i`. */
  predicate MatchAt(s: string, p: string, i: nat)
  {
    i + |p| <= |s| && s[i..i + |p|] == p
  }

  /** `s.find(ch)`: the first position of the character `ch`, or -1 (`npos`). */
  function FindChar(s: string, ch: char): (r: int)
    ensures r == -1 <==> ch !in s
    ensures r != -1 ==> 0 <= r < |s| && s[r] == ch && forall i :: 0 <= i < r ==> s[i] != ch
  {
    var r := Find(s, [ch], 0);
    assert forall i :: 0 <= i < |s| ==> (MatchAt(s, [ch], i) <==> s[i] == ch) by {
      forall i | 0 <= i < |s| ensures MatchAt(s, [ch], i) <==> s[i] == ch {
        assert s[i..i + 1] == [s[i]];
      }
    }
    r
  }

  /** `s.rfind(ch)`: the last position of the character `ch`, or -1 (`npos`). */
  function RFindChar(s: string, ch: char): (r: int)
    ensures r == -1 <==> ch !in s
    ensures r != -1 ==> 0 <= r < |s| && s[r] == ch && ch !in s[r + 1..]
  {
    if s == [] then -1
    else if s[|s| - 1] == ch then |s| - 1
    else
      var r := RFindChar(s[..|s| - 1], ch);
      assert s == s[..|s| - 1] + [s[|s| - 1]];
      assert r != -1 ==> s[r + 1..] == s[..|s| - 1][r + 1..] + [s[|s| - 1]];
      r
  }

  /** `startsWith` of volumeDimensions.cpp and fileReaderTIFF.cpp: `mainStr.find(toMatch) == 0`. */
  function StartsWith(s: string, p: string): (r: bool)
    ensures r <==> |p| <= |s| && s[..|p|] == p
  {
    Find(s, p, 0) == 0
  }

  /** `s.substr(pos, len)`: at most `len` characters from `pos` (a negative `len` stands for a huge `size_t`). */
  function Substr(s: string, pos: nat, len: int): (r: string)
    requires pos <= |s|
    ensures |r| <= |s| - pos && r == s[pos..pos + |r|]
    ensures 0 <= len <= |s| - pos ==> |r| == len
    ensures !(0 <= len <= |s| - pos) ==> r == s[pos..]
  {
    if len < 0 || len > |s| - pos then s[pos..] else s[pos..pos + len]
  }

  /** Lexicographic comparison of `std::string::compare`: negative, zero or positive. */
  function LexCompare(a: string, b: string): (r: int)
    ensures r == 0 <==> a == b
  {
    if a == [] && b == [] then 0
    else if a == [] then -1
    else if b == [] then 1
    else if a[0] < b[0] then -1
    else if a[0] > b[0] then 1
    else
      var rest := LexCompare(a[1..], b[1..]);
      assert a == [a[0]] + a[1..] && b == [b[0]] + b[1..];
      rest
  }

  /** `endsWith` of fileReaderTIFF.cpp, through `compare(size - |p|, |p|, p)`. */
  function EndsWith(s: string, p: string): (r: bool)
    ensures r <==> |p| <= |s| && s[|s| - |p|..] == p
  {
    if |s| >= |p| then 0 == LexCompare(Substr(s, |s| - |p|, |p|), p) else false
  }

  /** The pieces of `s` between delimiters `d`: one more piece than there are delimiters. */
  function Pieces(s: string, d: char): (r: seq<string>)
    ensures |r| >= 1
  {
    if s == [] then [[]]
    else
      var init := Pieces(s[..|s| - 1], d);
      if s[|s| - 1] == d then init + [[]]
      else init[..|init| - 1] + [init[|init| - 1] + [s[|s| - 1]]]
  }

  /** What repeated `std::getline(ss, token, d)` yields: the pieces of `s`, except that a final
      delimiter opens no further (empty) token and an empty input yields nothing. */
  function GetlineTokens(s: string, d: char): seq<string>
  {
    if s == [] then []
    else if s[|s| - 1] == d then Pieces(s[..|s| - 1], d)
    else Pieces(s, d)
  }

  /** The tokens glued back together with `d` between consecutive ones. */
  function Join(ts: seq<string>, d: char): string
  {
    if ts == [] then []
    else if |ts| == 1 then ts[0]
    else Join(ts[..|ts| - 1], d) + [d] + ts[|ts| - 1]
  }

  /** Number of occurrences of `c` in `s`. */
  function Count(s: string, c: char): nat
  {
    if s == [] then 0 else Count(s[..|s| - 1], c) + (if s[|s| - 1] == c then 1 else 0)
  }

  /** The pieces of `s` reassemble to `s`. */
  lemma {:induction false} PiecesJoin(s: string, d: char)
    ensures Join(Pieces(s, d), d) == s
  {
    if s != [] {
      var s' := s[..|s| - 1];
      var init := Pieces(s', d);
      PiecesJoin(s', d);
      assert s == s' + [s[|s| - 1]];
      if s[|s| - 1] == d {
        assert (init + [[]])[..|init|] == init;
      } else {
        JoinLastAppend(init, d, s[|s| - 1]);
      }
    }
  }

  /** No piece contains the delimiter. */
  lemma {:induction false} PiecesNoDelimiter(s: string, d: char)
    ensures forall i :: 0 <= i < |Pieces(s, d)| ==> d !in Pieces(s, d)[i]
  {
    if s != [] {
      var s' := s[..|s| - 1];
      var init := Pieces(s', d);
      PiecesNoDelimiter(s', d);
      var r := Pieces(s, d);
      if s[|s| - 1] != d {
        var n := |init|;
        forall i | 0 <= i < |r| ensures d !in r[i] {
          if i < n - 1 { assert r[i] == init[i]; }
        }
      }
    }
  }

  /** There is one more piece than there are delimiters. */
  lemma {:induction false} PiecesCount(s: string, d: char)
    ensures |Pieces(s, d)| == Count(s, d) + 1
  {
    if s != [] {
      PiecesCount(s[..|s| - 1], d);
    }
  }

  /** Appending a character to the last token appends it to the joined string. */
  lemma {:induction false} JoinLastAppend(ts: seq<string>, d: char, c: char)
    requires |ts| >= 1
    ensures Join(ts[..|ts| - 1] + [ts[|ts| - 1] + [c]], d) == Join(ts, d) + [c]
  {
    var n := |ts|;
    var ts' := ts[..n - 1] + [ts[n - 1] + [c]];
    if n > 1 {
      assert ts'[..n - 1] == ts[..n - 1];
    }
  }

  /** `split` with `std::getline` semantics: the tokens contain no delimiter; joined with the
      delimiter (and the final delimiter, if the input ends with one) they give back the input;
      there is one token per delimiter, plus one when the input does not end with a delimiter. */
  lemma GetlineTokensSpec(s: string, d: char)
    ensures s == [] ==> GetlineTokens(s, d) == []
    ensures forall i :: 0 <= i < |GetlineTokens(s, d)| ==> d !in GetlineTokens(s, d)[i]
    ensures s != [] ==>
      Join(GetlineTokens(s, d), d) + (if s[|s| - 1] == d then [d] else []) == s
    ensures |GetlineTokens(s, d)| == Count(s, d) + (if s != [] && s[|s| - 1] != d then 1 else 0)
  {
    if s != [] && s[|s| - 1] == d {
      TokensBeforeFinalDelimiter(s, d);
      PiecesNoDelimiter(s[..|s| - 1], d);
    } else if s != [] {
      PiecesFacts(s, d);
    }
  }

  /** A final delimiter ends the last token and yields no empty token after it. */
  lemma TokensBeforeFinalDelimiter(s: string, d: char)
    requires s != [] && s[|s| - 1] == d
    ensures GetlineTokens(s, d) == Pieces(s[..|s| - 1], d)
    ensures Join(Pieces(s[..|s| - 1], d), d) + [d] == s
    ensures |Pieces(s[..|s| - 1], d)| == Count(s, d)
  {
    var t := s[..|s| - 1];
    PiecesFacts(t, d);
    assert s == t + [d];
  }

  lemma PiecesFacts(s: string, d: char)
    ensures Join(Pieces(s, d), d) == s
    ensures forall i :: 0 <= i < |Pieces(s, d)| ==> d !in Pieces(s, d)[i]
    ensures |Pieces(s, d)| == Count(s, d) + 1
  {
    PiecesJoin(s, d);
    PiecesNoDelimiter(s, d);
    PiecesCount(s, d);
  }

  /** `split(str, cont, delim)` of fileReaderTIFF.cpp: pushes every token `std::getline` extracts. */
  method Split(s: string, d: char) returns (tokens: seq<string>)
    ensures tokens == GetlineTokens(s, d)
  {
    tokens := [];
    var token: string := [];
    var i := 0;
    while i < |s|
      invariant 0 <= i <= |s|
      invariant tokens + [token] == Pieces(s[..i], d)
    {
      assert s[..i + 1][..i] == s[..i];
      if s[i] == d {
        tokens := tokens + [token];
        token := [];
      } else {
        token := token + [s[i]];
      }
      i := i + 1;
    }
    assert s[..i] == s;
    if s == [] {
      assert tokens + [token] == [[]];
      assert |tokens| == 0 && token == (tokens + [token])[0] == [];
    } else {
      var init := Pieces(s[..|s| - 1], d);
      if s[|s| - 1] == d {
        assert tokens + [token] == init + [[]];
        assert |tokens| == |init|;
        assert token == (tokens + [token])[|tokens|] == (init + [[]])[|init|] == [];
        assert tokens == (tokens + [token])[..|tokens|] == (init + [[]])[..|init|] == init;
      } else {
        var last := init[|init| - 1] + [s[|s| - 1]];
        assert tokens + [token] == init[..|init| - 1] + [last];
        assert token == (tokens + [token])[|tokens|] == last;
        assert GetlineTokens(s, d) == Pieces(s, d);
      }
    }
    if token != [] {
      tokens := tokens + [token];
    }
  }

  /** `std::tolower` in the "C" locale. */
  function LowerChar(c: char): (r: char)
    ensures 'A' <= c <= 'Z' ==> r as int == c as int + 32
    ensures !('A' <= c <= 'Z') ==> r == c
  {
    if 'A' <= c <= 'Z' then (c as int + 32) as char else c
  }

  /** `s` lower-cased character by character. */
  function Lower(s: string): (r: string)
    ensures |r| == |s| && forall i :: 0 <= i < |s| ==> r[i] == LowerChar(s[i])
  {
    seq(|s|, i requires 0 <= i < |s| => LowerChar(s[i]))
  }

  function DigitChar(k: nat): (c: char)
    requires k < 10
  {
    ('0' as int + k) as char
  }

  predicate IsDigit(c: char)
  {
    '0' <= c <= '9'
  }

  /** `std::to_string(n)` for a non-negative `n`: its decimal digits, without leading zeros. */
  function NatToString(n: nat): (r: string)
    ensures |r| >= 1 && forall i :: 0 <= i < |r| ==> IsDigit(r[i])
    ensures n > 0 ==> r[0] != '0'
  {
    if n < 10 then [DigitChar(n)] else NatToString(n / 10) + [DigitChar(n % 10)]
  }

  /** The number a string of decimal digits denotes. */
  function DecimalValue(s: string): nat
    requires forall i :: 0 <= i < |s| ==> IsDigit(s[i])
  {
    if s == [] then 0
    else
      assert IsDigit(s[|s| - 1]);
      var k: nat := s[|s| - 1] as int - '0' as int;
      DecimalValue(s[..|s| - 1]) * 10 + k
  }

  /** Reading the decimal string back gives the number: `to_string` loses nothing. */
  lemma {:induction false} NatToStringRoundTrip(n: nat)
    ensures DecimalValue(NatToString(n)) == n
  {
    if n >= 10 {
      NatToStringRoundTrip(n / 10);
      var s := NatToString(n);
      assert s[..|s| - 1] == NatToString(n / 10);
    }
  }

  /** Distinct numbers have distinct decimal strings. */
  lemma NatToStringInjective(m: nat, n: nat)
    requires m != n
    ensures NatToString(m) != NatToString(n)
  {
    NatToStringRoundTrip(m);
    NatToStringRoundTrip(n);
  }
}
