/**
 * The parts of wxWidgets' `wxString` and `wxStringTokenizer` that the cell
 * serialisers and the parser rely on.  Positions handed to `wxString` are of
 * type `size_t`, so a negative `int` passed as a position wraps around modulo
 * 2^64; `Mid` then clamps out-of-range requests.  That wrap-around decides what
 * `LimitCell::ToString` produces when its under-expression has no arrow, so it
 * is written out here.
 */
module WxString {
  import opened Wrappers

  const SizeTModulus: int := 0x1_0000_0000_0000_0000

  /** `std::string::npos`, the largest `size_t`. */
  const NPos: int := SizeTModulus - 1

  /** `wxNOT_FOUND` */
  const NotFound: int := -1

  /** Conversion of a (signed) integer to `size_t`. */
  function SizeT(i: int): (r: nat)
    ensures r < SizeTModulus
    ensures 0 <= i < SizeTModulus ==> r == i
    ensures -SizeTModulus <= i < 0 ==> r == i + SizeTModulus
  {
    i % SizeTModulus
  }

  function Min(a: int, b: int): int { if a <= b then a else b }

  function Max(a: int, b: int): int { if a >= b then a else b }

  predicate OccursAt(s: string, pat: string, k: int)
  {
    0 <= k && k + |pat| <= |s| && s[k..k + |pat|] == pat
  }

  function FindFrom(s: string, pat: string, start: nat): (k: int)
    requires start <= |s|
    ensures k == NotFound || (start <= k && OccursAt(s, pat, k))
    ensures k == NotFound ==> forall j :: start <= j <= |s| ==> !OccursAt(s, pat, j)
    ensures k != NotFound ==> forall j :: start <= j < k ==> !OccursAt(s, pat, j)
    decreases |s| - start
  {
    if OccursAt(s, pat, start) then start
    else if start == |s| then NotFound
    else FindFrom(s, pat, start + 1)
  }

  /** `wxString::Find(sub)`: the first position of `pat`, or `wxNOT_FOUND`. */
  function Find(s: string, pat: string): (k: int)
    ensures k == NotFound || OccursAt(s, pat, k)
    ensures k == NotFound <==> forall j :: 0 <= j <= |s| ==> !OccursAt(s, pat, j)
    ensures k != NotFound ==> forall j :: 0 <= j < k ==> !OccursAt(s, pat, j)
  {
    FindFrom(s, pat, 0)
  }

  /**
   * `wxString::Mid(nFirst, nCount)` on `size_t` arguments: `npos` means "to the
   * end", a count reaching past the end is clamped, a start past the end gives
   * the empty string.  The sums are `size_t` sums and wrap.
   */
  function Mid(s: string, first: nat, count: nat): (r: string)
    ensures |r| <= |s|
  {
    var len := |s|;
    var n1 := if count == NPos then SizeT(len - first) else count;
    var n2 := if SizeT(first + n1) > len then SizeT(len - first) else n1;
    if first > len then "" else s[first .. first + Min(n2, len - first)]
  }

  /**
   * `wxString::SubString(from, to)`, i.e. `Mid(from, to - from + 1)`, with both
   * arguments given as the signed values the caller computed.
   */
  function SubString(s: string, from: int, to: int): (r: string)
    ensures |r| <= |s|
  {
    var f := SizeT(from);
    Mid(s, f, SizeT(SizeT(to) - f + 1))
  }

  /** An in-range `SubString` is the inclusive slice; `to == from - 1` gives "". */
  lemma SubStringSlice(s: string, from: int, to: int)
    requires 0 <= from <= to + 1 <= |s| < NPos
    ensures SubString(s, from, to) == s[from..to + 1]
  {
    if to == -1 {
      assert SizeT(to) == NPos;
      assert SizeT(SizeT(to) - SizeT(from) + 1) == 0;
    }
  }

  /** `SubString(0, -2)`, which is what a failed `Find` minus one gives: the whole string. */
  lemma SubStringFromNotFound(s: string)
    requires |s| < NPos
    ensures SubString(s, 0, NotFound - 1) == s
  {
    assert SizeT(NotFound - 1) == SizeTModulus - 2;
    assert SizeT(SizeTModulus - 2 - 0 + 1) == NPos;
  }

  /** `SubString(1, Length() - 1)` of the empty string: wraps to `npos`, starts past the end. */
  lemma SubStringOfEmpty()
    ensures SubString("", 1, -1) == ""
  {
    assert SizeT(-1) == NPos;
    assert SizeT(NPos - 1 + 1) == NPos;
  }

  /** `wxString::Right(1)` */
  function Last(s: string): string
  {
    if s == [] then "" else [s[|s| - 1]]
  }

  /** Replaces every occurrence of the character `c` by `d` (`wxString::Replace` with a one-character pattern). */
  function ReplaceChar(s: string, c: char, d: char): (r: string)
    ensures |r| == |s|
    ensures forall k :: 0 <= k < |s| ==> r[k] == if s[k] == c then d else s[k]
  {
    if s == [] then [] else [if s[0] == c then d else s[0]] + ReplaceChar(s[1..], c, d)
  }

  /**
   * `wxString::Replace(pat, rep)` replacing all occurrences, scanning left to
   * right without overlaps.
   */
  function ReplaceAll(s: string, pat: string, rep: string): string
    requires pat != []
    decreases |s|
  {
    if |s| < |pat| then s
    else if s[..|pat|] == pat then rep + ReplaceAll(s[|pat|..], pat, rep)
    else [s[0]] + ReplaceAll(s[1..], pat, rep)
  }

  /** Contains `pat` somewhere (`wxString::Contains`). */
  predicate Contains(s: string, pat: string)
  {
    Find(s, pat) != NotFound
  }

  /** A text found in the middle part is found in the whole. */
  lemma ContainsIn(a: string, b: string, c: string, p: string)
    requires Contains(b, p)
    ensures Contains(a + b + c, p)
  {
    var k := Find(b, p);
    assert (a + b + c)[|a| + k..|a| + k + |p|] == b[k..k + |p|];
    assert OccursAt(a + b + c, p, |a| + k);
  }

  /** The middle part of a concatenation is found in it. */
  lemma ContainsPart(a: string, b: string, c: string)
    ensures Contains(a + b + c, b)
  {
    assert (a + b + c)[|a|..|a| + |b|] == b;
    assert OccursAt(a + b + c, b, |a|);
  }

  /** The three texts set between four fixed pieces are each found in the whole. */
  lemma ContainsPieces(p0: string, x: string, p1: string, y: string, p2: string, z: string, p3: string)
    ensures Contains(p0 + x + p1 + y + p2 + z + p3, x)
    ensures Contains(p0 + x + p1 + y + p2 + z + p3, y)
    ensures Contains(p0 + x + p1 + y + p2 + z + p3, z)
  {
    var s := p0 + x + p1 + y + p2 + z + p3;
    ContainsPart(p0, x, p1 + y + p2 + z + p3);
    assert s == p0 + x + (p1 + y + p2 + z + p3);
    ContainsPart(p0 + x + p1, y, p2 + z + p3);
    assert s == (p0 + x + p1) + y + (p2 + z + p3);
    ContainsPart(p0 + x + p1 + y + p2, z, p3);
  }

  /** A text found in either half of a concatenation is found in the whole. */
  lemma ContainsEither(a: string, b: string, p: string)
    requires Contains(a, p) || Contains(b, p)
    ensures Contains(a + b, p)
  {
    if Contains(a, p) {
      ContainsIn("", a, b, p);
      assert "" + a + b == a + b;
    } else {
      ContainsIn(a, b, "", p);
      assert a + b + "" == a + b;
    }
  }

  /** `a + b + c`, with the facts that it starts with `a` and that `b` is found in it. */
  function Framed(a: string, b: string, c: string): (s: string)
    ensures s == a + b + c && Contains(s, b)
    ensures s[..|a|] == a
  {
    ContainsPart(a, b, c);
    assert (a + b + c)[..|a|] == a;
    a + b + c
  }

  /** Length of the prefix of `s` free of `delim`. */
  function RunLength(s: string, delim: char): (k: nat)
    ensures k <= |s|
    ensures forall j :: 0 <= j < k ==> s[j] != delim
    ensures k < |s| ==> s[k] == delim
  {
    if s == [] || s[0] == delim then 0 else 1 + RunLength(s[1..], delim)
  }

  /**
   * The tokens a `wxStringTokenizer` with a single white-space delimiter
   * returns: in that mode (`wxTOKEN_STRTOK`) empty tokens are never returned.
   */
  function Tokens(s: string, delim: char): (ts: seq<string>)
    ensures forall k :: 0 <= k < |ts| ==> ts[k] != [] && delim !in ts[k]
    decreases |s|
  {
    if s == [] then []
    else if s[0] == delim then Tokens(s[1..], delim)
    else
      var k := RunLength(s, delim);
      [s[..k]] + Tokens(s[k..], delim)
  }

  function Concat(ts: seq<string>): string
  {
    if ts == [] then "" else ts[0] + Concat(ts[1..])
  }

  /** `s` with every `delim` removed. */
  function Without(s: string, delim: char): (r: string)
    ensures delim !in r
  {
    if s == [] then "" else (if s[0] == delim then "" else [s[0]]) + Without(s[1..], delim)
  }

  lemma {:induction false} WithoutAppend(a: string, b: string, delim: char)
    ensures Without(a + b, delim) == Without(a, delim) + Without(b, delim)
    decreases |a|
  {
    if a == [] {
      assert a + b == b;
    } else {
      ConsParts(a, b);
      WithoutAppend(a[1..], b, delim);
    }
  }

  lemma {:induction false} WithoutFree(a: string, delim: char)
    requires delim !in a
    ensures Without(a, delim) == a
    decreases |a|
  {
    if a != [] {
      WithoutFree(a[1..], delim);
    }
  }

  /** Tokenising loses exactly the delimiters: the tokens, joined, are `s` without them. */
  lemma {:induction false} TokensCoverInput(s: string, delim: char)
    ensures Concat(Tokens(s, delim)) == Without(s, delim)
    decreases |s|
  {
    if s == [] {
    } else if s[0] == delim {
      TokensCoverInput(s[1..], delim);
    } else {
      var k := RunLength(s, delim);
      TokensCoverInput(s[k..], delim);
      assert s == s[..k] + s[k..];
      WithoutAppend(s[..k], s[k..], delim);
      WithoutFree(s[..k], delim);
      var ts := Tokens(s, delim);
      assert ts[0] == s[..k] && ts[1..] == Tokens(s[k..], delim);
    }
  }

  /** A string with something other than the delimiter in it has at least one token. */
  lemma {:induction false} TokensNonEmpty(s: string, delim: char)
    requires Without(s, delim) != ""
    ensures Tokens(s, delim) != []
  {
    TokensCoverInput(s, delim);
  }

  /** Decimal digits of a natural number, as `%i` prints them. */
  function NatToString(n: nat): (r: string)
    ensures r != []
    ensures forall k :: 0 <= k < |r| ==> '0' <= r[k] <= '9'
  {
    if n < 10 then [Digit(n)] else NatToString(n / 10) + [Digit(n % 10)]
  }

  function Digit(d: nat): (c: char)
    requires d < 10
    ensures '0' <= c <= '9'
  {
    ('0' as int + d) as char
  }

  lemma {:induction false} NatToStringInjective(m: nat, n: nat)
    requires NatToString(m) == NatToString(n)
    ensures m == n
  {
    var s := NatToString(m);
    if m < 10 && n < 10 {
      assert Digit(m) == s[0] == Digit(n);
    } else if m < 10 || n < 10 {
      // one has a single digit, the other at least two
      assert false;
    } else {
      var a, b := NatToString(m / 10), NatToString(n / 10);
      SnocParts(a, Digit(m % 10));
      SnocParts(b, Digit(n % 10));
      assert Digit(m % 10) == Digit(n % 10);
      NatToStringInjective(m / 10, n / 10);
    }
  }
}
