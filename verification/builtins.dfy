/** Models of the JavaScript built-ins the pages use: `Array.prototype.includes`,
    `Array.prototype.filter`, `String.prototype.includes`,
    `String.prototype.trim` and the UTF-16 `length` of a string. */
module JsBuiltins {

  /** `xs.includes(x)`: a left-to-right scan for an element equal to `x`. */
  function Includes<T(==)>(xs: seq<T>, x: T): (r: bool)
    ensures r <==> x in xs
  {
    if |xs| == 0 then false
    else if xs[0] == x then true
    else Includes(xs[1..], x)
  }

  /** `s.filter(p)`: the elements of `s` that satisfy `p`, in their original order. */
  function Filter<T>(s: seq<T>, p: T -> bool): (r: seq<T>)
    ensures |r| <= |s|
    ensures forall k :: 0 <= k < |r| ==> p(r[k])
    ensures forall k :: 0 <= k < |r| ==> r[k] in s
    ensures forall k :: 0 <= k < |s| && p(s[k]) ==> s[k] in r
  {
    if |s| == 0 then []
    else
      var init, last := s[..|s| - 1], s[|s| - 1];
      assert s == init + [last];
      Filter(init, p) + (if p(last) then [last] else [])
  }

  /** The positions of `s` whose elements `Filter(s, p)` keeps, in increasing order. */
  function KeptIndices<T>(s: seq<T>, p: T -> bool): (idx: seq<nat>)
    ensures |idx| == |Filter(s, p)|
    ensures forall k :: 0 <= k < |idx| ==> idx[k] < |s| && s[idx[k]] == Filter(s, p)[k]
    ensures forall k, l :: 0 <= k < l < |idx| ==> idx[k] < idx[l]
  {
    if |s| == 0 then []
    else
      var init, last := s[..|s| - 1], s[|s| - 1];
      var rest := KeptIndices(init, p);
      var mine: seq<nat> := if p(last) then [|s| - 1] else [];
      assert Filter(s, p) == Filter(init, p) + (if p(last) then [last] else []);
      assert forall j :: 0 <= j < |init| ==> init[j] == s[j];
      assert forall k :: 0 <= k < |rest| ==> rest[k] < |init|;
      rest + mine
  }

  /** A position is kept exactly when its element satisfies `p`. */
  lemma {:induction false} KeptIndicesExact<T>(s: seq<T>, p: T -> bool, j: int)
    requires 0 <= j < |s|
    ensures j in KeptIndices(s, p) <==> p(s[j])
  {
    var init := s[..|s| - 1];
    var rest := KeptIndices(init, p);
    assert KeptIndices(s, p) == rest + (if p(s[|s| - 1]) then [|s| - 1] else []);
    if j < |s| - 1 {
      KeptIndicesExact(init, p, j);
      assert init[j] == s[j];
    } else {
      assert j !in rest;
    }
  }

  /** `idx` picks out `a` inside `b` at strictly increasing positions. */
  ghost predicate Embeds<T>(idx: seq<nat>, a: seq<T>, b: seq<T>) {
    && |idx| == |a|
    && (forall k :: 0 <= k < |idx| ==> idx[k] < |b| && a[k] == b[idx[k]])
    && (forall k, l :: 0 <= k < l < |idx| ==> idx[k] < idx[l])
  }

  /** `a` is an order-preserving subsequence of `b`. */
  ghost predicate IsSubsequence<T>(a: seq<T>, b: seq<T>) {
    exists idx :: Embeds(idx, a, b)
  }

  /** Filtering keeps a subsequence of its input, in order. */
  lemma FilterIsSubsequence<T>(s: seq<T>, p: T -> bool)
    ensures IsSubsequence(Filter(s, p), s)
  {
    var idx := KeptIndices(s, p);
    assert Embeds(idx, Filter(s, p), s);
  }

  /** When every element satisfies `p`, filtering returns the input itself. */
  lemma {:induction false} FilterAllKept<T>(s: seq<T>, p: T -> bool)
    requires forall k :: 0 <= k < |s| ==> p(s[k])
    ensures Filter(s, p) == s
  {
    if |s| > 0 {
      var init := s[..|s| - 1];
      assert forall k :: 0 <= k < |init| ==> p(init[k]) by {
        forall k | 0 <= k < |init| ensures p(init[k]) {
          assert init[k] == s[k];
        }
      }
      FilterAllKept(init, p);
      assert s == init + [s[|s| - 1]];
    }
  }

  /** `needle` occurs in `hay` starting at position `k`. */
  ghost predicate OccursAt(needle: string, hay: string, k: int) {
    0 <= k && k + |needle| <= |hay| && hay[k..k + |needle|] == needle
  }

  /** Where `needle` is not a prefix of a non-empty `hay`, it occurs in `hay`
      exactly when it occurs in `hay` without its first character. */
  lemma OccursInTail(hay: string, needle: string)
    requires |hay| > 0 && !(needle <= hay)
    ensures (exists k :: OccursAt(needle, hay, k)) <==> (exists k :: OccursAt(needle, hay[1..], k))
  {
    var tail := hay[1..];
    forall k | OccursAt(needle, tail, k) ensures OccursAt(needle, hay, k + 1) {
      assert hay[k + 1..k + 1 + |needle|] == tail[k..k + |needle|];
    }
    assert !OccursAt(needle, hay, 0);
    forall k | OccursAt(needle, hay, k) ensures OccursAt(needle, tail, k - 1) {
      assert tail[k - 1..k - 1 + |needle|] == hay[k..k + |needle|];
    }
  }

  /** `hay.includes(needle)`: tries every starting position from the left, so
      it holds exactly when `needle` occurs somewhere in `hay`; the empty
      string occurs in every string. */
  function StringIncludes(hay: string, needle: string): (r: bool)
    ensures r <==> exists k :: OccursAt(needle, hay, k)
    decreases |hay|
  {
    if needle <= hay then
      assert OccursAt(needle, hay, 0);
      true
    else if |hay| == 0 then false
    else
      OccursInTail(hay, needle);
      StringIncludes(hay[1..], needle)
  }

  /** The code points ECMAScript treats as WhiteSpace or LineTerminator
      (ECMA-262 sections 12.2 and 12.3), which `trim` removes: TAB, LF, VT, FF,
      CR, SPACE, NO-BREAK SPACE, OGHAM SPACE MARK, U+2000 to U+200A, LINE and
      PARAGRAPH SEPARATOR, NARROW NO-BREAK SPACE, MEDIUM MATHEMATICAL SPACE,
      IDEOGRAPHIC SPACE and the BYTE ORDER MARK. */
  predicate IsJsWhitespace(c: char) {
    || ('\t' <= c <= '\r')
    || c == ' '
    || c == '\U{00A0}'
    || c == '\U{1680}'
    || ('\U{2000}' <= c <= '\U{200A}')
    || c == '\U{2028}'
    || c == '\U{2029}'
    || c == '\U{202F}'
    || c == '\U{205F}'
    || c == '\U{3000}'
    || c == '\U{FEFF}'
  }

  /** Every character of `s` is whitespace (the empty string included). */
  ghost predicate IsBlank(s: string) {
    forall k :: 0 <= k < |s| ==> IsJsWhitespace(s[k])
  }

  /** Drops leading whitespace. */
  function TrimStart(s: string): (r: string)
    ensures |r| <= |s| && r == s[|s| - |r|..]
    ensures IsBlank(s[..|s| - |r|])
    ensures |r| > 0 ==> !IsJsWhitespace(r[0])
  {
    if |s| > 0 && IsJsWhitespace(s[0]) then TrimStart(s[1..]) else s
  }

  /** Drops trailing whitespace. */
  function TrimEnd(s: string): (r: string)
    ensures |r| <= |s| && r == s[..|r|]
    ensures IsBlank(s[|r|..])
    ensures |r| > 0 ==> !IsJsWhitespace(r[|r| - 1])
  {
    if |s| > 0 && IsJsWhitespace(s[|s| - 1]) then TrimEnd(s[..|s| - 1]) else s
  }

  /** `r` is `s` with a blank prefix of length `a` and a blank suffix removed. */
  ghost predicate IsWindow(s: string, r: string, a: int) {
    && 0 <= a && a + |r| <= |s| && r == s[a..a + |r|]
    && IsBlank(s[..a]) && IsBlank(s[a + |r|..])
  }

  /** `s.trim()`: `s` without its leading and trailing whitespace. The result
      is empty (falsy) exactly when `s` is all whitespace. */
  function Trim(s: string): (r: string)
    ensures exists a :: IsWindow(s, r, a)
    ensures |r| > 0 ==> !IsJsWhitespace(r[0]) && !IsJsWhitespace(r[|r| - 1])
    ensures r == "" <==> IsBlank(s)
  {
    var t := TrimStart(s);
    var a := |s| - |t|;
    var r := TrimEnd(t);
    assert s[a..a + |r|] == r;
    assert s[a + |r|..] == t[|r|..];
    assert IsWindow(s, r, a);
    r
  }

  /** The positions of the characters outside the Basic Multilingual Plane,
      each of which UTF-16 encodes as a surrogate pair. */
  ghost function AstralPositions(s: string): set<int> {
    set k | 0 <= k < |s| && s[k] as int > 0xFFFF
  }

  /** Appending a character adds its own position exactly when it lies
      above U+FFFF. */
  lemma AstralPositionsStep(init: string, c: char)
    ensures AstralPositions(init + [c]) ==
      AstralPositions(init) + (if c as int > 0xFFFF then {|init|} else {})
    ensures |init| !in AstralPositions(init)
  {
  }

  /** `s.length`: the number of UTF-16 code units, one per character plus
      one more for each character above U+FFFF. */
  function Utf16Length(s: string): (n: nat)
    ensures n == |s| + |AstralPositions(s)|
    ensures |s| <= n <= 2 * |s|
  {
    if |s| == 0 then 0
    else
      var init := s[..|s| - 1];
      assert s == init + [s[|s| - 1]];
      AstralPositionsStep(init, s[|s| - 1]);
      Utf16Length(init) + (if s[|s| - 1] as int > 0xFFFF then 2 else 1)
  }

  /** Without characters outside the Basic Multilingual Plane the UTF-16
      length is the number of characters. */
  lemma Utf16LengthBmp(s: string)
    requires forall k :: 0 <= k < |s| ==> s[k] as int <= 0xFFFF
    ensures Utf16Length(s) == |s|
  {
  }

  /** The UTF-16 length of a concatenation is the sum of the lengths. */
  lemma {:induction false} Utf16LengthAppend(a: string, b: string)
    ensures Utf16Length(a + b) == Utf16Length(a) + Utf16Length(b)
  {
    if |b| > 0 {
      var init := b[..|b| - 1];
      assert a + b == (a + init) + [b[|b| - 1]];
      assert (a + b)[..|a + b| - 1] == a + init;
      Utf16LengthAppend(a, init);
    } else {
      assert a + b == a;
    }
  }
}
