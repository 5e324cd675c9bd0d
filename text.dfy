/**
 * String operations of the JavaScript runtime that the front end relies on:
 * `toLowerCase`, `includes`, `startsWith`, `endsWith`, `join` and `trim`.
 */
module Text {
  import opened Wrappers

  /**
   * Capital letters folded by `Lower`: ASCII `A`-`Z`, the Latin-1 capitals,
   * and the Kelvin and Angstrom signs, which fold to `k` and `å`.
   */
  predicate IsUpper(c: char) {
    ('A' <= c <= 'Z') || ('\U{C0}' <= c <= '\U{DE}' && c != '\U{D7}')
    || c == KelvinSign || c == AngstromSign
  }

  const KelvinSign: char := '\U{212A}'
  const AngstromSign: char := '\U{212B}'

  function LowerChar(c: char): (r: char)
    ensures !IsUpper(r)
    ensures !IsUpper(c) ==> r == c
    ensures (r == '.') <==> (c == '.')
    ensures 'a' <= r <= 'z' <==> ('a' <= c <= 'z' || 'A' <= c <= 'Z' || c == KelvinSign)
  {
    if c == KelvinSign then 'k'
    else if c == AngstromSign then '\U{E5}'
    else if IsUpper(c) then (c as int + 32) as char
    else c
  }

  /** `s.toLowerCase()`, character by character. */
  function Lower(s: string): (r: string)
    ensures |r| == |s|
    ensures forall i :: 0 <= i < |s| ==> r[i] == LowerChar(s[i])
  {
    seq(|s|, i requires 0 <= i < |s| => LowerChar(s[i]))
  }

  lemma LowerIdempotent(s: string)
    ensures Lower(Lower(s)) == Lower(s)
  {
  }

  /** `s.startsWith(p)` */
  predicate StartsWith(s: string, p: string) {
    |p| <= |s| && s[..|p|] == p
  }

  /** `s.endsWith(p)` */
  predicate EndsWith(s: string, p: string) {
    |p| <= |s| && s[|s| - |p|..] == p
  }

  /** `s.includes(sub)`: `sub` occurs in `s` at some offset. */
  predicate Contains(s: string, sub: string) {
    exists i | 0 <= i <= |s| - |sub| :: OccursAt(s, sub, i)
  }

  predicate OccursAt(s: string, sub: string, i: int) {
    0 <= i <= |s| - |sub| && s[i..i + |sub|] == sub
  }

  lemma ContainsAt(s: string, sub: string, i: int)
    requires OccursAt(s, sub, i)
    ensures Contains(s, sub)
  {
  }

  lemma ContainsMiddle(a: string, b: string, c: string)
    ensures Contains(a + b + c, b)
  {
    assert (a + b + c)[|a|..|a| + |b|] == b;
    ContainsAt(a + b + c, b, |a|);
  }

  lemma ContainsEmpty(s: string)
    ensures Contains(s, "")
  {
    ContainsAt(s, "", 0);
  }

  /** The index of the first of `terms` that `s` includes, if any. */
  function FirstContained(s: string, terms: seq<string>): (r: Option<nat>)
    ensures r.Some? ==> r.value < |terms| && Contains(s, terms[r.value])
    ensures r.Some? ==> forall j :: 0 <= j < r.value ==> !Contains(s, terms[j])
    ensures r.None? <==> forall j :: 0 <= j < |terms| ==> !Contains(s, terms[j])
  {
    if terms == [] then None
    else if Contains(s, terms[0]) then Some(0)
    else match FirstContained(s, terms[1..])
      case None => None
      case Some(k) => Some(k + 1)
  }

  /** The first term included is the one with no included term before it. */
  lemma {:induction false} FirstContainedIs(s: string, terms: seq<string>, j: nat)
    requires j < |terms| && Contains(s, terms[j])
    requires forall k :: 0 <= k < j ==> !Contains(s, terms[k])
    ensures FirstContained(s, terms) == Some(j)
  {
    if j > 0 {
      assert forall k :: 0 <= k < j - 1 ==> terms[1..][k] == terms[k + 1];
      FirstContainedIs(s, terms[1..], j - 1);
    }
  }

  /** `parts.join(sep)` */
  function Join(parts: seq<string>, sep: string): string {
    if |parts| == 0 then ""
    else if |parts| == 1 then parts[0]
    else parts[0] + sep + Join(parts[1..], sep)
  }

  /** The white space and line terminators that `String.prototype.trim` removes. */
  predicate IsJsSpace(c: char) {
    c == ' ' || c == '\t' || c == '\n' || c == '\r' || c == '\U{0B}' || c == '\U{0C}'
    || c == '\U{A0}' || c == '\U{FEFF}' || c == '\U{1680}' || ('\U{2000}' <= c <= '\U{200A}')
    || c == '\U{2028}' || c == '\U{2029}' || c == '\U{202F}' || c == '\U{205F}' || c == '\U{3000}'
  }

  predicate AllSpace(s: string) {
    forall i :: 0 <= i < |s| ==> IsJsSpace(s[i])
  }

  /** A string opening with white space does not start with a pattern that opens with something else. */
  lemma SpaceFirstNotStartsWith(s: string, p: string)
    requires s != [] && IsJsSpace(s[0]) && p != [] && !IsJsSpace(p[0])
    ensures !StartsWith(s, p)
  {
    if |p| <= |s| {
      assert s[..|p|][0] == s[0];
    }
  }

  /** A string closing with white space does not end with a pattern that closes with something else. */
  lemma SpaceLastNotEndsWith(s: string, p: string)
    requires s != [] && IsJsSpace(s[|s| - 1]) && p != [] && !IsJsSpace(p[|p| - 1])
    ensures !EndsWith(s, p)
  {
    if |p| <= |s| {
      assert s[|s| - |p|..][|p| - 1] == s[|s| - 1];
    }
  }

  function TrimStart(s: string): (r: string)
    ensures |r| <= |s| && r == s[|s| - |r|..]
    ensures AllSpace(s[..|s| - |r|])
    ensures r == [] || !IsJsSpace(r[0])
  {
    if s == [] || !IsJsSpace(s[0]) then s else TrimStart(s[1..])
  }

  function TrimEnd(s: string): (r: string)
    ensures |r| <= |s| && r == s[..|r|]
    ensures AllSpace(s[|r|..])
    ensures r == [] || !IsJsSpace(r[|r| - 1])
  {
    if s == [] || !IsJsSpace(s[|s| - 1]) then s else TrimEnd(s[..|s| - 1])
  }

  /** `s.trim()` */
  function Trim(s: string): string {
    TrimEnd(TrimStart(s))
  }

  /** Trimming the end keeps a prefix that closes with a non-space character, and adds none. */
  lemma TrimEndKeepsPrefix(t: string, p: string)
    requires p != [] && !IsJsSpace(p[|p| - 1])
    ensures StartsWith(TrimEnd(t), p) <==> StartsWith(t, p)
  {
    var r := TrimEnd(t);
    if StartsWith(t, p) {
      assert r[..|p|] == t[..|p|];
    }
    if StartsWith(r, p) {
      assert t[..|p|] == r[..|p|];
    }
  }

  /** Surrounding white space is exactly what `Trim` removes. */
  lemma {:induction false} TrimSurrounded(w1: string, x: string, w2: string)
    requires AllSpace(w1) && AllSpace(w2)
    requires x != [] && !IsJsSpace(x[0]) && !IsJsSpace(x[|x| - 1])
    ensures Trim(w1 + x + w2) == x
  {
    var y := x + w2;
    assert y[0] == x[0];
    assert w1 + x + w2 == w1 + y;
    TrimStartSpaces(w1, y);
    assert TrimStart(w1 + x + w2) == y;
    TrimEndSpaces(x, w2);
  }

  lemma {:induction false} TrimStartSpaces(w: string, y: string)
    requires AllSpace(w) && y != [] && !IsJsSpace(y[0])
    ensures TrimStart(w + y) == y
  {
    if w != [] {
      assert (w + y)[1..] == w[1..] + y;
      TrimStartSpaces(w[1..], y);
    }
  }

  lemma {:induction false} TrimEndSpaces(y: string, w: string)
    requires AllSpace(w) && y != [] && !IsJsSpace(y[|y| - 1])
    ensures TrimEnd(y + w) == y
  {
    if w != [] {
      assert (y + w)[..|y + w| - 1] == y + w[..|w| - 1];
      TrimEndSpaces(y, w[..|w| - 1]);
    } else {
      assert y + w == y;
    }
  }
}
