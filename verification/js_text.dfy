/**
 JavaScript string primitives the race store relies on: UTF-16 code units,
 `String.prototype.trim` and lower-casing of room ids.
 */
module JsText {

  /** One UTF-16 code unit. A JavaScript string is a sequence of these, and
      `.length` and `.slice` count them. */
  newtype Unit = x: int | 0 <= x < 0x1_0000

  type JsString = seq<Unit>

  /** The UTF-16 encoding of one Unicode scalar value. */
  function EncodeChar(c: char): (u: JsString)
    ensures 1 <= |u| <= 2
    ensures c as int < 0x1_0000 <==> |u| == 1
  {
    var n := c as int;
    if n < 0x1_0000 then [n as Unit]
    else [(0xD800 + (n - 0x1_0000) / 0x400) as Unit, (0xDC00 + (n - 0x1_0000) % 0x400) as Unit]
  }

  /** The UTF-16 form of a Dafny string; used to write the source's literals. */
  function Utf16(s: string): (u: JsString)
    ensures |s| <= |u| <= 2 * |s|
  {
    if |s| == 0 then [] else EncodeChar(s[0]) + Utf16(s[1..])
  }

  /** ECMAScript WhiteSpace and LineTerminator code points: what `trim` strips. */
  predicate IsSpaceCode(n: int) {
    || n == 0x09 || n == 0x0A || n == 0x0B || n == 0x0C || n == 0x0D || n == 0x20
    || n == 0xA0 || n == 0x1680 || (0x2000 <= n <= 0x200A) || n == 0x2028 || n == 0x2029
    || n == 0x202F || n == 0x205F || n == 0x3000 || n == 0xFEFF
  }

  predicate IsSpaceUnit(u: Unit) {
    IsSpaceCode(u as int)
  }

  predicate IsSpaceChar(c: char) {
    IsSpaceCode(c as int)
  }

  /** Number of leading elements satisfying `sp`. */
  function LeadingCount<T>(s: seq<T>, sp: T -> bool): (n: nat)
    ensures n <= |s|
    ensures forall k | 0 <= k < n :: sp(s[k])
    ensures n < |s| ==> !sp(s[n])
  {
    if |s| > 0 && sp(s[0]) then 1 + LeadingCount(s[1..], sp) else 0
  }

  /** Number of trailing elements satisfying `sp`. */
  function TrailingCount<T>(s: seq<T>, sp: T -> bool): (n: nat)
    ensures n <= |s|
    ensures forall k | |s| - n <= k < |s| :: sp(s[k])
    ensures n < |s| ==> !sp(s[|s| - 1 - n])
  {
    if |s| > 0 && sp(s[|s| - 1]) then 1 + TrailingCount(s[..|s| - 1], sp) else 0
  }

  /** `trim` over an arbitrary element type, with `sp` saying what counts as
      white space. The result is the infix of `s` left after removing a
      white-space prefix and a white-space suffix, and it neither starts nor
      ends with white space. */
  function Trim<T>(s: seq<T>, sp: T -> bool): (r: seq<T>)
    ensures LeadingCount(s, sp) + |r| <= |s|
    ensures r == s[LeadingCount(s, sp)..LeadingCount(s, sp) + |r|]
    ensures forall k | LeadingCount(s, sp) + |r| <= k < |s| :: sp(s[k])
    ensures |r| > 0 ==> !sp(r[0]) && !sp(r[|r| - 1])
    ensures |r| == 0 <==> forall k | 0 <= k < |s| :: sp(s[k])
  {
    var a := LeadingCount(s, sp);
    var rest := s[a..];
    var b := TrailingCount(rest, sp);
    assert forall k | a <= k < |s| :: s[k] == rest[k - a];
    rest[..|rest| - b]
  }

  /** A sequence with no white space at either end is its own trim. */
  lemma TrimFixed<T>(s: seq<T>, sp: T -> bool)
    requires |s| > 0 ==> !sp(s[0]) && !sp(s[|s| - 1])
    ensures Trim(s, sp) == s
  {
  }

  /** White space followed by a sequence with no white space at either end
      trims to that sequence. */
  lemma TrimAfterSpaces<T>(w: seq<T>, v: seq<T>, sp: T -> bool)
    requires forall k | 0 <= k < |w| :: sp(w[k])
    requires |v| > 0 && !sp(v[0]) && !sp(v[|v| - 1])
    ensures Trim(w + v, sp) == v
  {
    var u := w + v;
    var a := LeadingCount(u, sp);
    assert u[|w|] == v[0];
    var r := Trim(u, sp);
    assert u[|u| - 1] == v[|v| - 1];
    assert u[|w|..] == v;
  }

  /** `String.prototype.trim` on a JavaScript string. */
  function TrimJs(s: JsString): JsString {
    Trim(s, IsSpaceUnit)
  }

  /** `trim` on a string seen as code points (the phrase script's view). */
  function TrimChars(s: string): string {
    Trim(s, IsSpaceChar)
  }

  /** ASCII lower-casing of one code unit. */
  function LowerUnit(u: Unit): Unit {
    if 0x41 <= u <= 0x5A then u + 0x20 else u
  }

  /** `toLowerCase`, restricted to the ASCII letters. */
  function Lower(s: JsString): (r: JsString)
    ensures |r| == |s|
    ensures forall i | 0 <= i < |s| :: r[i] == LowerUnit(s[i])
  {
    seq(|s|, i requires 0 <= i < |s| => LowerUnit(s[i]))
  }

  predicate IsLower(s: JsString) {
    Lower(s) == s
  }

  /** Lower-casing is idempotent: a lower-cased id is already lower-case. */
  lemma LowerIsLower(s: JsString)
    ensures IsLower(Lower(s))
  {
  }
}
