/** The few JavaScript value semantics the handlers below rely on: numbers that can
    become NaN, the `%` operator, the `\s` character class, `toLowerCase` and
    `String.prototype.includes`. */
module Js {

  /** A JavaScript number as the selection handlers produce it: an integer, or NaN
      once a remainder by zero has happened. */
  datatype Num = Int(v: int) | NaN

  function Abs(x: int): nat
  {
    if x < 0 then -x else x
  }

  /** `a + b`: NaN is absorbing. */
  function Add(a: Num, b: Num): (r: Num)
    ensures r.Int? <==> a.Int? && b.Int?
    ensures r.Int? ==> r.v == a.v + b.v
  {
    if a.NaN? || b.NaN? then NaN else Int(a.v + b.v)
  }

  /** `a % b`: NaN when either operand is NaN or the divisor is 0, otherwise the
      remainder of division truncated toward zero, which takes the dividend's sign. */
  function Rem(a: Num, b: Num): (r: Num)
    ensures r.Int? <==> a.Int? && b.Int? && b.v != 0
    ensures r.Int? && a.v >= 0 ==> 0 <= r.v < Abs(b.v)
    ensures r.Int? && a.v < 0 ==> 0 - Abs(b.v) < r.v <= 0
  {
    if a.NaN? || b.NaN? || b.v == 0 then NaN
    else if a.v >= 0 then Int(a.v % Abs(b.v))
    else Int(-((-a.v) % Abs(b.v)))
  }

  /** Membership in the `\s` class of JavaScript regular expressions. */
  predicate IsSpace(c: char)
  {
    c == ' ' || c == '\t' || c == '\n' || c == '\U{B}' || c == '\U{C}' || c == '\r'
    || c == '\U{A0}' || c == '\U{1680}' || ('\U{2000}' <= c <= '\U{200A}')
    || c == '\U{2028}' || c == '\U{2029}' || c == '\U{202F}' || c == '\U{205F}'
    || c == '\U{3000}' || c == '\U{FEFF}'
  }

  /** Lower-casing of one character, for the Basic Latin and Latin-1 letters. */
  function LowerChar(c: char): (r: char)
    ensures 'A' <= c <= 'Z' ==> r as int == c as int + 32
    ensures !('A' <= c <= 'Z') && !('\U{C0}' <= c <= '\U{DE}') ==> r == c
  {
    if 'A' <= c <= 'Z' || ('\U{C0}' <= c <= '\U{DE}' && c != '\U{D7}') then (c as int + 32) as char
    else c
  }

  /** Upper-casing of one character, the inverse of LowerChar on the letters it moves. */
  function UpperChar(c: char): (r: char)
    ensures LowerChar(r) == LowerChar(c)
  {
    if 'a' <= c <= 'z' || ('\U{E0}' <= c <= '\U{FE}' && c != '\U{F7}') then (c as int - 32) as char
    else c
  }

  /** `s.toLowerCase()`, character by character. */
  function ToLower(s: string): (r: string)
    ensures |r| == |s|
    ensures forall i :: 0 <= i < |s| ==> r[i] == LowerChar(s[i])
  {
    seq(|s|, i requires 0 <= i < |s| => LowerChar(s[i]))
  }

  function ToUpper(s: string): (r: string)
    ensures |r| == |s|
    ensures forall i :: 0 <= i < |s| ==> r[i] == UpperChar(s[i])
  {
    seq(|s|, i requires 0 <= i < |s| => UpperChar(s[i]))
  }

  /** `sub` occurs in `s` starting at index `i`. */
  predicate OccursAt(s: string, sub: string, i: int)
  {
    0 <= i && i + |sub| <= |s| && s[i..i + |sub|] == sub
  }

  /** `s.includes(sub)`. */
  predicate Includes(s: string, sub: string)
  {
    exists i | 0 <= i <= |s| - |sub| :: OccursAt(s, sub, i)
  }

  lemma LowerIsIdempotent(s: string)
    ensures ToLower(ToLower(s)) == ToLower(s)
  {
  }

  /** Lower-casing distributes over concatenation. */
  lemma ToLowerConcat(a: string, b: string)
    ensures ToLower(a + b) == ToLower(a) + ToLower(b)
  {
  }

  /** Lower-casing an upper-cased string gives the same as lower-casing it directly. */
  lemma LowerOfUpper(s: string)
    ensures ToLower(ToUpper(s)) == ToLower(s)
  {
  }

  /** Whatever contains `a + b` contains `a`. */
  lemma IncludesPrefix(s: string, a: string, b: string)
    requires Includes(s, a + b)
    ensures Includes(s, a)
  {
    var i :| 0 <= i <= |s| - |a + b| && OccursAt(s, a + b, i);
    assert s[i..i + |a|] == (a + b)[..|a|];
    assert OccursAt(s, a, i);
  }

  lemma IncludesEmpty(s: string)
    ensures Includes(s, "")
  {
    assert OccursAt(s, "", 0);
  }
}
