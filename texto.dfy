/**
  Text primitives used by the repository's queries: `string.ToLower` and
  `char.ToUpper` (ASCII letters only), `Contains` as a contiguous substring
  test, and the lexicographic order used by `OrderBy` on text columns.
 */
module Texto {

  /** `char.ToLower` restricted to ASCII: 'A'..'Z' become 'a'..'z', everything else is kept. */
  function MinusculaChar(c: char): (r: char)
    ensures !('A' <= r <= 'Z')
    ensures 'A' <= c <= 'Z' ==> 'a' <= r <= 'z' && r as int == c as int + 32
    ensures !('A' <= c <= 'Z') ==> r == c
  {
    if 'A' <= c <= 'Z' then (c as int + 32) as char else c
  }

  /** `char.ToUpper` restricted to ASCII: 'a'..'z' become 'A'..'Z', everything else is kept. */
  function MaiusculaChar(c: char): (r: char)
    ensures !('a' <= r <= 'z')
    ensures 'a' <= c <= 'z' ==> 'A' <= r <= 'Z' && r as int == c as int - 32
    ensures 'a' <= c <= 'z' ==> MinusculaChar(r) == c
    ensures !('a' <= c <= 'z') ==> r == c
  {
    if 'a' <= c <= 'z' then (c as int - 32) as char else c
  }

  /**
    `string.ToLower`, character by character: the result has no capital
    letter, each capital becomes the small letter 32 code points above it,
    and every other character is kept in place.
   */
  function ToLower(s: string): (r: string)
    ensures |r| == |s|
    ensures forall i :: 0 <= i < |r| ==> !('A' <= r[i] <= 'Z')
    ensures forall i :: 0 <= i < |s| && 'A' <= s[i] <= 'Z' ==> r[i] as int == s[i] as int + 32
    ensures forall i :: 0 <= i < |s| && !('A' <= s[i] <= 'Z') ==> r[i] == s[i]
    ensures forall i :: 0 <= i < |s| ==> r[i] == MinusculaChar(s[i])
  {
    seq(|s|, i requires 0 <= i < |s| => MinusculaChar(s[i]))
  }

  /** Lowering twice is lowering once. */
  lemma ToLowerIdempotente(s: string)
    ensures ToLower(ToLower(s)) == ToLower(s)
  {
  }

  /** `t` occurs in `s` starting at position `i`. */
  predicate OcorreEm(s: string, t: string, i: int) {
    0 <= i && i + |t| <= |s| && s[i..i + |t|] == t
  }

  /** `string.Contains`: `t` is a contiguous substring of `s` (the empty string is in every string). */
  predicate Contem(s: string, t: string) {
    exists i | 0 <= i <= |s| - |t| :: OcorreEm(s, t, i)
  }

  lemma ContemVazio(s: string)
    ensures Contem(s, [])
  {
    assert OcorreEm(s, [], 0);
  }

  /** Lexicographic order on strings: `a` precedes or equals `b`. */
  predicate MenorOuIgual(a: string, b: string)
    decreases |a|
  {
    |a| == 0 || (|b| > 0 && (a[0] < b[0] || (a[0] == b[0] && MenorOuIgual(a[1..], b[1..]))))
  }

  lemma {:induction false} MenorOuIgualReflexivo(a: string)
    ensures MenorOuIgual(a, a)
    decreases |a|
  {
    if |a| > 0 { MenorOuIgualReflexivo(a[1..]); }
  }

  lemma {:induction false} MenorOuIgualTotal(a: string, b: string)
    ensures MenorOuIgual(a, b) || MenorOuIgual(b, a)
    decreases |a|
  {
    if |a| > 0 && |b| > 0 && a[0] == b[0] {
      MenorOuIgualTotal(a[1..], b[1..]);
    }
  }

  lemma {:induction false} MenorOuIgualTransitivo(a: string, b: string, c: string)
    requires MenorOuIgual(a, b) && MenorOuIgual(b, c)
    ensures MenorOuIgual(a, c)
    decreases |a|
  {
    if |a| > 0 && a[0] == b[0] && b[0] == c[0] {
      MenorOuIgualTransitivo(a[1..], b[1..], c[1..]);
    }
  }

  lemma {:induction false} MenorOuIgualAntissimetrico(a: string, b: string)
    requires MenorOuIgual(a, b) && MenorOuIgual(b, a)
    ensures a == b
    decreases |a|
  {
    if |a| > 0 {
      MenorOuIgualAntissimetrico(a[1..], b[1..]);
      assert a == [a[0]] + a[1..] && b == [b[0]] + b[1..];
    }
  }
}
