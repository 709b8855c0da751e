/** The fragment of JavaScript regular expressions that the validation rules use:
    single-character classes, matched either against the whole input (`^...$`)
    or anywhere in it (a pattern with no anchors, as `RegExp.prototype.test` runs it). */
module Regex {

  /** One position of a pattern: a literal character, a bracketed list, or a bracketed range. */
  datatype CharClass =
    | Literal(c: char)            // `\+`, `2`
    | AnyOf(members: seq<char>)   // `[789]`
    | Span(lo: char, hi: char)    // `[A-Z]`; also `\d`, see Digit

  predicate InClass(k: CharClass, ch: char) {
    match k
    case Literal(c) => ch == c
    case AnyOf(members) => ch in members
    case Span(lo, hi) => lo <= ch <= hi
  }

  /** `\d`: without the `u` flag JavaScript's `\d` is exactly the ASCII digits. */
  const Digit: CharClass := Span('0', '9')

  /** `k{n}`: the class repeated n times. */
  function Repeat(k: CharClass, n: nat): seq<CharClass> {
    seq(n, _ => k)
  }

  /** `/^p$/.test(s)` for a pattern made of single-character classes. In JavaScript `$`
      without the `m` flag matches only at the very end of the input, so a trailing
      newline is not tolerated: the input must be exactly one character per class. */
  function FullMatch(p: seq<CharClass>, s: string): (m: bool)
    ensures m <==> |s| == |p| && forall i :: 0 <= i < |s| ==> InClass(p[i], s[i])
  {
    if p == [] then s == []
    else if s == [] then false
    else
      var rest := FullMatch(p[1..], s[1..]);
      assert forall i :: 1 <= i < |s| ==> s[1..][i - 1] == s[i];
      InClass(p[0], s[0]) && rest
  }

  /** `/[k]/.test(s)`: an unanchored one-class pattern succeeds when some character
      of the input is in the class. */
  function Test(k: CharClass, s: string): (found: bool)
    ensures found <==> exists i :: 0 <= i < |s| && InClass(k, s[i])
  {
    if s == [] then false
    else
      var rest := Test(k, s[1..]);
      assert forall i :: 1 <= i < |s| ==> s[1..][i - 1] == s[i];
      InClass(k, s[0]) || rest
  }
}
