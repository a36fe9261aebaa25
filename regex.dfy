/** The fragment of JavaScript regular expressions that the input validators
    use: anchored patterns (`^...$`, no flags) built from single-character
    classes, one-or-more and bounded repetition, and concatenation.
    `Matches(re, s)` is `re.test(s)` for such a pattern: since both ends are
    anchored, the whole string must match. */
module Regex {
  import opened JsString

  datatype CharClass =
    | Literal(c: char)                                     // `@`, `\.`
    | NoneOf(exceptWhitespace: bool, chars: seq<char>)     // `[^\s@]`
    | WordChar                                             // `[a-zA-Z0-9_]`

  predicate InClass(cc: CharClass, c: char)
  {
    match cc
    case Literal(x) => c == x
    case NoneOf(ws, cs) => !(ws && IsWhitespace(c)) && c !in cs
    case WordChar => IsUpperAscii(c) || IsLowerAscii(c) || IsDigit(c) || c == '_'
  }

  predicate AllIn(cc: CharClass, s: seq<char>)
  {
    forall i :: 0 <= i < |s| ==> InClass(cc, s[i])
  }

  datatype Re =
    | Atom(cc: CharClass)                      // one character of the class
    | Plus(cc: CharClass)                      // `[...]+`
    | Repeat(cc: CharClass, lo: nat, hi: nat)  // `[...]{lo,hi}`
    | Concat(first: Re, rest: Re)

  predicate Matches(re: Re, s: seq<char>)
    decreases re
  {
    match re
    case Atom(cc) => |s| == 1 && InClass(cc, s[0])
    case Plus(cc) => |s| >= 1 && AllIn(cc, s)
    case Repeat(cc, lo, hi) => lo <= |s| <= hi && AllIn(cc, s)
    case Concat(a, b) => exists k :: 0 <= k <= |s| && Matches(a, s[..k]) && Matches(b, s[k..])
  }

  lemma ConcatIntro(a: Re, b: Re, s: seq<char>, k: nat)
    requires k <= |s| && Matches(a, s[..k]) && Matches(b, s[k..])
    ensures Matches(Concat(a, b), s)
  {
  }

  lemma ConcatElim(a: Re, b: Re, s: seq<char>) returns (k: nat)
    requires Matches(Concat(a, b), s)
    ensures k <= |s| && Matches(a, s[..k]) && Matches(b, s[k..])
  {
    k :| 0 <= k <= |s| && Matches(a, s[..k]) && Matches(b, s[k..]);
  }
}
