/** The string helpers of the shared utility module: text truncation, slug
    generation and the e-mail and user-name validators. */
module Utils {
  import opened JsString
  import opened Regex

  /** `truncateText(text, length)`: the text itself when it fits, otherwise
      its first `length` characters followed by an ellipsis. */
  function TruncateText(text: seq<char>, length: int): (r: seq<char>)
    ensures |text| <= length ==> r == text
    ensures text[..Clamp(length, |text|)] <= r
    ensures |text| > length ==> EndsWith(r, "...") && |r| == Clamp(length, |text|) + 3
    ensures |r| <= Clamp(length, |text|) + 3
  {
    if |text| <= length then text else Substring(text, 0, length) + "..."
  }

  // ---------------------------------------------------------------------
  // generateSlug

  predicate IsSlugChar(c: char)
  {
    IsLowerAscii(c) || IsDigit(c)
  }

  /** The length of the leading run of characters outside `[a-z0-9]`. */
  function RunLength(s: seq<char>): (n: nat)
    ensures n <= |s|
    ensures n < |s| ==> IsSlugChar(s[n])
    ensures forall i :: 0 <= i < n ==> !IsSlugChar(s[i])
  {
    if s != [] && !IsSlugChar(s[0]) then 1 + RunLength(s[1..]) else 0
  }

  /** Drops the leading run of characters outside `[a-z0-9]`. */
  function DropRun(s: seq<char>): (r: seq<char>)
  {
    s[RunLength(s)..]
  }

  /** `s.replace(/[^a-z0-9]+/g, '-')`: every maximal run of characters
      outside `[a-z0-9]` becomes one '-'. */
  function ReplaceRuns(s: seq<char>): (r: seq<char>)
    decreases |s|
  {
    if s == [] then []
    else if IsSlugChar(s[0]) then [s[0]] + ReplaceRuns(s[1..])
    else ['-'] + ReplaceRuns(DropRun(s))
  }

  /** `s.replace(/(^-|-$)/g, '')`: removes one leading and one trailing '-'.
      The global scan matches against the original string, so a lone "-"
      is removed once. */
  function StripDashEnds(s: seq<char>): (r: seq<char>)
  {
    var a := if |s| > 0 && s[0] == '-' then 1 else 0;
    var b := if |s| > a && s[|s| - 1] == '-' then |s| - 1 else |s|;
    s[a..b]
  }

  /** `generateSlug(text)` */
  function GenerateSlug(text: seq<char>): (r: seq<char>)
  {
    StripDashEnds(ReplaceRuns(ToLower(text)))
  }

  predicate SlugOrDash(s: seq<char>)
  {
    forall i :: 0 <= i < |s| ==> IsSlugChar(s[i]) || s[i] == '-'
  }

  predicate NoDoubleDash(s: seq<char>)
  {
    forall i :: 0 <= i < |s| - 1 ==> !(s[i] == '-' && s[i + 1] == '-')
  }

  /** The shape every slug has: only `[a-z0-9-]`, no "--", no '-' at either end. */
  predicate IsSlug(s: seq<char>)
  {
    SlugOrDash(s) && NoDoubleDash(s) && (s != [] ==> s[0] != '-' && s[|s| - 1] != '-')
  }

  /** The characters of `s` in `[a-z0-9]`, in order. */
  function SlugChars(s: seq<char>): seq<char>
  {
    if s == [] then [] else (if IsSlugChar(s[0]) then [s[0]] else []) + SlugChars(s[1..])
  }

  /** `s` without its '-' characters. */
  function RemoveDashes(s: seq<char>): seq<char>
  {
    if s == [] then [] else (if s[0] == '-' then [] else [s[0]]) + RemoveDashes(s[1..])
  }

  lemma {:induction false} ReplaceRunsShape(s: seq<char>)
    ensures SlugOrDash(ReplaceRuns(s)) && NoDoubleDash(ReplaceRuns(s))
    ensures s != [] && IsSlugChar(s[0]) ==> ReplaceRuns(s) != [] && ReplaceRuns(s)[0] == s[0]
    decreases |s|
  {
    if s == [] {
    } else if IsSlugChar(s[0]) {
      ReplaceRunsShape(s[1..]);
      var t := ReplaceRuns(s[1..]);
      assert ReplaceRuns(s) == [s[0]] + t;
    } else {
      var d := DropRun(s);
      ReplaceRunsShape(d);
      var t := ReplaceRuns(d);
      assert ReplaceRuns(s) == ['-'] + t;
      assert d == [] ==> t == [];
    }
  }

  /** Every generated slug has the slug shape. */
  lemma GenerateSlugShape(text: seq<char>)
    ensures IsSlug(GenerateSlug(text))
  {
    var x := ReplaceRuns(ToLower(text));
    ReplaceRunsShape(ToLower(text));
    var r := StripDashEnds(x);
    var a := if |x| > 0 && x[0] == '-' then 1 else 0;
    var b := if |x| > a && x[|x| - 1] == '-' then |x| - 1 else |x|;
    assert r == x[a..b];
    if r != [] {
      assert r[0] == x[a];
      assert r[|r| - 1] == x[b - 1];
    }
  }

  lemma {:induction false} ReplaceRunsFixpoint(s: seq<char>)
    requires SlugOrDash(s) && NoDoubleDash(s)
    ensures ReplaceRuns(s) == s
    decreases |s|
  {
    if s == [] {
    } else if IsSlugChar(s[0]) {
      ReplaceRunsFixpoint(s[1..]);
    } else {
      assert RunLength(s) == 1 by {
        if |s| > 1 {
          assert !(s[0] == '-' && s[1] == '-');
          assert s[1..][0] == s[1];
        }
      }
      ReplaceRunsFixpoint(s[1..]);
    }
  }

  /** A slug is left as it is. */
  lemma SlugFixpoint(s: seq<char>)
    requires IsSlug(s)
    ensures GenerateSlug(s) == s
  {
    assert ToLower(s) == s;
    ReplaceRunsFixpoint(s);
  }

  /** `generateSlug` is idempotent. */
  lemma GenerateSlugIdempotent(text: seq<char>)
    ensures GenerateSlug(GenerateSlug(text)) == GenerateSlug(text)
  {
    GenerateSlugShape(text);
    SlugFixpoint(GenerateSlug(text));
  }

  lemma {:induction false} RemoveDashesConcat(a: seq<char>, b: seq<char>)
    ensures RemoveDashes(a + b) == RemoveDashes(a) + RemoveDashes(b)
    decreases |a|
  {
    if a == [] {
      assert a + b == b;
    } else {
      assert (a + b)[0] == a[0] && (a + b)[1..] == a[1..] + b;
      RemoveDashesConcat(a[1..], b);
      var h := if a[0] == '-' then [] else [a[0]];
      calc {
        RemoveDashes(a + b);
        h + RemoveDashes(a[1..] + b);
        h + (RemoveDashes(a[1..]) + RemoveDashes(b));
        (h + RemoveDashes(a[1..])) + RemoveDashes(b);
      }
    }
  }

  lemma {:induction false} SlugCharsSkipRun(s: seq<char>, k: nat)
    requires k <= |s|
    requires forall i :: 0 <= i < k ==> !IsSlugChar(s[i])
    ensures SlugChars(s) == SlugChars(s[k..])
    decreases k
  {
    if k > 0 {
      SlugCharsSkipRun(s[1..], k - 1);
      assert s[1..][k - 1..] == s[k..];
    }
  }

  lemma {:induction false} RemoveDashesReplaceRuns(s: seq<char>)
    ensures RemoveDashes(ReplaceRuns(s)) == SlugChars(s)
    decreases |s|
  {
    if s == [] {
    } else if IsSlugChar(s[0]) {
      RemoveDashesReplaceRuns(s[1..]);
      RemoveDashesConcat([s[0]], ReplaceRuns(s[1..]));
    } else {
      var d := DropRun(s);
      RemoveDashesReplaceRuns(d);
      RemoveDashesConcat(['-'], ReplaceRuns(d));
      SlugCharsSkipRun(s, RunLength(s));
    }
  }

  /** Removing the dashes from a slug gives the lower-cased input with
      everything outside `[a-z0-9]` removed, in the original order. */
  lemma GenerateSlugKeepsAlphanumerics(text: seq<char>)
    ensures RemoveDashes(GenerateSlug(text)) == SlugChars(ToLower(text))
  {
    RemoveDashesReplaceRuns(ToLower(text));
    StripDashEndsKeepsRest(ReplaceRuns(ToLower(text)));
  }

  /** Trimming the end dashes removes only dashes. */
  lemma StripDashEndsKeepsRest(x: seq<char>)
    ensures RemoveDashes(StripDashEnds(x)) == RemoveDashes(x)
  {
    var a := if |x| > 0 && x[0] == '-' then 1 else 0;
    var b := if |x| > a && x[|x| - 1] == '-' then |x| - 1 else |x|;
    SplitThree(x, a, b);
    RemoveDashesConcat(x[..a] + x[a..b], x[b..]);
    RemoveDashesConcat(x[..a], x[a..b]);
    assert RemoveDashes(x[..a]) == [] by {
      if a == 1 { assert x[..a] == ['-']; }
    }
    assert RemoveDashes(x[b..]) == [] by {
      if b < |x| { assert x[b..] == ['-']; }
    }
  }

  lemma SplitThree(x: seq<char>, a: nat, b: nat)
    requires a <= b <= |x|
    ensures x == x[..a] + x[a..b] + x[b..]
  {
  }

  // ---------------------------------------------------------------------
  // validateEmail and validateUsername

  /** `[^\s@]` */
  const NotSpaceOrAt: CharClass := NoneOf(true, ['@'])

  /** `/^[^\s@]+@[^\s@]+\.[^\s@]+$/` */
  const EmailPattern: Re :=
    Concat(Plus(NotSpaceOrAt),
    Concat(Atom(Literal('@')),
    Concat(Plus(NotSpaceOrAt),
    Concat(Atom(Literal('.')), Plus(NotSpaceOrAt)))))

  /** `/^[a-zA-Z0-9_]{3,30}$/` */
  const UsernamePattern: Re := Repeat(WordChar, 3, 30)

  /** What the e-mail pattern accepts, stated without the pattern: no
      whitespace, exactly one '@' with something before it, and a '.' in the
      domain that is neither its first nor its last character. */
  predicate WellFormedEmail(s: seq<char>)
  {
    && (forall i :: 0 <= i < |s| ==> !IsWhitespace(s[i]))
    && exists at :: 0 < at < |s| && s[at] == '@'
         && (forall i :: 0 <= i < |s| && s[i] == '@' ==> i == at)
         && exists dot :: at + 1 < dot < |s| - 1 && s[dot] == '.'
  }

  const DomainTail: Re := Concat(Atom(Literal('.')), Plus(NotSpaceOrAt))
  const Domain: Re := Concat(Plus(NotSpaceOrAt), DomainTail)
  const AtDomain: Re := Concat(Atom(Literal('@')), Domain)

  lemma DomainTailSplit(t: seq<char>) returns (w: seq<char>)
    requires Matches(DomainTail, t)
    ensures Matches(Plus(NotSpaceOrAt), w) && t == ['.'] + w
  {
    var k := ConcatElim(Atom(Literal('.')), Plus(NotSpaceOrAt), t);
    w := t[k..];
    assert t[..k] == ['.'];
    assert t == t[..k] + w;
  }

  lemma PrefixSplit(b: Re, t: seq<char>) returns (q: seq<char>, rest: seq<char>)
    requires Matches(Concat(Plus(NotSpaceOrAt), b), t)
    ensures Matches(Plus(NotSpaceOrAt), q) && Matches(b, rest) && t == q + rest
  {
    var k := ConcatElim(Plus(NotSpaceOrAt), b, t);
    q, rest := t[..k], t[k..];
    assert t == q + rest;
  }

  lemma AtSplit(t: seq<char>) returns (rest: seq<char>)
    requires Matches(AtDomain, t)
    ensures Matches(Domain, rest) && t == ['@'] + rest
  {
    var k := ConcatElim(Atom(Literal('@')), Domain, t);
    rest := t[k..];
    assert t[..k] == ['@'];
    assert t == t[..k] + rest;
  }

  /** The three non-empty runs of `[^\s@]` the pattern splits a match into. */
  lemma EmailPatternSplit(s: seq<char>) returns (p: seq<char>, q: seq<char>, w: seq<char>)
    requires Matches(EmailPattern, s)
    ensures Matches(Plus(NotSpaceOrAt), p) && Matches(Plus(NotSpaceOrAt), q) && Matches(Plus(NotSpaceOrAt), w)
    ensures s == p + ['@'] + q + ['.'] + w
  {
    var t1, t2, t3;
    p, t1 := PrefixSplit(AtDomain, s);
    t2 := AtSplit(t1);
    q, t3 := PrefixSplit(DomainTail, t2);
    w := DomainTailSplit(t3);
    Reassemble(s, p, t1, t2, q, t3, w);
  }

  lemma Reassemble(s: seq<char>, p: seq<char>, t1: seq<char>, t2: seq<char>, q: seq<char>, t3: seq<char>, w: seq<char>)
    requires s == p + t1 && t1 == ['@'] + t2 && t2 == q + t3 && t3 == ['.'] + w
    ensures s == p + ['@'] + q + ['.'] + w
  {
  }

  lemma SplitWellFormed(p: seq<char>, q: seq<char>, w: seq<char>)
    requires Matches(Plus(NotSpaceOrAt), p) && Matches(Plus(NotSpaceOrAt), q) && Matches(Plus(NotSpaceOrAt), w)
    ensures WellFormedEmail(p + ['@'] + q + ['.'] + w)
  {
    var s := p + ['@'] + q + ['.'] + w;
    var at, dot := |p|, |p| + 1 + |q|;
    SplitCharacters(p, q, w);
    assert s[at] == '@' && s[dot] == '.';
    assert at + 1 < dot < |s| - 1;
  }

  lemma SplitCharacters(p: seq<char>, q: seq<char>, w: seq<char>)
    requires AllIn(NotSpaceOrAt, p) && AllIn(NotSpaceOrAt, q) && AllIn(NotSpaceOrAt, w)
    ensures var s := p + ['@'] + q + ['.'] + w;
            forall i :: 0 <= i < |s| ==> !IsWhitespace(s[i]) && (s[i] == '@' ==> i == |p|)
  {
    var s := p + ['@'] + q + ['.'] + w;
    var at, dot := |p|, |p| + 1 + |q|;
    forall i | 0 <= i < |s|
      ensures !IsWhitespace(s[i]) && (s[i] == '@' ==> i == at)
    {
      if i < at {
        assert s[i] == p[i] && InClass(NotSpaceOrAt, p[i]);
      } else if at < i < dot {
        assert s[i] == q[i - at - 1] && InClass(NotSpaceOrAt, q[i - at - 1]);
      } else if dot < i {
        assert s[i] == w[i - dot - 1] && InClass(NotSpaceOrAt, w[i - dot - 1]);
      }
    }
  }

  lemma PrefixJoin(b: Re, q: seq<char>, rest: seq<char>)
    requires Matches(Plus(NotSpaceOrAt), q) && Matches(b, rest)
    ensures Matches(Concat(Plus(NotSpaceOrAt), b), q + rest)
  {
    var t := q + rest;
    assert t[..|q|] == q && t[|q|..] == rest;
    ConcatIntro(Plus(NotSpaceOrAt), b, t, |q|);
  }

  lemma MarkerJoin(c: char, b: Re, rest: seq<char>)
    requires Matches(b, rest)
    ensures Matches(Concat(Atom(Literal(c)), b), [c] + rest)
  {
    var t := [c] + rest;
    assert t[..1] == [c] && t[1..] == rest;
    ConcatIntro(Atom(Literal(c)), b, t, 1);
  }

  lemma SplitMatches(p: seq<char>, q: seq<char>, w: seq<char>)
    requires Matches(Plus(NotSpaceOrAt), p) && Matches(Plus(NotSpaceOrAt), q) && Matches(Plus(NotSpaceOrAt), w)
    ensures Matches(EmailPattern, p + ['@'] + q + ['.'] + w)
  {
    var t3 := ['.'] + w;
    MarkerJoin('.', Plus(NotSpaceOrAt), w);
    var t2 := q + t3;
    PrefixJoin(DomainTail, q, t3);
    var t1 := ['@'] + t2;
    MarkerJoin('@', Domain, t2);
    var s := p + t1;
    PrefixJoin(AtDomain, p, t1);
    Reassemble(s, p, t1, t2, q, t3, w);
  }

  lemma EmailPatternSound(s: seq<char>)
    requires Matches(EmailPattern, s)
    ensures WellFormedEmail(s)
  {
    var p, q, w := EmailPatternSplit(s);
    SplitWellFormed(p, q, w);
  }

  lemma SplitAround(s: seq<char>, at: nat, dot: nat)
    requires at < dot < |s| && s[at] == '@' && s[dot] == '.'
    ensures s == s[..at] + ['@'] + s[at + 1..dot] + ['.'] + s[dot + 1..]
  {
  }

  lemma EmailPatternComplete(s: seq<char>)
    requires WellFormedEmail(s)
    ensures Matches(EmailPattern, s)
  {
    var at :| 0 < at < |s| && s[at] == '@'
      && (forall i :: 0 <= i < |s| && s[i] == '@' ==> i == at)
      && exists dot :: at + 1 < dot < |s| - 1 && s[dot] == '.';
    var dot :| at + 1 < dot < |s| - 1 && s[dot] == '.';
    var p, q, w := s[..at], s[at + 1..dot], s[dot + 1..];
    assert AllIn(NotSpaceOrAt, p) by {
      forall i | 0 <= i < |p| ensures InClass(NotSpaceOrAt, p[i]) { assert p[i] == s[i]; }
    }
    assert AllIn(NotSpaceOrAt, q) by {
      forall i | 0 <= i < |q| ensures InClass(NotSpaceOrAt, q[i]) { assert q[i] == s[at + 1 + i]; }
    }
    assert AllIn(NotSpaceOrAt, w) by {
      forall i | 0 <= i < |w| ensures InClass(NotSpaceOrAt, w[i]) { assert w[i] == s[dot + 1 + i]; }
    }
    SplitAround(s, at, dot);
    SplitMatches(p, q, w);
  }

  lemma EmailPatternMeaning(s: seq<char>)
    ensures Matches(EmailPattern, s) <==> WellFormedEmail(s)
  {
    if Matches(EmailPattern, s) { EmailPatternSound(s); }
    if WellFormedEmail(s) { EmailPatternComplete(s); }
  }

  /** `validateEmail(email)` */
  function ValidateEmail(email: seq<char>): (r: bool)
    ensures r <==> WellFormedEmail(email)
  {
    EmailPatternMeaning(email);
    Matches(EmailPattern, email)
  }

  predicate IsWordChar(c: char)
  {
    IsUpperAscii(c) || IsLowerAscii(c) || IsDigit(c) || c == '_'
  }

  /** `validateUsername(username)`: 3 to 30 characters, each a letter, a
      digit or '_'. */
  function ValidateUsername(username: seq<char>): (r: bool)
    ensures r <==> (3 <= |username| <= 30 && forall i :: 0 <= i < |username| ==> IsWordChar(username[i]))
  {
    Matches(UsernamePattern, username)
  }
}
