/** JavaScript string primitives used by the application, with JavaScript's
    argument clamping made explicit. A string is a sequence of `char`, one
    element per UTF-16 code unit. */
module JsString {

  /** ECMAScript WhiteSpace and LineTerminator code points: the set matched
      by the regular-expression class `\s` and removed by `trim()`. */
  predicate IsWhitespace(c: char)
  {
    || c == '\t' || c == '\n' || c as int == 0x0B || c as int == 0x0C || c == '\r' || c == ' '
    || c as int == 0x00A0 || c as int == 0x1680
    || (0x2000 <= c as int <= 0x200A)
    || c as int == 0x2028 || c as int == 0x2029 || c as int == 0x202F
    || c as int == 0x205F || c as int == 0x3000 || c as int == 0xFEFF
  }

  predicate IsUpperAscii(c: char) { 'A' <= c <= 'Z' }

  predicate IsLowerAscii(c: char) { 'a' <= c <= 'z' }

  predicate IsDigit(c: char) { '0' <= c <= '9' }

  /** `toLowerCase` on one character, restricted to ASCII. */
  function LowerChar(c: char): (r: char)
    ensures !IsUpperAscii(r)
    ensures IsUpperAscii(c) ==> IsLowerAscii(r)
    ensures !IsUpperAscii(c) ==> r == c
  {
    if IsUpperAscii(c) then (c as int - 'A' as int + 'a' as int) as char else c
  }

  /** `String.prototype.toLowerCase`, restricted to ASCII. */
  function ToLower(s: seq<char>): (r: seq<char>)
    ensures |r| == |s|
    ensures forall i :: 0 <= i < |s| ==> r[i] == LowerChar(s[i])
  {
    seq(|s|, i requires 0 <= i < |s| => LowerChar(s[i]))
  }

  predicate IsLowerCased(s: seq<char>)
  {
    forall i :: 0 <= i < |s| ==> !IsUpperAscii(s[i])
  }

  lemma ToLowerIsLowerCased(s: seq<char>)
    ensures IsLowerCased(ToLower(s))
    ensures IsLowerCased(s) ==> ToLower(s) == s
  {
  }

  /** JavaScript clamps a position argument into [0, len]. */
  function Clamp(i: int, len: nat): (r: nat)
    ensures r <= len
    ensures 0 <= i <= len ==> r == i
  {
    if i < 0 then 0 else if i > len then len else i
  }

  /** `s.substring(a, b)`: both ends clamped, then swapped when a > b. */
  function Substring(s: seq<char>, a: int, b: int): (r: seq<char>)
    ensures 0 <= a <= b <= |s| ==> r == s[a..b]
    ensures 0 <= b <= a <= |s| ==> r == s[b..a]
  {
    var x, y := Clamp(a, |s|), Clamp(b, |s|);
    if x <= y then s[x..y] else s[y..x]
  }

  /** `s.startsWith(p)` */
  predicate StartsWith(s: seq<char>, p: seq<char>)
  {
    |p| <= |s| && s[..|p|] == p
  }

  /** `s.endsWith(p)` */
  predicate EndsWith(s: seq<char>, p: seq<char>)
  {
    |p| <= |s| && s[|s| - |p|..] == p
  }

  /** The first index at or after `k` holding `c`, or -1. */
  function IndexFrom(s: seq<char>, c: char, k: nat): (r: int)
    requires k <= |s|
    ensures r == -1 || (k <= r < |s| && s[r] == c)
    ensures r == -1 ==> forall j :: k <= j < |s| ==> s[j] != c
    ensures r != -1 ==> forall j :: k <= j < r ==> s[j] != c
    decreases |s| - k
  {
    if k == |s| then -1 else if s[k] == c then k else IndexFrom(s, c, k + 1)
  }

  /** `s.indexOf(c, from)` for a one-character search string. */
  function IndexOf(s: seq<char>, c: char, from: int): (r: int)
    ensures r == -1 || (Clamp(from, |s|) <= r < |s| && s[r] == c)
    ensures r == -1 ==> forall j :: Clamp(from, |s|) <= j < |s| ==> s[j] != c
    ensures r != -1 ==> forall j :: Clamp(from, |s|) <= j < r ==> s[j] != c
  {
    IndexFrom(s, c, Clamp(from, |s|))
  }

  /** The last index at or before `k` holding `c`, or -1. */
  function LastIndexAtOrBefore(s: seq<char>, c: char, k: int): (r: int)
    requires k < |s|
    ensures r == -1 || (0 <= r <= k && s[r] == c)
    ensures forall j :: 0 <= j <= k && r < j ==> s[j] != c
    decreases k + 1
  {
    if k < 0 then -1 else if s[k] == c then k else LastIndexAtOrBefore(s, c, k - 1)
  }

  /** `s.lastIndexOf(c, from)` for a one-character search string: `from` is
      clamped into [0, |s|] and the search runs downwards from there, so a
      negative `from` still examines index 0. */
  function LastIndexOf(s: seq<char>, c: char, from: int): (r: int)
    ensures r == -1 || (0 <= r <= Clamp(from, |s|) && r < |s| && s[r] == c)
    ensures forall j :: 0 <= j <= Clamp(from, |s|) && j < |s| && r < j ==> s[j] != c
  {
    var k := Clamp(from, |s|);
    LastIndexAtOrBefore(s, c, if k < |s| then k else |s| - 1)
  }

  /** `trimStart`: drops leading whitespace. */
  function TrimLeft(s: seq<char>): (r: seq<char>)
    ensures |r| <= |s| && r == s[|s| - |r|..]
    ensures r == [] || !IsWhitespace(r[0])
    ensures forall i :: 0 <= i < |s| - |r| ==> IsWhitespace(s[i])
  {
    if s != [] && IsWhitespace(s[0]) then TrimLeft(s[1..]) else s
  }

  /** `trimEnd`: drops trailing whitespace. */
  function TrimRight(s: seq<char>): (r: seq<char>)
    ensures |r| <= |s| && r == s[..|r|]
    ensures r == [] || !IsWhitespace(r[|r| - 1])
    ensures forall i :: |r| <= i < |s| ==> IsWhitespace(s[i])
  {
    if s != [] && IsWhitespace(s[|s| - 1]) then TrimRight(s[..|s| - 1]) else s
  }

  predicate IsTrimmed(s: seq<char>)
  {
    s == [] || (!IsWhitespace(s[0]) && !IsWhitespace(s[|s| - 1]))
  }

  /** `trim()` */
  function Trim(s: seq<char>): (r: seq<char>)
    ensures IsTrimmed(r)
  {
    var l := TrimLeft(s);
    var r := TrimRight(l);
    assert r != [] ==> r[0] == l[0];
    r
  }

  /** `trim()` removes the leading and trailing whitespace and nothing
      else: the result is a slice of the input, and all that is cut off
      before and after it is whitespace. */
  lemma TrimCutsOnlyWhitespace(s: seq<char>)
    ensures exists i, j :: 0 <= i <= j <= |s| && Trim(s) == s[i..j]
              && (forall k :: 0 <= k < i ==> IsWhitespace(s[k]))
              && (forall k :: j <= k < |s| ==> IsWhitespace(s[k]))
  {
    var l := TrimLeft(s);
    var r := Trim(s);
    var i := |s| - |l|;
    assert r == TrimRight(l);
    assert r == s[i..i + |r|];
    assert forall k :: i + |r| <= k < |s| ==> s[k] == l[k - i];
  }

  /** Trimming twice is trimming once. */
  lemma TrimIdempotent(s: seq<char>)
    ensures Trim(Trim(s)) == Trim(s)
  {
    TrimOfTrimmed(Trim(s));
  }

  lemma TrimOfTrimmed(s: seq<char>)
    requires IsTrimmed(s)
    ensures Trim(s) == s
  {
  }

  /** Trimming and ASCII lower-casing commute. */
  lemma {:induction false} LowerTrimCommute(s: seq<char>)
    ensures ToLower(Trim(s)) == Trim(ToLower(s))
  {
    LowerTrimRightOf(TrimLeft(s));
    LowerTrimLeft(s);
  }

  /** Lower-casing never turns a character into whitespace or back. */
  lemma LowerCharWhitespace(c: char)
    ensures IsWhitespace(LowerChar(c)) == IsWhitespace(c)
  {
  }

  lemma {:induction false} LowerTrimLeft(s: seq<char>)
    ensures ToLower(TrimLeft(s)) == TrimLeft(ToLower(s))
    decreases |s|
  {
    if s != [] {
      var l := ToLower(s);
      LowerCharWhitespace(s[0]);
      assert l[0] == LowerChar(s[0]);
      if IsWhitespace(s[0]) {
        assert l[1..] == ToLower(s[1..]);
        LowerTrimLeft(s[1..]);
        assert TrimLeft(l) == TrimLeft(l[1..]);
      } else {
        assert TrimLeft(l) == l;
      }
    }
  }

  lemma {:induction false} LowerTrimRightOf(s: seq<char>)
    ensures ToLower(TrimRight(s)) == TrimRight(ToLower(s))
    decreases |s|
  {
    if s != [] {
      var l := ToLower(s);
      var n := |s| - 1;
      LowerCharWhitespace(s[n]);
      assert l[n] == LowerChar(s[n]);
      if IsWhitespace(s[n]) {
        assert l[..n] == ToLower(s[..n]);
        LowerTrimRightOf(s[..n]);
        assert TrimRight(l) == TrimRight(l[..n]);
      } else {
        assert TrimRight(l) == l;
      }
    }
  }
}
