/** The new-post editor: the Markdown toolbar's text edits on the content
    textarea, the tag list and the image list. The textarea's value and
    selection are explicit: an edit maps (text, selectionStart,
    selectionEnd) to the new text and the selection the handler asks for. */
module Editor {
  import opened JsString
  import opened Models

  /** The new content and the requested `setSelectionRange(selStart, selEnd)`. */
  datatype Edit = Edit(text: seq<char>, selStart: int, selEnd: int)

  /** The prefixes `insertText` treats as line formats. */
  predicate IsBlockPrefix(before: seq<char>)
  {
    before == "# " || before == "## " || before == "> " || before == "- " || before == "1. "
  }

  /** A text is its three slices around two positions. */
  lemma Reassemble(text: seq<char>, i: nat, j: nat)
    requires i <= j <= |text|
    ensures text[..i] + text[i..j] + text[j..] == text
  {
  }

  predicate NoNewline(s: seq<char>)
  {
    forall j :: 0 <= j < |s| ==> s[j] != '\n'
  }

  lemma BlockPrefixHasNoNewline(before: seq<char>)
    requires IsBlockPrefix(before)
    ensures NoNewline(before) && |before| > 0
  {
  }

  // -------------------------------------------------------------------------
  // The current line

  /** The start of the line holding position `start`: just after the last
      '\n' before it, or 0. */
  function LineStart(text: seq<char>, start: nat): (r: nat)
    requires start <= |text|
    ensures r <= start
    ensures r == 0 || text[r - 1] == '\n'
    ensures forall j :: r <= j < start ==> text[j] != '\n'
  {
    if start == 0 then 0 else LastIndexOf(text, '\n', start - 1) + 1
  }

  /** The end of the line holding position `start`: the next '\n' at or
      after it, or the end of the text. */
  function LineEnd(text: seq<char>, start: nat): (r: nat)
    requires start <= |text|
    ensures start <= r <= |text|
    ensures r == |text| || text[r] == '\n'
    ensures forall j :: start <= j < r ==> text[j] != '\n'
  {
    var i := IndexOf(text, '\n', start);
    if i == -1 then |text| else i
  }

  /** The line bounds are determined by their defining properties. */
  lemma LineStartUnique(text: seq<char>, start: nat, r: nat)
    requires start <= |text| && r <= start
    requires r == 0 || text[r - 1] == '\n'
    requires forall j :: r <= j < start ==> text[j] != '\n'
    ensures LineStart(text, start) == r
  {
  }

  lemma LineEndUnique(text: seq<char>, start: nat, r: nat)
    requires start <= r <= |text|
    requires r == |text| || text[r] == '\n'
    requires forall j :: start <= j < r ==> text[j] != '\n'
    ensures LineEnd(text, start) == r
  {
  }

  // -------------------------------------------------------------------------
  // insertText

  /** The line format toggle on the line [lineStart, lineEnd): the prefix
      is removed when the line starts with it and prepended otherwise; the
      new selection covers the rest of the line. */
  function ToggleLine(text: seq<char>, lineStart: int, lineEnd: nat, before: seq<char>): Edit
    requires lineEnd <= |text|
  {
    var line := Substring(text, lineStart, lineEnd);
    if StartsWith(line, before) then
      Edit(Substring(text, 0, lineStart) + Substring(line, |before|, |line|) + Substring(text, lineEnd, |text|),
           lineStart, lineStart + |line| - |before|)
    else
      Edit(Substring(text, 0, lineStart) + before + line + Substring(text, lineEnd, |text|),
           lineStart + |before|, lineStart + |before| + |line|)
  }

  /** A collapsed cursor gets both markers, and stays between them. */
  function InsertMarkers(text: seq<char>, start: nat, before: seq<char>, after: seq<char>): Edit
    requires start <= |text|
  {
    Edit(Substring(text, 0, start) + before + after + Substring(text, start, |text|),
         start + |before|, start + |before|)
  }

  /** A selection already wrapped in the markers is unwrapped; any other
      selection is wrapped, and stays selected. */
  function FormatSelection(text: seq<char>, start: nat, end: nat, before: seq<char>, after: seq<char>): Edit
    requires start <= end <= |text|
  {
    var selected := Substring(text, start, end);
    if StartsWith(selected, before) && EndsWith(selected, after) then
      Edit(Substring(text, 0, start) + Substring(selected, |before|, |selected| - |after|)
           + Substring(text, end, |text|),
           start, end - (|before| + |after|))
    else
      Edit(Substring(text, 0, start) + before + selected + after + Substring(text, end, |text|),
           start + |before|, end + |before|)
  }

  /** The body of `insertText(before, after)` once the start of the current
      line is known: a line format with a collapsed cursor toggles on the
      current line, other formats insert or toggle markers. */
  function InsertTextAt(text: seq<char>, start: nat, end: nat, before: seq<char>,
                        after: seq<char>, lineStart: int): Edit
    requires start <= end <= |text|
  {
    if start == end && IsBlockPrefix(before) then ToggleLine(text, lineStart, LineEnd(text, start), before)
    else if start == end then InsertMarkers(text, start, before, after)
    else FormatSelection(text, start, end, before, after)
  }

  /** `insertText` as written: the line start is
      `text.lastIndexOf('\n', start - 1) + 1`. */
  function InsertTextAsWritten(text: seq<char>, start: nat, end: nat, before: seq<char>,
                               after: seq<char>): Edit
    requires start <= end <= |text|
  {
    InsertTextAt(text, start, end, before, after, LastIndexOf(text, '\n', start - 1) + 1)
  }

  /** `insertText` with the line start it evidently means: 0 when the cursor
      is at the very beginning of the text. */
  function InsertText(text: seq<char>, start: nat, end: nat, before: seq<char>,
                      after: seq<char>): Edit
    requires start <= end <= |text|
  {
    InsertTextAt(text, start, end, before, after, LineStart(text, start))
  }

  /** With the cursor at 0 before a leading '\n', `lastIndexOf` clamps its
      position -1 to 0, finds that '\n' and puts the line start after the
      cursor: the prefix lands on the wrong line and the newline is
      duplicated. */
  lemma InsertTextLineStartCounterexample()
    ensures InsertTextAsWritten("\nabc", 0, 0, "# ", "") == Edit("\n# \n\nabc", 3, 4)
    ensures InsertText("\nabc", 0, 0, "# ", "") == Edit("# \nabc", 2, 2)
  {
    var t := "\nabc";
    assert LastIndexOf(t, '\n', -1) == 0;
    assert LineEnd(t, 0) == 0;
    assert Substring(t, 1, 0) == "\n";
    assert LineStart(t, 0) == 0;
    assert Substring(t, 0, 0) == [];
  }

  /** That is the only kind of input on which the two differ: the line
      start matters only to a line format with a collapsed cursor. */
  lemma InsertTextAsWrittenAgrees(text: seq<char>, start: nat, end: nat, before: seq<char>, after: seq<char>)
    requires start <= end <= |text|
    requires start > 0 || text == [] || text[0] != '\n' || start != end || !IsBlockPrefix(before)
    ensures InsertTextAsWritten(text, start, end, before, after) == InsertText(text, start, end, before, after)
  {
    if start == end && IsBlockPrefix(before) && start == 0 && text != [] {
      assert LastIndexOf(text, '\n', -1) == -1;
    }
  }

  /** The toggle on a line given by its bounds, in slices. */
  lemma ToggleLineSlices(text: seq<char>, ls: nat, le: nat, before: seq<char>)
    requires ls <= le <= |text|
    ensures var line := text[ls..le];
            ToggleLine(text, ls, le, before) ==
              if StartsWith(line, before) then Edit(text[..ls] + line[|before|..] + text[le..], ls, le - |before|)
              else Edit(text[..ls] + before + line + text[le..], ls + |before|, le + |before|)
  {
  }

  /** The block toggle: the current line loses the prefix when it starts with
      it and gains it otherwise; the text before and after the line is
      unchanged. */
  lemma BlockToggle(text: seq<char>, c: nat, before: seq<char>)
    requires c <= |text| && IsBlockPrefix(before)
    ensures var ls, le := LineStart(text, c), LineEnd(text, c);
            var line := text[ls..le];
            InsertText(text, c, c, before, "") ==
              if StartsWith(line, before) then Edit(text[..ls] + line[|before|..] + text[le..], ls, le - |before|)
              else Edit(text[..ls] + before + line + text[le..], ls + |before|, le + |before|)
  {
    ToggleLineSlices(text, LineStart(text, c), LineEnd(text, c), before);
  }

  /** The cursor anywhere on a line rewritten to `mid` finds that line. */
  lemma ToggledLineBounds(text: seq<char>, ls: nat, le: nat, mid: seq<char>, c: nat)
    requires ls <= le <= |text| && (ls == 0 || text[ls - 1] == '\n')
    requires le == |text| || text[le] == '\n'
    requires NoNewline(mid) && ls <= c <= ls + |mid|
    ensures var t := text[..ls] + mid + text[le..];
            c <= |t| && LineStart(t, c) == ls && LineEnd(t, c) == ls + |mid|
            && t[ls..ls + |mid|] == mid
  {
    var t := text[..ls] + mid + text[le..];
    assert forall j :: ls <= j < ls + |mid| ==> t[j] == mid[j - ls];
    assert ls > 0 ==> t[ls - 1] == text[ls - 1];
    assert ls + |mid| < |t| ==> t[ls + |mid|] == text[le];
    LineStartUnique(t, c, ls);
    LineEndUnique(t, c, ls + |mid|);
  }

  /** The cursor on a line rewritten to `line` with the prefix finds it and
      strips the prefix again. */
  lemma StripRewritten(text: seq<char>, ls: nat, le: nat, before: seq<char>, c': nat)
    requires ls <= le <= |text| && (ls == 0 || text[ls - 1] == '\n')
    requires le == |text| || text[le] == '\n'
    requires NoNewline(before + text[ls..le]) && ls <= c' <= ls + |before| + (le - ls)
    ensures var t := text[..ls] + (before + text[ls..le]) + text[le..];
            c' <= |t| && ToggleLine(t, LineStart(t, c'), LineEnd(t, c'), before).text == text
  {
    var mid := before + text[ls..le];
    ToggledLineBounds(text, ls, le, mid, c');
    StripAfterAdd(text, ls, le, before);
  }

  /** Stripping the prefix from a line it was just added to. */
  lemma StripAfterAdd(text: seq<char>, ls: nat, le: nat, before: seq<char>)
    requires ls <= le <= |text|
    ensures var mid := before + text[ls..le];
            var t := text[..ls] + mid + text[le..];
            ToggleLine(t, ls, ls + |mid|, before).text == text
  {
    var mid := before + text[ls..le];
    var t := text[..ls] + mid + text[le..];
    ToggleLineSlices(t, ls, ls + |mid|, before);
    assert t[ls..ls + |mid|] == mid;
    assert mid[..|before|] == before;
    assert mid[|before|..] == text[ls..le];
    assert t[..ls] == text[..ls];
    assert t[ls + |mid|..] == text[le..];
    Reassemble(text, ls, le);
  }

  /** The cursor on a line rewritten to `mid`, the line without its prefix,
      finds it and puts the prefix back. */
  lemma AddRewritten(text: seq<char>, ls: nat, le: nat, mid: seq<char>, before: seq<char>, c': nat)
    requires ls <= le <= |text| && (ls == 0 || text[ls - 1] == '\n')
    requires le == |text| || text[le] == '\n'
    requires NoNewline(mid) && ls <= c' <= ls + |mid|
    requires !StartsWith(mid, before) && before + mid == text[ls..le]
    ensures var t := text[..ls] + mid + text[le..];
            c' <= |t| && ToggleLine(t, LineStart(t, c'), LineEnd(t, c'), before).text == text
  {
    var t := text[..ls] + mid + text[le..];
    ToggledLineBounds(text, ls, le, mid, c');
    ToggleLineSlices(t, ls, ls + |mid|, before);
    assert t[ls..ls + |mid|] == mid;
    assert t[..ls] == text[..ls];
    assert t[ls + |mid|..] == text[le..];
    var r := ToggleLine(t, ls, ls + |mid|, before).text;
    assert r == text[..ls] + before + mid + text[le..];
    Associate(text[..ls], before, mid, text[le..]);
    Reassemble(text, ls, le);
  }

  lemma Associate(a: seq<char>, b: seq<char>, c: seq<char>, d: seq<char>)
    ensures a + b + c + d == a + (b + c) + d
  {
  }

  lemma NoNewlineSlice(s: seq<char>, i: nat, j: nat)
    requires NoNewline(s) && i <= j <= |s|
    ensures NoNewline(s[i..j])
  {
    assert forall k :: 0 <= k < j - i ==> s[i..j][k] == s[i + k];
  }

  lemma NoNewlineConcat(a: seq<char>, b: seq<char>)
    requires NoNewline(a) && NoNewline(b)
    ensures NoNewline(a + b)
  {
    assert forall k :: 0 <= k < |a + b| ==> (a + b)[k] == if k < |a| then a[k] else b[k - |a|];
  }

  /** Toggling a line twice, unless the line carried the prefix twice,
      restores the text. */
  lemma ToggleTwice(text: seq<char>, ls: nat, le: nat, before: seq<char>, c': nat)
    requires ls <= le <= |text| && (ls == 0 || text[ls - 1] == '\n')
    requires le == |text| || text[le] == '\n'
    requires NoNewline(before) && NoNewline(text[ls..le])
    requires var line := text[ls..le];
             !StartsWith(line, before) || !StartsWith(line[|before|..], before)
    requires var t := ToggleLine(text, ls, le, before).text;
             ls <= c' <= |t| - (|text| - le)
    ensures var t := ToggleLine(text, ls, le, before).text;
            c' <= |t| && ToggleLine(t, LineStart(t, c'), LineEnd(t, c'), before).text == text
  {
    var line := text[ls..le];
    ToggleLineSlices(text, ls, le, before);
    if StartsWith(line, before) {
      var mid := line[|before|..];
      NoNewlineSlice(line, |before|, |line|);
      assert before + mid == line;
      AddRewritten(text, ls, le, mid, before, c');
    } else {
      NoNewlineConcat(before, line);
      Associate(text[..ls], before, line, text[le..]);
      StripRewritten(text, ls, le, before, c');
    }
  }

  /** Toggling a line format twice with the cursor on the same line restores
      the text, unless the line carried the prefix twice. */
  lemma BlockToggleTwice(text: seq<char>, c: nat, before: seq<char>, c': nat)
    requires c <= |text| && IsBlockPrefix(before)
    requires var line := text[LineStart(text, c)..LineEnd(text, c)];
             !StartsWith(line, before) || !StartsWith(line[|before|..], before)
    requires var t := InsertText(text, c, c, before, "").text;
             LineStart(text, c) <= c' <= |t| - (|text| - LineEnd(text, c))
    ensures var t := InsertText(text, c, c, before, "").text;
            c' <= |t| && InsertText(t, c', c', before, "").text == text
  {
    var ls, le := LineStart(text, c), LineEnd(text, c);
    BlockPrefixHasNoNewline(before);
    assert NoNewline(text[ls..le]);
    ToggleTwice(text, ls, le, before, c');
  }

  /** The marker insertion, in slices. */
  lemma InsertMarkersSlices(text: seq<char>, c: nat, before: seq<char>, after: seq<char>)
    requires c <= |text|
    ensures InsertMarkers(text, c, before, after)
         == Edit(text[..c] + before + after + text[c..], c + |before|, c + |before|)
  {
  }

  /** With nothing selected, an inline format inserts both markers at the
      cursor and leaves the cursor between them. */
  lemma InlineInsert(text: seq<char>, c: nat, before: seq<char>, after: seq<char>)
    requires c <= |text| && !IsBlockPrefix(before)
    ensures InsertText(text, c, c, before, after)
         == Edit(text[..c] + before + after + text[c..], c + |before|, c + |before|)
  {
    InsertMarkersSlices(text, c, before, after);
  }

  /** Wrapping a selection keeps the text around it, and the new selection
      covers exactly the originally selected text. */
  lemma WrapSelection(text: seq<char>, s: nat, e: nat, before: seq<char>, after: seq<char>)
    requires s < e <= |text|
    requires !(StartsWith(text[s..e], before) && EndsWith(text[s..e], after))
    ensures var r := InsertText(text, s, e, before, after);
            && r.text == text[..s] + before + text[s..e] + after + text[e..]
            && r.selStart == s + |before| && r.selEnd == e + |before|
            && r.text[r.selStart..r.selEnd] == text[s..e]
  {
    assert Substring(text, s, e) == text[s..e];
    var r := FormatSelection(text, s, e, before, after);
    assert r.text == (text[..s] + before) + text[s..e] + (after + text[e..]);
    MiddleSlice(text[..s] + before, text[s..e], after + text[e..]);
  }

  /** The middle piece of a concatenation, sliced back out. */
  lemma MiddleSlice(a: seq<char>, m: seq<char>, b: seq<char>)
    ensures (a + m + b)[|a|..|a| + |m|] == m
  {
  }

  /** Unwrapping a selection that carries both markers removes exactly them. */
  lemma UnwrapSelection(text: seq<char>, s: nat, e: nat, before: seq<char>, after: seq<char>)
    requires s < e <= |text|
    requires StartsWith(text[s..e], before) && EndsWith(text[s..e], after)
    requires |before| + |after| <= e - s
    ensures InsertText(text, s, e, before, after)
         == Edit(text[..s] + text[s + |before|..e - |after|] + text[e..], s, e - |before| - |after|)
  {
    var sel := text[s..e];
    assert Substring(text, s, e) == sel;
    assert Substring(text, 0, s) == text[..s];
    assert Substring(text, e, |text|) == text[e..];
    assert Substring(sel, |before|, |sel| - |after|) == sel[|before|..|sel| - |after|];
    SliceOfSlice(text, s, e, |before|, |sel| - |after|);
    assert InsertText(text, s, e, before, after) == FormatSelection(text, s, e, before, after);
  }

  /** A slice of a slice is a slice of the whole. */
  lemma SliceOfSlice(t: seq<char>, s: nat, e: nat, i: nat, j: nat)
    requires s <= e <= |t| && i <= j <= e - s
    ensures t[s..e][i..j] == t[s + i..s + j]
  {
    assert forall k :: 0 <= k < j - i ==> t[s..e][i..j][k] == t[s + i + k];
  }

  /** The wrapped selection carries both markers. */
  lemma WrappedCarriesMarkers(text: seq<char>, s: nat, e: nat, before: seq<char>, after: seq<char>)
    requires s <= e <= |text|
    ensures var t := text[..s] + before + text[s..e] + after + text[e..];
            var e' := e + |before| + |after|;
            && e' <= |t| && t[s..e'] == before + text[s..e] + after
            && StartsWith(t[s..e'], before) && EndsWith(t[s..e'], after)
            && t[s + |before|..e' - |after|] == text[s..e]
            && t[..s] == text[..s] && t[e'..] == text[e..]
  {
    var t := text[..s] + before + text[s..e] + after + text[e..];
    var e' := e + |before| + |after|;
    var w := before + text[s..e] + after;
    assert t == text[..s] + w + text[e..];
    assert t[s..e'] == w;
    assert w[..|before|] == before;
    assert w[|w| - |after|..] == after;
    assert w[|before|..|w| - |after|] == text[s..e];
  }

  /** Wrapping and then unwrapping the wrapped text restores text and
      selection. */
  lemma WrapThenUnwrap(text: seq<char>, s: nat, e: nat, before: seq<char>, after: seq<char>)
    requires s < e <= |text|
    requires !(StartsWith(text[s..e], before) && EndsWith(text[s..e], after))
    ensures var t := InsertText(text, s, e, before, after).text;
            e + |before| + |after| <= |t|
            && InsertText(t, s, e + |before| + |after|, before, after) == Edit(text, s, e)
  {
    WrapSelection(text, s, e, before, after);
    UnwrapWrapped(text, s, e, before, after);
  }

  /** Formatting the wrapped selection again unwraps it. */
  lemma UnwrapWrapped(text: seq<char>, s: nat, e: nat, before: seq<char>, after: seq<char>)
    requires s < e <= |text|
    ensures var t := text[..s] + before + text[s..e] + after + text[e..];
            e + |before| + |after| <= |t|
            && InsertText(t, s, e + |before| + |after|, before, after) == Edit(text, s, e)
  {
    var t := text[..s] + before + text[s..e] + after + text[e..];
    var e' := e + |before| + |after|;
    WrappedCarriesMarkers(text, s, e, before, after);
    UnwrapSelection(t, s, e', before, after);
    Reassemble(text, s, e);
  }

  // -------------------------------------------------------------------------
  // handleToolbarClick

  const LinkAction: seq<char> := "[](url)"
  const LinkPlaceholder: seq<char> := "[Link text](url)"

  /** `handleToolbarClick(action)` as written: line formats pass an empty
      closing marker, the link button wraps a selection in `[`..`](url)` or,
      with nothing selected, inserts the placeholder (as both markers, since
      `after` defaults to `before`) and then selects "Link text"; every other
      action is its own closing marker. */
  function ToolbarEditAsWritten(text: seq<char>, start: nat, end: nat, action: seq<char>): Edit
    requires start <= end <= |text|
  {
    if IsBlockPrefix(action) then InsertTextAsWritten(text, start, end, action, "")
    else if action == LinkAction then
      if Substring(text, start, end) != [] then InsertTextAsWritten(text, start, end, "[", "](url)")
      else Edit(InsertTextAsWritten(text, start, end, LinkPlaceholder, LinkPlaceholder).text, start + 1, start + 10)
    else InsertTextAsWritten(text, start, end, action, action)
  }

  /** The toolbar as evidently intended: the corrected line start, and a
      single link placeholder. */
  function ToolbarEdit(text: seq<char>, start: nat, end: nat, action: seq<char>): Edit
    requires start <= end <= |text|
  {
    if IsBlockPrefix(action) then InsertText(text, start, end, action, "")
    else if action == LinkAction then
      if Substring(text, start, end) != [] then InsertText(text, start, end, "[", "](url)")
      else Edit(InsertText(text, start, end, LinkPlaceholder, "").text, start + 1, start + 10)
    else InsertText(text, start, end, action, action)
  }

  /** As written, the link button with nothing selected inserts the
      placeholder twice and selects "Link text" in the first copy. */
  lemma LinkWithoutSelectionAsWritten(text: seq<char>, c: nat)
    requires c <= |text|
    ensures var r := ToolbarEditAsWritten(text, c, c, LinkAction);
            && r.text == text[..c] + LinkPlaceholder + LinkPlaceholder + text[c..]
            && r.selStart == c + 1 && r.selEnd == c + 10
            && r.text[r.selStart..r.selEnd] == "Link text"
  {
    LinkIsInline();
    InsertTextAsWrittenAgrees(text, c, c, LinkPlaceholder, LinkPlaceholder);
    var t := InsertText(text, c, c, LinkPlaceholder, LinkPlaceholder).text;
    InlineInsert(text, c, LinkPlaceholder, LinkPlaceholder);
    SliceWithin(t, c, LinkPlaceholder, 1, 10);
  }

  /** Corrected, the link button with nothing selected inserts one
      placeholder and selects its "Link text". */
  lemma LinkWithoutSelection(text: seq<char>, c: nat)
    requires c <= |text|
    ensures var r := ToolbarEdit(text, c, c, LinkAction);
            && r.text == text[..c] + LinkPlaceholder + text[c..]
            && r.selStart == c + 1 && r.selEnd == c + 10
            && r.text[r.selStart..r.selEnd] == "Link text"
  {
    LinkIsInline();
    var t := InsertText(text, c, c, LinkPlaceholder, "").text;
    InlineInsert(text, c, LinkPlaceholder, "");
    assert t == text[..c] + LinkPlaceholder + text[c..];
    SliceWithin(t, c, LinkPlaceholder, 1, 10);
  }

  lemma LinkIsInline()
    ensures !IsBlockPrefix(LinkAction) && !IsBlockPrefix(LinkPlaceholder)
    ensures |LinkPlaceholder| == 16 && LinkPlaceholder[1..10] == "Link text"
  {
  }

  /** A slice of an embedded piece is the same slice of the piece. */
  lemma SliceWithin(t: seq<char>, c: nat, p: seq<char>, lo: nat, hi: nat)
    requires c + |p| <= |t| && t[c..c + |p|] == p && lo <= hi <= |p|
    ensures t[c + lo..c + hi] == p[lo..hi]
  {
    assert forall k :: 0 <= k < |p| ==> p[k] == t[c + k];
  }

  /** The link button with a selection makes it the link text. */
  lemma LinkWithSelection(text: seq<char>, s: nat, e: nat)
    requires s < e <= |text|
    requires !(StartsWith(text[s..e], "[") && EndsWith(text[s..e], "](url)"))
    ensures ToolbarEdit(text, s, e, LinkAction).text == text[..s] + "[" + text[s..e] + "](url)" + text[e..]
    ensures ToolbarEditAsWritten(text, s, e, LinkAction) == ToolbarEdit(text, s, e, LinkAction)
  {
    WrapSelection(text, s, e, "[", "](url)");
    InsertTextAsWrittenAgrees(text, s, e, "[", "](url)");
  }

  /** The toolbar as written and as corrected differ only on the two
      findings: a line format with the cursor at 0 before a leading newline,
      and the link button with nothing selected. */
  lemma ToolbarAsWrittenAgrees(text: seq<char>, start: nat, end: nat, action: seq<char>)
    requires start <= end <= |text|
    requires !(action == LinkAction && start == end)
    requires !(IsBlockPrefix(action) && start == end == 0 && text != [] && text[0] == '\n')
    ensures ToolbarEditAsWritten(text, start, end, action) == ToolbarEdit(text, start, end, action)
  {
    LinkIsInline();
    if IsBlockPrefix(action) {
      InsertTextAsWrittenAgrees(text, start, end, action, "");
    } else if action == LinkAction {
      InsertTextAsWrittenAgrees(text, start, end, "[", "](url)");
    } else {
      InsertTextAsWrittenAgrees(text, start, end, action, action);
    }
  }

  /** The line-start finding, as the toolbar's heading button shows it. */
  lemma ToolbarLineStartCounterexample()
    ensures ToolbarEditAsWritten("\nabc", 0, 0, "# ") == Edit("\n# \n\nabc", 3, 4)
    ensures ToolbarEdit("\nabc", 0, 0, "# ") == Edit("# \nabc", 2, 2)
  {
    InsertTextLineStartCounterexample();
  }

  // -------------------------------------------------------------------------
  // Tags

  /** A tag as the editor stores it: non-empty, trimmed, lower-case. */
  predicate IsNormalTag(t: seq<char>)
  {
    t != [] && IsTrimmed(t) && IsLowerCased(t)
  }

  predicate DistinctTags(tags: seq<seq<char>>)
  {
    forall i, j :: 0 <= i < j < |tags| ==> tags[i] != tags[j]
  }

  /** The tag list the editor keeps: distinct, normalised tags. */
  predicate TagListInvariant(tags: seq<seq<char>>)
  {
    DistinctTags(tags) && forall i :: 0 <= i < |tags| ==> IsNormalTag(tags[i])
  }

  /** The tag the input field yields: trimmed, then lower-cased; the same
      normalisation the post schema applies on save. */
  function EnteredTag(input: seq<char>): (r: seq<char>)
    ensures r == NormalizeTag(input)
    ensures r == [] <==> Trim(input) == []
  {
    LowerTrimCommute(input);
    ToLower(Trim(input))
  }

  /** The tags and the input field after `handleTagInputKeyDown`: on Enter
      with a non-blank input, a new tag is appended and the input cleared;
      a tag already present changes nothing. No cap on the number of tags
      is applied here. */
  function TagKeyDown(tags: seq<seq<char>>, input: seq<char>, key: seq<char>): (seq<seq<char>>, seq<char>)
  {
    if key == "Enter" && Trim(input) != [] then
      var newTag := EnteredTag(input);
      if newTag !in tags && |newTag| > 0 then (tags + [newTag], []) else (tags, input)
    else (tags, input)
  }

  /** Enter on a blank input, or on a tag already in the list, changes
      nothing; otherwise the normalised tag is appended and the field
      emptied. */
  lemma TagKeyDownEffect(tags: seq<seq<char>>, input: seq<char>, key: seq<char>)
    ensures var r := TagKeyDown(tags, input, key);
            var added := key == "Enter" && Trim(input) != [] && NormalizeTag(input) !in tags;
            && (added ==> r == (tags + [NormalizeTag(input)], []) && |r.0| == |tags| + 1)
            && (!added ==> r == (tags, input))
  {
  }

  /** Appending a normal tag that is not yet present keeps the list's
      invariant. */
  lemma AppendTagKeepsInvariant(tags: seq<seq<char>>, t: seq<char>)
    requires TagListInvariant(tags) && IsNormalTag(t) && t !in tags
    ensures TagListInvariant(tags + [t])
  {
    var r := tags + [t];
    forall i, j | 0 <= i < j < |r| ensures r[i] != r[j] {
      if j == |tags| {
        assert r[i] == tags[i];
      } else {
        assert r[i] == tags[i] && r[j] == tags[j];
      }
    }
  }

  lemma TagKeyDownKeepsInvariant(tags: seq<seq<char>>, input: seq<char>, key: seq<char>)
    requires TagListInvariant(tags)
    ensures TagListInvariant(TagKeyDown(tags, input, key).0)
  {
    var t := EnteredTag(input);
    TagKeyDownEffect(tags, input, key);
    if key == "Enter" && Trim(input) != [] && t !in tags {
      AppendTagKeepsInvariant(tags, t);
    }
  }

  /** `tags.filter(tag => tag !== tagToRemove)` */
  function WithoutTag(tags: seq<seq<char>>, t: seq<char>): (r: seq<seq<char>>)
    ensures |r| <= |tags|
  {
    if tags == [] then []
    else if tags[|tags| - 1] != t then WithoutTag(tags[..|tags| - 1], t) + [tags[|tags| - 1]]
    else WithoutTag(tags[..|tags| - 1], t)
  }

  /** The filter keeps exactly the other tags. */
  lemma {:induction false} WithoutTagMembers(tags: seq<seq<char>>, t: seq<char>, x: seq<char>)
    ensures x in WithoutTag(tags, t) <==> x in tags && x != t
  {
    if tags != [] {
      WithoutTagMembers(tags[..|tags| - 1], t, x);
      assert tags == tags[..|tags| - 1] + [tags[|tags| - 1]];
    }
  }

  lemma {:induction false} WithoutAbsentTag(tags: seq<seq<char>>, t: seq<char>)
    requires t !in tags
    ensures WithoutTag(tags, t) == tags
  {
    if tags != [] {
      WithoutAbsentTag(tags[..|tags| - 1], t);
      assert tags == tags[..|tags| - 1] + [tags[|tags| - 1]];
    }
  }

  /** In a list without duplicates, removing a tag deletes its one position
      and keeps the other tags in order. */
  lemma {:induction false} WithoutTagAt(tags: seq<seq<char>>, i: nat)
    requires i < |tags| && DistinctTags(tags)
    ensures WithoutTag(tags, tags[i]) == tags[..i] + tags[i + 1..]
  {
    var n := |tags|;
    var init := tags[..n - 1];
    if i == n - 1 {
      assert tags[i] !in init by {
        forall k | 0 <= k < |init| ensures init[k] != tags[i] {
          assert init[k] == tags[k];
        }
      }
      WithoutAbsentTag(init, tags[i]);
      assert init == tags[..i] + tags[i + 1..];
    } else {
      assert DistinctTags(init) by {
        forall a, b | 0 <= a < b < |init| ensures init[a] != init[b] {
          assert init[a] == tags[a] && init[b] == tags[b];
        }
      }
      WithoutTagAt(init, i);
      assert init[i] == tags[i];
      assert init[..i] + init[i + 1..] + [tags[n - 1]] == tags[..i] + tags[i + 1..];
    }
  }

  lemma RemoveAtIndex<T>(s: seq<T>, i: nat, k: nat)
    requires i < |s| && k < |s| - 1
    ensures (s[..i] + s[i + 1..])[k] == s[if k < i then k else k + 1]
  {
  }

  lemma WithoutTagKeepsInvariant(tags: seq<seq<char>>, t: seq<char>)
    requires TagListInvariant(tags)
    ensures TagListInvariant(WithoutTag(tags, t))
  {
    if t in tags {
      var i :| 0 <= i < |tags| && tags[i] == t;
      WithoutTagAt(tags, i);
      var r := WithoutTag(tags, t);
      forall a | 0 <= a < |r| ensures IsNormalTag(r[a]) {
        RemoveAtIndex(tags, i, a);
      }
      forall a, b | 0 <= a < b < |r| ensures r[a] != r[b] {
        RemoveAtIndex(tags, i, a);
        RemoveAtIndex(tags, i, b);
      }
    } else {
      WithoutAbsentTag(tags, t);
    }
  }

  // -------------------------------------------------------------------------
  // Images

  const MaxImageSize: nat := 5 * 1024 * 1024
  const MaxTotalImageSize: nat := 20 * 1024 * 1024

  datatype ImageFile = ImageFile(name: seq<char>, size: nat, mimeType: seq<char>)

  /** `files.reduce((acc, file) => acc + file.size, 0)` */
  function TotalSize(files: seq<ImageFile>): nat
  {
    if files == [] then 0 else TotalSize(files[..|files| - 1]) + files[|files| - 1].size
  }

  lemma {:induction false} TotalSizeConcat(a: seq<ImageFile>, b: seq<ImageFile>)
    ensures TotalSize(a + b) == TotalSize(a) + TotalSize(b)
    decreases |b|
  {
    if b != [] {
      assert (a + b)[..|a + b| - 1] == a + b[..|b| - 1];
      TotalSizeConcat(a, b[..|b| - 1]);
    } else {
      assert a + b == a;
    }
  }

  /** A file the editor accepts: at most 5 MiB, with an `image/` type. */
  predicate Admissible(f: ImageFile)
  {
    f.size <= MaxImageSize && StartsWith(f.mimeType, "image/")
  }

  function Admitted(files: seq<ImageFile>): (r: seq<ImageFile>)
    ensures forall k :: 0 <= k < |r| ==> Admissible(r[k])
    ensures TotalSize(r) <= TotalSize(files)
  {
    if files == [] then []
    else if Admissible(files[|files| - 1]) then
      var last := files[|files| - 1];
      TotalSizeConcat(Admitted(files[..|files| - 1]), [last]);
      assert [last][..0] == [];
      Admitted(files[..|files| - 1]) + [last]
    else Admitted(files[..|files| - 1])
  }

  /** The preview URLs of the admitted files; `urls[k]` is the object URL
      made for `files[k]`. */
  function AdmittedUrls(files: seq<ImageFile>, urls: seq<seq<char>>): (r: seq<seq<char>>)
    requires |urls| == |files|
    ensures |r| == |Admitted(files)|
  {
    if files == [] then []
    else if Admissible(files[|files| - 1]) then
      AdmittedUrls(files[..|files| - 1], urls[..|urls| - 1]) + [urls[|urls| - 1]]
    else AdmittedUrls(files[..|files| - 1], urls[..|urls| - 1])
  }

  /** The image lists the editor keeps: aligned, every file admissible, at
      most 20 MiB in all. */
  predicate ImageListInvariant(images: seq<ImageFile>, previews: seq<seq<char>>)
  {
    && |images| == |previews|
    && (forall k :: 0 <= k < |images| ==> Admissible(images[k]))
    && TotalSize(images) <= MaxTotalImageSize
  }

  /** Removing index `index` from both lists keeps them aligned. */
  lemma RemoveImageKeepsInvariant(images: seq<ImageFile>, previews: seq<seq<char>>, index: nat)
    requires ImageListInvariant(images, previews) && index < |images|
    ensures ImageListInvariant(images[..index] + images[index + 1..], previews[..index] + previews[index + 1..])
  {
    assert images == images[..index] + [images[index]] + images[index + 1..];
    TotalSizeConcat(images[..index] + [images[index]], images[index + 1..]);
    TotalSizeConcat(images[..index], [images[index]]);
    TotalSizeConcat(images[..index], images[index + 1..]);
  }

  const TotalSizeError: seq<char> := "Total image size must be less than 20MB"

  // -------------------------------------------------------------------------
  // The component state

  class NewPostForm {
    var content: seq<char>
    var tags: seq<seq<char>>
    var tagInput: seq<char>
    var selectedImages: seq<ImageFile>
    var imagePreviews: seq<seq<char>>
    var error: seq<char>

    ghost predicate Valid()
      reads this
    {
      TagListInvariant(tags) && ImageListInvariant(selectedImages, imagePreviews)
    }

    constructor ()
      ensures Valid()
      ensures content == [] && tags == [] && tagInput == []
      ensures selectedImages == [] && imagePreviews == [] && error == []
    {
      content, tags, tagInput := [], [], [];
      selectedImages, imagePreviews, error := [], [], [];
    }

    /** A toolbar button pressed with the textarea's selection at
        [start, end); returns the selection the handler requests. */
    method ToolbarClick(action: seq<char>, start: nat, end: nat) returns (selStart: int, selEnd: int)
      requires start <= end <= |content|
      modifies this
      ensures content == ToolbarEdit(old(content), start, end, action).text
      ensures selStart == ToolbarEdit(old(content), start, end, action).selStart
      ensures selEnd == ToolbarEdit(old(content), start, end, action).selEnd
      ensures tags == old(tags) && tagInput == old(tagInput) && error == old(error)
      ensures selectedImages == old(selectedImages) && imagePreviews == old(imagePreviews)
    {
      var e := ToolbarEdit(content, start, end, action);
      content := e.text;
      selStart, selEnd := e.selStart, e.selEnd;
    }

    /** `handleTagInputKeyDown` for a key press in the tag field. */
    method TagInputKeyDown(key: seq<char>)
      requires Valid()
      modifies this
      ensures Valid()
      ensures tags == TagKeyDown(old(tags), old(tagInput), key).0
      ensures tagInput == TagKeyDown(old(tags), old(tagInput), key).1
      ensures content == old(content) && error == old(error)
      ensures selectedImages == old(selectedImages) && imagePreviews == old(imagePreviews)
    {
      var next := TagKeyDown(tags, tagInput, key);
      TagKeyDownKeepsInvariant(tags, tagInput, key);
      assert TagListInvariant(next.0);
      tags := next.0;
      tagInput := next.1;
    }

    /** `removeTag(tagToRemove)` */
    method RemoveTag(t: seq<char>)
      requires Valid()
      modifies this
      ensures Valid()
      ensures tags == WithoutTag(old(tags), t)
      ensures content == old(content) && tagInput == old(tagInput) && error == old(error)
      ensures selectedImages == old(selectedImages) && imagePreviews == old(imagePreviews)
    {
      WithoutTagKeepsInvariant(tags, t);
      tags := WithoutTag(tags, t);
    }

    /** `handleImageChange` for the chosen `files`; `urls[k]` is the object
        URL made for `files[k]`. Over 20 MiB in all, nothing is added;
        otherwise each admissible file is appended with its preview, and the
        error is cleared at the end, which also hides the per-file messages
        set for skipped files. */
    method HandleImageChange(files: seq<ImageFile>, urls: seq<seq<char>>)
      requires Valid() && |urls| == |files|
      modifies this
      ensures Valid()
      ensures TotalSize(files) + TotalSize(old(selectedImages)) > MaxTotalImageSize ==>
                && selectedImages == old(selectedImages) && imagePreviews == old(imagePreviews)
                && error == TotalSizeError
      ensures TotalSize(files) + TotalSize(old(selectedImages)) <= MaxTotalImageSize ==>
                && selectedImages == old(selectedImages) + Admitted(files)
                && imagePreviews == old(imagePreviews) + AdmittedUrls(files, urls)
                && error == []
      ensures content == old(content) && tags == old(tags) && tagInput == old(tagInput)
    {
      var totalSize := TotalSize(files);
      totalSize := totalSize + TotalSize(selectedImages);
      if totalSize > MaxTotalImageSize {
        error := TotalSizeError;
        return;
      }
      ghost var images0, previews0 := selectedImages, imagePreviews;
      for i := 0 to |files|
        invariant selectedImages == images0 + Admitted(files[..i])
        invariant imagePreviews == previews0 + AdmittedUrls(files[..i], urls[..i])
        invariant content == old(content) && tags == old(tags) && tagInput == old(tagInput)
      {
        var file := files[i];
        assert files[..i + 1][..i] == files[..i] && urls[..i + 1][..i] == urls[..i];
        if file.size > MaxImageSize {
          error := "Image " + file.name + " is larger than 5MB";
        } else if !StartsWith(file.mimeType, "image/") {
          error := "File " + file.name + " is not an image";
        } else {
          selectedImages := selectedImages + [file];
          imagePreviews := imagePreviews + [urls[i]];
        }
      }
      assert files[..|files|] == files && urls[..|urls|] == urls;
      error := [];
      TotalSizeConcat(images0, Admitted(files));
    }

    /** `removeImage(index)`: the file and its preview leave together. */
    method RemoveImage(index: nat)
      requires Valid() && index < |imagePreviews|
      modifies this
      ensures Valid()
      ensures selectedImages == old(selectedImages)[..index] + old(selectedImages)[index + 1..]
      ensures imagePreviews == old(imagePreviews)[..index] + old(imagePreviews)[index + 1..]
      ensures content == old(content) && tags == old(tags) && tagInput == old(tagInput)
      ensures error == old(error)
    {
      RemoveImageKeepsInvariant(selectedImages, imagePreviews, index);
      selectedImages := selectedImages[..index] + selectedImages[index + 1..];
      imagePreviews := imagePreviews[..index] + imagePreviews[index + 1..];
    }
  }
}
