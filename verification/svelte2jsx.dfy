/** The transpiler driver (`svelte2jsx`): the edits it queues against the
    shared buffer, in order: the template conversion, the removal of style
    sections, the hoisting and wrapping of the instance script with its
    export rewriting and return object, and the trailing default class. */
module Svelte2Jsx {
  import opened Results
  import opened Seqs
  import opened Text
  import opened EditLog
  import opened Template
  import opened ScriptAst
  import opened Exports

  /** Written over the script's opening tag. */
  const RenderOpen := "</>;function render() {\n"
  /** Written over the script's closing tag. */
  const RenderClose := ";\n<>"
  /** Prepended at offset 0 when there is no instance script. */
  const EmptyRenderOpen := "</>;function render() {\n<>"
  /** Appended when there is no instance script. */
  const EmptyReturn := ";\nreturn {  }}"
  const ReturnPrefix := "\nreturn { "
  const ReturnSuffix := " }}"
  /** Appended last by `addComponentExport`: an anonymous default class. */
  const ComponentExport := "\n\nexport default class {\n    $$prop_def = render()\n}"

  // ---------------------------------------------------------------------
  // removeStyleTags

  function StyleRemoval(n: Node): Option<Edit> {
    if n.kind == Style then Some(Remove(n.start, n.end)) else None
  }

  /** `removeStyleTags`: a removal of every top-level style section. */
  function RemoveStyleTags(ast: Node): seq<Edit> {
    FilterMap(StyleRemoval, ast.children)
  }

  /** Exactly one removal of the full span per top-level `Style` child, in
      document order, and nothing for children of any other kind. */
  lemma RemoveStyleTagsExact(ast: Node)
    ensures var r := RemoveStyleTags(ast);
            var idx := KeptFrom(StyleRemoval, ast.children, 0);
            && |r| == |idx|
            && StrictlyIncreasing(idx)
            && (forall i :: 0 <= i < |ast.children| && ast.children[i].kind == Style ==> i in idx)
            && (forall k :: 0 <= k < |idx| ==>
                  ast.children[idx[k]].kind == Style
                  && r[k] == Remove(ast.children[idx[k]].start, ast.children[idx[k]].end))
  {
    FilterMapAtKept(StyleRemoval, ast.children, 0);
    assert ast.children[0..] == ast.children;
  }

  // ---------------------------------------------------------------------
  // Selecting the instance script

  /** A top-level script that has an attribute list and is not marked
      `context="module"`. */
  predicate IsInstanceScript(n: Node) {
    && n.kind == Script
    && n.attributes.Some?
    && !exists k :: 0 <= k < |n.attributes.value|
         && n.attributes.value[k].name == "context" && n.attributes.value[k].value == "module"
  }

  /** The loop over the root's children from index `i` on, where `current`
      is the script chosen so far: every qualifying child replaces it. */
  function SelectScriptFrom(children: seq<Node>, i: nat, current: Option<nat>): (r: Option<nat>)
    requires i <= |children|
    requires current.Some? ==> current.value < i && IsInstanceScript(children[current.value])
                               && forall j :: current.value < j < i ==> !IsInstanceScript(children[j])
    requires current.None? ==> forall j :: 0 <= j < i ==> !IsInstanceScript(children[j])
    ensures r.None? <==> forall j :: 0 <= j < |children| ==> !IsInstanceScript(children[j])
    ensures r.Some? ==> r.value < |children| && IsInstanceScript(children[r.value])
                        && forall j :: r.value < j < |children| ==> !IsInstanceScript(children[j])
    decreases |children| - i
  {
    if i == |children| then current
    else SelectScriptFrom(children, i + 1, if IsInstanceScript(children[i]) then Some(i) else current)
  }

  /** The index of the instance script: the LAST qualifying child. */
  function SelectScript(children: seq<Node>): (r: Option<nat>)
    ensures r.None? <==> forall j :: 0 <= j < |children| ==> !IsInstanceScript(children[j])
    ensures r.Some? ==> r.value < |children| && IsInstanceScript(children[r.value])
                        && forall j :: r.value < j < |children| ==> !IsInstanceScript(children[j])
  {
    SelectScriptFrom(children, 0, None)
  }

  // ---------------------------------------------------------------------
  // The return object

  /** One element of the return object: `alias: local`, or `local` when
      the alias is `null` (or empty, which JavaScript also treats as
      false). */
  function RenderEntry(e: Entry): string {
    if e.alias.Some? && e.alias.value != "" then e.alias.value + ": " + e.local else e.local
  }

  /** `"\nreturn { " + entries.join(",") + " }}"`, in map order. */
  function ReturnObject(m: ExportMap): (r: string)
    ensures |ReturnPrefix| + |ReturnSuffix| <= |r|
    ensures r[..|ReturnPrefix|] == ReturnPrefix && r[|r| - |ReturnSuffix|..] == ReturnSuffix
  {
    ReturnPrefix + Join(seq(|m|, k requires 0 <= k < |m| => RenderEntry(m[k])), ",") + ReturnSuffix
  }

  /** A name that cannot be confused with the punctuation of the return
      object; every identifier is one. */
  predicate PlainName(t: string) {
    |t| > 0 && ',' !in t && ':' !in t
  }

  predicate PlainEntries(m: ExportMap) {
    forall k :: 0 <= k < |m| ==> PlainName(m[k].local) && (m[k].alias.Some? ==> PlainName(m[k].alias.value))
  }

  /** Reads an element of the return object back: `alias: local` (a colon
      and one space) or `local`. */
  function ParseEntry(s: string): Entry {
    var parts := Split(s, ':');
    if |parts| == 2 && |parts[1]| >= 1 && parts[1][0] == ' ' then Entry(parts[1][1..], Some(parts[0])) else Entry(s, None)
  }

  /** Reads a rendered return object back into the export map it lists. */
  function ParseReturnObject(s: string): Option<ExportMap> {
    if |s| < |ReturnPrefix| + |ReturnSuffix| || s[..|ReturnPrefix|] != ReturnPrefix || s[|s| - |ReturnSuffix|..] != ReturnSuffix then None
    else
      var middle := s[|ReturnPrefix|..|s| - |ReturnSuffix|];
      if middle == "" then Some([])
      else
        var parts := Split(middle, ',');
        Some(seq(|parts|, k requires 0 <= k < |parts| => ParseEntry(parts[k])))
  }

  lemma ParseRenderedEntry(e: Entry)
    requires PlainName(e.local) && (e.alias.Some? ==> PlainName(e.alias.value))
    ensures ParseEntry(RenderEntry(e)) == e
  {
    if e.alias.Some? {
      var a, tail := e.alias.value, " " + e.local;
      assert RenderEntry(e) == a + [':'] + tail;
      assert ':' !in tail by {
        forall j | 0 <= j < |tail| ensures tail[j] != ':' {
          if j > 0 { assert tail[j] == e.local[j - 1]; }
        }
      }
      SplitAfterPiece(a, ':', tail);
      SplitNoSeparator(tail, ':');
      assert tail[1..] == e.local;
    } else {
      SplitNoSeparator(e.local, ':');
    }
  }

  /** The return object lists exactly the export map, in map order: with
      identifier-like names it reads back to the map it was rendered from. */
  lemma ReturnObjectRoundTrip(m: ExportMap)
    requires PlainEntries(m)
    ensures ParseReturnObject(ReturnObject(m)) == Some(m)
  {
    var entries := seq(|m|, k requires 0 <= k < |m| => RenderEntry(m[k]));
    var middle := Join(entries, ",");
    var s := ReturnPrefix + middle + ReturnSuffix;
    assert s == ReturnObject(m);
    assert s[..|ReturnPrefix|] == ReturnPrefix;
    assert s[|s| - |ReturnSuffix|..] == ReturnSuffix;
    assert s[|ReturnPrefix|..|s| - |ReturnSuffix|] == middle;
    if |m| > 0 {
      forall k | 0 <= k < |entries| ensures ',' !in entries[k] {
        if m[k].alias.Some? {
          assert entries[k] == m[k].alias.value + ": " + m[k].local;
        }
      }
      SplitJoin(entries, ',');
      assert |middle| >= |entries[0]| > 0 by {
        if |entries| > 1 {
          assert middle == entries[0] + "," + Join(entries[1..], ",");
        }
      }
      forall k | 0 <= k < |m| ensures ParseEntry(entries[k]) == m[k] {
        ParseRenderedEntry(m[k]);
      }
      var parts := Split(middle, ',');
      assert parts == entries;
      assert seq(|parts|, k requires 0 <= k < |parts| => ParseEntry(parts[k])) == m;
      assert ParseReturnObject(s) == Some(m);
    }
  }

  // ---------------------------------------------------------------------
  // processScriptTag

  /** `processScriptTag`: the edits it queues, or the error export
      rewriting throws. `parseScript` stands for TypeScript's parser. */
  function ProcessScriptTag(text: string, ast: Node, parseScript: string -> seq<Statement>): (r: Result<seq<Edit>, ExportError>)
    ensures (forall j :: 0 <= j < |ast.children| ==> !IsInstanceScript(ast.children[j])) ==>
              r == Success([PrependRight(0, EmptyRenderOpen), Append(EmptyReturn)])
  {
    match SelectScript(ast.children)
    case None => Success([PrependRight(0, EmptyRenderOpen), Append(EmptyReturn)])
    case Some(i) =>
      var script := ast.children[i];
      var source := Substring(text, script.content.start, script.content.end);
      var extraction :- ReplaceExports(parseScript(source), script.content.start);
      WrapScript(text, script, extraction)
  }

  /** The edits queued around a selected script: the move to the top, the
      two tag overwrites, the export removals and the return object. */
  function WrapScript(text: string, script: Node, extraction: Extraction): Result<seq<Edit>, ExportError> {
    var moves := if script.start != 0 then [Move(script.start, script.end, 0)] else [];
    var scriptTagEnd := LastIndexOfFrom(text, ">", script.content.start) + 1;
    var scriptEndTagStart := LastIndexOfFrom(text, "<", script.end);
    var tagEdits := [Overwrite(script.start, scriptTagEnd, RenderOpen), Overwrite(scriptEndTagStart, script.end, RenderClose)];
    Success(moves + tagEdits + extraction.removals + [Append(ReturnObject(extraction.exports))])
  }

  /** The edits around a selected script, laid out in order: the move to
      offset 0 (present exactly when the script does not start there), the
      overwrite of the opening tag up to just past the last `>` at or
      before the content start, the overwrite of the closing tag from the
      last `<` at or before the script end, one removal per binding step
      (its span shifted by the content start), and the return object. */
  ghost predicate ScriptEditsLayout(text: string, script: Node, es: seq<Edit>, steps: seq<Step>, exports: ExportMap) {
    TagEditsLayout(text, script, es) && TailEditsLayout(script, es, steps, exports)
  }

  /** The move and the two tag overwrites at the head of the edits. */
  ghost predicate TagEditsLayout(text: string, script: Node, es: seq<Edit>) {
    var n := if script.start != 0 then 1 else 0;
    && |es| >= n + 2
    && (n == 1 ==> es[0] == Move(script.start, script.end, 0))
    && es[n].Overwrite? && es[n].start == script.start && es[n].content == RenderOpen
    && LastCharAtOrBefore(text, '>', script.content.start, es[n].end - 1)
    && es[n + 1].Overwrite? && es[n + 1].end == script.end && es[n + 1].content == RenderClose
    && LastCharAtOrBefore(text, '<', script.end, es[n + 1].start)
  }

  /** The removals and the return object after the tag overwrites, and no
      move other than the leading one. */
  ghost predicate TailEditsLayout(script: Node, es: seq<Edit>, steps: seq<Step>, exports: ExportMap) {
    var cs := script.content.start;
    var n := if script.start != 0 then 1 else 0;
    && |es| == n + 3 + |steps|
    && ((exists k :: 0 <= k < |es| && es[k].Move?) <==> script.start != 0)
    && (forall k :: 0 <= k < |steps| ==> es[n + 2 + k] == Remove(steps[k].pos + cs, steps[k].end + cs))
    && es[|es| - 1] == Append(ReturnObject(exports))
  }

  lemma WrapScriptLayout(text: string, script: Node, extraction: Extraction, steps: seq<Step>)
    requires |extraction.removals| == |steps|
    requires forall k :: 0 <= k < |steps| ==>
               extraction.removals[k] == Remove(steps[k].pos + script.content.start, steps[k].end + script.content.start)
    ensures ScriptEditsLayout(text, script, WrapScript(text, script, extraction).value, steps, extraction.exports)
  {
    WrapScriptTags(text, script, extraction);
    WrapScriptTail(text, script, extraction, steps);
  }

  lemma WrapScriptTags(text: string, script: Node, extraction: Extraction)
    ensures TagEditsLayout(text, script, WrapScript(text, script, extraction).value)
  {
    var cs := script.content.start;
    LastIndexOfChar(text, '>', cs);
    LastIndexOfChar(text, '<', script.end);
    var moves := if script.start != 0 then [Move(script.start, script.end, 0)] else [];
    var open := Overwrite(script.start, LastIndexOfFrom(text, ">", cs) + 1, RenderOpen);
    var close := Overwrite(LastIndexOfFrom(text, "<", script.end), script.end, RenderClose);
    var es := moves + [open, close] + extraction.removals + [Append(ReturnObject(extraction.exports))];
    assert WrapScript(text, script, extraction).value == es;
    assert es[|moves|] == open && es[|moves| + 1] == close;
  }

  lemma WrapScriptTail(text: string, script: Node, extraction: Extraction, steps: seq<Step>)
    requires |extraction.removals| == |steps|
    requires forall k :: 0 <= k < |steps| ==>
               extraction.removals[k] == Remove(steps[k].pos + script.content.start, steps[k].end + script.content.start)
    ensures TailEditsLayout(script, WrapScript(text, script, extraction).value, steps, extraction.exports)
  {
    var moves := if script.start != 0 then [Move(script.start, script.end, 0)] else [];
    var tags := [Overwrite(script.start, LastIndexOfFrom(text, ">", script.content.start) + 1, RenderOpen),
                 Overwrite(LastIndexOfFrom(text, "<", script.end), script.end, RenderClose)];
    var last := Append(ReturnObject(extraction.exports));
    assert WrapScript(text, script, extraction).value == moves + tags + extraction.removals + [last];
    TailLayoutOf(script, moves, tags, extraction.removals, last, steps, extraction.exports);
  }

  /** The tail layout of any edit list built as the optional move, two
      non-move edits, the removals and the return object. */
  lemma TailLayoutOf(script: Node, moves: seq<Edit>, tags: seq<Edit>, removals: seq<Edit>, last: Edit,
                     steps: seq<Step>, exports: ExportMap)
    requires moves == if script.start != 0 then [Move(script.start, script.end, 0)] else []
    requires |tags| == 2 && !tags[0].Move? && !tags[1].Move?
    requires |removals| == |steps|
    requires forall k :: 0 <= k < |steps| ==>
               removals[k] == Remove(steps[k].pos + script.content.start, steps[k].end + script.content.start)
    requires last == Append(ReturnObject(exports))
    ensures TailEditsLayout(script, moves + tags + removals + [last], steps, exports)
  {
    RemovalsAfterTags(moves, tags, removals, last, steps, script.content.start);
    MoveOnlyFirst(script, moves, tags, removals, last);
  }

  /** In `moves + tags + removals + [last]` the removals sit right after
      the two tag edits. */
  lemma RemovalsAfterTags(moves: seq<Edit>, tags: seq<Edit>, removals: seq<Edit>, last: Edit, steps: seq<Step>, cs: int)
    requires |moves| <= 1 && |tags| == 2 && |removals| == |steps|
    requires forall k :: 0 <= k < |steps| ==> removals[k] == Remove(steps[k].pos + cs, steps[k].end + cs)
    ensures var es := moves + tags + removals + [last];
            && |es| == |moves| + 3 + |steps|
            && es[|es| - 1] == last
            && forall k :: 0 <= k < |steps| ==> es[|moves| + 2 + k] == Remove(steps[k].pos + cs, steps[k].end + cs)
  {
    var body := tags + removals + [last];
    var es := moves + body;
    assert es == moves + tags + removals + [last];
    forall k | 0 <= k < |steps|
      ensures es[|moves| + 2 + k] == removals[k]
    {
      assert es[|moves| + 2 + k] == body[2 + k];
    }
  }

  /** The only move in `moves + tags + removals + [last]` is the optional
      leading one. */
  lemma MoveOnlyFirst(script: Node, moves: seq<Edit>, tags: seq<Edit>, removals: seq<Edit>, last: Edit)
    requires moves == if script.start != 0 then [Move(script.start, script.end, 0)] else []
    requires |tags| == 2 && !tags[0].Move? && !tags[1].Move? && !last.Move?
    requires forall k :: 0 <= k < |removals| ==> removals[k].Remove?
    ensures var es := moves + tags + removals + [last];
            (exists k :: 0 <= k < |es| && es[k].Move?) <==> script.start != 0
  {
    var body := tags + removals + [last];
    var es := moves + body;
    assert es == moves + tags + removals + [last];
    if script.start != 0 {
      assert es[0].Move?;
    } else {
      forall k | 0 <= k < |es|
        ensures !es[k].Move?
      {
        assert es[k] == body[k];
        if k >= 2 + |removals| {
          assert body[k] == last;
        } else if k >= 2 {
          assert body[k] == removals[k - 2];
        } else {
          assert body[k] == tags[k];
        }
      }
    }
  }

  /** `i` is the last index at or before `from` (clamped at 0) holding
      `c`, or -1 when there is none: what `lastIndexOf(c, from)` returns. */
  ghost predicate LastCharAtOrBefore(text: string, c: char, from: int, i: int) {
    var bound := if from < 0 then 0 else from;
    && -1 <= i <= bound
    && (i >= 0 ==> i < |text| && text[i] == c)
    && forall j :: i < j <= bound && j < |text| ==> text[j] != c
  }

  lemma LastIndexOfChar(text: string, c: char, from: int)
    ensures LastCharAtOrBefore(text, c, from, LastIndexOfFrom(text, [c], from))
  {
    var i := LastIndexOfFrom(text, [c], from);
    var bound := if from < 0 then 0 else from;
    if i >= 0 {
      assert Occurs(text, [c], i);
      assert text[i..i + 1][0] == text[i];
    }
    forall j | i < j <= bound && j < |text|
      ensures text[j] != c
    {
      assert !Occurs(text, [c], j);
      assert text[j..j + 1] == [text[j]];
    }
  }

  /** `<script></script><p>` with no exports: the opening overwrite covers
      `<script>` and the closing one is the empty range `[17, 17)`. The text
      is a parameter fixed by the precondition, so that the verifier does not
      unroll `lastIndexOf` over a literal; the work is done by the general
      `TagsAroundEmptyScript`. */
  lemma ClosingOverwriteBeforeTag(text: string)
    requires text == "<script></script><p>"
    ensures var ast := Node(OtherKind, 0, 20, None, Span(0, 0), [Node(Script, 0, 17, Some([]), Span(8, 8), [])]);
            var r := ProcessScriptTag(text, ast, _ => []);
            && r.Success?
            && r.value == [Overwrite(0, 8, RenderOpen), Overwrite(17, 17, RenderClose), Append(ReturnObject([]))]
  {
    assert |text| == 20 && text[7] == '>' && text[8] == '<' && text[17] == '<';
    TagsAroundEmptyScript(text, _ => []);
  }

  /** A script spanning `[0, 17)` with empty content at 8: a `>` at 7 and a
      `<` at 8 and at 17 place the overwrites at `[0, 8)` and `[17, 17)`. */
  lemma TagsAroundEmptyScript(text: string, parseScript: string -> seq<Statement>)
    requires |text| >= 18 && text[7] == '>' && text[8] == '<' && text[17] == '<'
    requires parseScript([]) == []
    ensures var ast := Node(OtherKind, 0, 20, None, Span(0, 0), [Node(Script, 0, 17, Some([]), Span(8, 8), [])]);
            var r := ProcessScriptTag(text, ast, parseScript);
            && r.Success?
            && r.value == [Overwrite(0, 8, RenderOpen), Overwrite(17, 17, RenderClose), Append(ReturnObject([]))]
  {
    var script := Node(Script, 0, 17, Some([]), Span(8, 8), []);
    BeforeTagSelected(text, script, parseScript);
    LastIndexOfChar(text, '>', 8);
    LastIndexOfChar(text, '<', 17);
    assert LastIndexOfFrom(text, ">", 8) == 7;
    assert LastIndexOfFrom(text, "<", 17) == 17;
    assert WrapScript(text, script, Extraction([], [])).value
        == [] + [Overwrite(0, 8, RenderOpen), Overwrite(17, 17, RenderClose)] + [] + [Append(ReturnObject([]))];
  }

  /** The lone script child of the example is selected, and with no
      statements export rewriting leaves nothing to remove or list. */
  lemma BeforeTagSelected(text: string, script: Node, parseScript: string -> seq<Statement>)
    requires script == Node(Script, 0, 17, Some([]), Span(8, 8), [])
    requires |text| >= 8 && parseScript([]) == []
    ensures ProcessScriptTag(text, Node(OtherKind, 0, 20, None, Span(0, 0), [script]), parseScript)
            == WrapScript(text, script, Extraction([], []))
  {
    var ast := Node(OtherKind, 0, 20, None, Span(0, 0), [script]);
    assert IsInstanceScript(ast.children[0]);
    assert SelectScript(ast.children) == Some(0);
    assert Substring(text, 8, 8) == [];
    assert ReplaceExports([], 8) == Success(Extraction([], []));
  }

  /** The edits for a component whose instance script is child `i`: the
      script is moved to offset 0 unless it is already there, its opening
      tag up to the last `>` at or before the content start and its closing tag from
      the last `<` at or before its end are overwritten with the `render()`
      wrapper, the export removals follow, and the return object listing
      the export map closes the function. The closing overwrite is the
      empty range `[script.end, script.end)` exactly when a `<` sits at
      `script.end` itself, as when a tag follows `</script>` directly:
      `lastIndexOf("<", script.end)` inspects that index too. */
  lemma ScriptTagEdits(text: string, ast: Node, parseScript: string -> seq<Statement>, i: nat)
    requires i < |ast.children| && IsInstanceScript(ast.children[i])
    requires forall j :: i < j < |ast.children| ==> !IsInstanceScript(ast.children[j])
    ensures var script := ast.children[i];
            var stmts := parseScript(Substring(text, script.content.start, script.content.end));
            ProcessScriptTag(text, ast, parseScript).Success? <==> ReplaceExports(stmts, script.content.start).Success?
    ensures var script := ast.children[i];
            var stmts := parseScript(Substring(text, script.content.start, script.content.end));
            ProcessScriptTag(text, ast, parseScript).Failure? ==>
              ProcessScriptTag(text, ast, parseScript).error == ReplaceExports(stmts, script.content.start).error
    ensures var script := ast.children[i];
            var stmts := parseScript(Substring(text, script.content.start, script.content.end));
            var r := ProcessScriptTag(text, ast, parseScript);
            r.Success? ==>
              ScriptEditsLayout(text, script, r.value, AllSteps(stmts), ReplaceExports(stmts, script.content.start).value.exports)
    ensures var script := ast.children[i];
            var r := ProcessScriptTag(text, ast, parseScript);
            var n := if script.start != 0 then 1 else 0;
            r.Success? && 0 <= script.end ==>
              (r.value[n + 1].start == script.end <==> script.end < |text| && text[script.end] == '<')
  {
    var script := ast.children[i];
    var cs := script.content.start;
    var stmts := parseScript(Substring(text, cs, script.content.end));
    assert SelectScript(ast.children) == Some(i);
    var rx := ReplaceExports(stmts, cs);
    if rx.Success? {
      ReplaceExportsRemovals(stmts, cs);
      WrapScriptLayout(text, script, rx.value, AllSteps(stmts));
      var es := WrapScript(text, script, rx.value).value;
      var n := if script.start != 0 then 1 else 0;
      assert ProcessScriptTag(text, ast, parseScript) == WrapScript(text, script, rx.value);
      if 0 <= script.end {
        LastCharAtIndex(text, '<', script.end, es[n + 1].start);
      }
    }
  }

  /** The last `c` at or before a non-negative `from` is `from` itself
      exactly when `c` sits at `from`. */
  lemma LastCharAtIndex(text: string, c: char, from: int, i: int)
    requires 0 <= from && LastCharAtOrBefore(text, c, from, i)
    ensures i == from <==> from < |text| && text[from] == c
  {
  }

  // ---------------------------------------------------------------------
  // addComponentExport and the driver

  /** `svelte2jsx`: the template conversion's edits (an opaque prefix, as
      the converter is not part of this model), then the style removals,
      then the script edits, then the default class. */
  function Svelte2Jsx(text: string, ast: Node, convertEdits: seq<Edit>, parseScript: string -> seq<Statement>): (r: Result<seq<Edit>, ExportError>)
    ensures r.Success? <==> ProcessScriptTag(text, ast, parseScript).Success?
    ensures r.Failure? ==> r.error == ProcessScriptTag(text, ast, parseScript).error
    ensures r.Success? ==>
              var c, s := |convertEdits|, |RemoveStyleTags(ast)|;
              && |r.value| == c + s + |ProcessScriptTag(text, ast, parseScript).value| + 1
              && r.value[..c] == convertEdits
              && r.value[c..c + s] == RemoveStyleTags(ast)
              && r.value[c + s..|r.value| - 1] == ProcessScriptTag(text, ast, parseScript).value
              && r.value[|r.value| - 1] == Append(ComponentExport)
  {
    var scriptEdits :- ProcessScriptTag(text, ast, parseScript);
    Success(convertEdits + RemoveStyleTags(ast) + scriptEdits + [Append(ComponentExport)])
  }
}
