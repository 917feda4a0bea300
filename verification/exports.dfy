/** Export rewriting of the instance script (`replaceExports`): collects the
    component's public surface into an insertion-ordered map from local name
    to alias, and queues the removal of every export marker. */
module Exports {
  import opened Results
  import opened ScriptAst
  import opened EditLog
  import opened Seqs

  /** One entry of the JavaScript `Map<string, string>`: a local name and
      the alias it is exported under (`None` for `null`). */
  datatype Entry = Entry(local: string, alias: Option<string>)

  /** A JavaScript `Map` in insertion order; its keys are unique. */
  type ExportMap = seq<Entry>

  ghost predicate KeysUnique(m: ExportMap) {
    forall i, j :: 0 <= i < j < |m| ==> m[i].local != m[j].local
  }

  /** The position of key `k` in `m`, or -1. */
  function IndexOfKey(m: ExportMap, k: string): (i: int)
    ensures -1 <= i < |m|
    ensures i >= 0 ==> m[i].local == k && forall j :: 0 <= j < i ==> m[j].local != k
    ensures i == -1 ==> forall j :: 0 <= j < |m| ==> m[j].local != k
  {
    if m == [] then -1
    else if m[0].local == k then 0
    else
      var i := IndexOfKey(m[1..], k);
      if i == -1 then -1 else i + 1
  }

  /** `m.has(k) ? Some(m.get(k)) : None`. */
  function Lookup(m: ExportMap, k: string): (r: Option<Option<string>>)
    ensures r.None? <==> forall i :: 0 <= i < |m| ==> m[i].local != k
    ensures r.Some? ==> Entry(k, r.value) in m
  {
    var i := IndexOfKey(m, k);
    if i >= 0 then Some(m[i].alias) else None
  }

  /** `m.set(k, v)`: an existing key keeps its position and takes the new
      value; a new key is appended. */
  function MapSet(m: ExportMap, k: string, v: Option<string>): (r: ExportMap)
    requires KeysUnique(m)
    ensures KeysUnique(r)
    ensures Lookup(r, k) == Some(v)
    ensures forall k' :: k' != k ==> Lookup(r, k') == Lookup(m, k')
    ensures Lookup(m, k).Some? ==> |r| == |m| && forall i :: 0 <= i < |m| ==> r[i].local == m[i].local
    ensures Lookup(m, k).None? ==> r == m + [Entry(k, v)]
  {
    var i := IndexOfKey(m, k);
    if i >= 0 then
      MapSetUpdate(m, i, k, v);
      m[i := Entry(k, v)]
    else
      MapSetAppend(m, k, v);
      m + [Entry(k, v)]
  }

  lemma MapSetUpdate(m: ExportMap, i: int, k: string, v: Option<string>)
    requires KeysUnique(m)
    requires 0 <= i < |m| && m[i].local == k
    ensures KeysUnique(m[i := Entry(k, v)])
    ensures forall k' :: IndexOfKey(m[i := Entry(k, v)], k') == IndexOfKey(m, k')
  {
    var r := m[i := Entry(k, v)];
    forall k' ensures IndexOfKey(r, k') == IndexOfKey(m, k') {
      SameKeysSameIndex(m, r, k');
    }
  }

  lemma MapSetAppend(m: ExportMap, k: string, v: Option<string>)
    requires KeysUnique(m)
    requires forall j :: 0 <= j < |m| ==> m[j].local != k
    ensures KeysUnique(m + [Entry(k, v)])
    ensures IndexOfKey(m + [Entry(k, v)], k) == |m|
    ensures forall k' :: k' != k ==> IndexOfKey(m + [Entry(k, v)], k') == IndexOfKey(m, k')
  {
    var r := m + [Entry(k, v)];
    forall i, j | 0 <= i < j < |r| ensures r[i].local != r[j].local {
      if j < |m| {
        assert r[i] == m[i] && r[j] == m[j];
      } else {
        assert r[i] == m[i];
      }
    }
    forall k' ensures IndexOfKey(r, k') == if k' == k then |m| else IndexOfKey(m, k') {
      AppendIndex(m, Entry(k, v), k');
    }
  }

  /** Appending an entry leaves the index of every earlier key unchanged. */
  lemma {:induction false} AppendIndex(m: ExportMap, e: Entry, k: string)
    requires forall j :: 0 <= j < |m| ==> m[j].local != e.local
    ensures IndexOfKey(m + [e], k) == if k == e.local then |m| else IndexOfKey(m, k)
    decreases |m|
  {
    if m != [] {
      assert (m + [e])[0] == m[0];
      assert (m + [e])[1..] == m[1..] + [e];
      AppendIndex(m[1..], e, k);
    } else {
      assert [] + [e] == [e];
    }
  }

  /** The index of a key depends only on the sequence of keys. */
  lemma SameKeysSameIndex(m: ExportMap, r: ExportMap, k: string)
    requires |m| == |r|
    requires forall i :: 0 <= i < |m| ==> m[i].local == r[i].local
    ensures IndexOfKey(r, k) == IndexOfKey(m, k)
  {
  }

  /** The keys of the map in iteration order: `[...m.keys()]`. */
  function Keys(m: ExportMap): seq<string> {
    seq(|m|, i requires 0 <= i < |m| => m[i].local)
  }

  /** `Map.set` keeps the key order: an existing key stays where it is and a
      new key goes last. */
  lemma KeysMapSet(m: ExportMap, k: string, v: Option<string>)
    requires KeysUnique(m)
    ensures Keys(MapSet(m, k, v)) == if k in Keys(m) then Keys(m) else Keys(m) + [k]
  {
    var r := MapSet(m, k, v);
    if Lookup(m, k).Some? {
      var i := IndexOfKey(m, k);
      assert Keys(m)[i] == k;
      assert Keys(r) == Keys(m);
    } else {
      assert k !in Keys(m);
      assert Keys(r) == Keys(m) + [k];
    }
  }

  /** The exception `addExport` throws for a non-identifier name. */
  datatype ExportError =
    | SourceKindNotSupported(source: BindingName)
    | TargetKindNotSupported(target: BindingName)

  /** The names `addExport(source, target)` accepts. */
  predicate Supported(source: BindingName, target: Option<BindingName>) {
    source.Identifier? && (target.None? || target.value.Identifier?)
  }

  /** The alias a supported step records: `target ? target.text : null`. */
  function AliasOf(target: Option<BindingName>): Option<string> {
    match target
    case Some(Identifier(t)) => Some(t)
    case _ => None
  }

  /** `addExport(name, target)`: throws unless both names are identifiers,
      otherwise records `name -> target` in the map. */
  function AddExport(m: ExportMap, name: BindingName, target: Option<BindingName>): (r: Result<ExportMap, ExportError>)
    requires KeysUnique(m)
    ensures r.Success? <==> Supported(name, target)
    ensures !name.Identifier? ==> r == Failure(SourceKindNotSupported(name))
    ensures name.Identifier? && target.Some? && !target.value.Identifier? ==> r == Failure(TargetKindNotSupported(target.value))
    ensures r.Success? ==> KeysUnique(r.value)
    ensures r.Success? ==> name.Identifier? && Lookup(r.value, name.text) == Some(AliasOf(target))
    ensures r.Success? ==> forall k :: k != name.text ==> Lookup(r.value, k) == Lookup(m, k)
  {
    if !name.Identifier? then Failure(SourceKindNotSupported(name))
    else if target.Some? && !target.value.Identifier? then Failure(TargetKindNotSupported(target.value))
    else Success(MapSet(m, name.text, AliasOf(target)))
  }

  /** The state threaded through the statement loop: the map so far and
      the removals queued so far. */
  datatype Extraction = Extraction(exports: ExportMap, removals: seq<Edit>)

  /** `removeExport(start, end)`: a removal rebased by the script offset. */
  function RemoveExport(start: int, end: int, offset: int): Edit {
    Remove(start + offset, end + offset)
  }

  /** The inner loop over the declarators of an exported variable
      statement: one `addExport` and one removal of the modifier each. */
  function ExportDeclarators(st: Extraction, decls: seq<BindingName>, modifier: Modifier, offset: int): (r: Result<Extraction, ExportError>)
    requires KeysUnique(st.exports)
    ensures r.Success? ==> KeysUnique(r.value.exports)
    decreases |decls|
  {
    if decls == [] then Success(st)
    else
      var m :- AddExport(st.exports, decls[0], None);
      ExportDeclarators(Extraction(m, st.removals + [RemoveExport(modifier.pos, modifier.end, offset)]), decls[1..], modifier, offset)
  }

  /** The inner loop over the elements of an export clause: one
      `addExport` and one removal of the whole declaration each. */
  function ExportElements(st: Extraction, elements: seq<ExportSpecifier>, pos: int, end: int, offset: int): (r: Result<Extraction, ExportError>)
    requires KeysUnique(st.exports)
    ensures r.Success? ==> KeysUnique(r.value.exports)
    decreases |elements|
  {
    if elements == [] then Success(st)
    else
      var ne := elements[0];
      var m :- if ne.propertyName.Some? then AddExport(st.exports, ne.propertyName.value, Some(ne.name))
               else AddExport(st.exports, ne.name, None);
      ExportElements(Extraction(m, st.removals + [RemoveExport(pos, end, offset)]), elements[1..], pos, end, offset)
  }

  /** One iteration of the statement loop of `replaceExports`. */
  function ProcessStatement(st: Extraction, s: Statement, offset: int): (r: Result<Extraction, ExportError>)
    requires KeysUnique(st.exports)
    ensures r.Success? ==> KeysUnique(r.value.exports)
  {
    match s
    case VariableStatement(modifiers, declarations) =>
      (match FindExportModifier(modifiers)
       case None => Success(st)
       case Some(em) => ExportDeclarators(st, declarations, em, offset))
    case FunctionDeclaration(modifiers, name) =>
      (match FindExportModifier(modifiers)
       case None => Success(st)
       case Some(em) =>
         var m :- AddExport(st.exports, name, None);
         Success(Extraction(m, st.removals + [RemoveExport(em.pos, em.end, offset)])))
    case ExportDeclaration(pos, end, elements) => ExportElements(st, elements, pos, end, offset)
    case OtherStatement => Success(st)
  }

  function ProcessStatements(st: Extraction, stmts: seq<Statement>, offset: int): (r: Result<Extraction, ExportError>)
    requires KeysUnique(st.exports)
    ensures r.Success? ==> KeysUnique(r.value.exports)
    decreases |stmts|
  {
    if stmts == [] then Success(st)
    else
      var st' :- ProcessStatement(st, stmts[0], offset);
      ProcessStatements(st', stmts[1..], offset)
  }

  /** `replaceExports(str, tsAst, astOffset)`: the export map it returns
      and the removals it queues, or the error `addExport` throws. */
  function ReplaceExports(stmts: seq<Statement>, offset: int): (r: Result<Extraction, ExportError>)
    ensures r.Success? ==> KeysUnique(r.value.exports)
  {
    ProcessStatements(Extraction([], []), stmts, offset)
  }

  // ---------------------------------------------------------------------
  // Reference semantics: the table of binding shapes, as a flat list of
  // (addExport, removeExport) steps.

  /** One `addExport(source, target)` call followed by the removal of
      `[pos, end)` (relative to the script content). */
  datatype Step = Step(source: BindingName, target: Option<BindingName>, pos: int, end: int)

  /** The steps a statement takes, by shape: one per declarator of an
      exported variable statement, one for an exported function, one per
      element of an export clause; none otherwise. */
  function StatementSteps(s: Statement): seq<Step> {
    match s
    case VariableStatement(modifiers, declarations) =>
      (match FindExportModifier(modifiers)
       case None => []
       case Some(em) => DeclaratorSteps(declarations, em))
    case FunctionDeclaration(modifiers, name) =>
      (match FindExportModifier(modifiers)
       case None => []
       case Some(em) => [Step(name, None, em.pos, em.end)])
    case ExportDeclaration(pos, end, elements) => ElementSteps(elements, pos, end)
    case OtherStatement => []
  }

  /** `(name, none)` for every declarator, removing the export modifier. */
  function DeclaratorSteps(decls: seq<BindingName>, em: Modifier): seq<Step> {
    if decls == [] then [] else [Step(decls[0], None, em.pos, em.end)] + DeclaratorSteps(decls[1..], em)
  }

  /** The step of one export-clause element: `(propertyName, name)` when
      it renames, `(name, none)` otherwise; it removes the declaration. */
  function ElementStep(ne: ExportSpecifier, pos: int, end: int): Step {
    if ne.propertyName.Some? then Step(ne.propertyName.value, Some(ne.name), pos, end)
    else Step(ne.name, None, pos, end)
  }

  function ElementSteps(elements: seq<ExportSpecifier>, pos: int, end: int): seq<Step> {
    if elements == [] then [] else [ElementStep(elements[0], pos, end)] + ElementSteps(elements[1..], pos, end)
  }

  function AllSteps(stmts: seq<Statement>): seq<Step> {
    if stmts == [] then [] else StatementSteps(stmts[0]) + AllSteps(stmts[1..])
  }

  /** Runs the steps in order from `st`, stopping at the first throw. */
  function RunSteps(st: Extraction, steps: seq<Step>, offset: int): (r: Result<Extraction, ExportError>)
    requires KeysUnique(st.exports)
    ensures r.Success? ==> KeysUnique(r.value.exports)
    decreases |steps|
  {
    if steps == [] then Success(st)
    else
      var m :- AddExport(st.exports, steps[0].source, steps[0].target);
      RunSteps(Extraction(m, st.removals + [RemoveExport(steps[0].pos, steps[0].end, offset)]), steps[1..], offset)
  }

  lemma {:induction false} RunStepsAppend(st: Extraction, a: seq<Step>, b: seq<Step>, offset: int)
    requires KeysUnique(st.exports)
    ensures RunSteps(st, a + b, offset) ==
              match RunSteps(st, a, offset)
              case Failure(e) => Failure(e)
              case Success(st') => RunSteps(st', b, offset)
    decreases |a|
  {
    if a == [] {
      assert a + b == b;
    } else {
      assert (a + b)[0] == a[0];
      assert (a + b)[1..] == a[1..] + b;
      var m := AddExport(st.exports, a[0].source, a[0].target);
      if m.Success? {
        RunStepsAppend(Extraction(m.value, st.removals + [RemoveExport(a[0].pos, a[0].end, offset)]), a[1..], b, offset);
      }
    }
  }

  lemma {:induction false} DeclaratorsAsSteps(st: Extraction, decls: seq<BindingName>, em: Modifier, offset: int)
    requires KeysUnique(st.exports)
    ensures ExportDeclarators(st, decls, em, offset) == RunSteps(st, DeclaratorSteps(decls, em), offset)
    decreases |decls|
  {
    if decls != [] {
      var steps := DeclaratorSteps(decls, em);
      assert steps[0] == Step(decls[0], None, em.pos, em.end);
      assert steps[1..] == DeclaratorSteps(decls[1..], em);
      RunStepsStep(st, steps, offset);
      var m := AddExport(st.exports, decls[0], None);
      if m.Success? {
        DeclaratorsAsSteps(Extraction(m.value, st.removals + [RemoveExport(em.pos, em.end, offset)]), decls[1..], em, offset);
      }
    }
  }

  lemma {:induction false} ElementsAsSteps(st: Extraction, elements: seq<ExportSpecifier>, pos: int, end: int, offset: int)
    requires KeysUnique(st.exports)
    ensures ExportElements(st, elements, pos, end, offset) == RunSteps(st, ElementSteps(elements, pos, end), offset)
    decreases |elements|
  {
    if elements != [] {
      var steps := ElementSteps(elements, pos, end);
      assert steps[0] == ElementStep(elements[0], pos, end);
      assert steps[1..] == ElementSteps(elements[1..], pos, end);
      RunStepsStep(st, steps, offset);
      var ne := elements[0];
      var m := if ne.propertyName.Some? then AddExport(st.exports, ne.propertyName.value, Some(ne.name))
               else AddExport(st.exports, ne.name, None);
      if m.Success? {
        ElementsAsSteps(Extraction(m.value, st.removals + [RemoveExport(pos, end, offset)]), elements[1..], pos, end, offset);
      }
    }
  }

  lemma StatementAsSteps(st: Extraction, s: Statement, offset: int)
    requires KeysUnique(st.exports)
    ensures ProcessStatement(st, s, offset) == RunSteps(st, StatementSteps(s), offset)
  {
    match s
    case VariableStatement(modifiers, declarations) =>
      if FindExportModifier(modifiers).Some? {
        DeclaratorsAsSteps(st, declarations, FindExportModifier(modifiers).value, offset);
      }
    case FunctionDeclaration(modifiers, name) =>
    case ExportDeclaration(pos, end, elements) =>
      ElementsAsSteps(st, elements, pos, end, offset);
    case OtherStatement =>
  }

  lemma {:induction false} StatementsAsSteps(st: Extraction, stmts: seq<Statement>, offset: int)
    requires KeysUnique(st.exports)
    ensures ProcessStatements(st, stmts, offset) == RunSteps(st, AllSteps(stmts), offset)
    decreases |stmts|
  {
    if stmts != [] {
      StatementAsSteps(st, stmts[0], offset);
      RunStepsAppend(st, StatementSteps(stmts[0]), AllSteps(stmts[1..]), offset);
      var r := ProcessStatement(st, stmts[0], offset);
      if r.Success? {
        StatementsAsSteps(r.value, stmts[1..], offset);
      }
    }
  }

  /** The statement loop of `replaceExports`, with its per-kind inner loops,
      performs exactly the steps of the binding-shape table, in order. */
  lemma ReplaceExportsFollowsShapes(stmts: seq<Statement>, offset: int)
    ensures ReplaceExports(stmts, offset) == RunSteps(Extraction([], []), AllSteps(stmts), offset)
  {
    StatementsAsSteps(Extraction([], []), stmts, offset);
  }

  // ---------------------------------------------------------------------
  // What running the steps does.

  predicate StepSupported(s: Step) {
    Supported(s.source, s.target)
  }

  /** The exception an unsupported step throws. */
  function StepError(s: Step): ExportError
    requires !StepSupported(s)
  {
    if !s.source.Identifier? then SourceKindNotSupported(s.source)
    else TargetKindNotSupported(s.target.value)
  }

  /** The alias recorded by the LAST step whose source is the identifier
      `k`, or `None` when no step exports `k`. */
  function Latest(steps: seq<Step>, k: string): Option<Option<string>>
    decreases |steps|
  {
    if steps == [] then None
    else
      var later := Latest(steps[1..], k);
      if later.Some? then later
      else if steps[0].source == Identifier(k) then Some(AliasOf(steps[0].target))
      else None
  }

  /** The local names of `seen` followed by those the steps export that
      are not yet listed, in order of their first export. */
  function KeyOrder(seen: seq<string>, steps: seq<Step>): seq<string>
    decreases |steps|
  {
    if steps == [] then seen
    else if steps[0].source.Identifier? && steps[0].source.text !in seen then
      KeyOrder(seen + [steps[0].source.text], steps[1..])
    else KeyOrder(seen, steps[1..])
  }

  /** The removal queued for a step: its span rebased by `offset`. */
  function StepRemoval(s: Step, offset: int): Edit {
    RemoveExport(s.pos, s.end, offset)
  }

  lemma RunStepsOutcome(st: Extraction, steps: seq<Step>, offset: int)
    requires KeysUnique(st.exports)
    ensures RunSteps(st, steps, offset).Success? <==> forall i :: 0 <= i < |steps| ==> StepSupported(steps[i])
    ensures RunSteps(st, steps, offset).Failure? ==>
              exists i :: 0 <= i < |steps| && !StepSupported(steps[i])
                && (forall j :: 0 <= j < i ==> StepSupported(steps[j]))
                && RunSteps(st, steps, offset).error == StepError(steps[i])
  {
    RunStepsSuccess(st, steps, offset);
    if RunSteps(st, steps, offset).Failure? {
      RunStepsFirstError(st, steps, offset);
    }
  }

  lemma {:induction false} RunStepsSuccess(st: Extraction, steps: seq<Step>, offset: int)
    requires KeysUnique(st.exports)
    ensures RunSteps(st, steps, offset).Success? <==> forall i :: 0 <= i < |steps| ==> StepSupported(steps[i])
    decreases |steps|
  {
    if steps != [] {
      RunStepsStep(st, steps, offset);
      var m := AddExport(st.exports, steps[0].source, steps[0].target);
      if m.Success? {
        var st' := Extraction(m.value, st.removals + [StepRemoval(steps[0], offset)]);
        RunStepsSuccess(st', steps[1..], offset);
        SupportedTail(steps);
      }
    }
  }

  lemma {:induction false} RunStepsFirstError(st: Extraction, steps: seq<Step>, offset: int)
    requires KeysUnique(st.exports)
    requires RunSteps(st, steps, offset).Failure?
    ensures exists i :: 0 <= i < |steps| && !StepSupported(steps[i])
              && (forall j :: 0 <= j < i ==> StepSupported(steps[j]))
              && RunSteps(st, steps, offset).error == StepError(steps[i])
    decreases |steps|
  {
    RunStepsStep(st, steps, offset);
    var m := AddExport(st.exports, steps[0].source, steps[0].target);
    if m.Success? {
      var st' := Extraction(m.value, st.removals + [StepRemoval(steps[0], offset)]);
      RunStepsFirstError(st', steps[1..], offset);
      var i :| 0 <= i < |steps[1..]| && !StepSupported(steps[1..][i])
               && (forall j :: 0 <= j < i ==> StepSupported(steps[1..][j]))
               && RunSteps(st', steps[1..], offset).error == StepError(steps[1..][i]);
      assert steps[1..][i] == steps[i + 1];
      assert forall j :: 0 < j <= i ==> steps[j] == steps[1..][j - 1];
      assert StepSupported(steps[0]);
    } else {
      assert !StepSupported(steps[0]);
    }
  }

  /** When the first step is supported, all steps are exactly when all
      the remaining ones are. */
  lemma SupportedTail(steps: seq<Step>)
    requires steps != [] && StepSupported(steps[0])
    ensures (forall i :: 0 <= i < |steps| ==> StepSupported(steps[i])) <==>
            (forall i :: 0 <= i < |steps[1..]| ==> StepSupported(steps[1..][i]))
  {
    if forall i :: 0 <= i < |steps[1..]| ==> StepSupported(steps[1..][i]) {
      forall i | 0 < i < |steps| ensures StepSupported(steps[i]) {
        assert steps[i] == steps[1..][i - 1];
      }
    }
  }

  /** The removals of the steps, in order. */
  function StepRemovals(steps: seq<Step>, offset: int): seq<Edit> {
    if steps == [] then [] else [StepRemoval(steps[0], offset)] + StepRemovals(steps[1..], offset)
  }

  lemma {:induction false} StepRemovalsAt(steps: seq<Step>, offset: int)
    ensures |StepRemovals(steps, offset)| == |steps|
    ensures forall i :: 0 <= i < |steps| ==>
              StepRemovals(steps, offset)[i] == Remove(steps[i].pos + offset, steps[i].end + offset)
    decreases |steps|
  {
    if steps != [] {
      StepRemovalsAt(steps[1..], offset);
    }
  }

  /** One unfolding of `RunSteps`. */
  lemma RunStepsStep(st: Extraction, steps: seq<Step>, offset: int)
    requires KeysUnique(st.exports)
    requires steps != []
    ensures var m := AddExport(st.exports, steps[0].source, steps[0].target);
            RunSteps(st, steps, offset) ==
              if m.Failure? then Failure(m.error)
              else RunSteps(Extraction(m.value, st.removals + [StepRemoval(steps[0], offset)]), steps[1..], offset)
  {
  }

  lemma {:induction false} RunStepsRemovals(st: Extraction, steps: seq<Step>, offset: int)
    requires KeysUnique(st.exports)
    requires RunSteps(st, steps, offset).Success?
    ensures RunSteps(st, steps, offset).value.removals == st.removals + StepRemovals(steps, offset)
    decreases |steps|
  {
    if steps != [] {
      RunStepsStep(st, steps, offset);
      var m := AddExport(st.exports, steps[0].source, steps[0].target);
      var st' := Extraction(m.value, st.removals + [StepRemoval(steps[0], offset)]);
      RunStepsRemovals(st', steps[1..], offset);
      AppendAssoc(st.removals, StepRemoval(steps[0], offset), StepRemovals(steps[1..], offset));
    }
  }

  lemma {:induction false} RunStepsExports(st: Extraction, steps: seq<Step>, offset: int)
    requires KeysUnique(st.exports)
    requires RunSteps(st, steps, offset).Success?
    ensures var m := RunSteps(st, steps, offset).value.exports;
            forall k :: Lookup(m, k) == if Latest(steps, k).Some? then Latest(steps, k) else Lookup(st.exports, k)
    ensures var m := RunSteps(st, steps, offset).value.exports;
            |st.exports| <= |m| && forall i :: 0 <= i < |st.exports| ==> m[i].local == st.exports[i].local
    decreases |steps|
  {
    if steps != [] {
      RunStepsStep(st, steps, offset);
      var m := AddExport(st.exports, steps[0].source, steps[0].target);
      var st' := Extraction(m.value, st.removals + [StepRemoval(steps[0], offset)]);
      RunStepsExports(st', steps[1..], offset);
      var r := RunSteps(st', steps[1..], offset).value.exports;
      forall k ensures Lookup(r, k) == if Latest(steps, k).Some? then Latest(steps, k) else Lookup(st.exports, k) {
        assert Lookup(r, k) == if Latest(steps[1..], k).Some? then Latest(steps[1..], k) else Lookup(m.value, k);
      }
    }
  }

  lemma {:induction false} RunStepsKeys(st: Extraction, steps: seq<Step>, offset: int)
    requires KeysUnique(st.exports)
    requires RunSteps(st, steps, offset).Success?
    ensures Keys(RunSteps(st, steps, offset).value.exports) == KeyOrder(Keys(st.exports), steps)
    decreases |steps|
  {
    if steps != [] {
      RunStepsStep(st, steps, offset);
      var m := AddExport(st.exports, steps[0].source, steps[0].target);
      assert m.Success?;
      var k := steps[0].source.text;
      assert m.value == MapSet(st.exports, k, AliasOf(steps[0].target));
      KeysMapSet(st.exports, k, AliasOf(steps[0].target));
      var st' := Extraction(m.value, st.removals + [StepRemoval(steps[0], offset)]);
      RunStepsKeys(st', steps[1..], offset);
    }
  }

  // ---------------------------------------------------------------------
  // The properties of `replaceExports`.

  /** `replaceExports` throws, rather than skipping, exactly when some
      exported name or alias is not an identifier; the error is the one of
      the first such step. */
  lemma ReplaceExportsThrows(stmts: seq<Statement>, offset: int)
    ensures var steps := AllSteps(stmts);
            ReplaceExports(stmts, offset).Failure? <==> exists i :: 0 <= i < |steps| && !StepSupported(steps[i])
    ensures var steps := AllSteps(stmts);
            ReplaceExports(stmts, offset).Failure? ==>
              exists i :: 0 <= i < |steps| && !StepSupported(steps[i])
                && (forall j :: 0 <= j < i ==> StepSupported(steps[j]))
                && ReplaceExports(stmts, offset).error == StepError(steps[i])
  {
    ReplaceExportsFollowsShapes(stmts, offset);
    RunStepsOutcome(Extraction([], []), AllSteps(stmts), offset);
  }

  /** Every removal `replaceExports` queues is the span of one step (the
      export modifier, or the whole export declaration), rebased by the
      script's content offset, in step order: one per exported binding. */
  lemma ReplaceExportsRemovals(stmts: seq<Statement>, offset: int)
    requires ReplaceExports(stmts, offset).Success?
    ensures var steps := AllSteps(stmts);
            var removals := ReplaceExports(stmts, offset).value.removals;
            |removals| == |steps|
            && forall i :: 0 <= i < |steps| ==> removals[i] == Remove(steps[i].pos + offset, steps[i].end + offset)
  {
    var steps := AllSteps(stmts);
    ReplaceExportsFollowsShapes(stmts, offset);
    FreshRunRemovals(steps, offset);
    assert ReplaceExports(stmts, offset).value.removals == RunSteps(Extraction([], []), steps, offset).value.removals;
  }

  lemma FreshRunRemovals(steps: seq<Step>, offset: int)
    requires RunSteps(Extraction([], []), steps, offset).Success?
    ensures var removals := RunSteps(Extraction([], []), steps, offset).value.removals;
            |removals| == |steps|
            && forall i :: 0 <= i < |steps| ==> removals[i] == Remove(steps[i].pos + offset, steps[i].end + offset)
  {
    RunStepsRemovals(Extraction([], []), steps, offset);
    StepRemovalsAt(steps, offset);
    var removals := StepRemovals(steps, offset);
    assert [] + removals == removals;
  }

  /** The export map is keyed by local name: each local name occurs once,
      is bound to the alias of the last step exporting it, and takes its
      place in the key order at its first export. */
  lemma ReplaceExportsLastWins(stmts: seq<Statement>, offset: int)
    requires ReplaceExports(stmts, offset).Success?
    ensures KeysUnique(ReplaceExports(stmts, offset).value.exports)
    ensures forall k :: Lookup(ReplaceExports(stmts, offset).value.exports, k) == Latest(AllSteps(stmts), k)
    ensures Keys(ReplaceExports(stmts, offset).value.exports) == KeyOrder([], AllSteps(stmts))
  {
    ReplaceExportsFollowsShapes(stmts, offset);
    RunStepsExports(Extraction([], []), AllSteps(stmts), offset);
    RunStepsKeys(Extraction([], []), AllSteps(stmts), offset);
    assert Keys([]) == [];
  }

  /** `export let a; export { a as b }` yields the single entry `a -> b`
      and removes the `export` modifier and the export clause. */
  lemma ExportThenRenameScenario()
    ensures ReplaceExports([
              VariableStatement([Modifier(ExportKeyword, 0, 6)], [Identifier("a")]),
              ExportDeclaration(13, 32, [ExportSpecifier(Some(Identifier("a")), Identifier("b"))])
            ], 100)
            == Success(Extraction([Entry("a", Some("b"))], [Remove(100, 106), Remove(113, 132)]))
  {
    var s1 := VariableStatement([Modifier(ExportKeyword, 0, 6)], [Identifier("a")]);
    var s2 := ExportDeclaration(13, 32, [ExportSpecifier(Some(Identifier("a")), Identifier("b"))]);
    var st1 := Extraction([Entry("a", None)], [Remove(100, 106)]);
    var st2 := Extraction([Entry("a", Some("b"))], [Remove(100, 106), Remove(113, 132)]);
    ScenarioExportLet();
    ScenarioRename();
    assert [s1, s2][1..] == [s2];
    assert ProcessStatements(st1, [s2], 100) == Success(st2) by {
      assert [s2][1..] == [];
    }
  }

  lemma ScenarioExportLet()
    ensures ProcessStatement(Extraction([], []), VariableStatement([Modifier(ExportKeyword, 0, 6)], [Identifier("a")]), 100)
            == Success(Extraction([Entry("a", None)], [Remove(100, 106)]))
  {
    var em := Modifier(ExportKeyword, 0, 6);
    assert FindExportModifier([em]) == Some(em);
    assert IndexOfKey([], "a") == -1;
    assert MapSet([], "a", None) == [Entry("a", None)];
    assert [Identifier("a")][1..] == [];
    assert [] + [RemoveExport(em.pos, em.end, 100)] == [Remove(100, 106)];
  }

  lemma ScenarioRename()
    ensures ProcessStatement(Extraction([Entry("a", None)], [Remove(100, 106)]),
              ExportDeclaration(13, 32, [ExportSpecifier(Some(Identifier("a")), Identifier("b"))]), 100)
            == Success(Extraction([Entry("a", Some("b"))], [Remove(100, 106), Remove(113, 132)]))
  {
    var elements := [ExportSpecifier(Some(Identifier("a")), Identifier("b"))];
    assert IndexOfKey([Entry("a", None)], "a") == 0;
    assert MapSet([Entry("a", None)], "a", Some("b")) == [Entry("a", Some("b"))];
    assert elements[1..] == [];
    assert [Remove(100, 106)] + [RemoveExport(13, 32, 100)] == [Remove(100, 106), Remove(113, 132)];
  }
}
