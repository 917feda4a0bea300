/** The part of TypeScript's syntax tree that export rewriting inspects:
    the top-level statements of the instance script with their modifiers,
    declared names and export-clause elements. Positions are relative to
    the start of the script's content. */
module ScriptAst {
  import opened Results

  /** A binding name: only `Identifier` is supported by export rewriting. */
  datatype BindingName =
    | Identifier(text: string)
    | ObjectBindingPattern
    | ArrayBindingPattern
    | StringLiteralName(text: string)

  datatype ModifierKind = ExportKeyword | DefaultKeyword | DeclareKeyword | AsyncKeyword | ConstKeyword | OtherModifier

  /** A modifier token with its `pos` (leading trivia included) and `end`. */
  datatype Modifier = Modifier(kind: ModifierKind, pos: int, end: int)

  /** `export { propertyName as name }`, or `export { name }`. */
  datatype ExportSpecifier = ExportSpecifier(propertyName: Option<BindingName>, name: BindingName)

  datatype Statement =
    | VariableStatement(modifiers: seq<Modifier>, declarations: seq<BindingName>)
    | FunctionDeclaration(modifiers: seq<Modifier>, name: BindingName)
    | ExportDeclaration(pos: int, end: int, elements: seq<ExportSpecifier>)
    | OtherStatement

  /** `modifiers.find(x => x.kind == ExportKeyword)`: the first export
      keyword among the modifiers. */
  function FindExportModifier(modifiers: seq<Modifier>): (r: Option<Modifier>)
    ensures r.None? <==> forall k :: 0 <= k < |modifiers| ==> modifiers[k].kind != ExportKeyword
    ensures r.Some? ==> exists k :: 0 <= k < |modifiers| && modifiers[k] == r.value
                          && r.value.kind == ExportKeyword
                          && forall j :: 0 <= j < k ==> modifiers[j].kind != ExportKeyword
  {
    if modifiers == [] then None
    else if modifiers[0].kind == ExportKeyword then Some(modifiers[0])
    else
      var r := FindExportModifier(modifiers[1..]);
      if r.Some? then
        ghost var k :| 0 <= k < |modifiers[1..]| && modifiers[1..][k] == r.value
                      && r.value.kind == ExportKeyword
                      && forall j :: 0 <= j < k ==> modifiers[1..][j].kind != ExportKeyword;
        assert modifiers[k + 1] == r.value;
        r
      else r
  }
}
