# svelte2jsx driver and component-reference filter, in Dafny

This project models two sequential pieces of the bridge that lets a
TypeScript engine analyse Svelte components.

1. **The svelte2jsx transpiler driver** (`src/index.ts`). It turns a parsed
   component into an ordered log of text edits against a MagicString buffer.
   The log holds, in order:
   - the template conversion's edits;
   - one removal per top-level `<style>`;
   - the hoisting of the instance script and the overwriting of its tags
     with a `render()` function wrapper;
   - the removal of every `export` marker in the script;
   - the `return { … }}` object listing the exports;
   - the trailing anonymous `export default class`.

   The buffer is an edit log (`EditLog.Edit`: `Remove`, `Move`,
   `Overwrite`, `Append`, `PrependRight`). It is never materialised into
   text.
2. **The component-reference filter** (`FindComponentReferencesProviderImpl`).
   It queries the engine at the last occurrence of `__SvelteComponent_` in
   the component's generated text. It flattens the reference groups. It
   keeps, in engine order, the references that pass four checks: not the
   definition, not generated code, not an end tag, and not an empty range.

Modules: `Results` (Option/Result), `Seqs` (flatten, order-preserving
filter-map with kept indices), `Text` (JavaScript `lastIndexOf`,
`substring`, `join`, and a `split` that inverts `join`), `EditLog`,
`Template` (the parsed template's top-level shape), `ScriptAst` (the script
statements export rewriting inspects), `Exports` (`replaceExports`),
`Svelte2Jsx` (the driver) and `ComponentReferences` (the provider).

Export rewriting is modelled twice:
- a faithful version of the nested loops of `replaceExports`;
- a flat table of binding shapes (`StatementSteps`, one
  `addExport`/`removeExport` step per exported name).

`ReplaceExportsFollowsShapes` proves the two equal. The properties are
proved on the flat form:
- it throws exactly on a non-identifier name;
- it queues one shifted removal per step;
- the last export of a local name wins in place.

Behaviour of the code worth knowing:
- A repeated local name updates its `Map` entry in place, keeping the
  position of its first export. So `export let a; export { a as b }` yields
  the single entry `a -> b`.
- The appended class is an anonymous `export default class`.
- `findComponentReferences` returns `null` in three cases: the uri has no
  (non-empty) path, the document is not a component snapshot, or the
  engine returns no reference list.
- Both tag searches inspect the index they start from:
  `lastIndexOf("<", script.end)` finds the character at `script.end`
  itself when a tag follows `</script>` directly. The log then holds the
  empty-range `Overwrite(script.end, script.end, ";\n<>")`
  (`Svelte2Jsx.ScriptTagEdits`, `Svelte2Jsx.ClosingOverwriteBeforeTag`).
  Likewise the opening overwrite runs up to the last `>` at or before the
  content start.

## Model

| member | source | states |
|---|---|---|
| Text.LastIndexOfFrom | src/index.ts:107-110 | `lastIndexOf(search, from)` returns -1 only when the search string does not occur at or before `from` (a negative `from` counts as 0). Otherwise it returns an occurrence at or before `from`, with no later one up to `from`. |
| Text.LastIndexOf | packages/language-server/src/plugins/typescript/features/FindComponentReferencesProvider.ts:71 | `lastIndexOf(search)` is never below -1; it is -1 exactly when the string never occurs, and otherwise an occurrence that no other occurrence follows |
| Text.Substring | src/index.ts:113 | `substring(a, b)` is the slice `[a, b)` when the bounds are ordered and in range, and the swapped slice when they are reversed |
| ScriptAst.FindExportModifier | src/index.ts:46 | `modifiers.find(isExport)` is absent exactly when no modifier is `export`; otherwise it is the first `export` modifier |
| Exports.MapSet | src/index.ts:34 | `Map.set` binds the key to the new alias, keeps the keys unique and leaves every other key unchanged. An existing key keeps its position (no second entry); a new key is appended. |
| Exports.AddExport | src/index.ts:27-35 | `addExport` throws for a non-identifier source (and then for a non-identifier alias) and otherwise succeeds. On success the name is bound to the alias's text, or to none when there is no alias; every other key keeps its binding, and the keys stay unique. |
| Exports.ReplaceExports | src/index.ts:23-79 | the export map `replaceExports` returns never has two entries for one local name |
| Exports.ReplaceExportsFollowsShapes | src/index.ts:43-76 | The statement loop with its inner loops does the steps of the binding-shape table, in order. A declarator of an exported variable statement and an exported function give `(name, none)`. An export-clause element gives `(propertyName, name)` or `(name, none)`. Other statements give nothing. |
| Exports.ReplaceExportsThrows | src/index.ts:27-33 | `replaceExports` fails rather than skipping, exactly when some exported name or alias is not an identifier, and the error is that of the first such name |
| Exports.ReplaceExportsRemovals | src/index.ts:37-75 | one removal per exported binding, in order: the export modifier's span, or the whole export declaration's span, shifted by the script content offset; no other removals |
| Exports.ReplaceExportsLastWins | src/index.ts:25-34 | the map is keyed by local name; each key maps to the alias of the LAST export of that name, and the keys are ordered by their FIRST export, which fixes the order of the `return { … }` entries |
| Exports.ExportThenRenameScenario | src/index.ts:44-75 | `export let a; export { a as b }` yields the single entry `a -> b` and removes the modifier and the clause |
| Svelte2Jsx.RemoveStyleTagsExact | src/index.ts:14-21 | exactly one `Remove(start, end)` per top-level `Style` child, in document order, and nothing for other kinds |
| Svelte2Jsx.SelectScriptFrom | src/index.ts:86-91 | the selection loop ends holding the last qualifying child: a `Script` with an attribute list and no `context="module"` attribute |
| Svelte2Jsx.SelectScript | src/index.ts:83-91 | the selected script is the LAST qualifying top-level child, and there is none only when no child qualifies |
| Svelte2Jsx.ProcessScriptTag | src/index.ts:95-98 | with no instance script the only edits are the prepend of `</>;function render() {\n<>` at 0 and the append of `;\nreturn {  }}`; no export processing |
| Svelte2Jsx.LastIndexOfChar | src/index.ts:107-110 | a one-character `lastIndexOf(c, from)` gives -1, or an index at or before `from` holding `c` with no later `c` up to `from` |
| Svelte2Jsx.WrapScriptLayout | src/index.ts:102-120 | the move comes first and only when `script.start != 0`. Then come the opening overwrite `[start, last '>' at or before the content start + 1)`, the closing overwrite `[last '<' at or before end, end)`, the removals and the return object. |
| Svelte2Jsx.ClosingOverwriteBeforeTag | src/index.ts:95-120 | for `<script></script><p>` with no exports, script processing yields the opening overwrite `[0, 8)`, the EMPTY closing overwrite `[17, 17)` and the empty return object |
| Svelte2Jsx.ScriptTagEdits | src/index.ts:100-120 | with a selected script, the tag edits fail exactly when export rewriting fails, and then with its error; on success they are laid out as above, with the removals being the shifted spans of the binding steps. The closing overwrite starts at `script.end` itself, so that the log holds the empty-range `Overwrite(script.end, script.end, ";\n<>")`, exactly when the character at `script.end` is `<`. |
| Svelte2Jsx.ReturnObject | src/index.ts:119 | the return object starts with `\nreturn { ` and ends with ` }}` |
| Svelte2Jsx.ParseRenderedEntry | src/index.ts:117 | an aliased entry renders as `public: local` and an unaliased one as `local`, readable back to the entry |
| Svelte2Jsx.ReturnObjectRoundTrip | src/index.ts:117-120 | the return object lists exactly the export map's entries, joined by `,` in map order: reading it back gives the map |
| Svelte2Jsx.Svelte2Jsx | src/index.ts:129-139 | step order: conversion edits, then style removals, then script edits, then the fixed default-class append; it fails exactly when script processing fails, with that error |
| ComponentReferences.OffsetOfComponentExport | packages/language-server/src/plugins/typescript/features/FindComponentReferencesProvider.ts:70-72 | the query anchor is the last occurrence of `__SvelteComponent_` in the full text, even when it also occurs earlier |
| ComponentReferences.IsEndTag | packages/language-server/src/plugins/typescript/features/FindComponentReferencesProvider.ts:74-90 | an end tag is a reference whose original text, from one character before its mapped start, begins with `/`; never for a non-component snapshot |
| ComponentReferences.CheckReference | packages/language-server/src/plugins/typescript/features/FindComponentReferencesProvider.ts:37-63 | A reference yields a location exactly when it passes all four checks: not the definition, not in generated code, not an end tag, and a non-zero range. The location is `(pathToUrl(fileName), convertToLocationRange(snapshot, textSpan))`. |
| ComponentReferences.FindComponentReferences | packages/language-server/src/plugins/typescript/features/FindComponentReferencesProvider.ts:14-30 | returns `null` exactly when the uri has no path, the snapshot is not a component snapshot, or the engine returns no reference list (`undefined`, as opposed to an empty list, which yields `[]`) |
| Seqs.FlattenMembers | packages/language-server/src/plugins/typescript/features/FindComponentReferencesProvider.ts:36 | a reference is in the flattened list exactly when it belongs to one of the engine's reference groups |
| ComponentReferences.ResultIsFilteredSubsequence | packages/language-server/src/plugins/typescript/features/FindComponentReferencesProvider.ts:35-67 | The result is the sequence of locations of the flattened references that survive the checks, taken at strictly increasing indices, so engine order is kept. It is never longer than the input, and no definition is in it. A reference's index is kept exactly when it survives. |

## Left out

- MagicString itself: replaying the edit log into text (`toString`),
  move/overwrite interaction and `generateMap` source maps. The log is
  the model.
- MagicString's argument checks are not modelled. An `overwrite` of an
  empty range throws, so for `</script>` directly followed by `<` the model
  returns `Success` where `svelte2jsx` throws. The MagicString library is
  not part of this model.
- `parseHtmlx` and `convertHtmlxToJsx`: the template tree is an input, and
  the conversion's edits are an opaque prefix of the log (`convertEdits`).
- TypeScript's `createSourceFile`: it is the parameter `parseScript`,
  applied to the script content's substring. Statements are given directly
  as `ScriptAst.Statement`.
- Attribute values are plain strings. The comparison `a.value == "module"`
  is modelled as string equality, because the parser's attribute shape is
  not part of this model.
- JavaScript null dereferences are not modelled: a statement without
  `modifiers`, an export declaration without `exportClause`, and an
  anonymous function declaration (`fd.name` undefined). They are incidental
  crashes, not designed behaviour.
- The error message text of the thrown `Error`. It is modelled as the
  offending name (`ExportError`).
- The language-server services are uninterpreted fields of
  `ComponentReferences.Services`: `urlToPath`, `getSnapshot`, the engine's
  `findReferences`, `SnapshotMap.retrieve`, `isTextSpanInGeneratedCode`,
  `pathToUrl`, `convertToLocationRange` (line/column arithmetic),
  `getOriginalText` and `hasNonZeroRange`. The lookup of the language
  service (`getLSForPath`) is folded into `findReferences`, which takes
  only the file path and the offset.
  "Zero-length range" therefore means whatever `hasNonZeroRange` decides.
- The `Promise.all` fan-out: it is a sequential filter-map, which keeps the
  same order.
- UTF-16: JavaScript strings are sequences of UTF-16 code units, while a
  Dafny `char` is a Unicode scalar value. Each code unit is assumed to map
  to one `char`. Lone surrogates and the splitting of astral characters
  into two code units are not modelled.
