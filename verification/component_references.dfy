/** The component-reference query of the language server
    (`FindComponentReferencesProviderImpl`): it asks the TypeScript engine
    for the references of the synthetic default export of a component and
    keeps, in engine order, those that are usage sites in component markup.
    Every service it calls is a parameter. */
module ComponentReferences {
  import opened Results
  import opened Seqs
  import opened Text

  /** The suffix of the synthetic component class name. */
  const ComponentSuffix := "__SvelteComponent_"

  datatype Position = Position(line: int, character: int)
  datatype Range = Range(start: Position, end: Position)
  datatype Location = Location(uri: string, range: Range)

  datatype TextSpan = TextSpan(start: int, length: int)
  /** One reference the engine reports. */
  datatype ReferenceEntry = ReferenceEntry(fileName: string, textSpan: TextSpan, isDefinition: bool)
  /** One group of references (TypeScript's `ReferencedSymbol`). */
  datatype ReferencedSymbol = ReferencedSymbol(references: seq<ReferenceEntry>)

  /** A document snapshot: one generated from a component file, or any
      other (TypeScript or JavaScript) document. */
  datatype Snapshot =
    | SvelteSnapshot(filePath: string, fullText: string)
    | OtherSnapshot(filePath: string, fullText: string)

  /** The collaborators the provider calls, none of which is part of this
      model: path/URI conversion, the snapshot resolver, the engine's
      reference query, the snapshot map's lookup, the generated-code test,
      span-to-range conversion, original-text fetch and the non-zero-range
      test. */
  datatype Services = Services(
    urlToPath: string -> Option<string>,
    getSnapshot: string -> Snapshot,
    findReferences: (string, int) -> Option<seq<ReferencedSymbol>>,
    retrieveSnapshot: string -> Snapshot,
    isTextSpanInGeneratedCode: (string, TextSpan) -> bool,
    pathToUrl: string -> string,
    convertToLocationRange: (Snapshot, TextSpan) -> Range,
    getOriginalText: (Snapshot, Range) -> string,
    hasNonZeroRange: Location -> bool)

  /** `offsetOfComponentExport`: the LAST occurrence of the component
      suffix in the snapshot's text, or -1. */
  function OffsetOfComponentExport(snapshot: Snapshot): (r: int)
    ensures r == -1 <==> forall i :: !Occurs(snapshot.fullText, ComponentSuffix, i)
    ensures r >= 0 ==> Occurs(snapshot.fullText, ComponentSuffix, r)
    ensures forall i :: Occurs(snapshot.fullText, ComponentSuffix, i) ==> i <= r
  {
    LastIndexOf(snapshot.fullText, ComponentSuffix)
  }

  /** `isEndTag`: for a component snapshot, whether the original text of
      the location's range widened one character to the left begins with
      `/`; never for another kind of snapshot. */
  function IsEndTag(services: Services, element: Location, snapshot: Snapshot): (r: bool)
    ensures !snapshot.SvelteSnapshot? ==> !r
    ensures r <==> (snapshot.SvelteSnapshot? &&
                    var text := services.getOriginalText(snapshot,
                      Range(Position(element.range.start.line, element.range.start.character - 1), element.range.end));
                    |text| >= 1 && text[0] == '/')
  {
    if !snapshot.SvelteSnapshot? then false
    else
      var testEndTagRange := Range(Position(element.range.start.line, element.range.start.character - 1), element.range.end);
      var text := services.getOriginalText(snapshot, testEndTagRange);
      Substring(text, 0, 1) == "/"
  }

  /** `snapshots.retrieve(fileName)` on a map seeded with the queried
      document. */
  function Retrieve(services: Services, tsDoc: Snapshot, fileName: string): Snapshot {
    if fileName == tsDoc.filePath then tsDoc else services.retrieveSnapshot(fileName)
  }

  /** Where a reference is reported: its file's URI and its range. */
  function LocationOf(services: Services, tsDoc: Snapshot, ref: ReferenceEntry): Location {
    Location(services.pathToUrl(ref.fileName),
             services.convertToLocationRange(Retrieve(services, tsDoc, ref.fileName), ref.textSpan))
  }

  /** The per-reference callback: `null` (here `None`) as soon as one of the
      four checks drops the reference, its location otherwise. */
  function CheckReference(services: Services, tsDoc: Snapshot, ref: ReferenceEntry): (r: Option<Location>)
    ensures r.Some? <==> Survives(services, tsDoc, ref)
    ensures r.Some? ==> r.value == LocationOf(services, tsDoc, ref)
  {
    if ref.isDefinition then None
    else
      var snapshot := Retrieve(services, tsDoc, ref.fileName);
      if services.isTextSpanInGeneratedCode(snapshot.fullText, ref.textSpan) then None
      else
        var refLocation := Location(services.pathToUrl(ref.fileName), services.convertToLocationRange(snapshot, ref.textSpan));
        if IsEndTag(services, refLocation, snapshot) then None
        else if !services.hasNonZeroRange(refLocation) then None
        else Some(refLocation)
  }

  /** A reference survives when it is not the definition, its span is not
      generated code, its mapped start is not preceded by `/`, and its
      mapped range is non-empty. */
  predicate Survives(services: Services, tsDoc: Snapshot, ref: ReferenceEntry) {
    var snapshot := Retrieve(services, tsDoc, ref.fileName);
    var location := LocationOf(services, tsDoc, ref);
    && !ref.isDefinition
    && !services.isTextSpanInGeneratedCode(snapshot.fullText, ref.textSpan)
    && !IsEndTag(services, location, snapshot)
    && services.hasNonZeroRange(location)
  }

  /** All references of all groups, in engine order. */
  function AllReferences(groups: seq<ReferencedSymbol>): seq<ReferenceEntry> {
    Flatten(seq(|groups|, k requires 0 <= k < |groups| => groups[k].references))
  }

  /** `findComponentReferences(uri)`: `null` exactly when the uri has no
      (non-empty) path, the snapshot is not a component snapshot, or the
      engine returns no reference list. */
  function FindComponentReferences(services: Services, uri: string): (r: Option<seq<Location>>)
    ensures r.None? <==>
              var fileName := services.urlToPath(uri);
              || fileName.None? || fileName.value == ""
              || !services.getSnapshot(fileName.value).SvelteSnapshot?
              || var tsDoc := services.getSnapshot(fileName.value);
                 services.findReferences(tsDoc.filePath, OffsetOfComponentExport(tsDoc)).None?
  {
    var fileName := services.urlToPath(uri);
    if fileName.None? || fileName.value == "" then None
    else
      var tsDoc := services.getSnapshot(fileName.value);
      if !tsDoc.SvelteSnapshot? then None
      else
        match services.findReferences(tsDoc.filePath, OffsetOfComponentExport(tsDoc))
        case None => None
        case Some(references) =>
          Some(FilterMap(ReferenceCheck(services, tsDoc), AllReferences(references)))
  }

  /** The callback passed over the flattened references. */
  function ReferenceCheck(services: Services, tsDoc: Snapshot): ReferenceEntry -> Option<Location> {
    (ref: ReferenceEntry) => CheckReference(services, tsDoc, ref)
  }

  /** The result is the order-preserving subsequence of the flattened
      references that pass all four checks, each mapped to its location:
      never longer than the input, no definition in it, and a reference
      that is generated code, an end tag or an empty range never reported. */
  lemma ResultIsFilteredSubsequence(services: Services, uri: string)
    requires FindComponentReferences(services, uri).Some?
    ensures var tsDoc := services.getSnapshot(services.urlToPath(uri).value);
            var refs := AllReferences(services.findReferences(tsDoc.filePath, OffsetOfComponentExport(tsDoc)).value);
            var locations := FindComponentReferences(services, uri).value;
            var idx := KeptFrom(ReferenceCheck(services, tsDoc), refs, 0);
            && |idx| <= |refs|
            && StrictlyIncreasing(idx)
            && locations == seq(|idx|, k requires 0 <= k < |idx| => LocationOf(services, tsDoc, refs[idx[k]]))
            && (forall k :: 0 <= k < |idx| ==> Survives(services, tsDoc, refs[idx[k]]) && !refs[idx[k]].isDefinition)
            && (forall i :: 0 <= i < |refs| ==> (i in idx <==> Survives(services, tsDoc, refs[i])))
  {
    var tsDoc := services.getSnapshot(services.urlToPath(uri).value);
    var refs := AllReferences(services.findReferences(tsDoc.filePath, OffsetOfComponentExport(tsDoc)).value);
    var f := ReferenceCheck(services, tsDoc);
    FilterMapAtKept(f, refs, 0);
    assert refs[0..] == refs;
    var idx := KeptFrom(f, refs, 0);
    assert forall i :: i in idx ==> 0 <= i < |refs| && f(refs[i]).Some?;
  }
}
