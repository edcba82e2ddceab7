/**
 * MemberQuery: looks a class member up by `type#name` and labels each place
 * it is referenced `surely`, `maybe` or `not` against an optional container
 * type. The index is a map of records by key; the reference enhancer is a
 * function parameter.
 */
module MemberQueries {
  import opened Wrappers
  import opened Records

  datatype Confidence = Surely | Maybe | Not

  /** A file path and the byte offsets of a reference in it. */
  datatype Location = Location(path: string, start: int, end: int)

  datatype LocationConfidence = LocationConfidence(confidence: Confidence, location: Location)

  /** The index's records by `(recordType, identifier)`. */
  datatype Index = Index(records: map<(string, string), Record>) {
    /** Every record sits under its own key. */
    predicate Consistent() {
      forall k :: k in records ==> records[k].Key() == k
    }

    predicate Has(prototype: Record) {
      prototype.Key() in records
    }

    /** The stored record for the prototype's key, or the prototype itself when there is none. */
    function Get(prototype: Record): (r: Record)
      ensures Has(prototype) ==> r == records[prototype.Key()]
      ensures !Has(prototype) ==> r == prototype
      ensures Consistent() ==> r.Key() == prototype.Key()
    {
      if Has(prototype) then records[prototype.Key()] else prototype
    }
  }

  /** Fills in a missing container type of a reference found in a file record. */
  type Enhancer = (Record, RecordReference) -> RecordReference

  /** PHP truthiness of `?string`: null, '' and '0' are false. */
  predicate Truthy(s: Option<string>) {
    s.Some? && s.value != "" && s.value != "0"
  }

  /** `get`: the member record for an identifier, when it is one and the index has it. */
  function Get(index: Index, identifier: string): (r: Option<Record>)
    ensures !IsMemberIdentifier(identifier) ==> r.None?
    ensures IsMemberIdentifier(identifier) ==>
      (r.Some? <==> index.Has(MemberFromIdentifier(identifier).value))
    ensures r.Some? ==> r.value == index.records[MemberFromIdentifier(identifier).value.Key()]
  {
    match MemberFromIdentifier(identifier)
    case None => None
    case Some(prototype) => if index.Has(prototype) then Some(index.Get(prototype)) else None
  }

  /** `getByTypeAndName`: exactly the record stored under the member key `(member, type#name)`. */
  function GetByTypeAndName(index: Index, t: MemberRecordType, name: string): (r: Option<Record>)
    ensures var key := (MEMBER_RECORD_TYPE, MemberIdentifier(t, name));
      r == if key in index.records then Some(index.records[key]) else None
  {
    MemberIdentifierRoundTrip(t, name);
    Get(index, MemberIdentifier(t, name))
  }

  /** The file paths a record refers to, for records with file references. */
  function FileReferences(r: Record): seq<string> {
    if r.HasFileReferences() then r.fileReferences else []
  }

  /** The references of a file record. */
  function ReferencesOf(file: Record): seq<RecordReference> {
    if file.FileRecord? then file.references else []
  }

  /** The reference points at the record's key. */
  predicate PointsAt(reference: RecordReference, target: Record) {
    reference.recordType == target.RecordType() && reference.identifier == target.Identifier()
  }

  /**
   * `references()->to(record)`: the references in a file to the record's key,
   * in file order (see ReferencesToConcat); a reference is kept exactly when it
   * points at the record.
   */
  function ReferencesTo(refs: seq<RecordReference>, target: Record): (out: seq<RecordReference>)
    ensures |out| <= |refs|
    ensures forall j :: 0 <= j < |out| ==> out[j] in refs && PointsAt(out[j], target)
    ensures forall j :: 0 <= j < |refs| && PointsAt(refs[j], target) ==> refs[j] in out
    ensures (forall j :: 0 <= j < |refs| ==> PointsAt(refs[j], target)) ==> out == refs
  {
    if refs == [] then []
    else
      var rest := ReferencesTo(refs[..|refs| - 1], target);
      var last := refs[|refs| - 1];
      assert refs == refs[..|refs| - 1] + [last];
      if PointsAt(last, target) then rest + [last] else rest
  }

  /** The references of a concatenation are those of each part, in order. */
  lemma {:induction false} ReferencesToConcat(a: seq<RecordReference>, b: seq<RecordReference>, target: Record)
    ensures ReferencesTo(a + b, target) == ReferencesTo(a, target) + ReferencesTo(b, target)
    decreases |b|
  {
    if b == [] {
      assert a + b == a;
    } else {
      var init, last := b[..|b| - 1], b[|b| - 1];
      var kept := if PointsAt(last, target) then [last] else [];
      calc {
        ReferencesTo(a + b, target);
        { assert a + b == (a + init) + [last]; }
        ReferencesTo((a + init) + [last], target);
        { ReferencesToSnoc(a + init, last, target); }
        ReferencesTo(a + init, target) + kept;
        { ReferencesToConcat(a, init, target); }
        ReferencesTo(a, target) + ReferencesTo(init, target) + kept;
        { assert b == init + [last]; ReferencesToSnoc(init, last, target); }
        ReferencesTo(a, target) + ReferencesTo(b, target);
      }
    }
  }

  /** Appending one reference appends it to the kept ones exactly when it points at the record. */
  lemma ReferencesToSnoc(s: seq<RecordReference>, x: RecordReference, target: Record)
    ensures ReferencesTo(s + [x], target) == ReferencesTo(s, target) + if PointsAt(x, target) then [x] else []
  {
    assert (s + [x])[..|s|] == s;
  }

  /** A single reference is kept exactly when it points at the record. */
  lemma ReferencesToSingle(x: RecordReference, target: Record)
    ensures ReferencesTo([x], target) == if PointsAt(x, target) then [x] else []
  {
    assert [x][..0] == [];
  }

  /** The reference as classified: enhanced only when a container type is asked for and missing. */
  function Enhanced(enhancer: Enhancer, file: Record, containerType: Option<string>,
                    reference: RecordReference): (e: RecordReference)
    ensures Truthy(containerType) && reference.containerType.None? ==> e == enhancer(file, reference)
    ensures !Truthy(containerType) || reference.containerType.Some? ==> e == reference
  {
    if Truthy(containerType) && reference.containerType.None? then enhancer(file, reference)
    else reference
  }

  /** The confidence of one (possibly enhanced) reference against the requested container type. */
  function ConfidenceOf(containerType: Option<string>, reference: RecordReference): (c: Confidence)
    ensures c == Maybe <==> reference.containerType.None?
    ensures c == Not <==>
      reference.containerType.Some? && Truthy(containerType)
      && containerType.value != reference.containerType.value
    ensures c == Surely <==>
      reference.containerType.Some?
      && (!Truthy(containerType) || containerType.value == reference.containerType.value)
  {
    if reference.containerType.None? then Maybe
    else if Truthy(containerType) && containerType.value != reference.containerType.value then Not
    else Surely
  }

  /**
   * One yielded item: located in the file; a reference that needs no
   * enhancement keeps its own offsets and is judged on its own container type.
   */
  function Classify(enhancer: Enhancer, file: Record, containerType: Option<string>,
                    reference: RecordReference): (item: LocationConfidence)
    ensures item.location.path == FilePath(file)
    ensures reference.containerType.Some? || !Truthy(containerType) ==>
      item == LocationConfidence(ConfidenceOf(containerType, reference),
                                 Location(FilePath(file), reference.start, reference.end))
  {
    var r := Enhanced(enhancer, file, containerType, reference);
    LocationConfidence(ConfidenceOf(containerType, r), Location(FilePath(file), r.start, r.end))
  }

  /** `filePath() ?? ''` of the fetched file record. */
  function FilePath(file: Record): string {
    if file.FileRecord? then file.path else ""
  }

  /** The items for one file: one per reference to the member, in order. */
  function FileItems(enhancer: Enhancer, file: Record, member: Record,
                     containerType: Option<string>): (out: seq<LocationConfidence>)
    ensures var refs := ReferencesTo(ReferencesOf(file), member);
      |out| == |refs| && forall j :: 0 <= j < |refs| ==> out[j] == Classify(enhancer, file, containerType, refs[j])
  {
    var refs := ReferencesTo(ReferencesOf(file), member);
    seq(|refs|, j requires 0 <= j < |refs| => Classify(enhancer, file, containerType, refs[j]))
  }

  /** The file record fetched for a referenced path. */
  function FileFor(index: Index, path: string): Record {
    index.Get(FileRecord(path, []))
  }

  /** The items for the member's referenced files, file by file. */
  function FilesItems(index: Index, enhancer: Enhancer, member: Record, containerType: Option<string>,
                      paths: seq<string>): seq<LocationConfidence> {
    if paths == [] then []
    else (FilesItems(index, enhancer, member, containerType, paths[..|paths| - 1])
          + FileItems(enhancer, FileFor(index, paths[|paths| - 1]), member, containerType))
  }

  /**
   * `referencesTo`: nothing for an unknown member, otherwise one item per
   * reference to it in each of its referenced files.
   */
  function MemberReferences(index: Index, enhancer: Enhancer, t: MemberRecordType, name: string,
                            containerType: Option<string>): (items: seq<LocationConfidence>)
    ensures GetByTypeAndName(index, t, name).None? ==> items == []
    ensures GetByTypeAndName(index, t, name).Some? ==>
      var member := GetByTypeAndName(index, t, name).value;
      |items| == ReferenceCount(index, member, FileReferences(member))
  {
    match GetByTypeAndName(index, t, name)
    case None => []
    case Some(member) =>
      FilesItemsCount(index, enhancer, member, containerType, FileReferences(member));
      FilesItems(index, enhancer, member, containerType, FileReferences(member))
  }

  // ---------------------------------------------------------------------
  // Properties

  /** An unknown member has no references. */
  lemma UnknownMemberHasNoReferences(index: Index, enhancer: Enhancer, t: MemberRecordType, name: string,
                                     containerType: Option<string>)
    requires (MEMBER_RECORD_TYPE, MemberIdentifier(t, name)) !in index.records
    ensures MemberReferences(index, enhancer, t, name, containerType) == []
  {
  }

  /** An identifier without '#' is not a member identifier and is never looked up. */
  lemma NoHashNoMember(index: Index, identifier: string)
    requires forall j :: 0 <= j < |identifier| ==> identifier[j] != '#'
    ensures !IsMemberIdentifier(identifier) && Get(index, identifier) == None
  {
  }

  /** An identifier whose part before the first '#' is no member type is never looked up. */
  lemma UnknownMemberTypeNoMember(index: Index, prefix: string, rest: string)
    requires forall j :: 0 <= j < |prefix| ==> prefix[j] != '#'
    requires MemberRecordTypeFrom(prefix).None?
    ensures Get(index, prefix + "#" + rest) == None
  {
    var id := prefix + "#" + rest;
    HashIndexOfPrefix(prefix, rest);
    assert id[..|prefix|] == prefix;
  }

  /** Without a requested container type nothing is `not`, and the enhancer is never used. */
  lemma NoContainerTypeNeverNot(enhancer: Enhancer, file: Record, containerType: Option<string>,
                                reference: RecordReference)
    requires !Truthy(containerType)
    ensures Classify(enhancer, file, containerType, reference).confidence != Not
    ensures Classify(enhancer, file, containerType, reference).confidence
      == (if reference.containerType.None? then Maybe else Surely)
  {
  }

  /** A reference that already has a container type is classified the same whatever the enhancer does. */
  lemma EnhancerOnlyForMissingContainer(e1: Enhancer, e2: Enhancer, file: Record,
                                        containerType: Option<string>, reference: RecordReference)
    requires reference.containerType.Some? || !Truthy(containerType)
    ensures Classify(e1, file, containerType, reference) == Classify(e2, file, containerType, reference)
  {
  }

  /** A reference the enhancer leaves without a container type is `maybe`. */
  lemma UnresolvedIsMaybe(enhancer: Enhancer, file: Record, containerType: Option<string>,
                          reference: RecordReference)
    requires Enhanced(enhancer, file, containerType, reference).containerType.None?
    ensures Classify(enhancer, file, containerType, reference).confidence == Maybe
  {
  }

  /** The number of references of the member in the listed files. */
  function ReferenceCount(index: Index, member: Record, paths: seq<string>): nat {
    if paths == [] then 0
    else (ReferenceCount(index, member, paths[..|paths| - 1])
          + |ReferencesTo(ReferencesOf(FileFor(index, paths[|paths| - 1])), member)|)
  }

  /** One item per member reference, files in listed order. */
  lemma {:induction false} FilesItemsCount(index: Index, enhancer: Enhancer, member: Record,
                                           containerType: Option<string>, paths: seq<string>)
    ensures |FilesItems(index, enhancer, member, containerType, paths)| == ReferenceCount(index, member, paths)
  {
    if paths != [] {
      FilesItemsCount(index, enhancer, member, containerType, paths[..|paths| - 1]);
    }
  }

  /** The items of an earlier file come before those of a later file. */
  lemma {:induction false} FilesItemsPrefix(index: Index, enhancer: Enhancer, member: Record,
                                            containerType: Option<string>, paths: seq<string>, n: nat)
    requires n <= |paths|
    ensures var all := FilesItems(index, enhancer, member, containerType, paths);
      var first := FilesItems(index, enhancer, member, containerType, paths[..n]);
      |first| <= |all| && all[..|first|] == first
    decreases |paths|
  {
    if n < |paths| {
      var init := paths[..|paths| - 1];
      assert init[..n] == paths[..n];
      FilesItemsPrefix(index, enhancer, member, containerType, init, n);
    } else {
      assert paths[..n] == paths;
    }
  }

  /** In a consistent index a referenced path is fetched as a file record with that path. */
  lemma FileForIsFileRecord(index: Index, path: string)
    requires index.Consistent()
    ensures FileFor(index, path).FileRecord? && FileFor(index, path).path == path
  {
    var r := FileFor(index, path);
    assert r.Key() == (FILE_RECORD_TYPE, path);
    RecordTypeDeterminesClass(r, FileRecord(path, []));
  }

  /** Every reference in a yielded item comes from the listed file and points at the member. */
  lemma FileItemsLocations(enhancer: Enhancer, file: Record, member: Record, containerType: Option<string>,
                           j: nat)
    requires file.FileRecord?
    requires j < |FileItems(enhancer, file, member, containerType)|
    ensures var refs := ReferencesTo(ReferencesOf(file), member);
      var item := FileItems(enhancer, file, member, containerType)[j];
      item.location.path == file.path
      && refs[j] in file.references && refs[j].identifier == member.Identifier()
      && (refs[j].containerType.Some? || !Truthy(containerType) ==>
            item.location == Location(file.path, refs[j].start, refs[j].end))
  {
  }
}
