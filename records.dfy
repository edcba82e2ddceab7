/**
 * Record values of the indexer: a tagged union over the record classes, the
 * `recordType` discriminators that key both stores, and the operations of
 * FunctionRecord and ConstantRecord.
 *
 * ClassRecord, MemberRecord and FileRecord are kept to the fields the stores
 * and the member query use.
 */
module Records {
  import opened Wrappers

  // The `recordType` discriminators.
  const CLASS_RECORD_TYPE: string := "class"
  const FUNCTION_RECORD_TYPE: string := "function"
  const CONSTANT_RECORD_TYPE: string := "constant"
  const MEMBER_RECORD_TYPE: string := "member"
  const FILE_RECORD_TYPE: string := "file"

  // `self::class` of the two record classes whose string form is modelled.
  const FUNCTION_RECORD_CLASS: string := "Phpactor\\Indexer\\Model\\Record\\FunctionRecord"
  const CONSTANT_RECORD_CLASS: string := "Phpactor\\Indexer\\Model\\Record\\ConstantRecord"

  /** The backed enum MemberRecordType; `Value()` is its `->value`. */
  datatype MemberRecordType = MethodMember | PropertyMember | ConstantMember {
    function Value(): string {
      match this
      case MethodMember => "method"
      case PropertyMember => "property"
      case ConstantMember => "constant"
    }
  }

  function MemberRecordTypeFrom(value: string): (t: Option<MemberRecordType>)
    ensures t.Some? ==> t.value.Value() == value
  {
    if value == "method" then Some(MethodMember)
    else if value == "property" then Some(PropertyMember)
    else if value == "constant" then Some(ConstantMember)
    else None
  }

  /** One usage of a symbol inside a file, as a FileRecord lists it. */
  datatype RecordReference = RecordReference(
    recordType: string,
    identifier: string,
    start: int,
    end: int,
    containerType: Option<string>)

  datatype Record =
    | ClassRecord(fqn: string, classType: Option<string>, flags: int)
    | FunctionRecord(fqn: string, filePath: Option<string>, start: Option<int>, end: Option<int>,
                     fileReferences: seq<string>)
    | ConstantRecord(fqn: string, filePath: Option<string>, start: Option<int>, end: Option<int>)
    | MemberRecord(memberType: MemberRecordType, memberName: string, fileReferences: seq<string>)
    | FileRecord(path: string, references: seq<RecordReference>)
  {
    /** `recordType()`: a constant per record class. */
    function RecordType(): (t: string)
      ensures IsRecordType(t)
      ensures t == CLASS_RECORD_TYPE <==> ClassRecord?
      ensures t == FUNCTION_RECORD_TYPE <==> FunctionRecord?
      ensures t == CONSTANT_RECORD_TYPE <==> ConstantRecord?
      ensures t == MEMBER_RECORD_TYPE <==> MemberRecord?
      ensures t == FILE_RECORD_TYPE <==> FileRecord?
    {
      match this
      case ClassRecord(_, _, _) => CLASS_RECORD_TYPE
      case FunctionRecord(_, _, _, _, _) => FUNCTION_RECORD_TYPE
      case ConstantRecord(_, _, _, _) => CONSTANT_RECORD_TYPE
      case MemberRecord(_, _, _) => MEMBER_RECORD_TYPE
      case FileRecord(_, _) => FILE_RECORD_TYPE
    }

    /** `identifier()`: the fqn, `type#name` for members, the path for files. */
    function Identifier(): string {
      match this
      case ClassRecord(fqn, _, _) => fqn
      case FunctionRecord(fqn, _, _, _, _) => fqn
      case ConstantRecord(fqn, _, _, _) => fqn
      case MemberRecord(t, name, _) => MemberIdentifier(t, name)
      case FileRecord(path, _) => path
    }

    /** The key both stores use: `(record_type, identifier)`. */
    function Key(): (string, string) {
      (RecordType(), Identifier())
    }

    /** The record implements HasFileReferences. */
    predicate HasFileReferences() {
      FunctionRecord? || MemberRecord?
    }

    /** The record implements HasPath. */
    predicate HasPath() {
      FunctionRecord? || ConstantRecord?
    }

    /** The record implements HasFlags. */
    predicate HasFlags() {
      ClassRecord?
    }
  }

  predicate IsRecordType(t: string) {
    t == CLASS_RECORD_TYPE || t == FUNCTION_RECORD_TYPE || t == CONSTANT_RECORD_TYPE
    || t == MEMBER_RECORD_TYPE || t == FILE_RECORD_TYPE
  }

  /** Two records are instances of the same PHP class. */
  predicate SameClass(a: Record, b: Record) {
    a.RecordType() == b.RecordType()
  }

  lemma RecordTypeDeterminesClass(a: Record, b: Record)
    ensures IsRecordType(a.RecordType())
    ensures SameClass(a, b) <==>
      (a.ClassRecord? && b.ClassRecord?) || (a.FunctionRecord? && b.FunctionRecord?)
      || (a.ConstantRecord? && b.ConstantRecord?) || (a.MemberRecord? && b.MemberRecord?)
      || (a.FileRecord? && b.FileRecord?)
  {
  }

  // ---------------------------------------------------------------------
  // FunctionRecord and ConstantRecord

  /** `FunctionRecord::fromName`: a placeholder with only its name set. */
  function FunctionFromName(name: string): (r: Record)
    ensures r.FunctionRecord? && r.fqn == name
    ensures r.RecordType() == FUNCTION_RECORD_TYPE && r.Identifier() == name
    ensures r.filePath.None? && r.start.None? && r.end.None? && r.fileReferences == []
  {
    FunctionRecord(name, None, None, None, [])
  }

  /** `ConstantRecord::fromName`: a placeholder with only its name set. */
  function ConstantFromName(name: string): (r: Record)
    ensures r.ConstantRecord? && r.fqn == name
    ensures r.RecordType() == CONSTANT_RECORD_TYPE && r.Identifier() == name
    ensures r.filePath.None? && r.start.None? && r.end.None?
  {
    ConstantRecord(name, None, None, None)
  }

  /** `__toString` shape shared by both classes: class name, " (", fqn, ")". */
  function Describe(className: string, fqn: string): string {
    className + " (" + fqn + ")"
  }

  /** Reads the fqn back out of a `__toString` result of class `className`. */
  function ParseDescription(className: string, s: string): Option<string> {
    var n := |className| + 2;
    if |s| >= n + 1 && s[..n] == className + " (" && s[|s| - 1] == ')' then Some(s[n..|s| - 1])
    else None
  }

  /** `FunctionRecord::__toString`: names the class and gives back the fqn. */
  function FunctionRecordString(r: Record): (s: string)
    requires r.FunctionRecord?
    ensures |s| > |FUNCTION_RECORD_CLASS| && s[..|FUNCTION_RECORD_CLASS|] == FUNCTION_RECORD_CLASS
    ensures ParseDescription(FUNCTION_RECORD_CLASS, s) == Some(r.fqn)
  {
    DescriptionRoundTrip(FUNCTION_RECORD_CLASS, r.fqn);
    Describe(FUNCTION_RECORD_CLASS, r.fqn)
  }

  /** `ConstantRecord::__toString`: names the class and gives back the fqn. */
  function ConstantRecordString(r: Record): (s: string)
    requires r.ConstantRecord?
    ensures |s| > |CONSTANT_RECORD_CLASS| && s[..|CONSTANT_RECORD_CLASS|] == CONSTANT_RECORD_CLASS
    ensures ParseDescription(CONSTANT_RECORD_CLASS, s) == Some(r.fqn)
  {
    DescriptionRoundTrip(CONSTANT_RECORD_CLASS, r.fqn);
    Describe(CONSTANT_RECORD_CLASS, r.fqn)
  }

  lemma DescriptionRoundTrip(className: string, fqn: string)
    ensures ParseDescription(className, Describe(className, fqn)) == Some(fqn)
  {
    var s := Describe(className, fqn);
    var n := |className| + 2;
    assert s == (className + " (") + fqn + ")";
    assert s[..n] == className + " (";
    assert s[n..|s| - 1] == fqn;
  }

  /** A function record and a constant record never print alike. */
  lemma StringFormsDistinguishClasses(f: Record, c: Record)
    requires f.FunctionRecord? && c.ConstantRecord?
    ensures FunctionRecordString(f) != ConstantRecordString(c)
  {
    var i := 30;
    assert FunctionRecordString(f)[i] == FUNCTION_RECORD_CLASS[i] == 'F';
    assert ConstantRecordString(c)[i] == CONSTANT_RECORD_CLASS[i] == 'C';
  }

  /** FunctionRecord has both file references and a path; ConstantRecord a path only. */
  lemma RecordCapabilities(name: string)
    ensures FunctionFromName(name).HasFileReferences() && FunctionFromName(name).HasPath()
    ensures ConstantFromName(name).HasPath() && !ConstantFromName(name).HasFileReferences()
    ensures !FunctionFromName(name).HasFlags() && !ConstantFromName(name).HasFlags()
  {
  }

  // ---------------------------------------------------------------------
  // Member identifiers: `type#name`

  function MemberIdentifier(t: MemberRecordType, name: string): string {
    t.Value() + "#" + name
  }

  /** Index of the first '#' in `s`, or |s| when there is none. */
  function HashIndex(s: string): (i: nat)
    ensures i <= |s|
    ensures i < |s| ==> s[i] == '#'
    ensures forall j :: 0 <= j < i ==> s[j] != '#'
  {
    if s == [] then 0
    else if s[0] == '#' then 0
    else 1 + HashIndex(s[1..])
  }

  /** `MemberRecord::fromIdentifier`: split at the first '#', the left part a member type. */
  function MemberFromIdentifier(identifier: string): (r: Option<Record>)
    ensures r.Some? ==> r.value.MemberRecord? && r.value.Identifier() == identifier
  {
    var i := HashIndex(identifier);
    if i == |identifier| then None
    else match MemberRecordTypeFrom(identifier[..i])
      case None => None
      case Some(t) =>
        assert identifier == identifier[..i] + "#" + identifier[i + 1..];
        Some(MemberRecord(t, identifier[i + 1..], []))
  }

  /** `MemberRecord::isIdentifier`. */
  predicate IsMemberIdentifier(identifier: string) {
    MemberFromIdentifier(identifier).Some?
  }

  lemma {:induction false} HashIndexOfPrefix(p: string, rest: string)
    requires forall j :: 0 <= j < |p| ==> p[j] != '#'
    ensures HashIndex(p + "#" + rest) == |p|
  {
    if p != [] {
      assert (p + "#" + rest)[1..] == p[1..] + "#" + rest;
      HashIndexOfPrefix(p[1..], rest);
    }
  }

  /** Building an identifier and parsing it back gives the same member. */
  lemma MemberIdentifierRoundTrip(t: MemberRecordType, name: string)
    ensures MemberFromIdentifier(MemberIdentifier(t, name)) == Some(MemberRecord(t, name, []))
  {
    var id := MemberIdentifier(t, name);
    var v := t.Value();
    HashIndexOfPrefix(v, name);
    assert id[..|v|] == v;
    assert id[|v| + 1..] == name;
  }

  // ---------------------------------------------------------------------
  // Records rebuilt from a stored key (the RecordFactory of the search index)

  /**
   * `RecordFactory::create`: a record of the class the record type names,
   * with that key; a member identifier that does not parse gives nothing.
   */
  function CreateRecord(recordType: string, identifier: string): (r: Option<Record>)
    ensures r.Some? ==> r.value.Key() == (recordType, identifier)
    ensures !IsRecordType(recordType) ==> r.None?
    ensures IsRecordType(recordType) && recordType != MEMBER_RECORD_TYPE ==> r.Some?
    ensures recordType == MEMBER_RECORD_TYPE ==> (r.Some? <==> IsMemberIdentifier(identifier))
  {
    if recordType == CLASS_RECORD_TYPE then Some(ClassRecord(identifier, None, 0))
    else if recordType == FUNCTION_RECORD_TYPE then Some(FunctionFromName(identifier))
    else if recordType == CONSTANT_RECORD_TYPE then Some(ConstantFromName(identifier))
    else if recordType == MEMBER_RECORD_TYPE then MemberFromIdentifier(identifier)
    else if recordType == FILE_RECORD_TYPE then Some(FileRecord(identifier, []))
    else None
  }

  /** Every record's key can be turned back into a record with that key. */
  lemma CreateRecordRestoresKey(r: Record)
    ensures CreateRecord(r.RecordType(), r.Identifier()).Some?
    ensures CreateRecord(r.RecordType(), r.Identifier()).value.Key() == r.Key()
  {
    if r.MemberRecord? {
      MemberIdentifierRoundTrip(r.memberType, r.memberName);
    }
  }
}
