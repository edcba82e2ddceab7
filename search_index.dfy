/**
 * SqliteSearchIndex: the denormalized search table
 * `search_index(record_type, identifier, type, flags)` with a unique index on
 * `(record_type, identifier)`, a write buffer in front of it, and the
 * translation of Criteria into an SQL condition.
 *
 * SQLite is replaced by a map from `(record_type, identifier)` to the row's
 * other columns. Evaluating a WHERE clause (equality and GLOB) is the
 * `admits` parameter of Search, and `Criteria::isSatisfiedBy` is its `sat`
 * parameter.
 */
module SqliteSearch {
  import opened Wrappers
  import opened Records

  /** Flush the database after BATCH_SIZE buffered writes. */
  const BATCH_SIZE: nat := 1000

  // ---------------------------------------------------------------------
  // Criteria and their translation

  /** The Criteria classes; `Unsupported` stands for every other class, by name. */
  datatype Criteria =
    | ExactShortName(name: string)
    | ShortNameBeginsWith(name: string)
    | FqnBeginsWith(name: string)
    | IsClass
    | IsClassType
    | IsFunction
    | IsConstant
    | AndCriteria(parts: seq<Criteria>)
    | Unsupported(className: string)

  /** An SQL condition and the named parameters bound into it. */
  datatype Query = Query(condition: string, parameters: map<string, string>)

  /** The criteria the translation accepts: no `Unsupported` at any depth. */
  predicate Supported(c: Criteria) {
    match c
    case Unsupported(_) => false
    case AndCriteria(parts) => forall i :: 0 <= i < |parts| ==> Supported(parts[i])
    case _ => true
  }

  function NotSupportedMessage(className: string): string {
    "Criteria \"" + className + "\" not supported by SQLite"
  }

  function RecordTypeIs(recordType: string): Query {
    Query("record_type = :record_type", map[":record_type" := recordType])
  }

  /**
   * `convertToCriteriaToCriteria`: the condition and parameters for `c`, or
   * the NotSupported message of the first unsupported criterion met.
   */
  function Convert(c: Criteria): (r: Result<Query, string>)
    ensures r.Ok? ==> KnownParameters(r.value.parameters)
    decreases c, 1, 0
  {
    match c
    case ExactShortName(name) => Ok(Query("identifier = :identifier", map[":identifier" := name]))
    case AndCriteria(parts) => ConvertParts(c, 0, "", map[])
    case IsConstant => Ok(RecordTypeIs(CONSTANT_RECORD_TYPE))
    case IsClass => Ok(RecordTypeIs(CLASS_RECORD_TYPE))
    case IsClassType => Ok(RecordTypeIs(CLASS_RECORD_TYPE))
    case IsFunction => Ok(RecordTypeIs(FUNCTION_RECORD_TYPE))
    case ShortNameBeginsWith(name) =>
      Ok(Query("identifier GLOB '*\\" + name + "*' OR identifier GLOB '" + name + "*\\'", map[]))
    case FqnBeginsWith(name) => Ok(Query("identifier GLOB '" + name + "*'", map[]))
    case Unsupported(className) => Err(NotSupportedMessage(className))
  }

  /**
   * The `for` loop of the `And` case from part `i` on: `condition` and
   * `parameters` are what the parts before `i` produced.
   */
  function ConvertParts(whole: Criteria, i: nat, condition: string, parameters: map<string, string>)
    : (r: Result<Query, string>)
    requires whole.AndCriteria? && i <= |whole.parts|
    ensures r.Ok? ==> forall name :: name in r.value.parameters ==>
      name in parameters || name == ":identifier" || name == ":record_type"
    decreases whole, 0, |whole.parts| - i
  {
    if i == |whole.parts| then Ok(Query(condition, parameters))
    else match Convert(whole.parts[i])
      case Err(e) => Err(e)
      case Ok(part) =>
        ConvertParts(whole, i + 1, AppendPart(condition, i, part.condition), parameters + part.parameters)
  }

  /** One step of the `And` loop: ` AND ` before every part but the first, then `(part)`. */
  function AppendPart(condition: string, i: nat, part: string): string {
    (if i != 0 then condition + " AND " else condition) + "(" + part + ")"
  }

  /** ` WHERE <condition>`, or nothing for an empty condition. */
  function WhereClause(condition: string): (w: string)
    ensures condition == "" ==> w == ""
    ensures condition != "" ==> |w| > 7 && w[..7] == " WHERE " && w[7..] == condition
  {
    if condition == "" then "" else " WHERE " + condition
  }

  /** The SELECT statement a search prepares. */
  function SelectStatement(condition: string): string {
    "SELECT record_type, identifier, type, flags FROM search_index " + WhereClause(condition)
  }

  // Reference definitions for the `And` case.

  /** The parenthesized parts joined with ` AND `. */
  function Joined(conditions: seq<string>): string {
    if conditions == [] then ""
    else AppendPart(Joined(conditions[..|conditions| - 1]), |conditions| - 1, conditions[|conditions| - 1])
  }

  /** Parameter maps merged left to right; a later value for a name replaces an earlier one. */
  function Merged(maps: seq<map<string, string>>): map<string, string> {
    if maps == [] then map[] else Merged(maps[..|maps| - 1]) + maps[|maps| - 1]
  }

  /** The conditions of supported parts. */
  function PartConditions(parts: seq<Criteria>): (cs: seq<string>)
    requires forall i :: 0 <= i < |parts| ==> Convert(parts[i]).Ok?
    ensures |cs| == |parts|
    ensures forall i :: 0 <= i < |parts| ==> cs[i] == Convert(parts[i]).value.condition
  {
    if parts == [] then []
    else PartConditions(parts[..|parts| - 1]) + [Convert(parts[|parts| - 1]).value.condition]
  }

  /** The parameter maps of supported parts. */
  function PartParameters(parts: seq<Criteria>): (ps: seq<map<string, string>>)
    requires forall i :: 0 <= i < |parts| ==> Convert(parts[i]).Ok?
    ensures |ps| == |parts|
    ensures forall i :: 0 <= i < |parts| ==> ps[i] == Convert(parts[i]).value.parameters
  {
    if parts == [] then []
    else PartParameters(parts[..|parts| - 1]) + [Convert(parts[|parts| - 1]).value.parameters]
  }

  /** Index of the first part whose translation fails, or |parts| when none does. */
  function FirstFailure(parts: seq<Criteria>): (k: nat)
    ensures k <= |parts|
    ensures forall j :: 0 <= j < k ==> Convert(parts[j]).Ok?
    ensures k < |parts| ==> Convert(parts[k]).Err?
  {
    if parts == [] then 0
    else if Convert(parts[0]).Err? then 0
    else 1 + FirstFailure(parts[1..])
  }

  /** The accumulator of the `And` loop after `i` parts is the reference join of those parts. */
  lemma {:induction false} ConvertPartsFrom(whole: Criteria, i: nat)
    requires whole.AndCriteria? && i <= |whole.parts|
    requires forall j :: 0 <= j < |whole.parts| ==> Convert(whole.parts[j]).Ok?
    ensures var cs := PartConditions(whole.parts);
      var ps := PartParameters(whole.parts);
      ConvertParts(whole, i, Joined(cs[..i]), Merged(ps[..i])) == Ok(Query(Joined(cs), Merged(ps)))
    decreases |whole.parts| - i
  {
    var cs := PartConditions(whole.parts);
    var ps := PartParameters(whole.parts);
    if i < |whole.parts| {
      assert cs[..i + 1][..i] == cs[..i];
      assert ps[..i + 1][..i] == ps[..i];
      assert Joined(cs[..i + 1]) == AppendPart(Joined(cs[..i]), i, cs[i]);
      assert Merged(ps[..i + 1]) == Merged(ps[..i]) + ps[i];
      ConvertPartsFrom(whole, i + 1);
    } else {
      assert cs[..i] == cs;
      assert ps[..i] == ps;
    }
  }

  /** An `And` of supported parts is their parenthesized conjunction with the merged parameters. */
  lemma ConvertAnd(parts: seq<Criteria>)
    requires forall j :: 0 <= j < |parts| ==> Convert(parts[j]).Ok?
    ensures Convert(AndCriteria(parts))
      == Ok(Query(Joined(PartConditions(parts)), Merged(PartParameters(parts))))
  {
    ConvertPartsFrom(AndCriteria(parts), 0);
  }

  /** From part `i` on, the loop fails with the error of the first failing part at or after `i`. */
  lemma {:induction false} ConvertPartsFails(whole: Criteria, i: nat, k: nat,
                                             condition: string, parameters: map<string, string>)
    requires whole.AndCriteria? && i <= k < |whole.parts|
    requires forall j :: i <= j < k ==> Convert(whole.parts[j]).Ok?
    requires Convert(whole.parts[k]).Err?
    ensures ConvertParts(whole, i, condition, parameters) == Err(Convert(whole.parts[k]).error)
    decreases k - i
  {
    if i < k {
      var part := Convert(whole.parts[i]).value;
      ConvertPartsFails(whole, i + 1, k, AppendPart(condition, i, part.condition),
                        parameters + part.parameters);
    }
  }

  /** An `And` fails with the message of its first unsupported part. */
  lemma ConvertAndFails(parts: seq<Criteria>, k: nat)
    requires k < |parts| && Convert(parts[k]).Err?
    requires forall j :: 0 <= j < k ==> Convert(parts[j]).Ok?
    ensures Convert(AndCriteria(parts)) == Err(Convert(parts[k]).error)
  {
    ConvertPartsFails(AndCriteria(parts), 0, k, "", map[]);
  }

  /** The translation succeeds exactly for supported criteria. */
  lemma {:induction false} ConvertOkIffSupported(c: Criteria)
    ensures Convert(c).Ok? <==> Supported(c)
    decreases c
  {
    match c
    case AndCriteria(parts) =>
      forall j | 0 <= j < |parts| ensures Convert(parts[j]).Ok? <==> Supported(parts[j]) {
        ConvertOkIffSupported(parts[j]);
      }
      var k := FirstFailure(parts);
      if k < |parts| {
        ConvertAndFails(parts, k);
      } else {
        ConvertAnd(parts);
      }
    case _ =>
  }

  /** An unsupported criterion names its class in the error. */
  lemma UnsupportedMessage(className: string)
    ensures Convert(Unsupported(className)) == Err(NotSupportedMessage(className))
    ensures NotSupportedMessage(className)[..10] == "Criteria \""
  {
  }

  /** IsClass and IsClassType select the same rows. */
  lemma ClassCriteriaAgree()
    ensures Convert(IsClass) == Convert(IsClassType)
      == Ok(Query("record_type = :record_type", map[":record_type" := "class"]))
  {
  }

  /** An empty `And` has an empty condition, so the SELECT has no WHERE clause. */
  lemma EmptyAndSelectsAll()
    ensures Convert(AndCriteria([])) == Ok(Query("", map[]))
    ensures SelectStatement("") == "SELECT record_type, identifier, type, flags FROM search_index "
  {
  }

  /** A one-part `And` parenthesizes its part. */
  lemma SingleAnd(c: Criteria)
    requires Convert(c).Ok?
    ensures Convert(AndCriteria([c])) == Ok(Query("(" + Convert(c).value.condition + ")",
                                                  Convert(c).value.parameters))
  {
    var q := Convert(c).value;
    ConvertAnd([c]);
    assert PartConditions([c]) == [q.condition];
    assert PartParameters([c]) == [q.parameters];
    assert [q.condition][..0] == [];
    assert [q.parameters][..0] == [];
    assert Joined([q.condition]) == AppendPart("", 0, q.condition) == "(" + q.condition + ")";
    assert Merged([q.parameters]) == map[] + q.parameters == q.parameters;
  }

  /** In a merge, a name's value comes from the last map that binds it. */
  lemma {:induction false} MergedLastWins(maps: seq<map<string, string>>, name: string, i: nat)
    requires i < |maps| && name in maps[i]
    requires forall j :: i < j < |maps| ==> name !in maps[j]
    ensures name in Merged(maps) && Merged(maps)[name] == maps[i][name]
  {
    if i < |maps| - 1 {
      MergedLastWins(maps[..|maps| - 1], name, i);
    }
  }

  /** A name is bound by a merge exactly when one of the merged maps binds it. */
  lemma {:induction false} MergedKeys(maps: seq<map<string, string>>, name: string)
    ensures name in Merged(maps) <==> exists j :: 0 <= j < |maps| && name in maps[j]
  {
    if maps != [] {
      var init := maps[..|maps| - 1];
      MergedKeys(init, name);
      if name in Merged(init) {
        var j :| 0 <= j < |init| && name in init[j];
        assert name in maps[j];
      }
      if exists j :: 0 <= j < |maps| && name in maps[j] {
        var j :| 0 <= j < |maps| && name in maps[j];
        if j < |maps| - 1 { assert name in init[j]; }
      }
    }
  }

  /**
   * Parts that bind the same name share one parameter, bound to the last
   * part's value: `IsClass AND IsFunction` asks for functions twice.
   */
  lemma AndParametersCollide()
    ensures var p := "(" + RecordTypeIs(CLASS_RECORD_TYPE).condition + ")";
      Convert(AndCriteria([IsClass, IsFunction]))
        == Ok(Query(p + " AND " + p, map[":record_type" := FUNCTION_RECORD_TYPE]))
  {
    var w := AndCriteria([IsClass, IsFunction]);
    var c, f := RecordTypeIs(CLASS_RECORD_TYPE), RecordTypeIs(FUNCTION_RECORD_TYPE);
    var p := "(" + c.condition + ")";
    var merged := (map[] + c.parameters) + f.parameters;
    assert merged == f.parameters;
    assert c.condition == f.condition;
    assert AppendPart("", 0, c.condition) == p;
    assert AppendPart(p, 1, f.condition) == p + " AND " + p;
    assert Convert(w) == ConvertParts(w, 1, p, map[] + c.parameters);
    assert ConvertParts(w, 1, p, map[] + c.parameters) == ConvertParts(w, 2, p + " AND " + p, merged);
  }

  /** The only parameter names the translation ever binds. */
  predicate KnownParameters(p: map<string, string>) {
    forall name :: name in p ==> name == ":identifier" || name == ":record_type"
  }

  // ---------------------------------------------------------------------
  // The table

  /** The non-key columns of a row. */
  datatype Row = Row(classType: string, flags: int)

  type Key = (string, string)
  type Table = map<Key, Row>

  /** The bound `:type`: the class type for class records (null when unset), '' otherwise. */
  function TypeColumn(r: Record): Option<string> {
    if r.ClassRecord? then r.classType else Some("")
  }

  /** The bound `:flags`: `flags()` of HasFlags records, 0 otherwise. */
  function FlagsColumn(r: Record): int {
    if r.HasFlags() then r.flags else 0
  }

  /**
   * One `INSERT OR IGNORE`: nothing happens when the key already has a row
   * (UNIQUE) or when the type is null (NOT NULL).
   */
  function InsertOrIgnore(t: Table, r: Record): (t': Table)
    ensures r.Key() in t ==> t' == t
    ensures r.Key() !in t && TypeColumn(r).Some? ==>
      t' == t[r.Key() := Row(TypeColumn(r).value, FlagsColumn(r))]
    ensures TypeColumn(r).None? ==> t' == t
  {
    if r.Key() in t || TypeColumn(r).None? then t
    else t[r.Key() := Row(TypeColumn(r).value, FlagsColumn(r))]
  }

  /** The inserts of one flush, in buffer order. */
  function InsertAll(t: Table, rs: seq<Record>): (t': Table)
    ensures t.Keys <= t'.Keys
    ensures forall k :: k in t' && k !in t ==> exists i :: 0 <= i < |rs| && rs[i].Key() == k
  {
    if rs == [] then t else InsertOrIgnore(InsertAll(t, rs[..|rs| - 1]), rs[|rs| - 1])
  }

  /** A flush never changes a row that was already there. */
  lemma {:induction false} InsertAllKeeps(t: Table, rs: seq<Record>, k: Key)
    requires k in t
    ensures k in InsertAll(t, rs) && InsertAll(t, rs)[k] == t[k]
  {
    if rs != [] {
      InsertAllKeeps(t, rs[..|rs| - 1], k);
    }
  }

  /** A flush adds rows only for the keys of the flushed records. */
  lemma {:induction false} InsertAllNoOther(t: Table, rs: seq<Record>, k: Key)
    requires k !in t && forall i :: 0 <= i < |rs| ==> rs[i].Key() != k
    ensures k !in InsertAll(t, rs)
  {
    if rs != [] {
      InsertAllNoOther(t, rs[..|rs| - 1], k);
    }
  }

  /**
   * For a key with no row yet, the first flushed record with that key and a
   * non-null type is the one stored: first write wins.
   */
  lemma {:induction false} InsertAllFirstWins(t: Table, rs: seq<Record>, i: nat)
    requires i < |rs| && rs[i].Key() !in t && TypeColumn(rs[i]).Some?
    requires forall j :: 0 <= j < i ==> rs[j].Key() != rs[i].Key() || TypeColumn(rs[j]).None?
    ensures var k := rs[i].Key();
      k in InsertAll(t, rs) && InsertAll(t, rs)[k] == Row(TypeColumn(rs[i]).value, FlagsColumn(rs[i]))
  {
    var init := rs[..|rs| - 1];
    if i < |rs| - 1 {
      InsertAllFirstWins(t, init, i);
    } else {
      InsertAllSkipsNull(t, init, rs[i].Key());
    }
  }

  /** Records whose key differs from `k` or whose type is null leave `k` without a row. */
  lemma {:induction false} InsertAllSkipsNull(t: Table, rs: seq<Record>, k: Key)
    requires k !in t
    requires forall j :: 0 <= j < |rs| ==> rs[j].Key() != k || TypeColumn(rs[j]).None?
    ensures k !in InsertAll(t, rs)
  {
    if rs != [] {
      InsertAllSkipsNull(t, rs[..|rs| - 1], k);
    }
  }

  /** Every row a flush adds holds the type and flags of a flushed record with that key. */
  lemma {:induction false} InsertAllRowsFromRecords(t: Table, rs: seq<Record>, k: Key)
    requires k in InsertAll(t, rs) && k !in t
    ensures exists i :: (0 <= i < |rs| && rs[i].Key() == k && TypeColumn(rs[i]).Some?
                         && InsertAll(t, rs)[k] == Row(TypeColumn(rs[i]).value, FlagsColumn(rs[i])))
  {
    var init := rs[..|rs| - 1];
    var last := rs[|rs| - 1];
    var before := InsertAll(t, init);
    assert InsertAll(t, rs) == InsertOrIgnore(before, last);
    if k in before {
      InsertAllRowsFromRecords(t, init, k);
      var i :| 0 <= i < |init| && init[i].Key() == k && TypeColumn(init[i]).Some?
        && before[k] == Row(TypeColumn(init[i]).value, FlagsColumn(init[i]));
      assert rs[i] == init[i];
    } else {
      assert rs[|rs| - 1] == last;
    }
  }

  /** `DELETE ... WHERE record_type = ? AND identifier = ? AND type = ?`; a null type matches nothing. */
  function RemoveRow(t: Table, r: Record): (t': Table)
    ensures t.Keys - {r.Key()} <= t'.Keys <= t.Keys
  {
    var k := r.Key();
    if k in t && TypeColumn(r) == Some(t[k].classType) then t - {k} else t
  }

  lemma RemoveRowEffect(t: Table, r: Record)
    ensures var t' := RemoveRow(t, r);
      (r.Key() in t && TypeColumn(r) == Some(t[r.Key()].classType) ==> r.Key() !in t')
      && (r.Key() in t && TypeColumn(r) != Some(t[r.Key()].classType) ==> t' == t)
      && (forall k :: k != r.Key() ==> (k in t' <==> k in t) && (k in t ==> t'[k] == t[k]))
      && t'.Keys <= t.Keys
  {
  }

  /** `DELETE FROM search_index WHERE record_type = 'class'`. */
  function ResetTable(t: Table): (t': Table)
    ensures forall k :: k in t' <==> k in t && k.0 != CLASS_RECORD_TYPE
    ensures forall k :: k in t' ==> t'[k] == t[k]
  {
    map k | k in t && k.0 != CLASS_RECORD_TYPE :: t[k]
  }

  /**
   * The record a row is read back as: `RecordFactory::create`, and for a
   * class record the row's type and `(int)` flags.
   */
  function RowRecord(k: Key, row: Row): (r: Option<Record>)
    ensures r.Some? ==> r.value.Key() == k
  {
    match CreateRecord(k.0, k.1)
    case None => None
    case Some(rec) =>
      if rec.ClassRecord? then Some(ClassRecord(rec.fqn, Some(row.classType), row.flags)) else Some(rec)
  }

  /** Writing a class record with a type and reading its row back gives the same record. */
  lemma ClassRowRoundTrip(r: Record)
    requires r.ClassRecord? && r.classType.Some?
    ensures RowRecord(r.Key(), Row(TypeColumn(r).value, FlagsColumn(r))) == Some(r)
  {
  }

  /** Any other record is read back as the `fromName` placeholder of its key. */
  lemma RowRecordKeepsKey(r: Record, row: Row)
    ensures RowRecord(r.Key(), row).Some? && RowRecord(r.Key(), row).value.Key() == r.Key()
  {
    CreateRecordRestoresKey(r);
  }

  // ---------------------------------------------------------------------
  // The index object

  datatype SearchError =
    | NotSupported(message: string)
    | PrepareFailed
    | UnknownRecord(recordType: string, identifier: string)

  class SqliteSearchIndex {
    var table: Table
    var subjects: seq<Record>
    var subjectCount: int

    /** The counter counts the buffer, which stays within the batch size between calls. */
    ghost predicate Valid()
      reads this
    {
      subjectCount == |subjects| <= BATCH_SIZE
    }

    /** Opens the index; the table is created only when it does not exist yet. */
    constructor(existing: Option<Table>)
      ensures Valid()
      ensures table == existing.GetOr(map[]) && subjects == [] && subjectCount == 0
    {
      table := existing.GetOr(map[]);
      subjects := [];
      subjectCount := 0;
    }

    /** Buffers `r`; once the buffer holds more than BATCH_SIZE records it is flushed. */
    method Write(r: Record)
      requires Valid()
      modifies this
      ensures Valid()
      ensures |old(subjects)| + 1 > BATCH_SIZE ==>
        table == InsertAll(old(table), old(subjects) + [r]) && subjects == []
      ensures |old(subjects)| + 1 <= BATCH_SIZE ==>
        table == old(table) && subjects == old(subjects) + [r]
    {
      subjects := subjects + [r];
      subjectCount := subjectCount + 1;
      if subjectCount > BATCH_SIZE {
        Flush();
      }
    }

    /** Inserts the buffered records in order, in one transaction, and empties the buffer. */
    method Flush()
      modifies this
      ensures Valid()
      ensures table == InsertAll(old(table), old(subjects))
      ensures subjects == [] && subjectCount == 0
    {
      var i := 0;
      while i < |subjects|
        invariant 0 <= i <= |subjects|
        invariant subjects == old(subjects)
        invariant table == InsertAll(old(table), subjects[..i])
      {
        assert subjects[..i + 1][..i] == subjects[..i];
        table := InsertOrIgnore(table, subjects[i]);
        i := i + 1;
      }
      assert subjects[..i] == subjects;
      subjects := [];
      subjectCount := 0;
    }

    /** Deletes the row of `r`'s key when its type column equals `r`'s type. */
    method Remove(r: Record)
      modifies this
      ensures table == RemoveRow(old(table), r)
      ensures subjects == old(subjects) && subjectCount == old(subjectCount)
    {
      var k := r.Key();
      var t := TypeColumn(r);
      if k in table && t == Some(table[k].classType) {
        table := table - {k};
      }
    }

    /** Deletes the class rows; buffered records stay buffered. */
    method Reset()
      modifies this
      ensures table == ResetTable(old(table))
      ensures subjects == old(subjects) && subjectCount == old(subjectCount)
    {
      table := map k | k in table && k.0 != CLASS_RECORD_TYPE :: table[k];
    }

    /**
     * Flushes pending writes, translates `c`, and scans the rows the database
     * returns for the condition, keeping the records that satisfy `c`.
     * `admits(query, key, row)` is the database's verdict on a row for a
     * non-empty condition; `sat` is `isSatisfiedBy`; `prepared` says whether
     * the statement could be prepared. `keys` lists the rows yielded.
     */
    method Search(c: Criteria, sat: (Criteria, Record) -> bool, admits: (Query, Key, Row) -> bool,
                  prepared: bool)
      returns (result: Result<seq<Record>, SearchError>, ghost keys: seq<Key>)
      requires Valid()
      modifies this
      ensures Valid()
      ensures subjects == [] && table == InsertAll(old(table), old(subjects))
      ensures Convert(c).Err? ==> result == Err(NotSupported(Convert(c).error))
      ensures Convert(c).Ok? && !prepared ==> result == Err(PrepareFailed)
      ensures Convert(c).Ok? && prepared ==> result.Ok? || result.error.UnknownRecord?
      ensures Convert(c).Ok? && prepared
        && (forall k :: k in table && (Convert(c).value.condition == "" || admits(Convert(c).value, k, table[k]))
              ==> RowRecord(k, table[k]).Some?)
        ==> result.Ok?
      ensures result.Ok? ==>
        var q := Convert(c).value;
        var found := result.value;
        && |found| == |keys|
        && (forall j :: 0 <= j < |keys| ==>
              keys[j] in table && (q.condition == "" || admits(q, keys[j], table[keys[j]]))
              && RowRecord(keys[j], table[keys[j]]) == Some(found[j]) && sat(c, found[j]))
        && (forall i, j :: 0 <= i < j < |keys| ==> keys[i] != keys[j])
        && (forall k :: k in table && (q.condition == "" || admits(q, k, table[k]))
              && RowRecord(k, table[k]).Some? && sat(c, RowRecord(k, table[k]).value)
              ==> k in keys)
      ensures result.Err? && result.error.UnknownRecord? ==>
        var k := (result.error.recordType, result.error.identifier);
        && Convert(c).Ok? && k in table && RowRecord(k, table[k]).None?
        && (Convert(c).value.condition == "" || admits(Convert(c).value, k, table[k]))
    {
      keys := [];
      if subjectCount > 0 {
        Flush();
      } else {
        assert InsertAll(table, subjects) == table;
      }
      var converted := Convert(c);
      if converted.Err? {
        return Err(NotSupported(converted.error)), keys;
      }
      if !prepared {
        return Err(PrepareFailed), keys;
      }
      result, keys := Scan(c, converted.value, sat, admits);
    }

    /**
     * The `while ($row)` loop: visits the rows the database returns for `q`
     * in some order, rebuilds each as a record and keeps those satisfying `c`.
     */
    method Scan(c: Criteria, q: Query, sat: (Criteria, Record) -> bool, admits: (Query, Key, Row) -> bool)
      returns (result: Result<seq<Record>, SearchError>, ghost keys: seq<Key>)
      ensures result.Ok? ==>
        var found := result.value;
        && |found| == |keys|
        && (forall j :: 0 <= j < |keys| ==>
              keys[j] in table && (q.condition == "" || admits(q, keys[j], table[keys[j]]))
              && RowRecord(keys[j], table[keys[j]]) == Some(found[j]) && sat(c, found[j]))
        && (forall i, j :: 0 <= i < j < |keys| ==> keys[i] != keys[j])
        && (forall k :: k in table && (q.condition == "" || admits(q, k, table[k]))
              && RowRecord(k, table[k]).Some? && sat(c, RowRecord(k, table[k]).value)
              ==> k in keys)
      ensures result.Err? ==>
        (result.error.UnknownRecord? &&
         var k := (result.error.recordType, result.error.identifier);
         k in table && (q.condition == "" || admits(q, k, table[k])) && RowRecord(k, table[k]).None?)
    {
      keys := [];
      var rows := set k | k in table && (q.condition == "" || admits(q, k, table[k]));
      var pending := rows;
      var found := [];
      while pending != {}
        invariant pending <= rows
        invariant |found| == |keys|
        invariant forall j :: 0 <= j < |keys| ==>
          (keys[j] in rows && keys[j] !in pending
           && RowRecord(keys[j], table[keys[j]]) == Some(found[j]) && sat(c, found[j]))
        invariant forall i, j :: 0 <= i < j < |keys| ==> keys[i] != keys[j]
        invariant forall k ::
          (k in rows && k !in pending && RowRecord(k, table[k]).Some? && sat(c, RowRecord(k, table[k]).value))
          ==> k in keys
        decreases |pending|
      {
        var k :| k in pending;
        pending := pending - {k};
        var record := RowRecord(k, table[k]);
        if record.None? {
          return Err(UnknownRecord(k.0, k.1)), keys;
        }
        if sat(c, record.value) {
          found := found + [record.value];
          keys := keys + [k];
        }
      }
      result := Ok(found);
    }
  }

  /**
   * What a search sees after a flush: a written record with a non-null type
   * and a key that had no row, first of its key among the buffered writes,
   * has its row in the table.
   */
  lemma SearchSeesEarlierWrite(t: Table, buffered: seq<Record>, i: nat)
    requires i < |buffered| && buffered[i].Key() !in t && TypeColumn(buffered[i]).Some?
    requires forall j :: 0 <= j < i ==> buffered[j].Key() != buffered[i].Key()
    ensures var after := InsertAll(t, buffered);
      buffered[i].Key() in after
      && RowRecord(buffered[i].Key(), after[buffered[i].Key()]).Some?
  {
    InsertAllFirstWins(t, buffered, i);
    RowRecordKeepsKey(buffered[i], InsertAll(t, buffered)[buffered[i].Key()]);
  }
}
