/**
 * The content-addressed record file store (FileRepository). Each record is
 * serialized to its own file under a path sharded by the md5 of its identifier;
 * a versioned timestamp file holds the time of the last update.
 *
 * The filesystem is the map `files` from path to contents (PHP strings are
 * byte strings, so both are Dafny strings); directories are implicit. md5 and
 * the record serializer are given at construction.
 */
module SerializedFileRepository {
  import opened Wrappers
  import opened Records

  /** Bump on every incompatible change of the index format. */
  const VERSION: nat := 3


  predicate IsHexDigit(c: char) {
    '0' <= c <= '9' || 'a' <= c <= 'f'
  }

  /** What md5() returns: 32 lower-case hex digits. */
  type Md5Hex = s: string | |s| == 32 && forall i :: 0 <= i < |s| ==> IsHexDigit(s[i])
    witness "00000000000000000000000000000000"

  /** What the serializer's deserialize does with a payload. */
  datatype Deserialized =
    | Corrupted(message: string)   // it throws
    | NullPayload                  // it returns null
    | Payload(record: Record)

  datatype Serializer = Serializer(serialize: Record -> string, deserialize: string -> Deserialized)

  /** The serializer reads back what it wrote for `r`. */
  predicate RoundTrips(serializer: Serializer, r: Record) {
    serializer.deserialize(serializer.serialize(r)) == Payload(r)
  }

  datatype Warning =
    | RecordCorrupted(path: string, message: string)
    | InvalidCacheEntry(path: string)
    | CouldNotRemove(path: string)

  // ---------------------------------------------------------------------
  // Paths

  /** The part of a record path after the record type: `_h0/h1/h.cache`. */
  function ShardSuffix(hash: Md5Hex): (s: string)
    ensures |s| == 43 && s[5..37] == hash && s[5..] == hash + ".cache"
    ensures s[0] == '_' && s[1] == hash[0] && s[2] == '/' && s[3] == hash[1] && s[4] == '/'
  {
    "_" + [hash[0]] + "/" + [hash[1]] + "/" + hash + ".cache"
  }

  /** `p` lies inside the directory `root`. */
  predicate UnderRoot(root: string, p: string) {
    |p| > |root| + 1 && p[..|root| + 1] == root + "/"
  }

  /**
   * `<root>/<recordType>_<h[0]>/<h[1]>/<h>.cache` with h = md5(identifier):
   * a `.cache` file inside the root, named after the identifier's md5.
   */
  function PathFor(root: string, md5: string -> Md5Hex, r: Record): (p: string)
    ensures UnderRoot(root, p)
    ensures |p| >= 38 && p[|p| - 38..] == md5(r.Identifier()) + ".cache"
  {
    var head, suffix := root + "/", ShardSuffix(md5(r.Identifier()));
    var dir := head + r.RecordType();
    var p := dir + suffix;
    assert p[..|head|] == dir[..|head|] == head;
    assert p[|dir|..] == suffix;
    assert p[|p| - 38..] == suffix[5..];
    p
  }

  /** `<root>/timestamp.v<VERSION>`, with VERSION written out (see TimestampPathNamesVersion). */
  function TimestampPath(root: string): (t: string)
    ensures UnderRoot(root, t) && t[|root| + 1..] == "timestamp.v3"
  {
    var t := (root + "/") + "timestamp.v3";
    assert t[..|root| + 1] == root + "/";
    t
  }

  /** The path depends only on the record's key. */
  lemma PathForDependsOnKey(root: string, md5: string -> Md5Hex, a: Record, b: Record)
    requires a.Key() == b.Key()
    ensures PathFor(root, md5, a) == PathFor(root, md5, b)
  {
  }

  /** The record type sits between the root and the shard suffix. */
  lemma PathForLayout(root: string, md5: string -> Md5Hex, r: Record)
    ensures var p := PathFor(root, md5, r);
      |p| == |root| + 1 + |r.RecordType()| + 43 && p[|root| + 1..|p| - 43] == r.RecordType()
  {
    var head, t := root + "/", r.RecordType();
    var p := PathFor(root, md5, r);
    assert p == head + (t + ShardSuffix(md5(r.Identifier())));
    assert p[|head|..|p| - 43] == t;
  }

  /** Two records share a path only if they share a record type and an md5. */
  lemma PathForInjective(root: string, md5: string -> Md5Hex, a: Record, b: Record)
    requires PathFor(root, md5, a) == PathFor(root, md5, b)
    ensures a.RecordType() == b.RecordType()
    ensures md5(a.Identifier()) == md5(b.Identifier())
  {
    var p := PathFor(root, md5, a);
    var ha, hb := md5(a.Identifier()), md5(b.Identifier());
    assert ha == (ha + ".cache")[..32] == p[|p| - 38..][..32] == (hb + ".cache")[..32] == hb;
    PathForLayout(root, md5, a);
    PathForLayout(root, md5, b);
  }

  /** No record is ever stored over the timestamp file. */
  lemma TimestampPathIsNoRecordPath(root: string, md5: string -> Md5Hex, r: Record)
    ensures TimestampPath(root) != PathFor(root, md5, r)
    ensures UnderRoot(root, TimestampPath(root))
  {
    var p := PathFor(root, md5, r);
    var t := TimestampPath(root);
    assert t == (root + "/") + "timestamp.v3";
    assert p[|p| - 1] == ShardSuffix(md5(r.Identifier()))[42] == 'e';
    assert t[|t| - 1] == '3';
  }

  // ---------------------------------------------------------------------
  // Integers as text: PHP's int-to-string and `(int)` cast

  function DigitChar(d: nat): char
    requires d < 10
  {
    (48 + d) as char
  }

  predicate IsDigit(c: char) {
    '0' <= c <= '9'
  }

  function DecimalDigits(n: nat): (s: string)
    ensures |s| > 0 && forall i :: 0 <= i < |s| ==> IsDigit(s[i])
    decreases n
  {
    if n < 10 then [DigitChar(n)] else DecimalDigits(n / 10) + [DigitChar(n % 10)]
  }

  /** How PHP writes an int to a file: an optional '-' and then decimal digits. */
  function Decimal(n: int): (s: string)
    ensures |s| > 0 && (s[0] == '-' <==> n < 0)
    ensures forall i :: (if n < 0 then 1 else 0) <= i < |s| ==> IsDigit(s[i])
  {
    if n < 0 then "-" + DecimalDigits(-n) else DecimalDigits(n)
  }

  predicate IsWhitespace(c: char) {
    c == ' ' || c == '\t' || c == '\n' || c == '\r' || c == '\U{0B}' || c == '\U{0C}'
  }

  function SkipWhitespace(s: string): (t: string)
    ensures |t| <= |s| && (t == [] || !IsWhitespace(t[0]))
  {
    if s != [] && IsWhitespace(s[0]) then SkipWhitespace(s[1..]) else s
  }

  /** Length of the longest prefix of decimal digits. */
  function DigitPrefixLength(s: string): (n: nat)
    ensures n <= |s| && forall i :: 0 <= i < n ==> IsDigit(s[i])
  {
    if s != [] && IsDigit(s[0]) then 1 + DigitPrefixLength(s[1..]) else 0
  }

  function DigitValue(c: char): nat
    requires IsDigit(c)
  {
    (c as int) - ('0' as int)
  }

  /** Value of a string of decimal digits. */
  function DigitsValue(ds: string): nat
    requires forall i :: 0 <= i < |ds| ==> IsDigit(ds[i])
  {
    if ds == [] then 0
    else DigitsValue(ds[..|ds| - 1]) * 10 + DigitValue(ds[|ds| - 1])
  }

  function LeadingNumber(s: string): nat {
    DigitsValue(s[..DigitPrefixLength(s)])
  }

  /** PHP's `(int)` cast of a decimal string: whitespace, an optional sign, digits. */
  function ParseInt(s: string): (n: int)
    ensures (forall i :: 0 <= i < |s| ==> IsDigit(s[i])) ==> n == DigitsValue(s)
    ensures n < 0 ==> SkipWhitespace(s) != [] && SkipWhitespace(s)[0] == '-'
  {
    var t := SkipWhitespace(s);
    DigitsReadBack(s);
    if t != [] && t[0] == '-' then -(LeadingNumber(t[1..]) as int)
    else if t != [] && t[0] == '+' then LeadingNumber(t[1..])
    else LeadingNumber(t)
  }

  lemma {:induction false} DigitPrefixOfDigits(s: string)
    requires forall i :: 0 <= i < |s| ==> IsDigit(s[i])
    ensures DigitPrefixLength(s) == |s|
  {
    if s != [] {
      DigitPrefixOfDigits(s[1..]);
    }
  }

  /** A string of digits is its own leading number. */
  lemma DigitsReadBack(s: string)
    ensures (forall i :: 0 <= i < |s| ==> IsDigit(s[i])) ==> LeadingNumber(s) == DigitsValue(s)
  {
    if forall i :: 0 <= i < |s| ==> IsDigit(s[i]) {
      DigitPrefixOfDigits(s);
      assert s[..|s|] == s;
    }
  }

  lemma {:induction false} DecimalDigitsValue(n: nat)
    ensures DigitsValue(DecimalDigits(n)) == n
    decreases n
  {
    var s := DecimalDigits(n);
    if n >= 10 {
      DecimalDigitsValue(n / 10);
      assert s[..|s| - 1] == DecimalDigits(n / 10);
    }
  }

  /** The timestamp file is named after VERSION in decimal. */
  lemma TimestampPathNamesVersion(root: string)
    ensures TimestampPath(root) == root + "/timestamp.v" + Decimal(VERSION)
  {
    assert Decimal(VERSION) == "3";
  }

  /** A timestamp written to disk is read back as the same int. */
  lemma ParseIntDecimal(n: int)
    ensures ParseInt(Decimal(n)) == n
  {
    var ds := DecimalDigits(if n < 0 then -n else n);
    DigitPrefixOfDigits(ds);
    DecimalDigitsValue(if n < 0 then -n else n);
    assert ds[..DigitPrefixLength(ds)] == ds;
    if n < 0 {
      assert ("-" + ds)[1..] == ds;
    }
  }

  /** The timestamp a fresh FileRepository reads from `files`. */
  function StoredTimestamp(root: string, files: map<string, string>): int {
    if TimestampPath(root) in files then ParseInt(files[TimestampPath(root)]) else 0
  }

  // ---------------------------------------------------------------------
  // Reading a record

  /** What `get` returns for the prototype `proto` stored at `path`. */
  function Read(serializer: Serializer, files: map<string, string>, path: string, proto: Record)
    : (r: Option<Record>)
    ensures r.Some? ==> path in files && serializer.deserialize(files[path]) == Payload(r.value)
    ensures r.Some? ==> SameClass(r.value, proto)
    ensures (path in files && serializer.deserialize(files[path]).Payload?
             && SameClass(serializer.deserialize(files[path]).record, proto)) ==> r.Some?
  {
    if path !in files then None
    else match serializer.deserialize(files[path])
      case Corrupted(_) => None
      case NullPayload => None
      case Payload(d) => if SameClass(d, proto) then Some(d) else None
  }

  /** Whether `get` deletes the file: only a payload that fails to deserialize. */
  predicate IsCorrupt(serializer: Serializer, files: map<string, string>, path: string) {
    path in files && serializer.deserialize(files[path]).Corrupted?
  }

  /** `files` after a `get` of `path`: only a corrupt payload is deleted, when the unlink succeeds. */
  function FilesAfterGet(serializer: Serializer, files: map<string, string>, path: string, unlinkOk: bool)
    : (after: map<string, string>)
    ensures after.Keys <= files.Keys && (path !in files ==> after == files)
    ensures after == files || (IsCorrupt(serializer, files, path) && after == files - {path})
    ensures IsCorrupt(serializer, files, path) && unlinkOk ==> after == files - {path}
  {
    if IsCorrupt(serializer, files, path) && unlinkOk then files - {path} else files
  }

  /** The warnings a `get` of `path` for the prototype `proto` logs. */
  function GetWarnings(serializer: Serializer, files: map<string, string>, path: string, proto: Record,
                       unlinkOk: bool): (ws: seq<Warning>)
    ensures path !in files ==> ws == []
    ensures |ws| <= 2
    ensures Read(serializer, files, path, proto).Some? ==> ws == []
    ensures IsCorrupt(serializer, files, path) ==>
      |ws| == (if unlinkOk then 1 else 2) && ws[0].RecordCorrupted? && ws[0].path == path
    ensures (path in files && serializer.deserialize(files[path]).Payload?
             && !SameClass(serializer.deserialize(files[path]).record, proto))
      ==> ws == [InvalidCacheEntry(path)]
  {
    if path !in files then []
    else match serializer.deserialize(files[path])
      case Corrupted(msg) => [RecordCorrupted(path, msg)] + (if unlinkOk then [] else [CouldNotRemove(path)])
      case NullPayload => []
      case Payload(d) => if SameClass(d, proto) then [] else [InvalidCacheEntry(path)]
  }

  /** `files` after `put(r)`. */
  function Store(root: string, md5: string -> Md5Hex, serializer: Serializer,
                 files: map<string, string>, r: Record): (after: map<string, string>)
    ensures var path := PathFor(root, md5, r);
      path in after && after[path] == serializer.serialize(r)
      && after.Keys == files.Keys + {path}
      && forall p :: p in files && p != path ==> after[p] == files[p]
  {
    files[PathFor(root, md5, r) := serializer.serialize(r)]
  }

  /** `put` then `get` of the same key and class gives the record back. */
  lemma PutThenGet(root: string, md5: string -> Md5Hex, serializer: Serializer,
                   files: map<string, string>, r: Record, proto: Record)
    requires RoundTrips(serializer, r)
    requires proto.Key() == r.Key()
    ensures Read(serializer, Store(root, md5, serializer, files, r), PathFor(root, md5, proto), proto) == Some(r)
  {
  }

  /** A later `put` to the same key replaces the earlier one. */
  lemma LaterPutWins(root: string, md5: string -> Md5Hex, serializer: Serializer,
                     files: map<string, string>, first: Record, second: Record)
    requires first.Key() == second.Key()
    requires RoundTrips(serializer, second)
    ensures Read(serializer, Store(root, md5, serializer, Store(root, md5, serializer, files, first), second),
                 PathFor(root, md5, first), first) == Some(second)
  {
  }

  /** A `put` leaves every record of another record type or md5 readable as before. */
  lemma PutKeepsOthers(root: string, md5: string -> Md5Hex, serializer: Serializer,
                       files: map<string, string>, r: Record, other: Record)
    requires r.RecordType() != other.RecordType() || md5(r.Identifier()) != md5(other.Identifier())
    ensures var path := PathFor(root, md5, other);
      Read(serializer, Store(root, md5, serializer, files, r), path, other) == Read(serializer, files, path, other)
  {
    if PathFor(root, md5, r) == PathFor(root, md5, other) {
      PathForInjective(root, md5, r, other);
    }
  }

  /** `files` after putting `rs` in order. */
  function PutAll(root: string, md5: string -> Md5Hex, serializer: Serializer,
                  files: map<string, string>, rs: seq<Record>): map<string, string>
  {
    if rs == [] then files
    else Store(root, md5, serializer, PutAll(root, md5, serializer, files, rs[..|rs| - 1]), rs[|rs| - 1])
  }

  predicate DistinctPaths(root: string, md5: string -> Md5Hex, rs: seq<Record>) {
    forall i, j :: 0 <= i < j < |rs| ==> PathFor(root, md5, rs[i]) != PathFor(root, md5, rs[j])
  }

  lemma DistinctPathsInit(root: string, md5: string -> Md5Hex, rs: seq<Record>)
    requires rs != [] && DistinctPaths(root, md5, rs)
    ensures DistinctPaths(root, md5, rs[..|rs| - 1])
  {
    var init := rs[..|rs| - 1];
    forall a, b | 0 <= a < b < |init| ensures PathFor(root, md5, init[a]) != PathFor(root, md5, init[b]) {
      assert init[a] == rs[a] && init[b] == rs[b];
    }
  }

  /** After putting `rs`, each of them is stored, when no two share a path. */
  lemma {:induction false} PutAllStoresEach(root: string, md5: string -> Md5Hex, serializer: Serializer,
                                            files: map<string, string>, rs: seq<Record>, i: nat)
    requires i < |rs| && DistinctPaths(root, md5, rs)
    ensures var after := PutAll(root, md5, serializer, files, rs);
      PathFor(root, md5, rs[i]) in after && after[PathFor(root, md5, rs[i])] == serializer.serialize(rs[i])
  {
    var init := rs[..|rs| - 1];
    var last := rs[|rs| - 1];
    var before := PutAll(root, md5, serializer, files, init);
    var p, q := PathFor(root, md5, rs[i]), PathFor(root, md5, last);
    assert PutAll(root, md5, serializer, files, rs) == Store(root, md5, serializer, before, last);
    if i < |rs| - 1 {
      DistinctPathsInit(root, md5, rs);
      PutAllStoresEach(root, md5, serializer, files, init, i);
      assert init[i] == rs[i];
      assert p in before && before[p] == serializer.serialize(rs[i]);
      assert p != q;
    }
  }

  /** Putting `rs` leaves every other path as it was. */
  lemma {:induction false} PutAllKeepsOthers(root: string, md5: string -> Md5Hex, serializer: Serializer,
                                             files: map<string, string>, rs: seq<Record>, path: string)
    requires forall i :: 0 <= i < |rs| ==> PathFor(root, md5, rs[i]) != path
    ensures var after := PutAll(root, md5, serializer, files, rs);
      (path in after <==> path in files) && (path in files ==> after[path] == files[path])
  {
    if rs != [] {
      PutAllKeepsOthers(root, md5, serializer, files, rs[..|rs| - 1], path);
    }
  }

  /** Putting records never touches the timestamp file. */
  lemma {:induction false} PutAllKeepsTimestamp(root: string, md5: string -> Md5Hex, serializer: Serializer,
                                                files: map<string, string>, rs: seq<Record>)
    ensures StoredTimestamp(root, PutAll(root, md5, serializer, files, rs)) == StoredTimestamp(root, files)
  {
    forall i | 0 <= i < |rs| ensures PathFor(root, md5, rs[i]) != TimestampPath(root) {
      TimestampPathIsNoRecordPath(root, md5, rs[i]);
    }
    PutAllKeepsOthers(root, md5, serializer, files, rs, TimestampPath(root));
  }

  // ---------------------------------------------------------------------

  class FileRepository {
    const root: string
    const serializer: Serializer
    const md5: string -> Md5Hex
    var files: map<string, string>
    var lastUpdate: int
    var warnings: seq<Warning>

    /** `lastUpdate` is what a fresh instance would read from the timestamp file. */
    ghost predicate Valid()
      reads this
    {
      lastUpdate == StoredTimestamp(root, files)
    }

    /** Reads the stored timestamp, or 0 when there is no timestamp file. */
    constructor(root: string, serializer: Serializer, md5: string -> Md5Hex, disk: map<string, string>)
      ensures Valid()
      ensures this.root == root && this.serializer == serializer && this.md5 == md5
      ensures files == disk && warnings == []
      ensures lastUpdate == (if TimestampPath(root) in disk then ParseInt(disk[TimestampPath(root)]) else 0)
    {
      this.root := root;
      this.serializer := serializer;
      this.md5 := md5;
      files := disk;
      warnings := [];
      lastUpdate := if TimestampPath(root) in disk then ParseInt(disk[TimestampPath(root)]) else 0;
    }

    /** Writes the serialized record to its path, replacing what was there. */
    method Put(r: Record)
      requires Valid()
      modifies this
      ensures Valid()
      ensures files == Store(root, md5, serializer, old(files), r)
      ensures lastUpdate == old(lastUpdate) && warnings == old(warnings)
    {
      TimestampPathIsNoRecordPath(root, md5, r);
      files := files[PathFor(root, md5, r) := serializer.serialize(r)];
    }

    /**
     * Reads the record stored for the prototype `r`. A missing file gives None;
     * a corrupt payload gives a warning, removal of the file and None; a null or
     * wrong-class payload gives None and keeps the file. `unlinkOk` is whether
     * the filesystem lets the file be deleted.
     */
    method Get(r: Record, unlinkOk: bool) returns (result: Option<Record>)
      requires Valid()
      modifies this
      ensures Valid()
      ensures result == Read(serializer, old(files), PathFor(root, md5, r), r)
      ensures result.Some? ==> SameClass(result.value, r)
      ensures files == FilesAfterGet(serializer, old(files), PathFor(root, md5, r), unlinkOk)
      ensures warnings == old(warnings) + GetWarnings(serializer, old(files), PathFor(root, md5, r), r, unlinkOk)
      ensures lastUpdate == old(lastUpdate)
    {
      var path := PathFor(root, md5, r);
      if path !in files {
        Remove(r, unlinkOk);
        return None;
      }
      var deserialized := serializer.deserialize(files[path]);
      match deserialized {
        case Corrupted(msg) =>
          warnings := warnings + [RecordCorrupted(path, msg)];
          Remove(r, unlinkOk);
          return None;
        case NullPayload =>
          return None;
        case Payload(d) =>
          if !SameClass(d, r) {
            warnings := warnings + [InvalidCacheEntry(path)];
            return None;
          }
          return Some(d);
      }
    }

    /** Writes `time` (or `now` when it is null) to the timestamp file. */
    method PutTimestamp(time: Option<int>, now: int)
      modifies this
      ensures Valid()
      ensures lastUpdate == time.GetOr(now)
      ensures files == old(files)[TimestampPath(root) := Decimal(time.GetOr(now))]
      ensures warnings == old(warnings)
    {
      var t := time.GetOr(now);
      files := files[TimestampPath(root) := Decimal(t)];
      lastUpdate := t;
      ParseIntDecimal(t);
    }

    function LastUpdate(): (t: int)
      reads this
      requires Valid()
      ensures t == StoredTimestamp(root, files)
    {
      lastUpdate
    }

    /** Removes everything under the root, then writes a zero timestamp. */
    method Reset()
      requires Valid()
      modifies this
      ensures Valid()
      ensures lastUpdate == 0
      ensures forall p :: p in files && UnderRoot(root, p) ==> p == TimestampPath(root)
      ensures forall p :: p in old(files) && !UnderRoot(root, p) ==> p in files && files[p] == old(files)[p]
      ensures forall p :: p in files && p != TimestampPath(root) ==> p in old(files) && !UnderRoot(root, p)
      ensures TimestampPath(root) in files && files[TimestampPath(root)] == Decimal(0)
      ensures warnings == old(warnings)
    {
      files := map p | p in files && !UnderRoot(root, p) :: files[p];
      PutTimestamp(Some(0), 0);
      TimestampPathIsNoRecordPath(root, md5, ClassRecord("", None, 0));
    }

    /** Deletes the record's file; an absent file is a no-op, a failed unlink only logs. */
    method Remove(r: Record, unlinkOk: bool)
      requires Valid()
      modifies this
      ensures Valid()
      ensures var path := PathFor(root, md5, r);
        files == (if path in old(files) && unlinkOk then old(files) - {path} else old(files))
      ensures var path := PathFor(root, md5, r);
        warnings == old(warnings) + (if path in old(files) && !unlinkOk then [CouldNotRemove(path)] else [])
      ensures lastUpdate == old(lastUpdate)
    {
      var path := PathFor(root, md5, r);
      TimestampPathIsNoRecordPath(root, md5, r);
      if path !in files {
        return;
      }
      if unlinkOk {
        files := files - {path};
        return;
      }
      warnings := warnings + [CouldNotRemove(path)];
    }
  }
}
