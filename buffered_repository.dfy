/**
 * BufferedRepository: a write-behind buffer in front of a FileRepository.
 * Records are kept in a key-to-record map (the PHP array, whose insertion
 * order is `order`) and written through to the store every BATCH_SIZE puts.
 */
module BufferedRepositories {
  import opened Wrappers
  import opened Records
  import opened SerializedFileRepository

  /** Flush to the filesystem after BATCH_SIZE updates. */
  const BATCH_SIZE: nat := 10000

  /** `$counter % BATCH_SIZE`: the puts since the last batch flush. */
  function BatchPosition(counter: nat): (p: nat)
    ensures p < BATCH_SIZE
  {
    counter % BATCH_SIZE
  }

  /** `recordType() . identifier()`. */
  function BufferKey(r: Record): string {
    r.RecordType() + r.Identifier()
  }

  lemma ConcatDiffers(p: string, q: string, a: string, b: string, i: nat)
    requires i < |p| && i < |q| && p[i] != q[i]
    ensures p + a != q + b
  {
    assert (p + a)[i] == p[i];
    assert (q + b)[i] == q[i];
  }

  /** No record type is a prefix of another, so the buffer key determines the record key. */
  lemma BufferKeyInjective(a: Record, b: Record)
    ensures BufferKey(a) == BufferKey(b) <==> a.Key() == b.Key()
  {
    var ta, tb := a.RecordType(), b.RecordType();
    if ta == tb {
      if BufferKey(a) == BufferKey(b) {
        assert a.Identifier() == BufferKey(a)[|ta|..] == BufferKey(b)[|tb|..] == b.Identifier();
      }
    } else {
      ConcatDiffers(ta, tb, a.Identifier(), b.Identifier(), if ta[0] == tb[0] then 1 else 0);
    }
  }

  /** The records stored under `keys` in `buffer`, in the order of `keys`. */
  function RecordsAt(buffer: map<string, Record>, keys: seq<string>): (rs: seq<Record>)
    requires forall i :: 0 <= i < |keys| ==> keys[i] in buffer
    ensures |rs| == |keys| && forall i :: 0 <= i < |keys| ==> rs[i] == buffer[keys[i]]
  {
    if keys == [] then [] else RecordsAt(buffer, keys[..|keys| - 1]) + [buffer[keys[|keys| - 1]]]
  }

  /** `order` after a put of key `k`: a new key goes last, an existing one keeps its place. */
  function Enqueue(order: seq<string>, k: string): seq<string> {
    if k in order then order else order + [k]
  }

  /** `order` lists the keys of `buffer` once each, and each record sits under its own key. */
  ghost predicate Ordered(buffer: map<string, Record>, order: seq<string>) {
    && |order| == |buffer|
    && (forall i :: 0 <= i < |order| ==> order[i] in buffer)
    && (forall i, j :: 0 <= i < j < |order| ==> order[i] != order[j])
    && (forall k :: k in buffer ==> k in order && BufferKey(buffer[k]) == k)
  }

  /** A put keeps `order` and the buffer in step and grows the buffer by at most one entry. */
  lemma EnqueueKeepsOrdered(buffer: map<string, Record>, order: seq<string>, r: Record)
    requires Ordered(buffer, order)
    ensures var k := BufferKey(r);
      Ordered(buffer[k := r], Enqueue(order, k)) && |buffer[k := r]| <= |buffer| + 1
  {
    var k := BufferKey(r);
    if k in order {
      ReplaceKeepsOrdered(buffer, order, r);
    } else {
      AppendKeepsOrdered(buffer, order, r);
    }
  }

  lemma ReplaceKeepsOrdered(buffer: map<string, Record>, order: seq<string>, r: Record)
    requires Ordered(buffer, order) && BufferKey(r) in order
    ensures Ordered(buffer[BufferKey(r) := r], order) && |buffer[BufferKey(r) := r]| == |buffer|
  {
    var k := BufferKey(r);
    var b := buffer[k := r];
    assert k in buffer by {
      var i :| 0 <= i < |order| && order[i] == k;
    }
    assert |b| == |buffer| by { assert b.Keys == buffer.Keys; }
    assert forall x :: x in b ==> x in order && BufferKey(b[x]) == x by {
      forall x | x in b ensures x in order && BufferKey(b[x]) == x {
        if x != k { assert x in buffer; }
      }
    }
  }

  lemma AppendKeepsOrdered(buffer: map<string, Record>, order: seq<string>, r: Record)
    requires Ordered(buffer, order) && BufferKey(r) !in order
    ensures Ordered(buffer[BufferKey(r) := r], order + [BufferKey(r)])
    ensures |buffer[BufferKey(r) := r]| == |buffer| + 1
  {
    var k := BufferKey(r);
    var b := buffer[k := r];
    var o := order + [k];
    assert k !in buffer;
    assert |b| == |buffer| + 1 by { assert b.Keys == buffer.Keys + {k}; }
    assert forall i :: 0 <= i < |o| ==> o[i] in b by {
      forall i | 0 <= i < |o| ensures o[i] in b {
        if i < |order| { assert o[i] == order[i]; }
      }
    }
    assert forall i, j :: 0 <= i < j < |o| ==> o[i] != o[j] by {
      forall i, j | 0 <= i < j < |o| ensures o[i] != o[j] {
        assert o[i] == order[i];
        if j < |order| { assert o[j] == order[j]; }
      }
    }
    assert forall x :: x in b ==> x in o && BufferKey(b[x]) == x by {
      forall x | x in b ensures x in o && BufferKey(b[x]) == x {
        if x != k {
          assert x in order;
          var i :| 0 <= i < |order| && order[i] == x;
          assert o[i] == x;
        } else {
          assert o[|order|] == k;
        }
      }
    }
  }

  class BufferedRepository {
    const inner: FileRepository
    var buffer: map<string, Record>
    var order: seq<string>
    var counter: nat

    /** `order` lists the buffer's keys once each, and each record sits under its own key. */
    ghost predicate Consistent()
      reads this, inner
    {
      inner.Valid() && Ordered(buffer, order)
    }

    /** Between calls the buffer holds fewer entries than the puts since the last batch flush. */
    ghost predicate Valid()
      reads this, inner
    {
      Consistent() && |buffer| <= BatchPosition(counter)
    }

    constructor(inner: FileRepository)
      requires inner.Valid()
      ensures Valid() && this.inner == inner
      ensures buffer == map[] && order == [] && counter == 0
    {
      this.inner := inner;
      buffer := map[];
      order := [];
      counter := 0;
    }

    /**
     * Buffers `r` under its key, replacing a pending record with the same key;
     * every BATCH_SIZE-th put flushes the buffer to the store.
     */
    method Put(r: Record)
      requires Valid()
      modifies this, inner
      ensures Valid()
      ensures counter == old(counter) + 1
      ensures var k := BufferKey(r);
        var pending := old(buffer)[k := r];
        if BatchPosition(counter) == 0 then
          buffer == map[] && order == []
          && inner.files == PutAll(inner.root, inner.md5, inner.serializer, old(inner.files),
                                   RecordsAt(pending, Enqueue(old(order), k)))
        else
          buffer == pending && order == Enqueue(old(order), k)
          && inner.files == old(inner.files)
      ensures inner.lastUpdate == old(inner.lastUpdate) && inner.warnings == old(inner.warnings)
    {
      var k := BufferKey(r);
      CounterStep(counter);
      EnqueueKeepsOrdered(buffer, order, r);
      order := Enqueue(order, k);
      buffer := buffer[k := r];
      counter := counter + 1;
      if BatchPosition(counter) == 0 {
        Flush();
      } else {
        BatchBound(|old(buffer)|, |buffer|, old(counter), counter);
      }
    }

    /** The buffered record for `r`'s key when there is one; otherwise the store's answer. */
    method Get(r: Record, unlinkOk: bool) returns (result: Option<Record>)
      requires Valid()
      modifies inner
      ensures Valid()
      ensures BufferKey(r) in buffer ==>
        result == Some(buffer[BufferKey(r)]) && inner.files == old(inner.files)
        && inner.warnings == old(inner.warnings)
      ensures BufferKey(r) !in buffer ==>
        var path := PathFor(inner.root, inner.md5, r);
        && result == Read(inner.serializer, old(inner.files), path, r)
        && inner.files == FilesAfterGet(inner.serializer, old(inner.files), path, unlinkOk)
        && inner.warnings == old(inner.warnings) + GetWarnings(inner.serializer, old(inner.files), path, r, unlinkOk)
      ensures result.Some? ==> SameClass(result.value, r)
      ensures inner.lastUpdate == old(inner.lastUpdate)
    {
      var k := BufferKey(r);
      if k in buffer {
        BufferKeyInjective(buffer[k], r);
        return Some(buffer[k]);
      }
      result := inner.Get(r, unlinkOk);
    }

    /** Puts every buffered record into the store, in buffer order, then empties the buffer. */
    method Flush()
      requires inner.Valid() && forall i :: 0 <= i < |order| ==> order[i] in buffer
      modifies this, inner
      ensures inner.Valid()
      ensures buffer == map[] && order == [] && counter == old(counter)
      ensures inner.files == PutAll(inner.root, inner.md5, inner.serializer, old(inner.files),
                                    RecordsAt(old(buffer), old(order)))
      ensures inner.lastUpdate == old(inner.lastUpdate) && inner.warnings == old(inner.warnings)
    {
      var pending := RecordsAt(buffer, order);
      PutEach(pending);
      buffer := map[];
      order := [];
    }

    /** The `foreach` of a flush: puts `rs` into the store one after the other. */
    method PutEach(rs: seq<Record>)
      requires inner.Valid()
      modifies inner
      ensures inner.Valid()
      ensures inner.files == PutAll(inner.root, inner.md5, inner.serializer, old(inner.files), rs)
      ensures inner.lastUpdate == old(inner.lastUpdate) && inner.warnings == old(inner.warnings)
    {
      var i := 0;
      while i < |rs|
        invariant 0 <= i <= |rs|
        invariant inner.Valid()
        invariant inner.files == PutAll(inner.root, inner.md5, inner.serializer, old(inner.files), rs[..i])
        invariant inner.lastUpdate == old(inner.lastUpdate) && inner.warnings == old(inner.warnings)
      {
        inner.Put(rs[i]);
        PutAllStep(inner.root, inner.md5, inner.serializer, old(inner.files), rs, i);
        i := i + 1;
      }
      assert rs[..i] == rs;
    }
  }

  /** One more put either completes a batch or grows the count within the batch by one. */
  lemma CounterStep(c: nat)
    ensures BatchPosition(c + 1) == 0 || BatchPosition(c + 1) == BatchPosition(c) + 1
  {
  }

  /** An entry added within a batch stays within the batch's bound. */
  lemma BatchBound(size: nat, newSize: nat, c: nat, next: nat)
    requires next == c + 1
    requires size <= BatchPosition(c) && newSize <= size + 1 && BatchPosition(next) != 0
    ensures newSize <= BatchPosition(next)
  {
    CounterStep(c);
  }

  /** Putting one more record of a sequence is one more Store. */
  lemma PutAllStep(root: string, md5: string -> Md5Hex, serializer: Serializer,
                   files: map<string, string>, rs: seq<Record>, i: nat)
    requires i < |rs|
    ensures PutAll(root, md5, serializer, files, rs[..i + 1])
      == Store(root, md5, serializer, PutAll(root, md5, serializer, files, rs[..i]), rs[i])
  {
    assert rs[..i + 1][..i] == rs[..i];
  }

  /** The buffered records have pairwise different keys. */
  lemma {:induction false} BufferedKeysDistinct(buffer: map<string, Record>, order: seq<string>)
    requires forall i, j :: 0 <= i < j < |order| ==> order[i] != order[j]
    requires forall i :: 0 <= i < |order| ==> order[i] in buffer && BufferKey(buffer[order[i]]) == order[i]
    ensures var rs := RecordsAt(buffer, order);
      forall i, j :: 0 <= i < j < |rs| ==> rs[i].Key() != rs[j].Key()
  {
    var rs := RecordsAt(buffer, order);
    forall i, j | 0 <= i < j < |rs| ensures rs[i].Key() != rs[j].Key() {
      BufferKeyInjective(rs[i], rs[j]);
    }
  }

  /**
   * After a flush the store holds, for each buffered key, the record last put
   * under it, provided no two buffered records collide on md5.
   */
  lemma FlushStoresLastWrite(root: string, md5: string -> Md5Hex, serializer: Serializer,
                             files: map<string, string>, buffer: map<string, Record>, order: seq<string>, k: string)
    requires forall i, j :: 0 <= i < j < |order| ==> order[i] != order[j]
    requires forall i :: 0 <= i < |order| ==> order[i] in buffer
    requires k in buffer && k in order
    requires DistinctPaths(root, md5, RecordsAt(buffer, order))
    requires RoundTrips(serializer, buffer[k])
    ensures var after := PutAll(root, md5, serializer, files, RecordsAt(buffer, order));
      Read(serializer, after, PathFor(root, md5, buffer[k]), buffer[k]) == Some(buffer[k])
  {
    var i :| 0 <= i < |order| && order[i] == k;
    PutAllStoresEach(root, md5, serializer, files, RecordsAt(buffer, order), i);
  }
}
