/**
 * DirtyFileListProvider: a log of paths to reindex, kept in the table
 * `dirty_files(file_path)`, with an in-memory record of the paths this
 * instance has already logged. The table is a sequence of paths in insertion
 * order.
 */
module DirtyFiles {
  import opened Wrappers

  /** The dirty-tracking state: paths marked by this instance, and the table rows. */
  datatype Tracker = Tracker(seen: set<string>, rows: seq<string>)

  /** `markDirty`: a path this instance has not marked yet is inserted once and remembered. */
  function Mark(t: Tracker, path: string): (t': Tracker)
    ensures path in t.seen ==> t' == t
    ensures path !in t.seen ==> t'.rows == t.rows + [path] && t'.seen == t.seen + {path}
  {
    if path in t.seen then t else Tracker(t.seen + {path}, t.rows + [path])
  }

  /** Marks `paths` in order. */
  function MarkAll(t: Tracker, paths: seq<string>): (t': Tracker)
    ensures |t.rows| <= |t'.rows| && t'.rows[..|t.rows|] == t.rows
  {
    if paths == [] then t else Mark(MarkAll(t, paths[..|paths| - 1]), paths[|paths| - 1])
  }

  /** Marking the same path again changes nothing. */
  lemma MarkIdempotent(t: Tracker, path: string)
    ensures Mark(Mark(t, path), path) == Mark(t, path)
    ensures path in Mark(t, path).seen
  {
  }

  /** The elements of a sequence as a set. */
  function Elements(s: seq<string>): set<string> {
    set x | x in s
  }

  /**
   * After any sequence of marks the rows are the old rows followed by each
   * path not seen before, once, in order of first marking; `seen` has grown
   * by exactly the marked paths.
   */
  lemma {:induction false} MarkAllLogsOnce(t: Tracker, paths: seq<string>)
    ensures var t' := MarkAll(t, paths);
      var added := t'.rows[|t.rows|..];
      && t'.rows == t.rows + added
      && t'.seen == t.seen + Elements(paths)
      && (forall i, j :: 0 <= i < j < |added| ==> added[i] != added[j])
      && (forall x :: x in added <==> x in paths && x !in t.seen)
  {
    if paths != [] {
      var init := paths[..|paths| - 1];
      var p := paths[|paths| - 1];
      MarkAllLogsOnce(t, init);
      var mid := MarkAll(t, init);
      var midAdded := mid.rows[|t.rows|..];
      assert Elements(paths) == Elements(init) + {p} by {
        assert paths == init + [p];
      }
      forall x ensures x in paths <==> x in init || x == p {
        assert paths == init + [p];
      }
      if p !in mid.seen {
        var t' := Mark(mid, p);
        assert t'.rows[|t.rows|..] == midAdded + [p];
        assert p !in midAdded;
      } else {
        assert MarkAll(t, paths) == mid;
      }
    }
  }

  /** Draining as intended: all rows in table order, then the table is emptied. */
  function Drain(rows: seq<string>): (yieldedThenRemaining: (seq<string>, seq<string>))
    ensures yieldedThenRemaining.0 == rows && yieldedThenRemaining.1 == []
  {
    (rows, [])
  }

  /** A drain followed at once by another yields nothing the second time. */
  lemma DrainThenDrainIsEmpty(rows: seq<string>)
    ensures Drain(Drain(rows).1).0 == []
    ensures forall p :: p in rows <==> p in Drain(rows).0
  {
  }

  /**
   * A fresh log that has been marked with any sequence of paths drains to
   * each marked path exactly once, and is empty afterwards.
   */
  lemma MarkThenDrainYieldsEachOnce(paths: seq<string>)
    ensures var out := Drain(MarkAll(Tracker({}, []), paths).rows);
      && (forall i, j :: 0 <= i < j < |out.0| ==> out.0[i] != out.0[j])
      && (forall x :: x in out.0 <==> x in paths)
      && out.1 == []
  {
    MarkAllLogsOnce(Tracker({}, []), paths);
  }

  /**
   * Draining as written: the SELECT is fetched once, giving the first row or
   * false, its single column is iterated, and `TRUNCATE TABLE`, which SQLite
   * does not have, fails and leaves the table as it was.
   */
  function DrainAsWritten(rows: seq<string>): (r: (seq<string>, seq<string>))
    ensures r.1 == rows
    ensures |r.0| <= 1 && r.0 <= rows
    ensures rows != [] <==> r.0 != []
  {
    if rows == [] then ([], rows) else ([rows[0]], rows)
  }

  /** With two dirty paths the second is not yielded, and a second drain yields the first again. */
  lemma DrainAsWrittenLosesRows()
    ensures var rows := ["a.php", "b.php"];
      DrainAsWritten(rows).0 == ["a.php"]
      && DrainAsWritten(rows).0 != Drain(rows).0
      && DrainAsWritten(DrainAsWritten(rows).1).0 == ["a.php"]
      && Drain(Drain(rows).1).0 == []
  {
  }

  /** An empty table drains to nothing either way, and is left as it was. */
  lemma EmptyDrain()
    ensures DrainAsWritten([]) == ([], []) && Drain([]) == ([], [])
  {
  }

  class DirtyFileListProvider {
    var seen: set<string>
    var table: seq<string>

    /** Opens the log; `CREATE TABLE` runs only when no `dirty_files` table exists. */
    constructor(existing: Option<seq<string>>)
      ensures table == existing.GetOr([]) && seen == {}
    {
      table := existing.GetOr([]);
      seen := {};
    }

    /** Logs `path` unless this instance has logged it already. */
    method MarkDirty(path: string)
      modifies this
      ensures Tracker(seen, table) == Mark(old(Tracker(seen, table)), path)
    {
      if path in seen {
        return;
      }
      table := table + [path];
      seen := seen + {path};
    }

    /** `paths()` consumed to the end: every logged path, then the table is cleared. */
    method Paths() returns (paths: seq<string>)
      modifies this
      ensures (paths, table) == Drain(old(table))
      ensures seen == old(seen)
    {
      if table == [] {
        return [];
      }
      paths := [];
      var i := 0;
      while i < |table|
        invariant 0 <= i <= |table|
        invariant paths == table[..i]
      {
        paths := paths + [table[i]];
        i := i + 1;
      }
      assert paths == table;
      table := [];
    }

    /** `provideFileList`: the file list drawn from `paths()`. */
    method ProvideFileList() returns (files: seq<string>)
      modifies this
      ensures (files, table) == Drain(old(table))
      ensures seen == old(seen)
    {
      files := Paths();
    }
  }
}
