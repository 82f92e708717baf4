/** The findings table: one row per (repo, convention), upserted with a time stamp and purged by age. */
module Findings {
  import opened Wrappers

  type Key = (string, string)

  datatype Row = Row(pass: bool, detail: string, issue: Option<nat>, updatedAt: int)

  /** A committed statement on the table, and whether the sweep or a rerun issued it. */
  datatype Event =
    | Save(key: Key, row: Row, bySweep: bool)
    | Purge(cutoff: int)

  function Apply(rows: map<Key, Row>, e: Event): map<Key, Row> {
    match e
    case Save(key, row, _) => rows[key := row]
    case Purge(cutoff) => map k | k in rows && rows[k].updatedAt >= cutoff :: rows[k]
  }

  function Replay(rows: map<Key, Row>, log: seq<Event>): map<Key, Row>
    decreases |log|
  {
    if log == [] then rows else Replay(Apply(rows, log[0]), log[1..])
  }

  lemma {:induction false} ReplayConcat(rows: map<Key, Row>, a: seq<Event>, b: seq<Event>)
    ensures Replay(rows, a + b) == Replay(Replay(rows, a), b)
    decreases |a|
  {
    if a == [] {
      assert a + b == b;
    } else {
      assert (a + b)[1..] == a[1..] + b;
      ReplayConcat(Apply(rows, a[0]), a[1..], b);
    }
  }

  class FindingsTable {
    var rows: map<Key, Row>
    /** Every statement committed so far. */
    ghost var log: seq<Event>
    ghost const initial: map<Key, Row>

    ghost predicate Valid() reads this {
      rows == Replay(initial, log)
    }

    constructor (rows: map<Key, Row>)
      ensures Valid() && this.rows == rows && log == [] && initial == rows
    {
      this.rows, log, initial := rows, [], rows;
    }

    /** `committed` is whether the statement succeeds. */
    method SaveFinding(key: Key, row: Row, ghost bySweep: bool, committed: bool) returns (ok: bool)
      requires Valid()
      modifies this
      ensures Valid() && ok == committed
      ensures log == if committed then old(log) + [Save(key, row, bySweep)] else old(log)
    {
      if committed {
        rows := rows[key := row];
        ReplayConcat(initial, log, [Save(key, row, bySweep)]);
        log := log + [Save(key, row, bySweep)];
      }
      ok := committed;
    }

    method DeleteStaleFindings(cutoff: int, committed: bool) returns (ok: bool)
      requires Valid()
      modifies this
      ensures Valid() && ok == committed
      ensures log == if committed then old(log) + [Purge(cutoff)] else old(log)
    {
      if committed {
        rows := map k | k in rows && rows[k].updatedAt >= cutoff :: rows[k];
        ReplayConcat(initial, log, [Purge(cutoff)]);
        log := log + [Purge(cutoff)];
      }
      ok := committed;
    }
  }

  // ---- What a log does to one key ----

  predicate PurgeFree(log: seq<Event>) {
    forall e :: e in log ==> e.Save?
  }

  /** The last row saved for k in log. */
  function LastSaved(log: seq<Event>, k: Key): Option<Row> {
    if log == [] then None
    else
      var e := log[|log| - 1];
      if e.Save? && e.key == k then Some(e.row) else LastSaved(log[..|log| - 1], k)
  }

  predicate Saves(log: seq<Event>, k: Key) {
    LastSaved(log, k).Some?
  }

  lemma {:induction false} SavesExactly(log: seq<Event>, k: Key)
    ensures Saves(log, k) <==> exists e :: e in log && e.Save? && e.key == k
    ensures Saves(log, k) ==> exists e :: e in log && e.Save? && e.key == k && e.row == LastSaved(log, k).value
  {
    if log != [] {
      var front, last := log[..|log| - 1], log[|log| - 1];
      assert log == front + [last];
      SavesExactly(front, k);
    }
  }

  lemma {:induction false} ReplayAt(rows: map<Key, Row>, log: seq<Event>, k: Key)
    requires PurgeFree(log)
    ensures k in Replay(rows, log) <==> Saves(log, k) || k in rows
    ensures k in Replay(rows, log) ==>
              Replay(rows, log)[k] == if Saves(log, k) then LastSaved(log, k).value else rows[k]
  {
    if log != [] {
      var front, last := log[..|log| - 1], log[|log| - 1];
      ReplayAt(rows, front, k);
      assert log == front + [last];
      ReplayConcat(rows, front, [last]);
      assert Replay(rows, log) == Apply(Replay(rows, front), last);
    }
  }
}
