/** The findings table after a sweep, for every interleaving of its statements with those of reruns. */
module SweepTable {
  import opened Findings
  import opened Sweep
  import opened SweepResults
  import opened Wrappers

  /** The sweep's own part of an interleaved log; only the sweep purges. */
  function BySweep(log: seq<Event>): seq<Event> {
    if log == [] then []
    else
      var front, e := BySweep(log[..|log| - 1]), log[|log| - 1];
      if e.Purge? || e.bySweep then front + [e] else front
  }

  function Reruns(log: seq<Event>): seq<Event> {
    if log == [] then []
    else
      var front, e := Reruns(log[..|log| - 1]), log[|log| - 1];
      if e.Save? && !e.bySweep then front + [e] else front
  }

  ghost predicate RerunsStampedFrom(log: seq<Event>, start: int) {
    forall e :: e in log && e.Save? && !e.bySweep ==> e.row.updatedAt >= start
  }

  lemma {:induction false} SplitLog(log: seq<Event>, k: Key)
    ensures Saves(log, k) <==> Saves(BySweep(log), k) || Saves(Reruns(log), k)
    ensures !Saves(Reruns(log), k) ==> LastSaved(log, k) == LastSaved(BySweep(log), k)
    ensures !Saves(BySweep(log), k) ==> LastSaved(log, k) == LastSaved(Reruns(log), k)
  {
    if log != [] {
      var front, e := log[..|log| - 1], log[|log| - 1];
      SplitLog(front, k);
      assert (BySweep(front) + [e])[..|BySweep(front)|] == BySweep(front);
      assert (Reruns(front) + [e])[..|Reruns(front)|] == Reruns(front);
    }
  }

  lemma {:induction false} SplitMembers(log: seq<Event>, e: Event)
    ensures e in log <==> e in BySweep(log) || e in Reruns(log)
  {
    if log != [] {
      var front, last := log[..|log| - 1], log[|log| - 1];
      assert log == front + [last];
      SplitMembers(front, e);
    }
  }

  /** Rows stamped from the cutoff on outlive a purge; older ones go. */
  lemma {:induction false} ReplayFresh(rows: map<Key, Row>, log: seq<Event>, start: int, k: Key)
    requires forall e :: e in log ==> if e.Save? then e.row.updatedAt >= start else e.cutoff == start
    ensures var final := Replay(rows, log);
            && (k in final <==> Saves(log, k) || (k in rows && (rows[k].updatedAt >= start || PurgeFree(log))))
            && (k in final ==> final[k] == if Saves(log, k) then LastSaved(log, k).value else rows[k])
  {
    if log != [] {
      var front, last := log[..|log| - 1], log[|log| - 1];
      assert log == front + [last];
      ReplayFresh(rows, front, start, k);
      ReplayConcat(rows, front, [last]);
      assert Replay(rows, log) == Apply(Replay(rows, front), last);
      if Saves(front, k) {
        SavesExactly(front, k);
      }
    }
  }

  // ---- What the sweep itself writes ----

  function FinalAttempt(inp: Inputs, j: Job): nat {
    if inp.Errs(j, 0) then 1 else 0
  }

  predicate Settled(inp: Inputs, j: Job) {
    !inp.Errs(j, FinalAttempt(inp, j))
  }

  function FinalSave(inp: Inputs, j: Job): Event {
    var a := FinalAttempt(inp, j);
    Save(inp.KeyOf(j, a), RowFor(inp, j, a), true)
  }

  /** e is the final result of some settled check among jobs. */
  ghost predicate Own(inp: Inputs, jobs: seq<Job>, e: Event) {
    exists j :: j in jobs && Settled(inp, j) && e == FinalSave(inp, j) && inp.saveOk(e.key)
  }

  lemma {:induction false} SavesOfExactly(inp: Inputs, jobs: seq<Job>, attempt: nat, e: Event)
    ensures e in SavesOf(inp, jobs, attempt) <==>
            exists j :: j in jobs && !inp.Errs(j, attempt) && e in SaveFor(inp, j, attempt)
  {
    if jobs != [] {
      SavesOfExactly(inp, jobs[1..], attempt, e);
      assert jobs == [jobs[0]] + jobs[1..];
    }
  }

  lemma {:induction false} SelectExactly(inp: Inputs, which: Which, jobs: seq<Job>, j: Job)
    ensures j in Select(inp, which, jobs) <==> j in jobs && which.Picks(inp, j)
  {
    if jobs != [] {
      SelectExactly(inp, which, jobs[1..], j);
      assert jobs == [jobs[0]] + jobs[1..];
    }
  }

  lemma BothPassesSave(inp: Inputs, jobs: seq<Job>, e: Event)
    ensures e in SavesOf(inp, jobs, 0) + SavesOf(inp, Select(inp, Deferred, jobs), 1) <==> Own(inp, jobs, e)
  {
    var tail := Select(inp, Deferred, jobs);
    SavesOfExactly(inp, jobs, 0, e);
    SavesOfExactly(inp, tail, 1, e);
    forall j ensures j in tail <==> j in jobs && inp.Errs(j, 0) {
      SelectExactly(inp, Deferred, jobs, j);
    }
  }

  /** The key that the check's final attempt reports. */
  function FinalKey(inp: Inputs, j: Job): Key {
    inp.KeyOf(j, FinalAttempt(inp, j))
  }

  /** j is an in-scope check that the sweep settles and saves under k. */
  ghost predicate Writes(inp: Inputs, j: Job, k: Key) {
    && j in InScope(inp, inp.repos) && inp.upsertOk(j.repo) && Settled(inp, j)
    && FinalKey(inp, j) == k && inp.saveOk(k)
  }

  lemma WritesAreOwn(inp: Inputs, e: Event)
    ensures Own(inp, Jobs(inp, inp.repos), e) <==> e.Save? && exists j :: Writes(inp, j, e.key) && e == FinalSave(inp, j)
  {
    hide InScope, Jobs, RowFor;
    var jobs := Jobs(inp, inp.repos);
    if Own(inp, jobs, e) {
      var j :| j in jobs && Settled(inp, j) && e == FinalSave(inp, j) && inp.saveOk(e.key);
      JobsExactly(inp, inp.repos, j);
      assert Writes(inp, j, e.key);
    }
    if e.Save? && exists j :: Writes(inp, j, e.key) && e == FinalSave(inp, j) {
      var j :| Writes(inp, j, e.key) && e == FinalSave(inp, j);
      JobsExactly(inp, inp.repos, j);
    }
  }

  lemma {:induction false} FirstPassWritesOwn(inp: Inputs, repos: seq<Repo>, p: Pass, e: Event)
    ensures e in FirstPass(inp, repos, p).0.saves ==> e in p.saves || Own(inp, Jobs(inp, repos), e)
    decreases |repos|
  {
    hide RunJobs, ScopeFrom, RowFor;
    if repos != [] {
      var r := repos[0];
      var jobs := ScopeFrom(inp, r.name, inp.conventions);
      FirstAttempts(inp, jobs, p);
      SavesOfExactly(inp, jobs, 0, e);
      if Active(r) && inp.upsertOk(r.name) && e in SavesOf(inp, jobs, 0) {
        var j :| j in jobs && !inp.Errs(j, 0) && e in SaveFor(inp, j, 0);
        assert e == FinalSave(inp, j) && j in Jobs(inp, repos);
      }
      FirstPassWritesOwn(inp, repos[1..], p, e);
      FirstPassWritesOwn(inp, repos[1..], RunJobs(inp, jobs, 0, p), e);
      if Own(inp, Jobs(inp, repos[1..]), e) { MoreJobs(inp, repos, e); }
    }
  }

  lemma MoreJobs(inp: Inputs, repos: seq<Repo>, e: Event)
    requires repos != [] && Own(inp, Jobs(inp, repos[1..]), e)
    ensures Own(inp, Jobs(inp, repos), e)
  {
    var j :| j in Jobs(inp, repos[1..]) && Settled(inp, j) && e == FinalSave(inp, j) && inp.saveOk(e.key);
    assert j in Jobs(inp, repos);
  }

  /** Whatever its result, a sweep only writes final results of in-scope checks it settles, and it
      purges, with its start time as cutoff, only if it succeeds. */
  lemma SweepWritesOwn(inp: Inputs, e: Event)
    requires e in SweepSpec(inp).1
    ensures (e.Save? && e.bySweep && exists j :: Writes(inp, j, e.key) && e == FinalSave(inp, j))
         || (e == Purge(inp.start) && SweepSpec(inp).0 == Nil && inp.purgeOk)
  {
    var jobs := Jobs(inp, inp.repos);
    WritesAreOwn(inp, e);
    if inp.setupOk {
      FirstPassIsFlat(inp, inp.repos, FRESH);
      if FirstPass(inp, inp.repos, FRESH).1 {
        FirstPassWritesOwn(inp, inp.repos, FRESH, e);
      } else {
        assert TokensRefresh(inp);
        SweepSummary(inp);
        BothPassesSave(inp, jobs, e);
      }
    }
  }

  ghost predicate ClockFrom(inp: Inputs) {
    forall r, c, a :: inp.now(r, c, a) >= inp.start
  }

  /** Rows follow the IDs that checks report: a sweep that reaches its end saves exactly the keys that
      settled in-scope checks report, each with the final result of such a check. */
  lemma RowsFollowReportedIds(inp: Inputs, k: Key)
    requires ReachesEnd(inp)
    ensures Saves(SweepSpec(inp).1, k) <==> exists j :: Writes(inp, j, k)
    ensures Saves(SweepSpec(inp).1, k) ==>
              exists j :: Writes(inp, j, k) && LastSaved(SweepSpec(inp).1, k).value == FinalSave(inp, j).row
  {
    hide Writes, SweepSpec, RowFor;
    var own := SweepSpec(inp).1;
    SavesExactly(own, k);
    if Saves(own, k) {
      var e :| e in own && e.Save? && e.key == k && e.row == LastSaved(own, k).value;
      SweepWritesOwn(inp, e);
    }
    if j :| Writes(inp, j, k) {
      ReachedWrites(inp, j, k);
    }
  }

  lemma ReachedWrites(inp: Inputs, j: Job, k: Key)
    requires ReachesEnd(inp) && Writes(inp, j, k)
    ensures FinalSave(inp, j) in SweepSpec(inp).1 && FinalSave(inp, j).key == k
  {
    hide InScope, Jobs, RowFor, RunJobs, FirstPass;
    var e := FinalSave(inp, j);
    SweepSummary(inp);
    WritesAreOwn(inp, e);
    BothPassesSave(inp, Jobs(inp, inp.repos), e);
  }

  lemma SuccessReachesEnd(inp: Inputs)
    requires SweepSpec(inp).0 == Nil
    ensures ReachesEnd(inp)
  {
    FirstPassIsFlat(inp, inp.repos, FRESH);
  }

  /** A successful sweep settles every in-scope check whose repo it could record. */
  lemma SuccessSettles(inp: Inputs, j: Job)
    requires SweepSpec(inp).0 == Nil && j in InScope(inp, inp.repos) && inp.upsertOk(j.repo)
    ensures Settled(inp, j)
  {
    SuccessReachesEnd(inp);
    SweepSummary(inp);
    JobsExactly(inp, inp.repos, j);
    SelectExactly(inp, IndeterminateTwice, Jobs(inp, inp.repos), j);
  }

  // ---- Main results ----

  /** The table after a successful sweep, whatever reruns were interleaved with it: a key is there
      exactly if a settled in-scope check reports it and was written, a rerun saved it, or it was there
      already with a stamp from the sweep's start on; untouched by reruns, a written row is the final
      result of a check that reports its key. */
  lemma SuccessfulSweepTable(inp: Inputs, rows: map<Key, Row>, log: seq<Event>, k: Key)
    requires SweepSpec(inp).0 == Nil && inp.purgeOk && ClockFrom(inp)
    requires BySweep(log) == SweepSpec(inp).1 && RerunsStampedFrom(log, inp.start)
    ensures var final := Replay(rows, log);
            var written := exists j :: Writes(inp, j, k);
            && (k in final <==> written || Saves(Reruns(log), k) || (k in rows && rows[k].updatedAt >= inp.start))
            && (written && !Saves(Reruns(log), k) ==>
                exists j :: Writes(inp, j, k) && final[k] == FinalSave(inp, j).row)
            && (Saves(Reruns(log), k) ==> final[k].updatedAt >= inp.start)
  {
    hide Writes, SweepSpec, RowFor;
    SuccessReachesEnd(inp);
    SuccessPurges(inp);
    forall e | e in log ensures if e.Save? then e.row.updatedAt >= inp.start else e.cutoff == inp.start {
      SplitMembers(log, e);
      if e in BySweep(log) {
        SweepWritesOwn(inp, e);
        StampedFrom(inp, e);
      } else {
        RerunsAreSaves(log, e);
      }
    }
    ReplayFresh(rows, log, inp.start, k);
    SplitLog(log, k);
    RowsFollowReportedIds(inp, k);
    SplitMembers(log, Purge(inp.start));
    if Saves(log, k) {
      SavesExactly(log, k);
    }
  }

  lemma StampedFrom(inp: Inputs, e: Event)
    requires ClockFrom(inp)
    ensures e.Save? && (exists j :: Writes(inp, j, e.key) && e == FinalSave(inp, j)) ==> e.row.updatedAt >= inp.start
  {
  }

  /** No two in-scope checks report the same key. */
  ghost predicate Apart(inp: Inputs) {
    forall i, j :: i in InScope(inp, inp.repos) && j in InScope(inp, inp.repos) && i != j ==> FinalKey(inp, i) != FinalKey(inp, j)
  }

  /** Where in-scope checks report different keys, each one's row is found under the key it reports. */
  lemma RowOfCheck(inp: Inputs, rows: map<Key, Row>, log: seq<Event>, j: Job)
    requires SweepSpec(inp).0 == Nil && inp.purgeOk && ClockFrom(inp) && Apart(inp)
    requires BySweep(log) == SweepSpec(inp).1 && RerunsStampedFrom(log, inp.start)
    requires j in InScope(inp, inp.repos) && inp.upsertOk(j.repo) && inp.saveOk(FinalKey(inp, j))
    requires !Saves(Reruns(log), FinalKey(inp, j))
    ensures var final, k := Replay(rows, log), FinalKey(inp, j);
            k in final && final[k] == FinalSave(inp, j).row
  {
    hide SweepSpec, RowFor, FinalKey, InScope;
    var k := FinalKey(inp, j);
    SuccessSettles(inp, j);
    assert Writes(inp, j, k);
    SuccessfulSweepTable(inp, rows, log, k);
    var i :| Writes(inp, i, k) && Replay(rows, log)[k] == FinalSave(inp, i).row;
    assert i == j;
  }

  lemma {:induction false} RerunsAreSaves(log: seq<Event>, e: Event)
    ensures e in Reruns(log) ==> e.Save? && !e.bySweep
  {
    if log != [] {
      RerunsAreSaves(log[..|log| - 1], e);
    }
  }

  lemma SuccessPurges(inp: Inputs)
    requires SweepSpec(inp).0 == Nil && inp.purgeOk
    ensures Purge(inp.start) in SweepSpec(inp).1
  {
    SuccessReachesEnd(inp);
    SweepSummary(inp);
  }

  /** A sweep that returns an error deletes no row, and a key that no check it settles reports has the
      row it would have without the sweep. */
  lemma FailedSweepTable(inp: Inputs, rows: map<Key, Row>, log: seq<Event>, k: Key)
    requires SweepSpec(inp).0 != Nil
    requires BySweep(log) == SweepSpec(inp).1
    ensures k in rows ==> k in Replay(rows, log)
    ensures !(exists j :: Writes(inp, j, k)) ==>
              && (k in Replay(rows, log) <==> k in Replay(rows, Reruns(log)))
              && (k in Replay(rows, log) ==> Replay(rows, log)[k] == Replay(rows, Reruns(log))[k])
  {
    hide Writes, SweepSpec, RowFor;
    forall e | e in log || e in Reruns(log) ensures e.Save? {
      SplitMembers(log, e);
      RerunsAreSaves(log, e);
      if e in BySweep(log) {
        SweepWritesOwn(inp, e);
      }
    }
    ReplayAt(rows, log, k);
    ReplayAt(rows, Reruns(log), k);
    SplitLog(log, k);
    SavesExactly(BySweep(log), k);
    if Saves(BySweep(log), k) {
      var e :| e in BySweep(log) && e.Save? && e.key == k;
      SweepWritesOwn(inp, e);
    }
  }

  /** So, where in-scope checks report different keys, a check the failed sweep did not settle, a twice
      indeterminate one among them, keeps the row that reruns left it. */
  lemma UnsettledKeepsItsRow(inp: Inputs, rows: map<Key, Row>, log: seq<Event>, j: Job)
    requires SweepSpec(inp).0 != Nil && Apart(inp)
    requires BySweep(log) == SweepSpec(inp).1
    requires j in InScope(inp, inp.repos) && !Settled(inp, j)
    ensures var k := FinalKey(inp, j);
              && (k in Replay(rows, log) <==> k in Replay(rows, Reruns(log)))
              && (k in Replay(rows, log) ==> Replay(rows, log)[k] == Replay(rows, Reruns(log))[k])
  {
    hide SweepSpec, Settled, FinalKey, InScope;
    FailedSweepTable(inp, rows, log, FinalKey(inp, j));
  }

  /** Around one purge, without any assumption on stamps: a key stays exactly if it is saved
      afterwards or its row at that point is stamped from the cutoff on. */
  lemma PurgeInTheMiddle(rows: map<Key, Row>, a: seq<Event>, cutoff: int, b: seq<Event>, k: Key)
    requires PurgeFree(a) && PurgeFree(b)
    ensures var before := if Saves(a, k) then LastSaved(a, k) else if k in rows then Some(rows[k]) else None;
            k in Replay(rows, a + [Purge(cutoff)] + b) <==>
            Saves(b, k) || (before.Some? && before.value.updatedAt >= cutoff)
  {
    ReplayConcat(rows, a + [Purge(cutoff)], b);
    ReplayConcat(rows, a, [Purge(cutoff)]);
    ReplayAt(rows, a, k);
    ReplayAt(Replay(rows, a + [Purge(cutoff)]), b, k);
  }

  /** A successful sweep purges every stale row of a repo it could not record, though it ran none of
      its checks: only a row stamped since the sweep's start stays. */
  lemma DroppedRepoIsPurged(inp: Inputs, rows: map<Key, Row>, log: seq<Event>, k: Key)
    requires SweepSpec(inp).0 == Nil && inp.purgeOk && ClockFrom(inp)
    requires BySweep(log) == SweepSpec(inp).1 && RerunsStampedFrom(log, inp.start)
    requires !inp.upsertOk(k.0) && !Saves(Reruns(log), k)
    ensures k in Replay(rows, log) <==> k in rows && rows[k].updatedAt >= inp.start
  {
    hide SweepSpec;
    SuccessfulSweepTable(inp, rows, log, k);
  }

  /** Repos whose upsert fails are not counted as skipped: with every upsert failing the sweep
      succeeds, writes nothing, and purges. */
  lemma FailedUpsertsAreSilent(inp: Inputs)
    requires ReachesEnd(inp) && inp.purgeOk
    requires forall r :: r in inp.repos ==> !inp.upsertOk(r.name)
    ensures SweepSpec(inp) == (Nil, [Purge(inp.start)], [])
  {
    NoJobs(inp, inp.repos);
    SweepSummary(inp);
    assert Select(inp, Deferred, []) == [] && Select(inp, IndeterminateTwice, []) == [];
    assert Select(inp, UnraisedFirst, []) == [] && Select(inp, UnraisedInTail, []) == [];
    assert SavesOf(inp, [], 0) + SavesOf(inp, [], 1) == [];
    assert [] + [Purge(inp.start)] == [Purge(inp.start)];
    assert Calls([], 0) + Calls([], 1) == [];
  }

  lemma {:induction false} NoJobs(inp: Inputs, repos: seq<Repo>)
    requires forall r :: r in repos ==> !inp.upsertOk(r.name)
    ensures Jobs(inp, repos) == []
  {
    if repos != [] {
      NoJobs(inp, repos[1..]);
    }
  }
}
