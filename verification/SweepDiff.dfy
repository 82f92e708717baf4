/** The difference that an unchanged registry shows: the table after a sweep against a dry run on the
    same answers. */
module SweepDiff {
  import opened AuditDiff
  import opened DryRun
  import opened Findings
  import opened StatusReport
  import opened Sweep
  import opened SweepResults
  import opened SweepTable

  /** The published status, as the comparison reads it. */
  function BaselineOf(status: map<string, RepoStatus>): Baseline {
    map r | r in status :: ConventionsOf(status[r])
  }

  function ConventionsOf(st: RepoStatus): map<string, BaseStatus> {
    map v | v in st.conventions :: BaseStatus(st.conventions[v].pass, st.conventions[v].detail)
  }

  /** The keys under which the failing checks are entered, and those they report. */
  ghost function FailingOwn(inp: Inputs): set<Key> {
    set j | j in InScope(inp, inp.repos) && Settled(inp, j) && !FinalSave(inp, j).row.pass :: (j.repo, j.id)
  }

  ghost function FailingReported(inp: Inputs): set<Key> {
    set j | j in InScope(inp, inp.repos) && Settled(inp, j) && !FinalSave(inp, j).row.pass :: FinalKey(inp, j)
  }

  /** A successful sweep, the status built from its table, and a dry run on the same answers. */
  ghost predicate SameAnswers(inp: Inputs, rows: map<Key, Row>, status: map<string, RepoStatus>, c: Report) {
    && CleanSweep(inp, rows) && Apart(inp)
    && ReportOf(Replay(rows, SweepSpec(inp).1), Replay(rows, SweepSpec(inp).1).Keys, status)
    && ReportsAll(inp, inp.repos, c.repos, Select(inp, Deferred, InScope(inp, inp.repos)))
  }

  lemma BaseFails(inp: Inputs, rows: map<Key, Row>, status: map<string, RepoStatus>, c: Report, p: Key)
    requires SameAnswers(inp, rows, status, c)
    ensures InBase(BaselineOf(status), p) && !BaselineOf(status)[p.0][p.1].pass <==> p in FailingReported(inp)
  {
    hide SweepSpec, Replay, ReportsAll, InScope, RowFor, FinalKey, Settled, CleanSweep, Apart, ReportOf;
    var table := Replay(rows, SweepSpec(inp).1);
    StatusIsTable(table, status, p);
    CleanTable(inp, rows, p);
    if p in table {
      var j :| j in InScope(inp, inp.repos) && Settled(inp, j) && p == FinalKey(inp, j);
      assert table[p] == FinalSave(inp, j).row;
    }
    if p in FailingReported(inp) {
      var j :| j in InScope(inp, inp.repos) && Settled(inp, j) && !FinalSave(inp, j).row.pass && p == FinalKey(inp, j);
      assert p in ReportedKeys(inp);
    }
  }

  lemma CandidateFails(inp: Inputs, rows: map<Key, Row>, status: map<string, RepoStatus>, c: Report, p: Key)
    requires SameAnswers(inp, rows, status, c)
    ensures InCandidate(c, p) ==> !Verdict(c, p).skipped
    ensures InCandidate(c, p) && !Verdict(c, p).pass <==> p in FailingOwn(inp)
  {
    hide SweepSpec, Replay, ReportsAll, InScope, RowFor, CleanSweep, Apart, ReportOf;
    var j := Job(p.0, p.1);
    EntriesAreFinalResults(inp, c.repos, p);
    if InCandidate(c, p) {
      CandidateIsSettled(inp, rows, status, c, p);
    }
    if p in FailingOwn(inp) {
      var i :| i in InScope(inp, inp.repos) && Settled(inp, i) && !FinalSave(inp, i).row.pass && p == (i.repo, i.id);
      assert i == j;
    }
  }

  lemma CandidateIsSettled(inp: Inputs, rows: map<Key, Row>, status: map<string, RepoStatus>, c: Report, p: Key)
    requires SameAnswers(inp, rows, status, c) && InCandidate(c, p)
    ensures HasEntry(c.repos, p)
  {
    hide SweepSpec, Replay, InScope, RowFor, Apart, ReportOf;
    var j := Job(p.0, p.1);
    InScopeVisits(inp, inp.repos, j);
    assert Reflects(inp, p.0, c.repos[p.0], Select(inp, Deferred, InScope(inp, inp.repos)));
    SuccessSettles(inp, j);
  }

  /** On the same answers the difference shows as new failures exactly the failing checks' own keys
      that no failing check reports, and as resolved the reported ones that are no failing check's own. */
  lemma DifferenceOfSameAnswers(inp: Inputs, rows: map<Key, Row>, status: map<string, RepoStatus>, c: Report, d: Diff, p: Key)
    requires SameAnswers(inp, rows, status, c) && IsDiff(BaselineOf(status), c, d)
    ensures Mentions(d.newFailures, p) <==> p in FailingOwn(inp) - FailingReported(inp)
    ensures Mentions(d.resolved, p) <==> p in FailingReported(inp) - FailingOwn(inp)
    ensures d.skipped == 0
  {
    hide SameAnswers, FailingOwn, FailingReported, BaselineOf, EntryLe, KeysApart;
    var b, all := BaselineOf(status), CandidatePairs(c);
    forall q
      ensures InBase(b, q) && !b[q.0][q.1].pass <==> q in FailingReported(inp)
      ensures InCandidate(c, q) ==> !Verdict(c, q).skipped
      ensures InCandidate(c, q) && !Verdict(c, q).pass <==> q in FailingOwn(inp)
    {
      BaseFails(inp, rows, status, c, q);
      CandidateFails(inp, rows, status, c, q);
    }
    MentionsNew(b, c, d, p);
    MentionsResolved(b, c, d, p);
    if p in FailingReported(inp) {
      ReportedRepoIsVisited(inp, rows, status, c, p);
    }
    assert OfClass(b, c, all, Skipped) == {};
  }

  lemma MentionsNew(b: Baseline, c: Report, d: Diff, p: Key)
    requires IsDiff(b, c, d)
    ensures Mentions(d.newFailures, p) <==> InCandidate(c, p) && ClassOf(b, c, p) == Broke
  {
    hide EntryLe, KeysApart, ClassOf;
    if InCandidate(c, p) && ClassOf(b, c, p) == Broke {
      assert p in CandidatePairs(c);
      assert DiffEntry(p.0, p.1, Verdict(c, p).detail) in d.newFailures;
    }
  }

  lemma MentionsResolved(b: Baseline, c: Report, d: Diff, p: Key)
    requires IsDiff(b, c, d)
    ensures Mentions(d.resolved, p) <==> (InCandidate(c, p) && ClassOf(b, c, p) == Fixed) || Vanished(b, c, p)
  {
    hide EntryLe, KeysApart, ClassOf;
    if (InCandidate(c, p) && ClassOf(b, c, p) == Fixed) || Vanished(b, c, p) {
      assert InCandidate(c, p) ==> p in CandidatePairs(c);
      assert Vanished(b, c, p) ==> p in BasePairs(b);
      assert DiffEntry(p.0, p.1, "") in d.resolved;
    }
  }

  lemma ReportedRepoIsVisited(inp: Inputs, rows: map<Key, Row>, status: map<string, RepoStatus>, c: Report, p: Key)
    requires SameAnswers(inp, rows, status, c) && p in FailingReported(inp)
    ensures p.0 in c.repos
  {
    hide SweepSpec, Replay, RowFor, CleanSweep, Apart, ReportOf, InScope, Settled;
    var j :| j in InScope(inp, inp.repos) && Settled(inp, j) && !FinalSave(inp, j).row.pass && p == FinalKey(inp, j);
    InScopeVisits(inp, inp.repos, j);
  }

  /** So the difference is empty exactly when the failing checks report, all told, their own keys. */
  lemma EmptyExactlyWhen(inp: Inputs, rows: map<Key, Row>, status: map<string, RepoStatus>, c: Report, d: Diff)
    requires SameAnswers(inp, rows, status, c) && IsDiff(BaselineOf(status), c, d)
    ensures d.newFailures == [] && d.resolved == [] <==> FailingOwn(inp) == FailingReported(inp)
  {
    hide SameAnswers, FailingOwn, FailingReported, BaselineOf, IsDiff;
    forall p
      ensures Mentions(d.newFailures, p) <==> p in FailingOwn(inp) - FailingReported(inp)
      ensures Mentions(d.resolved, p) <==> p in FailingReported(inp) - FailingOwn(inp)
    {
      DifferenceOfSameAnswers(inp, rows, status, c, d, p);
    }
    assert d.newFailures != [] ==> Mentions(d.newFailures, KeyOf(d.newFailures[0]));
    assert d.resolved != [] ==> Mentions(d.resolved, KeyOf(d.resolved[0]));
    if d.newFailures == [] && d.resolved == [] {
      forall p ensures p in FailingOwn(inp) <==> p in FailingReported(inp) {
        assert !Mentions(d.newFailures, p) && !Mentions(d.resolved, p);
      }
    }
  }
}
