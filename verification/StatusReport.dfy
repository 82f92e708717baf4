/** The status report built from the findings table, the summary counters, and how the two
    summaries, of the dry run and of the table, compare. */
module StatusReport {
  import opened Findings
  import opened IssueTracker
  import opened SmallFleet
  import opened Sweep
  import opened SweepResults
  import opened SweepTable
  import opened DryRun

  function Compliant(repos: map<string, RepoStatus>): set<string> {
    set name | name in repos && repos[name].compliant
  }

  function Failing(st: RepoStatus): set<string> {
    set id | id in st.conventions && !st.conventions[id].skipped && !st.conventions[id].pass
  }

  function Violations(repos: map<string, RepoStatus>): set<Key> {
    set name, id | name in repos && id in Failing(repos[name]) :: (name, id)
  }

  /** Counts repos, compliant repos and non-skipped failing entries. */
  method Summarise(repos: map<string, RepoStatus>) returns (s: Summary)
    ensures s == Summary(|repos|, |Compliant(repos)|, |Violations(repos)|)
    ensures s.compliantRepos == |set name | name in repos && repos[name].compliant|
    ensures s.totalViolations == |set name, id | name in repos && id in repos[name].conventions
              && !repos[name].conventions[id].skipped && !repos[name].conventions[id].pass :: (name, id)|
  {
    s := Summary(0, 0, 0);
    var todo := repos.Keys;
    ghost var done: set<string> := {};
    while todo != {}
      invariant done + todo == repos.Keys && done !! todo
      invariant s.totalRepos == |done|
      invariant s.compliantRepos == |done * Compliant(repos)|
      invariant s.totalViolations == |Within(Violations(repos), done)|
    {
      var name :| name in todo;
      todo := todo - {name};
      var violations := CountFailing(repos[name]);
      CountsOfOneMore(repos, done, name);
      s := Summary(s.totalRepos + 1,
                   s.compliantRepos + if repos[name].compliant then 1 else 0,
                   s.totalViolations + violations);
      done := done + {name};
    }
    assert done == repos.Keys;
    assert Violations(repos) == set name, id | name in repos && id in repos[name].conventions
      && !repos[name].conventions[id].skipped && !repos[name].conventions[id].pass :: (name, id);
    assert done * Compliant(repos) == Compliant(repos);
    assert Within(Violations(repos), done) == Violations(repos);
  }

  method CountFailing(st: RepoStatus) returns (n: nat)
    ensures n == |Failing(st)|
  {
    hide Failing;
    n := 0;
    var todo := st.conventions.Keys;
    ghost var done: set<string> := {};
    assert done * Failing(st) == {};
    while todo != {}
      invariant done + todo == st.conventions.Keys && done !! todo
      invariant n == |done * Failing(st)|
    {
      var id :| id in todo;
      todo := todo - {id};
      var cs := st.conventions[id];
      FailingOneMore(st, done, id);
      if !cs.skipped && !cs.pass {
        n := n + 1;
      }
      done := done + {id};
    }
    FailingIsWithin(st, done);
  }

  lemma FailingOneMore(st: RepoStatus, done: set<string>, id: string)
    requires id in st.conventions && id !in done
    ensures var cs := st.conventions[id];
      |(done + {id}) * Failing(st)| == |done * Failing(st)| + if !cs.skipped && !cs.pass then 1 else 0
  {
    var was := done * Failing(st);
    assert (done + {id}) * Failing(st) == if id in Failing(st) then was + {id} else was;
  }

  lemma FailingIsWithin(st: RepoStatus, done: set<string>)
    requires done == st.conventions.Keys
    ensures done * Failing(st) == Failing(st)
  {
  }

  ghost function Within(keys: set<Key>, names: set<string>): set<Key> {
    set k | k in keys && k.0 in names
  }

  ghost function Pairs(name: string, ids: set<string>): set<Key> {
    set id | id in ids :: (name, id)
  }

  lemma {:induction false} PairsCount(name: string, ids: set<string>)
    ensures |Pairs(name, ids)| == |ids|
  {
    if ids == {} {
      assert Pairs(name, ids) == {};
    } else {
      var id :| id in ids;
      PairsCount(name, ids - {id});
      assert Pairs(name, ids) == Pairs(name, ids - {id}) + {(name, id)};
    }
  }

  lemma CountsOfOneMore(repos: map<string, RepoStatus>, done: set<string>, name: string)
    requires name in repos && name !in done
    ensures |(done + {name}) * Compliant(repos)| == |done * Compliant(repos)| + if repos[name].compliant then 1 else 0
    ensures |Within(Violations(repos), done + {name})| == |Within(Violations(repos), done)| + |Failing(repos[name])|
  {
    var c := done * Compliant(repos);
    assert (done + {name}) * Compliant(repos) == if repos[name].compliant then c + {name} else c;
    var before, here := Within(Violations(repos), done), Pairs(name, Failing(repos[name]));
    assert Within(Violations(repos), done + {name}) == before + here;
    assert before !! here;
    PairsCount(name, Failing(repos[name]));
  }

  function StatusOfRow(row: Row): ConvStatus {
    ConvStatus(row.pass, row.detail, false, row.issue)
  }

  /** rs is the status of one repo for the rows whose keys are in done. */
  ghost predicate Groups(rows: map<Key, Row>, done: set<Key>, name: string, rs: RepoStatus)
    requires done <= rows.Keys
  {
    && (forall id :: id in rs.conventions <==> (name, id) in done)
    && (forall id :: id in rs.conventions ==> rs.conventions[id] == StatusOfRow(rows[(name, id)]))
    && (rs.compliant <==> NoFailure(rs))
  }

  ghost predicate ReportOf(rows: map<Key, Row>, done: set<Key>, repos: map<string, RepoStatus>)
    requires done <= rows.Keys
  {
    && (forall name :: name in repos <==> exists id :: (name, id) in done)
    && (forall name :: name in repos ==> Groups(rows, done, name, repos[name]))
  }

  /** Groups the table's rows, taken in any order, by repo. */
  method GetStatusReport(rows: map<Key, Row>, types: map<string, string>) returns (repos: map<string, RepoStatus>)
    ensures ReportOf(rows, rows.Keys, repos)
    ensures forall name :: name in repos ==> repos[name].repoType == if name in types then types[name] else ""
  {
    repos := map[];
    var todo := rows.Keys;
    ghost var done: set<Key> := {};
    while todo != {}
      invariant done + todo == rows.Keys && done !! todo
      invariant ReportOf(rows, done, repos)
      invariant forall name :: name in repos ==> repos[name].repoType == if name in types then types[name] else ""
    {
      var key :| key in todo;
      todo := todo - {key};
      var rs := if key.0 in repos then repos[key.0]
                else RepoStatus(if key.0 in types then types[key.0] else "", map[], true);
      assert Groups(rows, done, key.0, rs);
      rs := Record(rs, key.1, StatusOfRow(rows[key]));
      OneMoreRow(rows, done, key, repos, rs);
      repos := repos[key.0 := rs];
      done := done + {key};
    }
    assert done == rows.Keys;
  }

  lemma OneMoreRow(rows: map<Key, Row>, done: set<Key>, key: Key, repos: map<string, RepoStatus>, rs: RepoStatus)
    requires done <= rows.Keys && key in rows && ReportOf(rows, done, repos)
    requires Groups(rows, done + {key}, key.0, rs)
    ensures ReportOf(rows, done + {key}, repos[key.0 := rs])
  {
    forall name ensures (exists id :: (name, id) in done + {key}) <==> name == key.0 || name in repos {
      if name == key.0 {
        assert (name, key.1) in done + {key};
      }
      if name in repos {
        var id :| (name, id) in done;
        assert (name, id) in done + {key};
      }
    }
  }

  /** The report holds exactly the table's rows, each with its verdict, detail and issue under its repo and
      convention; a repo is compliant exactly if all its rows pass. */
  lemma StatusExactly(rows: map<Key, Row>, repos: map<string, RepoStatus>, name: string, id: string)
    requires ReportOf(rows, rows.Keys, repos)
    ensures (name, id) in rows <==> name in repos && id in repos[name].conventions
    ensures (name, id) in rows ==>
      var cs, row := repos[name].conventions[id], rows[(name, id)];
      !cs.skipped && cs.pass == row.pass && cs.detail == row.detail && cs.issue == row.issue
    ensures name in repos ==> (repos[name].compliant <==> forall v :: (name, v) in rows ==> rows[(name, v)].pass)
  {
    assert (name, id) in rows.Keys <==> (name, id) in rows;
    if name in repos {
      assert Groups(rows, rows.Keys, name, repos[name]);
      forall v ensures v in repos[name].conventions <==> (name, v) in rows {
        assert (name, v) in rows.Keys <==> (name, v) in rows;
      }
    }
  }

  // ---- The two summaries ----

  /** Row by row the table holds the dry run's non-skipped entries with the same verdict, each on its
      repo, the entry of k under the key f(k). */
  ghost predicate MatchedBy(rows: map<Key, Row>, report: map<string, RepoStatus>, f: Key -> Key) {
    && (forall k :: HasEntry(report, k) ==> f(k) in rows && f(k).0 == k.0 && SameResult(rows[f(k)], report[k.0].conventions[k.1]))
    && (forall q :: q in rows ==> exists k :: HasEntry(report, k) && f(k) == q)
    && (forall k, k' :: HasEntry(report, k) && HasEntry(report, k') && f(k) == f(k') ==> k == k')
  }

  lemma StatusIsTable(rows: map<Key, Row>, status: map<string, RepoStatus>, q: Key)
    requires ReportOf(rows, rows.Keys, status)
    ensures q in rows <==> q.0 in status && q.1 in status[q.0].conventions
    ensures q in rows ==> status[q.0].conventions[q.1] == StatusOfRow(rows[q])
  {
    if q in rows {
      assert (q.0, q.1) in rows.Keys;
    }
    if q.0 in status {
      assert Groups(rows, rows.Keys, q.0, status[q.0]);
    }
  }

  lemma NamesMatch(rows: map<Key, Row>, report: map<string, RepoStatus>, f: Key -> Key, status: map<string, RepoStatus>, name: string)
    requires MatchedBy(rows, report, f) && ReportOf(rows, rows.Keys, status)
    ensures name in status <==> exists id :: HasEntry(report, (name, id))
  {
    hide HasEntry;
    if name in status {
      var id :| (name, id) in rows.Keys;
      var k :| HasEntry(report, k) && f(k) == (name, id);
      assert k == (name, k.1);
    }
    if id :| HasEntry(report, (name, id)) {
      StatusIsTable(rows, status, f((name, id)));
    }
  }

  lemma ComplianceMatches(rows: map<Key, Row>, report: map<string, RepoStatus>, f: Key -> Key, status: map<string, RepoStatus>, name: string)
    requires MatchedBy(rows, report, f) && ReportOf(rows, rows.Keys, status)
    requires name in report && (report[name].compliant <==> NoFailure(report[name]))
    ensures report[name].compliant <==> name !in status || status[name].compliant
  {
    NamesMatch(rows, report, f, status, name);
    if !NoFailure(report[name]) {
      var id :| id in report[name].conventions && !report[name].conventions[id].skipped && !report[name].conventions[id].pass;
      assert HasEntry(report, (name, id));
      StatusIsTable(rows, status, f((name, id)));
    }
    if name in status {
      assert Groups(rows, rows.Keys, name, status[name]);
      if !NoFailure(status[name]) {
        var id :| id in status[name].conventions && !status[name].conventions[id].skipped && !status[name].conventions[id].pass;
        StatusIsTable(rows, status, (name, id));
        var k :| HasEntry(report, k) && f(k) == (name, id);
      }
    }
  }

  lemma {:induction false} ImageSize(s: set<Key>, f: Key -> Key)
    requires forall k, k' :: k in s && k' in s && f(k) == f(k') ==> k == k'
    ensures |set k | k in s :: f(k)| == |s|
  {
    var image := set k | k in s :: f(k);
    if s == {} {
      assert image == {};
    } else {
      var x :| x in s;
      ImageSize(s - {x}, f);
      var rest := set k | k in s - {x} :: f(k);
      assert image == rest + {f(x)} && f(x) !in rest;
    }
  }

  lemma ViolationsMatch(rows: map<Key, Row>, report: map<string, RepoStatus>, f: Key -> Key, status: map<string, RepoStatus>)
    requires MatchedBy(rows, report, f) && ReportOf(rows, rows.Keys, status)
    ensures |Violations(status)| == |Violations(report)|
  {
    hide ReportOf;
    var failing := Violations(report);
    forall q ensures q in Violations(status) <==> q in set k | k in failing :: f(k) {
      StatusIsTable(rows, status, q);
      if q in Violations(status) {
        var k :| HasEntry(report, k) && f(k) == q;
        assert k in failing;
      }
    }
    assert Violations(status) == set k | k in failing :: f(k);
    ImageSize(failing, f);
  }

  /** Under whatever keys the rows stand, the summaries always agree on the number of violations. They
      agree on the repo counts too exactly when every repo of the dry run has some settled check: a repo
      without one is counted, as compliant, by the dry run only. */
  lemma SummariesAgree(rows: map<Key, Row>, report: map<string, RepoStatus>, f: Key -> Key, status: map<string, RepoStatus>)
    requires MatchedBy(rows, report, f) && ReportOf(rows, rows.Keys, status)
    requires forall name :: name in report ==> (report[name].compliant <==> NoFailure(report[name]))
    ensures |Violations(status)| == |Violations(report)|
    ensures var empty := set name | name in report && !exists id :: HasEntry(report, (name, id));
            && |report| == |status| + |empty|
            && |Compliant(report)| == |Compliant(status)| + |empty|
  {
    hide MatchedBy, ReportOf, NoFailure, Violations, HasEntry, Compliant;
    ViolationsMatch(rows, report, f, status);
    var empty := set name | name in report && !exists id :: HasEntry(report, (name, id));
    EmptyRepos(rows, report, f, status, empty);
    DisjointSize(status.Keys, empty);
    DisjointSize(Compliant(status), empty);
  }

  lemma DisjointSize(a: set<string>, b: set<string>)
    requires a !! b
    ensures |a + b| == |a| + |b|
  {
  }

  lemma EmptyRepos(rows: map<Key, Row>, report: map<string, RepoStatus>, f: Key -> Key, status: map<string, RepoStatus>, empty: set<string>)
    requires MatchedBy(rows, report, f) && ReportOf(rows, rows.Keys, status)
    requires forall name :: name in report ==> (report[name].compliant <==> NoFailure(report[name]))
    requires forall name :: name in empty <==> name in report && !exists id :: HasEntry(report, (name, id))
    ensures report.Keys == status.Keys + empty && status.Keys !! empty
    ensures Compliant(report) == Compliant(status) + empty && Compliant(status) !! empty
  {
    hide MatchedBy, ReportOf, NoFailure;
    forall name ensures name in status <==> name in report && name !in empty {
      NamesMatch(rows, report, f, status, name);
    }
    hide HasEntry;
    forall name | name in report ensures name in Compliant(report) <==> name in empty || name in Compliant(status) {
      ComplianceMatches(rows, report, f, status, name);
    }
  }

  // ---- The table after a sweep against the dry run ----

  lemma {:induction false} OwnLog(log: seq<Event>)
    requires forall e :: e in log ==> e.Purge? || e.bySweep
    ensures BySweep(log) == log && Reruns(log) == []
  {
    if log != [] {
      OwnLog(log[..|log| - 1]);
    }
  }

  /** The key that the check entered under k reports. */
  function ReportedAs(inp: Inputs): Key -> Key {
    (k: Key) => FinalKey(inp, Job(k.0, k.1))
  }

  /** A successful sweep without reruns over a table of older rows. */
  ghost predicate CleanSweep(inp: Inputs, rows: map<Key, Row>) {
    && SweepSpec(inp).0 == Nil && inp.purgeOk && ClockFrom(inp) && WritesSucceed(inp)
    && forall k :: k in rows ==> rows[k].updatedAt < inp.start
  }

  /** After it the table holds exactly the results of the in-scope checks under the keys they report. */
  lemma CleanTable(inp: Inputs, rows: map<Key, Row>, k: Key)
    requires CleanSweep(inp, rows) && Apart(inp)
    ensures var final := Replay(rows, SweepSpec(inp).1);
            && (k in final <==> k in ReportedKeys(inp))
            && (forall j :: j in InScope(inp, inp.repos) && FinalKey(inp, j) == k ==> k in final && final[k] == FinalSave(inp, j).row)
  {
    hide SweepSpec, Replay, InScope, RowFor, FinalKey, Settled;
    var log := SweepSpec(inp).1;
    forall e | e in log ensures e.Purge? || e.bySweep {
      SweepWritesOwn(inp, e);
    }
    OwnLog(log);
    SuccessReachesEnd(inp);
    NoReruns(log, inp.start);
    SuccessfulSweepTable(inp, rows, log, k);
    KeysExactly(inp, k);
    forall j | j in InScope(inp, inp.repos) && FinalKey(inp, j) == k
      ensures k in Replay(rows, log) && Replay(rows, log)[k] == FinalSave(inp, j).row
    {
      RowOfCheck(inp, rows, log, j);
    }
  }

  lemma NoReruns(log: seq<Event>, start: int)
    requires forall e :: e in log ==> e.Purge? || e.bySweep
    requires Reruns(log) == []
    ensures RerunsStampedFrom(log, start) && forall k :: !Saves(Reruns(log), k)
  {
  }

  /** The table then holds the dry run's non-skipped entries, row by row, each under the key its check
      reports. */
  lemma TableMatchesDryRun(inp: Inputs, rows: map<Key, Row>, report: map<string, RepoStatus>)
    requires CleanSweep(inp, rows) && Apart(inp)
    requires ReportsAll(inp, inp.repos, report, Select(inp, Deferred, InScope(inp, inp.repos)))
    ensures MatchedBy(Replay(rows, SweepSpec(inp).1), report, ReportedAs(inp))
  {
    hide SweepSpec, Replay, ReportsAll, InScope, RowFor, FinalKey, HasEntry, Settled, OwnKeys, ReportedKeys, Apart, CleanSweep, SameResult;
    var final, f := Replay(rows, SweepSpec(inp).1), ReportedAs(inp);
    forall k | HasEntry(report, k)
      ensures f(k) in final && f(k).0 == k.0 && k.0 in report && k.1 in report[k.0].conventions
      ensures SameResult(final[f(k)], report[k.0].conventions[k.1])
    {
      EntryRow(inp, rows, report, k);
    }
    forall q | q in final ensures exists k :: HasEntry(report, k) && f(k) == q {
      CleanTable(inp, rows, q);
      var k := RowEntry(inp, report, q);
    }
    forall k, k' | HasEntry(report, k) && HasEntry(report, k') && f(k) == f(k') ensures k == k' {
      EntriesApart(inp, report, k, k');
    }
  }

  /** They stand under the same keys exactly when the checks report, all told, the set of their own IDs. */
  lemma SameKeysExactlyWhen(inp: Inputs, rows: map<Key, Row>, report: map<string, RepoStatus>)
    requires CleanSweep(inp, rows) && Apart(inp)
    requires ReportsAll(inp, inp.repos, report, Select(inp, Deferred, InScope(inp, inp.repos)))
    ensures (forall k :: k in Replay(rows, SweepSpec(inp).1) <==> HasEntry(report, k)) <==> OwnKeys(inp) == ReportedKeys(inp)
  {
    hide SweepSpec, Replay, ReportsAll, InScope, RowFor, FinalKey, HasEntry, Settled, OwnKeys, ReportedKeys, Apart, CleanSweep;
    forall k
      ensures k in Replay(rows, SweepSpec(inp).1) <==> k in ReportedKeys(inp)
      ensures HasEntry(report, k) <==> k in OwnKeys(inp)
    {
      CleanTable(inp, rows, k);
      EntryKeys(inp, rows, report, k);
    }
  }

  lemma EntryKeys(inp: Inputs, rows: map<Key, Row>, report: map<string, RepoStatus>, k: Key)
    requires CleanSweep(inp, rows)
    requires ReportsAll(inp, inp.repos, report, Select(inp, Deferred, InScope(inp, inp.repos)))
    ensures HasEntry(report, k) <==> k in OwnKeys(inp)
  {
    hide SweepSpec, ReportsAll, InScope, RowFor, HasEntry, Settled, OwnKeys;
    SuccessReachesEnd(inp);
    EntriesAreFinalResults(inp, report, k);
    KeysExactly(inp, k);
  }

  lemma EntryRow(inp: Inputs, rows: map<Key, Row>, report: map<string, RepoStatus>, k: Key)
    requires CleanSweep(inp, rows) && Apart(inp) && HasEntry(report, k)
    requires ReportsAll(inp, inp.repos, report, Select(inp, Deferred, InScope(inp, inp.repos)))
    ensures var final, q := Replay(rows, SweepSpec(inp).1), FinalKey(inp, Job(k.0, k.1));
            && q in final && q.0 == k.0 && k.0 in report && k.1 in report[k.0].conventions
            && SameResult(final[q], report[k.0].conventions[k.1])
  {
    hide SweepSpec, Replay, ReportsAll, InScope, RowFor, FinalKey, HasEntry, Settled, CleanSweep, Apart;
    EntryIsThere(report, k);
    EntriesAreFinalResults(inp, report, k);
    CleanTable(inp, rows, FinalKey(inp, Job(k.0, k.1)));
    KeyKeepsRepo(inp, Job(k.0, k.1));
  }

  lemma RowEntry(inp: Inputs, report: map<string, RepoStatus>, q: Key) returns (k: Key)
    requires q in ReportedKeys(inp)
    requires ReportsAll(inp, inp.repos, report, Select(inp, Deferred, InScope(inp, inp.repos)))
    ensures HasEntry(report, k) && ReportedAs(inp)(k) == q
  {
    hide ReportsAll, InScope, RowFor, FinalKey, HasEntry, Settled;
    var j :| j in InScope(inp, inp.repos) && Settled(inp, j) && q == FinalKey(inp, j);
    k := (j.repo, j.id);
    EntriesAreFinalResults(inp, report, k);
  }

  lemma EntriesApart(inp: Inputs, report: map<string, RepoStatus>, k: Key, k': Key)
    requires Apart(inp) && HasEntry(report, k) && HasEntry(report, k') && ReportedAs(inp)(k) == ReportedAs(inp)(k')
    requires ReportsAll(inp, inp.repos, report, Select(inp, Deferred, InScope(inp, inp.repos)))
    ensures k == k'
  {
    hide ReportsAll, InScope, RowFor, FinalKey, HasEntry, Settled;
    EntriesAreFinalResults(inp, report, k);
    EntriesAreFinalResults(inp, report, k');
  }

  lemma KeyKeepsRepo(inp: Inputs, j: Job)
    ensures FinalKey(inp, j).0 == j.repo
  {
  }

  // ---- Both summaries after a sweep ----

  /** The active repos that no convention applies to. */
  ghost function Unchecked(inp: Inputs): set<string> {
    set r | r in inp.repos && Active(r) && (forall id :: Job(r.name, id) !in InScope(inp, inp.repos)) :: r.name
  }

  /** After a clean sweep the two summaries agree on the violations; the dry run counts, as compliant,
      exactly the active repos that no convention applies to beside those of the table. */
  lemma SummariesOfSweep(inp: Inputs, rows: map<Key, Row>, report: map<string, RepoStatus>, status: map<string, RepoStatus>)
    requires CleanSweep(inp, rows) && Apart(inp)
    requires ReportsAll(inp, inp.repos, report, Select(inp, Deferred, InScope(inp, inp.repos)))
    requires var final := Replay(rows, SweepSpec(inp).1); ReportOf(final, final.Keys, status)
    ensures |Violations(status)| == |Violations(report)|
    ensures |report| == |status| + |Unchecked(inp)| && |Compliant(report)| == |Compliant(status)| + |Unchecked(inp)|
  {
    hide SweepSpec, Replay, InScope, HasEntry, Apart, CleanSweep, Violations, Compliant, MatchedBy, ReportOf, NoFailure;
    TableMatchesDryRun(inp, rows, report);
    UncheckedExactly(inp, rows, report);
    SummariesAgree(Replay(rows, SweepSpec(inp).1), report, ReportedAs(inp), status);
    assert Unchecked(inp) == set name | name in report && !exists id :: HasEntry(report, (name, id));
  }

  lemma UncheckedExactly(inp: Inputs, rows: map<Key, Row>, report: map<string, RepoStatus>)
    requires CleanSweep(inp, rows)
    requires ReportsAll(inp, inp.repos, report, Select(inp, Deferred, InScope(inp, inp.repos)))
    ensures forall name :: name in Unchecked(inp) <==> name in report && !exists id :: HasEntry(report, (name, id))
    ensures forall name :: name in report ==> (report[name].compliant <==> NoFailure(report[name]))
  {
    hide SweepSpec, InScope, HasEntry, NoFailure, Settled;
    forall name, id ensures HasEntry(report, (name, id)) <==> Job(name, id) in InScope(inp, inp.repos) {
      EntriesAreFinalResults(inp, report, (name, id));
      if Job(name, id) in InScope(inp, inp.repos) {
        SuccessSettles(inp, Job(name, id));
      }
    }
  }

  /** A concrete case: of two repos the convention applies to one, and its check passes. The dry run
      counts two compliant repos, the table one. */
  lemma CountsDiffer(id: string, report: map<string, RepoStatus>, status: map<string, RepoStatus>)
    requires var inp := Fleet(id, CheckResult(id, true, "", false), false, Nothing);
      ReportsAll(inp, inp.repos, report, Select(inp, Deferred, InScope(inp, inp.repos)))
    requires var inp := Fleet(id, CheckResult(id, true, "", false), false, Nothing);
      var final := Replay(map[], SweepSpec(inp).1); ReportOf(final, final.Keys, status)
    ensures |report| == |Compliant(report)| == 2 && |status| == |Compliant(status)| == 1
  {
    var inp := Fleet(id, CheckResult(id, true, "", false), false, Nothing);
    FleetIsClean(id);
    ActiveRepos(inp, report);
    AllCompliant(inp, report);
    hide SweepSpec, InScope, ReportsAll, ReportOf, Replay, CleanSweep, Apart, Unchecked, Compliant;
    SummariesOfSweep(inp, map[], report, status);
    assert report.Keys == {REPO, OTHER};
    assert |report| == |report.Keys|;
  }

  lemma FleetIsClean(id: string)
    ensures var inp := Fleet(id, CheckResult(id, true, "", false), false, Nothing);
      CleanSweep(inp, map[]) && Apart(inp) && Unchecked(inp) == {OTHER}
    ensures REPO != OTHER
  {
    var inp := Fleet(id, CheckResult(id, true, "", false), false, Nothing);
    FleetSweep(id, id, false, Nothing);
    FleetScope(id, CheckResult(id, true, "", false), false, Nothing);
    hide SweepSpec, InScope, FinalKey;
    assert inp.repos[1] == Repo(OTHER, false, false);
    assert Job(REPO, id) in [Job(REPO, id)];
  }

  lemma ActiveRepos(inp: Inputs, report: map<string, RepoStatus>)
    requires inp.repos == [Repo(REPO, false, false), Repo(OTHER, false, false)]
    requires ReportsAll(inp, inp.repos, report, Select(inp, Deferred, InScope(inp, inp.repos)))
    ensures report.Keys == {REPO, OTHER}
  {
    hide Reflects, InScope;
    assert inp.repos[0].name == REPO && inp.repos[1].name == OTHER;
    assert VisitedIn(inp.repos, REPO) && VisitedIn(inp.repos, OTHER);
  }

  lemma AllCompliant(inp: Inputs, report: map<string, RepoStatus>)
    requires forall j: Job, a: nat :: inp.CheckOf(j, a).pass && !inp.CheckOf(j, a).indeterminate
    requires ReportsAll(inp, inp.repos, report, Select(inp, Deferred, InScope(inp, inp.repos)))
    ensures Compliant(report) == report.Keys
  {
    hide InScope;
    forall name | name in report ensures report[name].compliant {
      forall id | id in report[name].conventions ensures report[name].conventions[id].pass {
        assert report[name].conventions[id] == FinalStatus(inp, Job(name, id));
        assert inp.CheckOf(Job(name, id), FinalAttempt(inp, Job(name, id))).pass;
      }
    }
  }
}
