/** The difference between the published status and a dry run. */
module AuditDiff {
  import opened DryRun
  import opened Findings
  import opened Sorting
  import opened Wrappers

  datatype BaseStatus = BaseStatus(pass: bool, detail: string)

  type Baseline = map<string, map<string, BaseStatus>>

  datatype DiffEntry = DiffEntry(repo: string, convention: string, detail: string)

  datatype Diff = Diff(newFailures: seq<DiffEntry>, resolved: seq<DiffEntry>, same: nat, skipped: nat)

  // ---- What the difference means ----

  predicate InBase(b: Baseline, p: Key) {
    p.0 in b && p.1 in b[p.0]
  }

  predicate InCandidate(c: Report, p: Key) {
    p.0 in c.repos && p.1 in c.repos[p.0].conventions
  }

  /** The baseline verdict; a pair the baseline does not have counts as passing. */
  predicate Passed(b: Baseline, p: Key) {
    InBase(b, p) ==> b[p.0][p.1].pass
  }

  function Verdict(c: Report, p: Key): ConvStatus
    requires InCandidate(c, p)
  {
    c.repos[p.0].conventions[p.1]
  }

  datatype Class = Skipped | Broke | Fixed | Same

  /** Each candidate pair is in exactly one class. */
  function ClassOf(b: Baseline, c: Report, p: Key): Class
    requires InCandidate(c, p)
  {
    if Verdict(c, p).skipped then Skipped
    else if Passed(b, p) && !Verdict(c, p).pass then Broke
    else if !Passed(b, p) && Verdict(c, p).pass then Fixed
    else Same
  }

  /** A failing baseline pair of a repo the candidate still has, without the convention. */
  predicate Vanished(b: Baseline, c: Report, p: Key) {
    InBase(b, p) && !b[p.0][p.1].pass && p.0 in c.repos && p.1 !in c.repos[p.0].conventions
  }

  ghost function CandidatePairs(c: Report): set<Key> {
    set r, v | r in c.repos && v in c.repos[r].conventions :: (r, v)
  }

  ghost function OfClass(b: Baseline, c: Report, done: set<Key>, k: Class): set<Key> {
    set p | p in done && InCandidate(c, p) && ClassOf(b, c, p) == k
  }

  ghost function KeyOf(e: DiffEntry): Key {
    (e.repo, e.convention)
  }

  ghost predicate KeysApart(entries: seq<DiffEntry>) {
    forall i, j :: 0 <= i < j < |entries| ==> KeyOf(entries[i]) != KeyOf(entries[j])
  }

  /** The entries are exactly the new failures among these pairs, with the candidate's detail. */
  ghost predicate NewFailuresAre(b: Baseline, c: Report, done: set<Key>, entries: seq<DiffEntry>) {
    && KeysApart(entries)
    && forall e :: e in entries <==>
        KeyOf(e) in OfClass(b, c, done, Broke) && e.detail == Verdict(c, KeyOf(e)).detail
  }

  /** The entries are exactly the fixed pairs and the vanished failures among these, without detail. */
  ghost predicate ResolvedAre(b: Baseline, c: Report, done: set<Key>, gone: set<Key>, entries: seq<DiffEntry>) {
    && KeysApart(entries)
    && forall e :: e in entries <==>
        e.detail == "" && (KeyOf(e) in OfClass(b, c, done, Fixed) || (KeyOf(e) in gone && Vanished(b, c, KeyOf(e))))
  }

  predicate EntryLe(x: DiffEntry, y: DiffEntry) {
    PairLe(x.convention, x.repo, y.convention, y.repo)
  }

  lemma EntryLeIsPreorder()
    ensures Preorder(EntryLe)
    ensures forall x, y :: EntryLe(x, y) && EntryLe(y, x) ==> KeyOf(x) == KeyOf(y)
  {
    hide PairLe;
    forall x: DiffEntry, y: DiffEntry ensures EntryLe(x, y) || EntryLe(y, x) {
      PairLeLaws(x.convention, x.repo, y.convention, y.repo, "", "");
    }
    forall x, y | EntryLe(x, y) && EntryLe(y, x) ensures KeyOf(x) == KeyOf(y) {
      PairLeLaws(x.convention, x.repo, y.convention, y.repo, "", "");
    }
    forall x, y, z | EntryLe(x, y) && EntryLe(y, z) ensures EntryLe(x, z) {
      PairLeLaws(x.convention, x.repo, y.convention, y.repo, z.convention, z.repo);
    }
  }

  ghost function BasePairs(b: Baseline): set<Key> {
    set r, v | r in b && v in b[r] :: (r, v)
  }

  /** The difference as the two reports alone determine it. */
  ghost predicate IsDiff(b: Baseline, c: Report, d: Diff) {
    && NewFailuresAre(b, c, CandidatePairs(c), d.newFailures) && Ordered(d.newFailures, EntryLe)
    && ResolvedAre(b, c, CandidatePairs(c), BasePairs(b), d.resolved) && Ordered(d.resolved, EntryLe)
    && d.same == |OfClass(b, c, CandidatePairs(c), Same)|
    && d.skipped == |OfClass(b, c, CandidatePairs(c), Skipped)|
  }

  // ---- The routine ----

  /** What has been collected once these candidate pairs have been compared. */
  ghost predicate Tallied(b: Baseline, c: Report, done: set<Key>, d: Diff) {
    && NewFailuresAre(b, c, done, d.newFailures)
    && ResolvedAre(b, c, done, {}, d.resolved)
    && d.same == |OfClass(b, c, done, Same)|
    && d.skipped == |OfClass(b, c, done, Skipped)|
  }

  /** The orders in which a nested map happens to be iterated: the outer one, and for each outer key the inner one. */
  datatype Order = Order(outer: seq<string>, inner: string -> seq<string>)

  ghost predicate IteratesCandidate(o: Order, c: Report) {
    Enumerates(o.outer, c.repos.Keys) && forall r :: r in c.repos ==> Enumerates(o.inner(r), c.repos[r].conventions.Keys)
  }

  ghost predicate IteratesBaseline(o: Order, b: Baseline) {
    Enumerates(o.outer, b.Keys) && forall r :: r in b ==> Enumerates(o.inner(r), b[r].Keys)
  }

  lemma ClassAdd(b: Baseline, c: Report, done: set<Key>, p: Key, k: Class)
    requires InCandidate(c, p) && p !in done
    ensures OfClass(b, c, done + {p}, k) == OfClass(b, c, done, k) + if ClassOf(b, c, p) == k then {p} else {}
    ensures p !in OfClass(b, c, done, k)
    ensures |OfClass(b, c, done + {p}, k)| == |OfClass(b, c, done, k)| + if ClassOf(b, c, p) == k then 1 else 0
  {
    hide ClassOf, InCandidate;
    var was, now := OfClass(b, c, done, k), OfClass(b, c, done + {p}, k);
    var more := if ClassOf(b, c, p) == k then {p} else {};
    assert now == was + more && was !! more;
  }

  method CompareOne(b: Baseline, c: Report, repo: string, convention: string, d: Diff, ghost done: set<Key>) returns (after: Diff)
    requires InCandidate(c, (repo, convention)) && (repo, convention) !in done && Tallied(b, c, done, d)
    ensures Tallied(b, c, done + {(repo, convention)}, after)
  {
    hide Tallied;
    var conv := c.repos[repo].conventions[convention];
    ghost var p := (repo, convention);
    after := d;
    if conv.skipped {
      after := d.(skipped := d.skipped + 1);
    } else {
      var baselinePass, baselineExists := false, false;
      if repo in b {
        if convention in b[repo] {
          baselinePass, baselineExists := b[repo][convention].pass, true;
        }
      }
      if !baselineExists {
        baselinePass := true;
      }
      if baselinePass && !conv.pass {
        after := d.(newFailures := d.newFailures + [DiffEntry(repo, convention, conv.detail)]);
      } else if !baselinePass && conv.pass {
        after := d.(resolved := d.resolved + [DiffEntry(repo, convention, "")]);
      } else {
        after := d.(same := d.same + 1);
      }
    }
    TallyOne(b, c, done, p, d, after);
  }

  /** How one comparison changes the collected difference. */
  function Counted(b: Baseline, c: Report, p: Key, d: Diff): Diff
    requires InCandidate(c, p)
  {
    match ClassOf(b, c, p)
    case Skipped => d.(skipped := d.skipped + 1)
    case Broke => d.(newFailures := d.newFailures + [DiffEntry(p.0, p.1, Verdict(c, p).detail)])
    case Fixed => d.(resolved := d.resolved + [DiffEntry(p.0, p.1, "")])
    case Same => d.(same := d.same + 1)
  }

  lemma TallyOne(b: Baseline, c: Report, done: set<Key>, p: Key, d: Diff, after: Diff)
    requires InCandidate(c, p) && p !in done && Tallied(b, c, done, d) && after == Counted(b, c, p, d)
    ensures Tallied(b, c, done + {p}, after)
  {
    hide NewFailuresAre, ResolvedAre, ClassOf, OfClass;
    ClassAdd(b, c, done, p, Same);
    ClassAdd(b, c, done, p, Skipped);
    TallyNew(b, c, done, p, d);
    TallyFixed(b, c, done, p, d);
  }

  lemma TallyNew(b: Baseline, c: Report, done: set<Key>, p: Key, d: Diff)
    requires InCandidate(c, p) && p !in done && NewFailuresAre(b, c, done, d.newFailures)
    ensures NewFailuresAre(b, c, done + {p}, Counted(b, c, p, d).newFailures)
  {
    hide ClassOf, OfClass;
    ClassAdd(b, c, done, p, Broke);
    forall e | e in d.newFailures ensures KeyOf(e) != p {
    }
  }

  lemma TallyFixed(b: Baseline, c: Report, done: set<Key>, p: Key, d: Diff)
    requires InCandidate(c, p) && p !in done && ResolvedAre(b, c, done, {}, d.resolved)
    ensures ResolvedAre(b, c, done + {p}, {}, Counted(b, c, p, d).resolved)
  {
    hide ClassOf, OfClass, Vanished;
    ClassAdd(b, c, done, p, Fixed);
    forall e | e in d.resolved ensures KeyOf(e) != p {
    }
  }

  ghost function PairsOf(repo: string, conventions: seq<string>): set<Key> {
    set v | v in conventions :: (repo, v)
  }

  method CompareRepo(b: Baseline, c: Report, repo: string, order: seq<string>, d: Diff, ghost done: set<Key>) returns (after: Diff)
    requires repo in c.repos && Enumerates(order, c.repos[repo].conventions.Keys)
    requires forall v :: (repo, v) !in done
    requires Tallied(b, c, done, d)
    ensures Tallied(b, c, done + PairsOf(repo, order), after)
  {
    hide Tallied;
    after := d;
    assert done + PairsOf(repo, order[..0]) == done;
    for i := 0 to |order|
      invariant Tallied(b, c, done + PairsOf(repo, order[..i]), after)
    {
      assert order[..i + 1] == order[..i] + [order[i]];
      assert done + PairsOf(repo, order[..i + 1]) == done + PairsOf(repo, order[..i]) + {(repo, order[i])};
      after := CompareOne(b, c, repo, order[i], after, done + PairsOf(repo, order[..i]));
    }
    assert order[..|order|] == order;
  }

  ghost function PairsIn(o: Order, repos: seq<string>): set<Key> {
    set r, v | r in repos && v in o.inner(r) :: (r, v)
  }

  method CompareCandidate(b: Baseline, c: Report, o: Order) returns (d: Diff)
    requires IteratesCandidate(o, c)
    ensures Tallied(b, c, CandidatePairs(c), d)
  {
    hide Tallied;
    d := Diff([], [], 0, 0);
    NothingTallied(b, c, o);
    for i := 0 to |o.outer|
      invariant Tallied(b, c, PairsIn(o, o.outer[..i]), d)
    {
      var repo := o.outer[i];
      assert o.outer[..i + 1] == o.outer[..i] + [repo];
      assert PairsIn(o, o.outer[..i + 1]) == PairsIn(o, o.outer[..i]) + PairsOf(repo, o.inner(repo));
      d := CompareRepo(b, c, repo, o.inner(repo), d, PairsIn(o, o.outer[..i]));
    }
    assert o.outer[..|o.outer|] == o.outer;
    assert PairsIn(o, o.outer) == CandidatePairs(c);
  }

  lemma NothingTallied(b: Baseline, c: Report, o: Order)
    ensures Tallied(b, c, PairsIn(o, o.outer[..0]), Diff([], [], 0, 0))
  {
    assert PairsIn(o, o.outer[..0]) == {};
    assert OfClass(b, c, {}, Same) == {} && OfClass(b, c, {}, Skipped) == {};
  }

  method AddVanished(b: Baseline, c: Report, repo: string, order: seq<string>, entries: seq<DiffEntry>, ghost done: set<Key>)
    returns (after: seq<DiffEntry>)
    requires repo in b && Enumerates(order, b[repo].Keys)
    requires forall v :: (repo, v) !in done
    requires ResolvedAre(b, c, CandidatePairs(c), done, entries)
    ensures ResolvedAre(b, c, CandidatePairs(c), done + PairsOf(repo, order), after)
  {
    hide ResolvedAre;
    after := entries;
    assert done + PairsOf(repo, order[..0]) == done;
    for i := 0 to |order|
      invariant ResolvedAre(b, c, CandidatePairs(c), done + PairsOf(repo, order[..i]), after)
    {
      var convention := order[i];
      ghost var before := done + PairsOf(repo, order[..i]);
      assert order[..i + 1] == order[..i] + [convention];
      assert done + PairsOf(repo, order[..i + 1]) == before + {(repo, convention)};
      AddGone(b, c, before, (repo, convention), after);
      if repo in c.repos && convention !in c.repos[repo].conventions && !b[repo][convention].pass {
        after := after + [DiffEntry(repo, convention, "")];
      }
    }
    assert order[..|order|] == order;
  }

  lemma AddGone(b: Baseline, c: Report, gone: set<Key>, p: Key, entries: seq<DiffEntry>)
    requires p !in gone && ResolvedAre(b, c, CandidatePairs(c), gone, entries)
    ensures ResolvedAre(b, c, CandidatePairs(c), gone + {p},
      if Vanished(b, c, p) then entries + [DiffEntry(p.0, p.1, "")] else entries)
  {
    hide ClassOf;
    if Vanished(b, c, p) {
      assert p !in OfClass(b, c, CandidatePairs(c), Fixed);
      forall e | e in entries ensures KeyOf(e) != p {
      }
    }
  }

  /** Compare the baseline with the candidate; each map is iterated in some order of its own. */
  method ComputeAuditDiff(b: Baseline, c: Report, co: Order, bo: Order) returns (d: Diff)
    requires IteratesCandidate(co, c) && IteratesBaseline(bo, b)
    ensures IsDiff(b, c, d)
  {
    hide NewFailuresAre, ResolvedAre, EntryLe, OfClass;
    d := CompareCandidate(b, c, co);
    var resolved := d.resolved;
    assert PairsIn(bo, bo.outer[..0]) == {};
    for i := 0 to |bo.outer|
      invariant ResolvedAre(b, c, CandidatePairs(c), PairsIn(bo, bo.outer[..i]), resolved)
    {
      var repo := bo.outer[i];
      assert bo.outer[..i + 1] == bo.outer[..i] + [repo];
      assert PairsIn(bo, bo.outer[..i + 1]) == PairsIn(bo, bo.outer[..i]) + PairsOf(repo, bo.inner(repo));
      resolved := AddVanished(b, c, repo, bo.inner(repo), resolved, PairsIn(bo, bo.outer[..i]));
    }
    assert bo.outer[..|bo.outer|] == bo.outer;
    assert PairsIn(bo, bo.outer) == BasePairs(b);
    EntryLeIsPreorder();
    var sortedNew := SortSlice(d.newFailures, EntryLe);
    var sortedResolved := SortSlice(resolved, EntryLe);
    SortedNew(b, c, d.newFailures, sortedNew);
    SortedResolved(b, c, resolved, sortedResolved);
    d := Diff(sortedNew, sortedResolved, d.same, d.skipped);
  }

  lemma SortedKeysApart(a: seq<DiffEntry>, sorted: seq<DiffEntry>)
    requires multiset(a) == multiset(sorted) && KeysApart(a)
    ensures KeysApart(sorted) && forall e :: e in sorted <==> e in a
  {
    hide KeyOf;
    SameElements(a, sorted);
    NoRepeats(a);
    NoRepeats(sorted);
    forall i, j | 0 <= i < j < |sorted| ensures KeyOf(sorted[i]) != KeyOf(sorted[j]) {
      assert sorted[i] in a && sorted[j] in a && sorted[i] != sorted[j];
    }
  }

  lemma SortedNew(b: Baseline, c: Report, a: seq<DiffEntry>, sorted: seq<DiffEntry>)
    requires NewFailuresAre(b, c, CandidatePairs(c), a) && multiset(sorted) == multiset(a)
    ensures NewFailuresAre(b, c, CandidatePairs(c), sorted)
  {
    hide OfClass, KeysApart;
    SortedKeysApart(a, sorted);
  }

  lemma SortedResolved(b: Baseline, c: Report, a: seq<DiffEntry>, sorted: seq<DiffEntry>)
    requires ResolvedAre(b, c, CandidatePairs(c), BasePairs(b), a) && multiset(sorted) == multiset(a)
    ensures ResolvedAre(b, c, CandidatePairs(c), BasePairs(b), sorted)
  {
    hide OfClass, KeysApart;
    SortedKeysApart(a, sorted);
  }

  // ---- Canonical ----

  lemma EntriesAreDetermined(a: seq<DiffEntry>, a': seq<DiffEntry>)
    requires KeysApart(a) && KeysApart(a') && Ordered(a, EntryLe) && Ordered(a', EntryLe)
    requires forall e :: e in a <==> e in a'
    ensures a == a'
  {
    hide EntryLe;
    EntryLeIsPreorder();
    SameSets(a, a');
    forall x, y | x in a && y in a && EntryLe(x, y) && EntryLe(y, x) ensures x == y {
      var i :| 0 <= i < |a| && a[i] == x;
      var j :| 0 <= j < |a| && a[j] == y;
      assert KeyOf(a[i]) == KeyOf(a[j]);
    }
    SortingIsUnique(a, a', EntryLe);
  }

  /** Every iteration order gives the identical difference. */
  lemma DiffIsCanonical(b: Baseline, c: Report, d: Diff, d': Diff)
    requires IsDiff(b, c, d) && IsDiff(b, c, d')
    ensures d == d'
  {
    hide KeysApart, OfClass, EntryLe;
    EntriesAreDetermined(d.newFailures, d'.newFailures);
    EntriesAreDetermined(d.resolved, d'.resolved);
  }

  // ---- Conservative ----

  lemma SumOfClasses(b: Baseline, c: Report, done: set<Key>)
    requires forall p :: p in done ==> InCandidate(c, p)
    ensures |done| == |OfClass(b, c, done, Skipped)| + |OfClass(b, c, done, Broke)|
      + |OfClass(b, c, done, Fixed)| + |OfClass(b, c, done, Same)|
  {
    hide ClassOf, InCandidate;
    var s, k, f, u := OfClass(b, c, done, Skipped), OfClass(b, c, done, Broke), OfClass(b, c, done, Fixed), OfClass(b, c, done, Same);
    forall p | p in done ensures p in s + k + f + u {
      var x := ClassOf(b, c, p);
      assert x == Skipped || x == Broke || x == Fixed || x == Same;
    }
    assert done == s + k + f + u;
    assert s !! k && (s + k) !! f && (s + k + f) !! u;
    hide OfClass;
    FourParts(s, k, f, u);
  }

  lemma FourParts(s: set<Key>, k: set<Key>, f: set<Key>, u: set<Key>)
    requires s !! k && (s + k) !! f && (s + k + f) !! u
    ensures |s + k + f + u| == |s| + |k| + |f| + |u|
  {
  }

  lemma {:induction false} KeysCount(entries: seq<DiffEntry>)
    requires KeysApart(entries)
    ensures |set e | e in entries :: KeyOf(e)| == |entries|
  {
    if entries != [] {
      var tail := entries[1..];
      forall i, j | 0 <= i < j < |tail| ensures KeyOf(tail[i]) != KeyOf(tail[j]) {
        assert tail[i] == entries[i + 1] && tail[j] == entries[j + 1];
      }
      KeysCount(tail);
      var keys, rest := set e | e in entries :: KeyOf(e), set e | e in tail :: KeyOf(e);
      assert entries == [entries[0]] + tail;
      assert keys == rest + {KeyOf(entries[0])};
      assert KeyOf(entries[0]) !in rest;
    }
  }

  /** The resolved entries that are still checked in the candidate. */
  ghost function StillChecked(c: Report, d: Diff): set<Key> {
    set e | e in d.resolved && InCandidate(c, KeyOf(e)) :: KeyOf(e)
  }

  /** Every candidate entry is counted exactly once: new failure, resolved, unchanged or skipped. */
  lemma EveryEntryCountedOnce(b: Baseline, c: Report, d: Diff)
    requires IsDiff(b, c, d)
    ensures |d.newFailures| + |StillChecked(c, d)| + d.same + d.skipped == |CandidatePairs(c)|
  {
    hide ClassOf, EntryLe, KeysApart;
    var all := CandidatePairs(c);
    SumOfClasses(b, c, all);
    KeysCount(d.newFailures);
    forall p | p in OfClass(b, c, all, Broke) ensures p in set e | e in d.newFailures :: KeyOf(e) {
      assert DiffEntry(p.0, p.1, Verdict(c, p).detail) in d.newFailures;
    }
    assert (set e | e in d.newFailures :: KeyOf(e)) == OfClass(b, c, all, Broke);
    forall p | p in OfClass(b, c, all, Fixed) ensures p in StillChecked(c, d) {
      assert DiffEntry(p.0, p.1, "") in d.resolved;
    }
    assert StillChecked(c, d) == OfClass(b, c, all, Fixed);
  }

  ghost predicate Mentions(entries: seq<DiffEntry>, p: Key) {
    exists e :: e in entries && KeyOf(e) == p
  }

  /** The baseline with the difference replayed on it. */
  ghost predicate Replayed(b: Baseline, d: Diff, p: Key) {
    if Mentions(d.newFailures, p) then false
    else if Mentions(d.resolved, p) then true
    else Passed(b, p)
  }

  /** Replaying the difference gives back the candidate's verdict on every pair it did not skip, and
      leaves the baseline's on every pair it skipped. */
  lemma ReplayGivesCandidate(b: Baseline, c: Report, d: Diff, p: Key)
    requires IsDiff(b, c, d) && InCandidate(c, p)
    ensures Replayed(b, d, p) <==> if Verdict(c, p).skipped then Passed(b, p) else Verdict(c, p).pass
  {
    hide EntryLe, KeysApart;
    var all := CandidatePairs(c);
    assert p in all;
    assert ClassOf(b, c, p) == Broke ==> DiffEntry(p.0, p.1, Verdict(c, p).detail) in d.newFailures;
    assert ClassOf(b, c, p) == Fixed ==> DiffEntry(p.0, p.1, "") in d.resolved;
    assert Mentions(d.newFailures, p) <==> ClassOf(b, c, p) == Broke;
    assert Mentions(d.resolved, p) <==> ClassOf(b, c, p) == Fixed;
  }

  /** A repo the candidate does not have is not mentioned, failing or not. */
  lemma AbsentRepoIsNotMentioned(b: Baseline, c: Report, d: Diff, p: Key)
    requires IsDiff(b, c, d) && p.0 !in c.repos
    ensures !Mentions(d.newFailures, p) && !Mentions(d.resolved, p)
  {
    hide EntryLe, KeysApart, ClassOf;
  }

  // ---- The difference, in the fields of both reports ----

  /** The baseline records a failure of this check. */
  predicate WasFailing(b: Baseline, repo: string, convention: string) {
    repo in b && convention in b[repo] && !b[repo][convention].pass
  }

  /** New failures are exactly the candidate's failing entries that the baseline does not record as failing,
      with the candidate's detail; resolved are exactly the baseline's failures whose repo the candidate still
      has and whose check passes there or is gone; skipped entries are neither. */
  lemma DiffExactly(b: Baseline, c: Report, d: Diff, e: DiffEntry)
    requires IsDiff(b, c, d)
    ensures e in d.newFailures <==>
      && e.repo in c.repos && e.convention in c.repos[e.repo].conventions
      && (var cs := c.repos[e.repo].conventions[e.convention]; !cs.skipped && !cs.pass && e.detail == cs.detail)
      && !WasFailing(b, e.repo, e.convention)
    ensures e in d.resolved <==>
      && e.detail == "" && WasFailing(b, e.repo, e.convention) && e.repo in c.repos
      && (e.convention in c.repos[e.repo].conventions ==>
            var cs := c.repos[e.repo].conventions[e.convention]; !cs.skipped && cs.pass)
  {
    hide Ordered, EntryLe;
    assert KeyOf(e) in CandidatePairs(c) <==> InCandidate(c, KeyOf(e));
    assert KeyOf(e) in BasePairs(b) <==> InBase(b, KeyOf(e));
  }

  /** Unchanged are the entries with the baseline's verdict, an absent one counting as passing; skipped are
      counted apart. */
  lemma CountsExactly(b: Baseline, c: Report, d: Diff)
    requires IsDiff(b, c, d)
    ensures d.same == |set r, v | r in c.repos && v in c.repos[r].conventions && !c.repos[r].conventions[v].skipped
      && (c.repos[r].conventions[v].pass <==> !WasFailing(b, r, v)) :: (r, v)|
    ensures d.skipped == |set r, v | r in c.repos && v in c.repos[r].conventions && c.repos[r].conventions[v].skipped :: (r, v)|
  {
    hide NewFailuresAre, ResolvedAre, EntryLe, Ordered;
    var same := set r, v | r in c.repos && v in c.repos[r].conventions && !c.repos[r].conventions[v].skipped
      && (c.repos[r].conventions[v].pass <==> !WasFailing(b, r, v)) :: (r, v);
    var skipped := set r, v | r in c.repos && v in c.repos[r].conventions && c.repos[r].conventions[v].skipped :: (r, v);
    assert same == OfClass(b, c, CandidatePairs(c), Same);
    assert skipped == OfClass(b, c, CandidatePairs(c), Skipped);
  }

  /** Both lists are sorted by convention and then by repo, and name no check twice. */
  lemma DiffOrder(b: Baseline, c: Report, d: Diff, i: nat, j: nat)
    requires IsDiff(b, c, d) && i < j
    ensures j < |d.newFailures| ==> InOrder(d.newFailures[i], d.newFailures[j])
    ensures j < |d.resolved| ==> InOrder(d.resolved[i], d.resolved[j])
  {
    hide StrLe;
  }

  ghost predicate InOrder(x: DiffEntry, y: DiffEntry) {
    && (x.repo, x.convention) != (y.repo, y.convention)
    && if x.convention == y.convention then StrLe(x.repo, y.repo) else StrLe(x.convention, y.convention)
  }
}
