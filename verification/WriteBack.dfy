/** Committing the generated artifacts to the output repo through the contents API. */
module WriteBack {
  import opened C4Determinism
  import opened C4Mermaid
  import opened C4Model
  import opened C4Report
  import opened Wrappers

  /** One API call: answered, refused before it took effect, or applied with its reply lost. */
  datatype Fate = Good | Refused | Lost

  /** The output repo's files, and how many calls have been made, PUTs among them. */
  datatype Repo = Repo(files: map<string, string>, calls: nat, puts: nat)

  /** What the outside world decides: the fate of the n-th call, what other writers commit just
      before it, and the SHA of a file's content. */
  datatype World = World(fate: nat -> Fate, rivals: nat -> map<string, string>, sha: string -> string)

  function Before(r: Repo, w: World): map<string, string> {
    r.files + w.rivals(r.calls)
  }

  function FetchStep(r: Repo, w: World): Repo {
    Repo(Before(r, w), r.calls + 1, r.puts)
  }

  /** None when the call failed; otherwise the file, itself None when it does not exist. */
  function Fetched(r: Repo, w: World, path: string): Option<Option<string>> {
    if !w.fate(r.calls).Good? then None
    else if path in Before(r, w) then Some(Some(Before(r, w)[path]))
    else Some(None)
  }

  function ShaOf(w: World, file: Option<string>): string {
    match file
    case Some(content) => w.sha(content)
    case None => ""
  }

  /** The API takes a PUT only with the SHA of the file as it is now, or none for a new file. */
  predicate Accepts(r: Repo, w: World, path: string, sha: string) {
    !w.fate(r.calls).Refused? && if path in Before(r, w) then w.sha(Before(r, w)[path]) == sha else sha == ""
  }

  function PutStep(r: Repo, w: World, a: Artifact, sha: string): Repo {
    Repo(if Accepts(r, w, a.path, sha) then Before(r, w)[a.path := a.content] else Before(r, w), r.calls + 1, r.puts + 1)
  }

  predicate PutFails(r: Repo, w: World, a: Artifact, sha: string) {
    !Accepts(r, w, a.path, sha) || w.fate(r.calls).Lost?
  }

  function CommitOne(r: Repo, w: World, a: Artifact): (out: (Repo, bool)) {
    var read := FetchStep(r, w);
    match Fetched(r, w, a.path)
    case None => (read, false)
    case Some(file) =>
      if file == Some(a.content) then (read, true)
      else (PutStep(read, w, a, ShaOf(w, file)), !PutFails(read, w, a, ShaOf(w, file)))
  }

  /** Commit each artifact; the paths that failed are the joined error. */
  function CommitAll(r: Repo, w: World, artifacts: seq<Artifact>): (Repo, seq<string>)
    decreases |artifacts|
  {
    if artifacts == [] then (r, [])
    else
      var (next, ok) := CommitOne(r, w, artifacts[0]);
      var (last, failed) := CommitAll(next, w, artifacts[1..]);
      (last, (if ok then [] else [artifacts[0].path]) + failed)
  }

  class ContentsApi {
    var files: map<string, string>
    var calls: nat
    var puts: nat
    const world: World

    constructor (files: map<string, string>, world: World)
      ensures View() == Repo(files, 0, 0) && this.world == world
    {
      this.files, this.calls, this.puts, this.world := files, 0, 0, world;
    }

    function View(): Repo
      reads this
    {
      Repo(files, calls, puts)
    }

    method Fetch(path: string) returns (result: Option<Option<string>>)
      modifies this
      ensures View() == FetchStep(old(View()), world)
      ensures result == Fetched(old(View()), world, path)
    {
      files := files + world.rivals(calls);
      result := if !world.fate(calls).Good? then None else if path in files then Some(Some(files[path])) else Some(None);
      calls := calls + 1;
    }

    method Put(a: Artifact, sha: string) returns (failed: bool)
      modifies this
      ensures View() == PutStep(old(View()), world, a, sha)
      ensures failed <==> PutFails(old(View()), world, a, sha)
    {
      files := files + world.rivals(calls);
      var fate := world.fate(calls);
      var matches := if a.path in files then world.sha(files[a.path]) == sha else sha == "";
      failed := fate.Refused? || !matches || fate.Lost?;
      if !fate.Refused? && matches {
        files := files[a.path := a.content];
      }
      calls, puts := calls + 1, puts + 1;
    }

    method Commit(artifacts: seq<Artifact>) returns (failed: seq<string>)
      modifies this
      ensures View() == CommitAll(old(View()), world, artifacts).0
      ensures failed == CommitAll(old(View()), world, artifacts).1
    {
      hide FetchStep, Fetched, PutStep, PutFails, CommitOne;
      failed := [];
      ghost var all := CommitAll(View(), world, artifacts);
      for i := 0 to |artifacts|
        invariant all.0 == CommitAll(View(), world, artifacts[i..]).0
        invariant all.1 == failed + CommitAll(View(), world, artifacts[i..]).1
      {
        assert artifacts[i..][1..] == artifacts[i + 1..];
        var ok := CommitFile(artifacts[i]);
        if !ok {
          failed := failed + [artifacts[i].path];
        }
      }
      assert artifacts[|artifacts|..] == [];
    }

    method CommitFile(a: Artifact) returns (ok: bool)
      modifies this
      ensures (View(), ok) == CommitOne(old(View()), world, a)
    {
      hide FetchStep, Fetched, PutStep, PutFails;
      var current := Fetch(a.path);
      if current.None? {
        return false;
      }
      if current.value == Some(a.content) {
        return true;
      }
      var sha := match current.value case Some(content) => world.sha(content) case None => "";
      var failed := Put(a, sha);
      ok := !failed;
    }
  }

  // ---- What a commit guarantees ----

  /** A PUT that takes effect replaces the very version that was read, whatever others commit in between. */
  lemma OnlyTheReadVersionIsReplaced(r: Repo, w: World, a: Artifact)
    requires forall c :: w.sha(c) != ""
    ensures var read := FetchStep(r, w);
      var (after, ok) := CommitOne(r, w, a);
      after.puts > r.puts && after.files != Before(read, w) ==>
        Fetched(r, w, a.path).Some? &&
        match Fetched(r, w, a.path).value
        case Some(content) => a.path in Before(read, w) && w.sha(Before(read, w)[a.path]) == w.sha(content)
        case None => a.path !in Before(read, w)
  {
  }

  /** Whatever others commit in between: success means the file holds the text, and every other file is
      as those others left it. */
  lemma SuccessHoldsText(r: Repo, w: World, a: Artifact, path: string)
    requires path != a.path
    ensures var (after, ok) := CommitOne(r, w, a);
      var others := if after.calls == r.calls + 1 then Before(r, w) else Before(FetchStep(r, w), w);
      && (ok ==> a.path in after.files && after.files[a.path] == a.content)
      && (path in after.files <==> path in others) && (path in others ==> after.files[path] == others[path])
  {
  }

  ghost predicate NoRivals(w: World) {
    forall n :: w.rivals(n) == map[]
  }

  /** One artifact: success means it holds the text, a failure leaves it as it was or, when only the
      reply was lost, updated; nothing else changes; an unchanged file is not written. */
  lemma CommitOneFacts(r: Repo, w: World, a: Artifact)
    requires NoRivals(w)
    ensures var (after, ok) := CommitOne(r, w, a);
      && (ok ==> a.path in after.files && after.files[a.path] == a.content)
      && (after.files == r.files || after.files == r.files[a.path := a.content])
      && (a.path in r.files && r.files[a.path] == a.content ==> after.files == r.files && after.puts == r.puts)
      && (a.path in r.files && r.files[a.path] == a.content ==> (ok <==> w.fate(r.calls).Good?))
      && r.puts <= after.puts <= r.puts + 1
  {
    assert Before(r, w) == r.files;
    var read := FetchStep(r, w);
    assert Before(read, w) == read.files == r.files;
    if a.path in r.files && r.files[a.path] == a.content {
      assert r.files[a.path := a.content] == r.files;
    }
  }

  /** One artifact, call by call, when nobody else writes: it succeeds exactly if the read is answered and the
      file is as it should be or its PUT is answered too; the PUT takes effect unless it is refused; and it is
      made exactly after a read that found another text or none. */
  lemma CommitOneExactly(r: Repo, w: World, a: Artifact)
    requires NoRivals(w)
    ensures var (after, ok) := CommitOne(r, w, a);
      var equal, read, put := a.path in r.files && r.files[a.path] == a.content, w.fate(r.calls), w.fate(r.calls + 1);
      && (ok <==> read.Good? && (equal || put.Good?))
      && after.files == (if read.Good? && !equal && !put.Refused? then r.files[a.path := a.content] else r.files)
      && after.puts == r.puts + if read.Good? && !equal then 1 else 0
  {
    assert Before(r, w) == r.files;
    var next := FetchStep(r, w);
    assert Before(next, w) == next.files == r.files;
  }

  ghost predicate Holds(files: map<string, string>, artifacts: seq<Artifact>) {
    forall a :: a in artifacts ==> a.path in files && files[a.path] == a.content
  }

  /** No error is returned only if every artifact holds its generated text; and the paths reported as
      failed are exactly those that need not. */
  lemma {:induction false} NilMeansCommitted(r: Repo, w: World, artifacts: seq<Artifact>)
    requires NoRivals(w) && PathsApart(artifacts)
    ensures var (after, failed) := CommitAll(r, w, artifacts);
      && (forall a :: a in artifacts && a.path !in failed ==> a.path in after.files && after.files[a.path] == a.content)
      && (failed == [] ==> Holds(after.files, artifacts))
      && (forall p :: p in failed ==> exists a :: a in artifacts && a.path == p)
      && (forall p :: (forall a :: a in artifacts ==> a.path != p) ==>
          (p in after.files <==> p in r.files) && (p in r.files ==> after.files[p] == r.files[p]))
    decreases |artifacts|
  {
    hide CommitOne, NoRivals;
    if artifacts != [] {
      CommitOneFacts(r, w, artifacts[0]);
      var next := CommitOne(r, w, artifacts[0]).0;
      TailApart(artifacts);
      NilMeansCommitted(next, w, artifacts[1..]);
      assert artifacts == [artifacts[0]] + artifacts[1..];
      hide PathsApart;
    }
  }

  lemma TailApart(artifacts: seq<Artifact>)
    requires artifacts != [] && PathsApart(artifacts)
    ensures PathsApart(artifacts[1..]) && forall a :: a in artifacts[1..] ==> a.path != artifacts[0].path
  {
    forall a | a in artifacts[1..] ensures a.path != artifacts[0].path {
      var i :| 0 <= i < |artifacts[1..]| && artifacts[1..][i] == a;
      assert artifacts[i + 1] == a;
    }
  }

  /** When the repo already holds every text, nothing is written, whatever calls fail; and no error
      is returned exactly when every read succeeds. */
  lemma {:induction false} NothingToCommit(r: Repo, w: World, artifacts: seq<Artifact>)
    requires NoRivals(w) && Holds(r.files, artifacts)
    ensures var (after, failed) := CommitAll(r, w, artifacts);
      && after.files == r.files && after.puts == r.puts && after.calls == r.calls + |artifacts|
      && (failed == [] <==> forall n :: r.calls <= n < r.calls + |artifacts| ==> w.fate(n).Good?)
    decreases |artifacts|
  {
    hide CommitOne;
    if artifacts != [] {
      var a := artifacts[0];
      CommitOneFacts(r, w, a);
      HeldIsOneCall(r, w, a);
      var next := CommitOne(r, w, a).0;
      assert artifacts == [a] + artifacts[1..];
      NothingToCommit(next, w, artifacts[1..]);
      assert next.calls + |artifacts[1..]| == r.calls + |artifacts|;
    }
  }

  lemma HeldIsOneCall(r: Repo, w: World, a: Artifact)
    requires NoRivals(w) && a.path in r.files && r.files[a.path] == a.content
    ensures CommitOne(r, w, a).0.calls == r.calls + 1
  {
    assert Before(r, w) == r.files;
  }

  /** A commit whose replies were lost is still in place: the next run with the same texts finds
      every artifact it wrote and writes none of those again. */
  lemma LostReplyHeals(r: Repo, w: World, a: Artifact)
    requires NoRivals(w)
    requires w.fate(r.calls).Good? && w.fate(r.calls + 1).Lost?
    ensures var (after, _) := CommitOne(r, w, a); CommitOne(after, w, a).0.puts == after.puts
  {
    assert Before(r, w) == r.files;
    var read := FetchStep(r, w);
    assert Before(read, w) == read.files;
    var after := CommitOne(r, w, a).0;
    assert a.path in after.files && after.files[a.path] == a.content;
    CommitOneFacts(after, w, a);
  }

  /** A second run over the same unambiguous sources, however each run iterates its maps and sets, writes
      nothing after a run that returned no error. */
  lemma RerunMakesNoPut(s: Estate, m: Model, names: seq<string>, m': Model, names': seq<string>, r: Repo, w: World)
    requires Unambiguous(s) && Assembled(s, m) && Assembled(s, m') && NodesOf(m, names) && NodesOf(m', names')
    requires NoRivals(w)
    requires CommitAll(r, w, Artifacts(m, names)).1 == []
    ensures var first := CommitAll(r, w, Artifacts(m, names)).0;
      var second := CommitAll(first, w, Artifacts(m', names')).0;
      second.puts == first.puts && second.files == first.files
  {
    hide Unambiguous, Assembled, NodesOf, CommitAll, Artifacts;
    ArtifactsAreDetermined(s, m, names, m', names');
    ThreePaths(m, names);
    NilMeansCommitted(r, w, Artifacts(m, names));
    NothingToCommit(CommitAll(r, w, Artifacts(m, names)).0, w, Artifacts(m', names'));
  }
}
