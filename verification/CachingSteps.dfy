/** The caching transport under concurrency: lookup, network call, store and counter update of any
    number of callers are separate steps that interleave freely. */
module CachingSteps {

  /** Where a GET in flight stands. */
  datatype Phase =
    | Asking(url: string)
    | Fetched(url: string, answer: string)
    | Stored(url: string, answer: string)
    | Hit(url: string, answer: string)

  /** `given` holds every complete answer the origin gave, `served` every answer handed to a caller;
      `overwrites` counts the stores onto a URL that another caller had stored in the meantime. */
  datatype State = State(
    cache: map<string, string>,
    hits: nat,
    misses: nat,
    overwrites: nat,
    callers: map<nat, Phase>,
    given: set<(string, string)>,
    served: seq<(string, string)>)

  datatype Step =
    | Lookup(id: nat, url: string)
    | NetReply(id: nat, answer: string)
    | NetFail(id: nat)
    | Store(id: nat)
    | CountMiss(id: nat)
    | CountHit(id: nat)

  const INITIAL := State(map[], 0, 0, 0, map[], {}, [])

  predicate Enabled(s: State, e: Step) {
    match e
    case Lookup(id, _) => id !in s.callers
    case NetReply(id, _) => id in s.callers && s.callers[id].Asking?
    case NetFail(id) => id in s.callers && s.callers[id].Asking?
    case Store(id) => id in s.callers && s.callers[id].Fetched?
    case CountMiss(id) => id in s.callers && s.callers[id].Stored?
    case CountHit(id) => id in s.callers && s.callers[id].Hit?
  }

  function Next(s: State, e: Step): State
    requires Enabled(s, e)
  {
    match e
    case Lookup(id, url) =>
      s.(callers := s.callers[id := if url in s.cache then Hit(url, s.cache[url]) else Asking(url)])
    case NetReply(id, answer) =>
      var url := s.callers[id].url;
      s.(callers := s.callers[id := Fetched(url, answer)], given := s.given + {(url, answer)})
    case NetFail(id) => s.(callers := s.callers - {id})
    case Store(id) =>
      var p := s.callers[id];
      s.(callers := s.callers[id := Stored(p.url, p.answer)], cache := s.cache[p.url := p.answer],
         overwrites := s.overwrites + if p.url in s.cache then 1 else 0)
    case CountMiss(id) =>
      s.(callers := s.callers - {id}, misses := s.misses + 1, served := s.served + [(s.callers[id].url, s.callers[id].answer)])
    case CountHit(id) =>
      s.(callers := s.callers - {id}, hits := s.hits + 1, served := s.served + [(s.callers[id].url, s.callers[id].answer)])
  }

  /** A run of enabled steps from s to t. */
  ghost predicate Runs(s: State, steps: seq<Step>, t: State)
    decreases |steps|
  {
    if steps == [] then s == t
    else Enabled(s, steps[0]) && Runs(Next(s, steps[0]), steps[1..], t)
  }

  ghost function Uncounted(s: State): set<nat> {
    set id | id in s.callers && s.callers[id].Stored?
  }

  /** Everything held or handed out came from the origin. */
  ghost predicate Given(s: State) {
    && (forall url :: url in s.cache ==> (url, s.cache[url]) in s.given)
    && (forall id :: id in s.callers && !s.callers[id].Asking? ==> (s.callers[id].url, s.callers[id].answer) in s.given)
    && (forall i :: 0 <= i < |s.served| ==> s.served[i] in s.given)
  }

  ghost predicate Counted(s: State) {
    && s.hits + s.misses == |s.served|
    && |s.cache| + s.overwrites == s.misses + |Uncounted(s)|
  }

  ghost predicate Invariant(s: State) {
    Given(s) && Counted(s)
  }

  lemma InitialInvariant()
    ensures Invariant(INITIAL)
  {
    assert Uncounted(INITIAL) == {};
  }

  lemma StepKeepsGiven(s: State, e: Step)
    requires Given(s) && Enabled(s, e)
    ensures Given(Next(s, e))
    ensures s.cache.Keys <= Next(s, e).cache.Keys
  {
  }

  lemma StoreGrows(cache: map<string, string>, url: string, answer: string)
    ensures |cache[url := answer]| == |cache| + if url in cache then 0 else 1
  {
    assert cache[url := answer].Keys == cache.Keys + {url};
    assert |cache[url := answer]| == |cache[url := answer].Keys| && |cache| == |cache.Keys|;
  }

  lemma StoreCounted(s: State, id: nat)
    requires Counted(s) && Enabled(s, Store(id))
    ensures Counted(Next(s, Store(id)))
  {
    var t := Next(s, Store(id));
    assert id !in Uncounted(s);
    assert Uncounted(t) == Uncounted(s) + {id};
    StoreGrows(s.cache, s.callers[id].url, s.callers[id].answer);
  }

  lemma CountMissCounted(s: State, id: nat)
    requires Counted(s) && Enabled(s, CountMiss(id))
    ensures Counted(Next(s, CountMiss(id)))
  {
    var t := Next(s, CountMiss(id));
    assert id !in Uncounted(t);
    assert Uncounted(s) == Uncounted(t) + {id};
  }

  lemma StepKeepsCounted(s: State, e: Step)
    requires Counted(s) && Enabled(s, e)
    ensures Counted(Next(s, e))
  {
    if e.Store? {
      StoreCounted(s, e.id);
    } else if e.CountMiss? {
      CountMissCounted(s, e.id);
    } else {
      assert Uncounted(Next(s, e)) == Uncounted(s);
    }
  }

  lemma StepKeepsInvariant(s: State, e: Step)
    requires Invariant(s) && Enabled(s, e)
    ensures Invariant(Next(s, e))
    ensures s.cache.Keys <= Next(s, e).cache.Keys
  {
    hide Given, Counted, Next;
    StepKeepsGiven(s, e);
    StepKeepsCounted(s, e);
  }

  /** Over every interleaving: each answer handed out, from the cache or fresh, is one the origin
      gave for that URL; entries are never removed; hits and misses together count the answers
      handed out; and every store is a cached URL or an overwrite, and a miss or about to be one. */
  lemma {:induction false} EveryAnswerIsTheOrigins(s: State, steps: seq<Step>, t: State)
    requires Invariant(s) && Runs(s, steps, t)
    ensures forall i :: 0 <= i < |t.served| ==> t.served[i] in t.given
    ensures s.cache.Keys <= t.cache.Keys
    ensures t.hits + t.misses == |t.served|
    ensures |t.cache| + t.overwrites == t.misses + |Uncounted(t)|
    ensures Invariant(t)
    decreases |steps|
  {
    hide Next, Enabled;
    if steps != [] {
      StepKeepsInvariant(s, steps[0]);
      EveryAnswerIsTheOrigins(Next(s, steps[0]), steps[1..], t);
    }
  }

  /** A fresh transport's runs. */
  ghost predicate Reaches(steps: seq<Step>, t: State) {
    Runs(INITIAL, steps, t)
  }

  lemma ReachedInvariant(steps: seq<Step>, t: State)
    requires Reaches(steps, t)
    ensures Invariant(t)
  {
    hide Next, Enabled, Given, Counted;
    InitialInvariant();
    EveryAnswerIsTheOrigins(INITIAL, steps, t);
  }

  /** Exactly when Stats() exceeds Misses(): more callers stand between store and count than stores
      were overwrites. With no call in flight it never does, and falls short of it by the overwrites. */
  lemma StatsExceedsExactlyWhen(steps: seq<Step>, t: State)
    requires Reaches(steps, t)
    ensures |t.cache| > t.misses <==> |Uncounted(t)| > t.overwrites
    ensures t.callers == map[] ==> |t.cache| == t.misses - t.overwrites
  {
    hide Next, Enabled, Reaches, Runs, Given;
    ReachedInvariant(steps, t);
    assert t.callers == map[] ==> Uncounted(t) == {};
  }

  /** Between a caller's store and its count, Stats() exceeds Misses(). */
  lemma StatsCanRunAhead(url: string, answer: string)
    ensures exists steps, t :: Reaches(steps, t) && |t.cache| > t.misses
  {
    var s1 := Next(INITIAL, Lookup(0, url));
    var s2 := Next(s1, NetReply(0, answer));
    var s3 := Next(s2, Store(0));
    var steps := [Lookup(0, url), NetReply(0, answer), Store(0)];
    assert steps[1..] == [NetReply(0, answer), Store(0)] && steps[1..][1..] == [Store(0)] && [Store(0)][1..] == [];
    assert Runs(s2, [Store(0)], s3);
    assert Runs(s1, steps[1..], s3);
    assert Reaches(steps, s3);
    assert s3.cache == map[url := answer];
  }

  /** If the origin always gives the same answer for a URL, every answer handed out is that one, as
      without a cache. */
  lemma StableOriginIsTransparent(steps: seq<Step>, t: State, origin: map<string, string>)
    requires Reaches(steps, t)
    requires forall p :: p in t.given ==> p.0 in origin && p.1 == origin[p.0]
    ensures forall i :: 0 <= i < |t.served| ==> t.served[i].0 in origin && t.served[i].1 == origin[t.served[i].0]
  {
    hide Next, Enabled, Reaches, Runs, Counted;
    ReachedInvariant(steps, t);
  }
}
