/** At most one sweep at a time, over every interleaving of triggers and sweep bodies, for the audit
    sweeper and for the pull-request sweeper. */
module SingleFlight {
  import opened Wrappers

  // ---- Audit sweeper ----

  /** One lock section: a call of TriggerSweep, or a sweep body recording its outcome. */
  datatype Event = Trigger | Finish(err: Option<string>, at: int)

  /** The guarded fields, and how many sweep bodies have been spawned and not yet recorded. */
  datatype State = State(inProgress: bool, lastErr: Option<string>, completedAt: Option<int>, bodies: nat)

  const INITIAL := State(false, None, None, 0)

  predicate Enabled(s: State, e: Event) {
    e.Finish? ==> s.bodies > 0
  }

  function Next(s: State, e: Event): State
    requires Enabled(s, e)
  {
    match e
    case Trigger => if s.inProgress then s else s.(inProgress := true, bodies := s.bodies + 1)
    case Finish(None, at) => State(false, None, Some(at), s.bodies - 1)
    case Finish(err, _) => s.(inProgress := false, lastErr := err, bodies := s.bodies - 1)
  }

  /** A run, newest event last, in which every step was possible. */
  ghost predicate Reaches(events: seq<Event>, s: State) {
    if events == [] then s == INITIAL
    else
      var e := events[|events| - 1];
      exists before :: Reaches(events[..|events| - 1], before) && Enabled(before, e) && s == Next(before, e)
  }

  /** What the latest finished body returned. */
  function LatestOutcome(events: seq<Event>): Option<string> {
    if events == [] then None
    else
      var e := events[|events| - 1];
      if e.Finish? then e.err else LatestOutcome(events[..|events| - 1])
  }

  /** When the latest successful body finished. */
  function LatestSuccess(events: seq<Event>): Option<int> {
    if events == [] then None
    else
      var e := events[|events| - 1];
      if e.Finish? && e.err.None? then Some(e.at) else LatestSuccess(events[..|events| - 1])
  }

  /** In every reachable state at most one body is between trigger and status update, the flag says
      whether there is one, and the status fields are those of the latest outcome and success. */
  lemma {:induction false} SingleFlightAlways(events: seq<Event>, s: State)
    requires Reaches(events, s)
    ensures s.bodies <= 1 && (s.inProgress <==> s.bodies == 1)
    ensures s.lastErr == LatestOutcome(events) && s.completedAt == LatestSuccess(events)
  {
    if events != [] {
      var e := events[|events| - 1];
      var before :| Reaches(events[..|events| - 1], before) && Enabled(before, e) && s == Next(before, e);
      SingleFlightAlways(events[..|events| - 1], before);
    }
  }

  class AuditSweeper {
    var sweepInProgress: bool
    var lastSweepErr: Option<string>
    var lastSweepCompletedAt: Option<int>
    ghost var bodies: nat
    ghost var events: seq<Event>

    ghost function Now(): State reads this {
      State(sweepInProgress, lastSweepErr, lastSweepCompletedAt, bodies)
    }

    ghost predicate Valid() reads this {
      Reaches(events, Now())
    }

    constructor ()
      ensures Valid() && events == []
    {
      sweepInProgress, lastSweepErr, lastSweepCompletedAt := false, None, None;
      bodies, events := 0, [];
    }

    /** True, with one body spawned, exactly if no body was active. */
    method TriggerSweep() returns (started: bool)
      requires Valid()
      modifies this
      ensures Valid() && events == old(events) + [Trigger]
      ensures started <==> old(bodies) == 0
      ensures bodies == 1
      ensures lastSweepErr == old(lastSweepErr) && lastSweepCompletedAt == old(lastSweepCompletedAt)
    {
      SingleFlightAlways(events, Now());
      Extend(events, Now(), Trigger);
      events := events + [Trigger];
      if sweepInProgress { return false; }
      sweepInProgress := true;
      bodies := bodies + 1;
      started := true;
    }

    /** The end of a sweep body: it records the outcome and clears the flag in one lock section. */
    method RecordOutcome(err: Option<string>, now: int)
      requires Valid() && bodies > 0
      modifies this
      ensures Valid() && events == old(events) + [Finish(err, now)]
      ensures bodies == 0 && !sweepInProgress
    {
      SingleFlightAlways(events, Now());
      Extend(events, Now(), Finish(err, now));
      events := events + [Finish(err, now)];
      if err.Some? {
        lastSweepErr := err;
        sweepInProgress := false;
      } else {
        lastSweepCompletedAt := Some(now);
        lastSweepErr := None;
        sweepInProgress := false;
      }
      bodies := bodies - 1;
    }

    method Status() returns (completedAt: Option<int>, lastErr: Option<string>)
      requires Valid()
      ensures completedAt == LatestSuccess(events) && lastErr == LatestOutcome(events)
    {
      SingleFlightAlways(events, Now());
      completedAt, lastErr := lastSweepCompletedAt, lastSweepErr;
    }
  }

  lemma Extend(events: seq<Event>, s: State, e: Event)
    requires Reaches(events, s) && Enabled(s, e)
    ensures Reaches(events + [e], Next(s, e))
  {
    var extended := events + [e];
    assert extended[..|extended| - 1] == events && extended[|extended| - 1] == e;
  }

  // ---- Pull-request sweeper ----

  /** Where a body of the pull-request sweep stands: still fetching, or its data is out. */
  datatype Body = Fetching | Published(data: int)

  datatype PrState = PrState(inProgress: bool, data: Option<int>, bodies: seq<Body>)

  /** `Clear` is the deferred reset of the flag, also after a failed fetch. */
  datatype PrEvent = PrTrigger | Publish(body: nat, data: int) | Clear(body: nat)

  predicate PrEnabled(s: PrState, e: PrEvent) {
    match e
    case PrTrigger => true
    case Publish(b, _) => b < |s.bodies| && s.bodies[b].Fetching?
    case Clear(b) => b < |s.bodies|
  }

  function PrNext(s: PrState, e: PrEvent): PrState
    requires PrEnabled(s, e)
  {
    match e
    case PrTrigger => if s.inProgress then s else s.(inProgress := true, bodies := s.bodies + [Fetching])
    case Publish(b, d) => s.(data := Some(d), bodies := s.bodies[b := Published(d)])
    case Clear(b) => s.(inProgress := false, bodies := s.bodies[..b] + s.bodies[b + 1..])
  }

  ghost predicate PrReaches(events: seq<PrEvent>, s: PrState) {
    if events == [] then s == PrState(false, None, [])
    else
      var e := events[|events| - 1];
      exists before :: PrReaches(events[..|events| - 1], before) && PrEnabled(before, e) && s == PrNext(before, e)
  }

  function LatestPublished(events: seq<PrEvent>): Option<int> {
    if events == [] then None
    else
      var e := events[|events| - 1];
      if e.Publish? then Some(e.data) else LatestPublished(events[..|events| - 1])
  }

  /** At most one body, flagged; the dashboard always shows the latest published data; and while a
      body that has published still holds the flag that data is its own. */
  lemma {:induction false} PrSingleFlightAlways(events: seq<PrEvent>, s: PrState)
    requires PrReaches(events, s)
    ensures |s.bodies| <= 1 && (s.inProgress <==> |s.bodies| == 1)
    ensures s.data == LatestPublished(events)
    ensures forall b :: 0 <= b < |s.bodies| && s.bodies[b].Published? ==> s.data == Some(s.bodies[b].data)
  {
    if events != [] {
      var e := events[|events| - 1];
      var before :| PrReaches(events[..|events| - 1], before) && PrEnabled(before, e) && s == PrNext(before, e);
      PrSingleFlightAlways(events[..|events| - 1], before);
    }
  }

  /** Data before flag: when a body that published clears the flag, what a reader then sees is that
      body's data. */
  lemma PublishedBeforeCleared(events: seq<PrEvent>, s: PrState, b: nat)
    requires PrReaches(events, s) && b < |s.bodies| && s.bodies[b].Published?
    ensures var after := PrNext(s, Clear(b));
            !after.inProgress && after.data == Some(s.bodies[b].data)
  {
    PrSingleFlightAlways(events, s);
  }

  class PrSweeper {
    var data: Option<int>
    var sweepInProgress: bool
    ghost var bodies: seq<Body>
    ghost var events: seq<PrEvent>

    ghost function Now(): PrState reads this {
      PrState(sweepInProgress, data, bodies)
    }

    ghost predicate Valid() reads this {
      PrReaches(events, Now())
    }

    constructor ()
      ensures Valid() && events == []
    {
      data, sweepInProgress, bodies, events := None, false, [], [];
    }

    method TriggerSweep() returns (started: bool)
      requires Valid()
      modifies this
      ensures Valid() && events == old(events) + [PrTrigger]
      ensures started <==> old(bodies) == []
      ensures data == old(data) && |bodies| == 1
    {
      PrSingleFlightAlways(events, Now());
      PrExtend(events, Now(), PrTrigger);
      events := events + [PrTrigger];
      if sweepInProgress { return false; }
      sweepInProgress := true;
      bodies := bodies + [Fetching];
      started := true;
    }

    /** One sweep body; `fetched` is what it fetches, or nothing if the token or a page fails. */
    method RunSweep(fetched: Option<int>)
      requires Valid() && bodies == [Fetching]
      modifies this
      ensures Valid() && bodies == [] && !sweepInProgress
      ensures data == if fetched.Some? then fetched else old(data)
      ensures events == old(events) + (if fetched.Some? then [Publish(0, fetched.value)] else []) + [Clear(0)]
    {
      hide PrReaches;
      if fetched.Some? {
        PrExtend(events, Now(), Publish(0, fetched.value));
        data := fetched;
        bodies := bodies[0 := Published(fetched.value)];
        events := events + [Publish(0, fetched.value)];
      }
      PrExtend(events, Now(), Clear(0));
      assert bodies[..0] + bodies[1..] == [];
      sweepInProgress := false;
      bodies := [];
      events := events + [Clear(0)];
    }

    method Data() returns (d: Option<int>)
      requires Valid()
      ensures d == LatestPublished(events)
    {
      PrSingleFlightAlways(events, Now());
      d := data;
    }
  }

  lemma PrExtend(events: seq<PrEvent>, s: PrState, e: PrEvent)
    requires PrReaches(events, s) && PrEnabled(s, e)
    ensures PrReaches(events + [e], PrNext(s, e))
  {
    var extended := events + [e];
    assert extended[..|extended| - 1] == events && extended[|extended| - 1] == e;
  }
}
