/**
 The durable watermark of verified finality observations: two files, an in-process
 floor, and an environment that may fail, crash or tamper
 (electron/governanceValidationFeeFinality.ts:268-303, 360-498).
 */
module FinalityStore {
  import opened Bytes

  const MAX_TRUST_SCOPES := 64

  datatype Observation = Observation(height: nat, contextId: string, blockHash: string,
                                     policyVersion: nat, policyHash: string, projectionHash: string)

  type Observations = map<string, Observation>

  /**
   A file is absent, the exact canonical encoding of something well formed, or anything
   else. The marker has only one canonical encoding.
   */
  datatype StateFile = NoState | CanonicalState(observations: Observations) | OtherState

  datatype MarkerFile = NoMarker | CanonicalMarker | OtherMarker

  datatype Disk = Disk(state: StateFile, marker: MarkerFile)

  const EMPTY_DISK := Disk(NoState, NoMarker)

  // ---------------------------------------------------------------- the order of observations

  /** `rejectRegressionOrEquivocation` does not throw. */
  predicate Follows(previous: Observation, current: Observation) {
    && previous.height <= current.height && previous.policyVersion <= current.policyVersion
    && (current.height == previous.height ==>
          current.contextId == previous.contextId && current.blockHash == previous.blockHash
          && current.projectionHash == previous.projectionHash)
    && (current.policyVersion == previous.policyVersion ==> current.policyHash == previous.policyHash)
  }

  /** No regression or equivocation between neighbours means none between any two. */
  lemma FollowsTransitive(a: Observation, b: Observation, c: Observation)
    requires Follows(a, b) && Follows(b, c)
    ensures Follows(a, c)
  {
  }

  /** Every watermark of the first is still covered by the second. */
  ghost predicate Covers(later: Observations, earlier: Observations) {
    forall s :: s in earlier ==> s in later && Follows(earlier[s], later[s])
  }

  lemma CoversTransitive(a: Observations, b: Observations, c: Observations)
    requires Covers(b, a) && Covers(c, b)
    ensures Covers(c, a)
  {
  }

  lemma CoversReflexive(o: Observations)
    ensures Covers(o, o)
  {
  }

  lemma CoversPromotion(o: Observations, scope: string, value: Observation)
    requires scope in o ==> Follows(o[scope], value)
    ensures Covers(o[scope := value], o)
  {
  }

  // ---------------------------------------------------------------- one call

  datatype Memory = Memory(floor: Observations, initialized: bool)

  const FRESH := Memory(map[], false)

  /** Whether each write succeeds, and whether the marker is still seen after a later promotion. */
  datatype Environment = Environment(stateWritten: bool, markerWritten: bool, markerSeen: bool)

  datatype Loaded = LoadRefused | LoadedState(observations: Observations)

  /** `load`; an absent state counts as empty only before anything was initialised. */
  function Load(m: Memory, d: Disk): Loaded {
    if d.state == NoState && d.marker == NoMarker then
      if m.initialized || |m.floor| > 0 then LoadRefused else LoadedState(map[])
    else if d.marker != CanonicalMarker || !d.state.CanonicalState? then LoadRefused
    else if |d.state.observations| == 0 || |d.state.observations| > MAX_TRUST_SCOPES then LoadRefused
    else LoadedState(d.state.observations)
  }

  /** The result of a call, and the disk between its two writes. */
  datatype Result = Result(memory: Memory, disk: Disk, accepted: bool, between: Disk)

  function Refuse(m: Memory, d: Disk): Result {
    Result(m, d, false, d)
  }

  /** `persist` and what follows it. */
  function Persist(m: Memory, d: Disk, o: Observations, scope: string, value: Observation, e: Environment): Result {
    var first := |o| == 0;
    var next := o[scope := value];
    var started := if first then m.(initialized := true) else m;
    if !e.stateWritten then Refuse(started, d)
    else
      var between := d.(state := CanonicalState(next));
      if first && !e.markerWritten then Result(started, between, false, between)
      else if first then
        Result(started.(floor := m.floor[scope := value]), between.(marker := CanonicalMarker), true, between)
      else if !e.markerSeen then Result(started, between, false, between)
      else Result(started.(floor := m.floor[scope := value]), between, true, between)
  }

  /** `verifyAndPromote`; `None` when an argument does not parse. */
  ghost function Verify(m: Memory, d: Disk, scope: Option<string>, value: Option<Observation>, e: Environment): Result {
    if scope.None? || value.None? || Load(m, d).LoadRefused? then Refuse(m, d)
    else
      var o := Load(m, d).observations;
      var loaded := if d.state == NoState then m else m.(initialized := true);
      if !Covers(o, m.floor) then Refuse(loaded, d)
      else
        var hydrated := loaded.(floor := m.floor + o);
        if scope.value in o && !Follows(o[scope.value], value.value) then Refuse(hydrated, d)
        else if scope.value in o && o[scope.value] == value.value then Result(hydrated, d, true, d)
        else if scope.value !in o && |o| >= MAX_TRUST_SCOPES then Refuse(hydrated, d)
        else Persist(hydrated, d, o, scope.value, value.value, e)
  }

  class GovernanceValidationFeeFinalityStore {
    /** The two files. */
    var disk: Disk
    var inProcessFloor: Observations
    var initialized: bool

    constructor (disk: Disk)
      ensures this.disk == disk && Snapshot() == FRESH
    {
      this.disk, inProcessFloor, initialized := disk, map[], false;
    }

    function Snapshot(): Memory
      reads this
    {
      Memory(inProcessFloor, initialized)
    }

    method LoadState() returns (state: Loaded)
      modifies this`initialized
      ensures state == Load(old(Snapshot()), disk)
      ensures initialized == (old(initialized) || (state.LoadedState? && disk.state != NoState))
    {
      var hasState, hasMarker := disk.state != NoState, disk.marker != NoMarker;
      if !hasState && !hasMarker {
        if initialized || |inProcessFloor| > 0 {
          return LoadRefused;
        }
        return LoadedState(map[]);
      }
      if !hasState || !hasMarker {
        return LoadRefused;
      }
      if disk.marker != CanonicalMarker || !disk.state.CanonicalState? {
        return LoadRefused;
      }
      var observations := disk.state.observations;
      if |observations| > MAX_TRUST_SCOPES || |observations| == 0 {
        return LoadRefused;
      }
      initialized := true;
      return LoadedState(observations);
    }

    /** `assertDurableStateCoversInProcessFloor` */
    method CoversFloor(o: Observations) returns (covers: bool)
      ensures covers <==> Covers(o, inProcessFloor)
    {
      var todo := inProcessFloor.Keys;
      while todo != {}
        invariant todo <= inProcessFloor.Keys
        invariant forall s :: s in inProcessFloor && s !in todo ==> s in o && Follows(inProcessFloor[s], o[s])
      {
        var s :| s in todo;
        if s !in o || !Follows(inProcessFloor[s], o[s]) {
          return false;
        }
        todo := todo - {s};
      }
      return true;
    }

    /** `hydrateInProcessFloor` */
    method Hydrate(o: Observations)
      modifies this`inProcessFloor
      ensures inProcessFloor == old(inProcessFloor) + o
    {
      ghost var before := inProcessFloor;
      var todo := o.Keys;
      while todo != {}
        invariant todo <= o.Keys
        invariant inProcessFloor == before + (map s | s in o && s !in todo :: o[s])
      {
        var s :| s in todo;
        inProcessFloor := inProcessFloor[s := o[s]];
        todo := todo - {s};
      }
      assert (map s | s in o && s !in todo :: o[s]) == o;
    }

    /** `persist`; false where it throws. */
    method PersistState(next: Observations, firstPromotion: bool, e: Environment) returns (persisted: bool)
      modifies this`disk, this`initialized
      ensures initialized == (old(initialized) || firstPromotion)
      ensures persisted <==> e.stateWritten && if firstPromotion then e.markerWritten else e.markerSeen
      ensures disk.state == if e.stateWritten then CanonicalState(next) else old(disk).state
      ensures disk.marker ==
        if e.stateWritten && e.markerWritten && firstPromotion then CanonicalMarker else old(disk).marker
    {
      if firstPromotion {
        initialized := true;
      }
      if !e.stateWritten {
        return false;
      }
      disk := disk.(state := CanonicalState(next));
      if firstPromotion {
        if !e.markerWritten {
          return false;
        }
        disk := disk.(marker := CanonicalMarker);
        return true;
      }
      return e.markerSeen;
    }

    /** `persist` and what follows it. */
    method Promote(o: Observations, key: string, current: Observation, e: Environment) returns (accepted: bool)
      modifies this
      ensures var r := Persist(old(Snapshot()), old(disk), o, key, current, e);
        accepted == r.accepted && Snapshot() == r.memory && disk == r.disk
    {
      accepted := PersistState(o[key := current], |o| == 0, e);
      if accepted {
        inProcessFloor := inProcessFloor[key := current];
      }
    }

    method VerifyAndPromote(scope: Option<string>, value: Option<Observation>, e: Environment) returns (accepted: bool)
      modifies this
      ensures var r := Verify(old(Snapshot()), old(disk), scope, value, e);
        accepted == r.accepted && Snapshot() == r.memory && disk == r.disk
    {
      hide Covers, Follows, Persist;
      if scope.None? || value.None? {
        return false;
      }
      var state := LoadState();
      if state.LoadRefused? {
        return false;
      }
      var o := state.observations;
      var covers := CoversFloor(o);
      if !covers {
        return false;
      }
      Hydrate(o);
      var key, current := scope.value, value.value;
      if key in o && !Follows(o[key], current) {
        return false;
      }
      if key in o && o[key] == current {
        return true;
      }
      if key !in o && |o| >= MAX_TRUST_SCOPES {
        return false;
      }
      accepted := Promote(o, key, current, e);
    }
  }

  // ---------------------------------------------------------------- one process, any tampering

  /** One call of one store instance; before it the environment may put anything on the disk. */
  datatype Call = Call(disk: Disk, scope: string, value: Observation, environment: Environment)

  ghost function After(m: Memory, c: Call): Result {
    Verify(m, c.disk, Some(c.scope), Some(c.value), c.environment)
  }

  ghost function MemoryAfter(calls: seq<Call>): Memory {
    if calls == [] then FRESH
    else After(MemoryAfter(calls[..|calls| - 1]), calls[|calls| - 1]).memory
  }

  ghost predicate Accepted(calls: seq<Call>, i: nat)
    requires i < |calls|
  {
    After(MemoryAfter(calls[..i]), calls[i]).accepted
  }

  lemma OverlayCovers(floor: Observations, o: Observations)
    requires Covers(o, floor)
    ensures floor + o == o
  {
  }

  lemma LoadedIsOnDisk(m: Memory, d: Disk)
    ensures Load(m, d).LoadedState? && Load(m, d).observations != map[] ==>
      d.state == CanonicalState(Load(m, d).observations)
  {
  }

  lemma ScopeFollows(earlier: Observations, later: Observations, scope: string)
    requires Covers(later, earlier)
    ensures scope in earlier ==> scope in later && Follows(earlier[scope], later[scope])
  {
  }

  /**
   A call never lowers the floor; one that is accepted ends with its value as the watermark, floor
   and disk agreeing.
   */
  lemma CallRaisesFloor(m: Memory, c: Call)
    ensures var r := After(m, c);
      && Covers(r.memory.floor, m.floor)
      && (r.accepted ==>
            && c.scope in r.memory.floor && r.memory.floor[c.scope] == c.value
            && (c.scope in m.floor ==> Follows(m.floor[c.scope], c.value))
            && r.disk.state == CanonicalState(r.memory.floor))
  {
    hide Follows, Covers, Load;
    var loaded := Load(m, c.disk);
    LoadedIsOnDisk(m, c.disk);
    CoversReflexive(m.floor);
    if loaded.LoadedState? && Covers(loaded.observations, m.floor) {
      var o := loaded.observations;
      OverlayCovers(m.floor, o);
      if c.scope in o ==> Follows(o[c.scope], c.value) {
        CoversPromotion(o, c.scope, c.value);
        CoversTransitive(m.floor, o, o[c.scope := c.value]);
        ScopeFollows(m.floor, o[c.scope := c.value], c.scope);
      }
    }
  }

  lemma {:induction false} FloorOnlyRises(calls: seq<Call>, i: nat)
    requires i <= |calls|
    ensures Covers(MemoryAfter(calls).floor, MemoryAfter(calls[..i]).floor)
    decreases |calls|
  {
    hide After;
    if i < |calls| {
      var front := calls[..|calls| - 1];
      FloorOnlyRises(front, i);
      assert front[..i] == calls[..i];
      CallRaisesFloor(MemoryAfter(front), calls[|calls| - 1]);
      CoversTransitive(MemoryAfter(calls[..i]).floor, MemoryAfter(front).floor, MemoryAfter(calls).floor);
    } else {
      assert calls[..i] == calls;
    }
  }

  /**
   Whatever happens to the two files between calls, the observations one store instance
   accepts for a scope form a chain: heights and policy versions never decrease, and no
   two of them disagree at the same height or version.
   */
  lemma AcceptedFormChain(calls: seq<Call>, i: nat, j: nat)
    requires i < j < |calls| && Accepted(calls, i) && Accepted(calls, j) && calls[i].scope == calls[j].scope
    ensures Follows(calls[i].value, calls[j].value)
  {
    hide After, Follows;
    var before := calls[..j];
    assert calls[..i + 1][..i] == calls[..i];
    assert before[..i + 1] == calls[..i + 1];
    CallRaisesFloor(MemoryAfter(calls[..i]), calls[i]);
    FloorOnlyRises(before, i + 1);
    CallRaisesFloor(MemoryAfter(before), calls[j]);
    var s := calls[i].scope;
    FollowsTransitive(calls[i].value, MemoryAfter(before).floor[s], calls[j].value);
  }

  /** No scope is dropped: after an accepted call the disk covers everything accepted before it. */
  lemma AcceptedStayDurable(calls: seq<Call>, i: nat, j: nat)
    requires i <= j < |calls| && Accepted(calls, i) && Accepted(calls, j)
    ensures var r := After(MemoryAfter(calls[..j]), calls[j]);
      && r.disk.state.CanonicalState? && calls[i].scope in r.disk.state.observations
      && Follows(calls[i].value, r.disk.state.observations[calls[i].scope])
  {
    hide After, Follows;
    var upTo := calls[..j + 1];
    assert upTo[..j] == calls[..j] && upTo[..i + 1] == calls[..i + 1] && calls[..i + 1][..i] == calls[..i];
    CallRaisesFloor(MemoryAfter(calls[..i]), calls[i]);
    FloorOnlyRises(upTo, i + 1);
    CallRaisesFloor(MemoryAfter(calls[..j]), calls[j]);
  }

  // ---------------------------------------------------------------- crashes, without tampering

  datatype Event =
    | Verified(scope: string, value: Observation, environment: Environment)
    | CrashedBefore
    | CrashedBetween(scope: string, value: Observation, environment: Environment)
    | CrashedAfter(scope: string, value: Observation, environment: Environment)

  /** The world: the running process, the disk, and everything any process accepted. */
  datatype World = World(memory: Memory, disk: Disk, accepted: set<(string, Observation)>)

  const BEGINNING := World(FRESH, EMPTY_DISK, {})

  ghost function Next(w: World, e: Event): World {
    match e
    case Verified(scope, value, environment) =>
      var r := Verify(w.memory, w.disk, Some(scope), Some(value), environment);
      World(r.memory, r.disk, if r.accepted then w.accepted + {(scope, value)} else w.accepted)
    case CrashedBefore => w.(memory := FRESH)
    case CrashedBetween(scope, value, environment) =>
      w.(memory := FRESH, disk := Verify(w.memory, w.disk, Some(scope), Some(value), environment).between)
    case CrashedAfter(scope, value, environment) =>
      w.(memory := FRESH, disk := Verify(w.memory, w.disk, Some(scope), Some(value), environment).disk)
  }

  ghost function WorldAfter(events: seq<Event>): World {
    if events == [] then BEGINNING else Next(WorldAfter(events[..|events| - 1]), events[|events| - 1])
  }

  ghost predicate CoversAccepted(o: Observations, accepted: set<(string, Observation)>) {
    forall a :: a in accepted ==> a.0 in o && Follows(a.1, o[a.0])
  }

  /** A disk that a fresh process refuses. */
  predicate Stuck(d: Disk) {
    Load(FRESH, d).LoadRefused?
  }

  /**
   With a marker, the state is loadable and covers every acceptance and the floor of the
   running process; without one, nothing was accepted yet.
   */
  ghost predicate Durable(w: World) {
    match w.disk.marker
    case OtherMarker => false
    case NoMarker => w.accepted == {} && w.memory.floor == map[]
    case CanonicalMarker =>
      && w.disk.state.CanonicalState?
      && 1 <= |w.disk.state.observations| <= MAX_TRUST_SCOPES
      && CoversAccepted(w.disk.state.observations, w.accepted)
      && Covers(w.disk.state.observations, w.memory.floor)
  }

  lemma AcceptedCovered(o: Observations, next: Observations, accepted: set<(string, Observation)>)
    requires CoversAccepted(o, accepted) && Covers(next, o)
    ensures CoversAccepted(next, accepted)
  {
    hide Follows;
    forall a | a in accepted
      ensures a.0 in next && Follows(a.1, next[a.0])
    {
      FollowsTransitive(a.1, o[a.0], next[a.0]);
    }
  }

  /** The state that a promotion writes covers the one it replaces, and stays within bounds. */
  lemma PromotionCovers(o: Observations, scope: string, value: Observation)
    requires scope in o ==> Follows(o[scope], value)
    requires scope in o || |o| < MAX_TRUST_SCOPES
    requires |o| <= MAX_TRUST_SCOPES
    ensures var next := o[scope := value]; Covers(next, o) && 1 <= |next| <= MAX_TRUST_SCOPES
  {
    var next := o[scope := value];
    assert next.Keys == o.Keys + {scope};
    if scope in o {
      assert next.Keys == o.Keys;
    } else {
      assert next.Keys - {scope} == o.Keys;
    }
    assert |next| == |next.Keys| && |o| == |o.Keys|;
  }

  ghost predicate KeepsDurable(w: World, scope: string, value: Observation, r: Result) {
    && Durable(World(r.memory, r.disk, if r.accepted then w.accepted + {(scope, value)} else w.accepted))
    && Durable(World(FRESH, r.disk, w.accepted)) && Durable(World(FRESH, r.between, w.accepted))
  }

  lemma FollowsReflexive(value: Observation)
    ensures Follows(value, value)
  {
  }

  /** The first promotion: until its marker is written nothing counts as accepted. */
  lemma FirstKeepsDurable(w: World, scope: string, value: Observation, e: Environment)
    requires Durable(w) && w.disk.marker == NoMarker
    ensures KeepsDurable(w, scope, value, Verify(w.memory, w.disk, Some(scope), Some(value), e))
  {
    hide Follows;
    if Load(w.memory, w.disk).LoadedState? {
      OverlayCovers(w.memory.floor, map[]);
      PromotionCovers(map[], scope, value);
      FollowsReflexive(value);
      CoversReflexive(map[scope := value]);
    }
  }

  predicate Promotable(o: Observations, scope: string, value: Observation) {
    (scope in o ==> Follows(o[scope], value)) && (scope in o || |o| < MAX_TRUST_SCOPES)
  }

  /** A later call leaves the state as it was or promotes it, and accepts only what it wrote. */
  lemma LaterResult(w: World, scope: string, value: Observation, e: Environment)
    requires Durable(w) && w.disk.marker == CanonicalMarker
    ensures var o := w.disk.state.observations; var next := o[scope := value];
      var r := Verify(w.memory, w.disk, Some(scope), Some(value), e);
      && r.disk.marker == r.between.marker == CanonicalMarker && r.between == r.disk
      && (r.disk == w.disk || (Promotable(o, scope, value) && r.disk.state == CanonicalState(next)))
      && (r.memory.floor == o
           || (Promotable(o, scope, value) && r.disk.state == CanonicalState(next) && r.memory.floor == next))
      && (r.accepted ==> Promotable(o, scope, value) && r.disk.state == CanonicalState(next) && r.memory.floor == next)
  {
    hide Follows, Covers, CoversAccepted;
    var o := w.disk.state.observations;
    OverlayCovers(w.memory.floor, o);
    if scope in o && o[scope] == value {
      assert o[scope := value] == o;
    }
  }

  lemma CoversNothing(o: Observations)
    ensures Covers(o, map[])
  {
  }

  /** Later promotions replace the state by one that covers it. */
  lemma LaterKeepsDurable(w: World, scope: string, value: Observation, e: Environment)
    requires Durable(w) && w.disk.marker == CanonicalMarker
    ensures KeepsDurable(w, scope, value, Verify(w.memory, w.disk, Some(scope), Some(value), e))
  {
    hide Follows, Covers, Verify;
    var o := w.disk.state.observations;
    var next := o[scope := value];
    LaterResult(w, scope, value, e);
    FollowsReflexive(value);
    CoversReflexive(o);
    CoversReflexive(next);
    CoversNothing(o);
    CoversNothing(next);
    if Promotable(o, scope, value) {
      PromotionCovers(o, scope, value);
      AcceptedCovered(o, next, w.accepted);
    }
  }

  /** What one call does to a durable world, whether or not it gets to its end. */
  lemma VerifyKeepsDurable(w: World, scope: string, value: Observation, e: Environment)
    requires Durable(w)
    ensures KeepsDurable(w, scope, value, Verify(w.memory, w.disk, Some(scope), Some(value), e))
  {
    hide Verify, KeepsDurable;
    if w.disk.marker == NoMarker {
      FirstKeepsDurable(w, scope, value, e);
    } else {
      LaterKeepsDurable(w, scope, value, e);
    }
  }

  lemma FreshDurable(w: World)
    requires Durable(w)
    ensures Durable(w.(memory := FRESH))
  {
  }

  lemma {:induction false} WorldDurable(events: seq<Event>)
    ensures Durable(WorldAfter(events))
  {
    if events == [] {
    } else {
      hide Verify, Durable;
      var w, e := WorldAfter(events[..|events| - 1]), events[|events| - 1];
      WorldDurable(events[..|events| - 1]);
      if !e.CrashedBefore? {
        VerifyKeepsDurable(w, e.scope, e.value, e.environment);
      } else {
        FreshDurable(w);
      }
    }
  }

  /**
   Without tampering, after any run of calls, crashes between any two atomic writes and
   failed writes, a fresh process either refuses every observation from then on, or
   loads a state that covers everything that was ever accepted.
   */
  lemma CrashConsistent(events: seq<Event>)
    ensures var w := WorldAfter(events); var loaded := Load(FRESH, w.disk);
      if loaded.LoadedState? then CoversAccepted(loaded.observations, w.accepted)
      else forall scope, value, e :: Verify(FRESH, w.disk, scope, value, e) == Refuse(FRESH, w.disk)
  {
    hide Follows;
    WorldDurable(events);
  }

  /** A disk is refused only if the first promotion was cut off between its two writes, before anything was accepted. */
  lemma RefusedBeforeFirstAcceptance(events: seq<Event>)
    requires Stuck(WorldAfter(events).disk)
    ensures WorldAfter(events).accepted == {} && WorldAfter(events).disk.marker == NoMarker
  {
    hide CoversAccepted, Covers;
    WorldDurable(events);
  }
}
