/**
 * The store as a machine over whole runs (packages/lib-base/src/LiquityStore.ts, lines 260-283 and
 * 566-610): loads, updates, timer events, stops and subscriptions in any order.
 */
module StoreRuns {
  import opened Decimals
  import opened FeeRates
  import opened Listeners
  import opened StoreState
  import opened Wrappers

  /** The fields of the store, and the timers it has set that are still live. */
  datatype Store = Store(
    loaded: bool,
    base: Option<Slots>,
    derived: Option<Slots>,
    timer: Option<nat>,
    live: set<nat>,
    nextTimer: nat,
    registry: Registry)

  const INITIAL := Store(false, None, None, None, {}, 0, Registry([], 0))

  /** What can happen; `derived` is what `_derive` returned, if it was called. */
  datatype Event =
    | Load(base: Slots, derived: Result<Slots>)
    | Update(update: Option<Slots>, derived: Result<Slots>, script: Script)
    | Tick(id: nat, derived: Result<Slots>, script: Script)
    | Stop
    | Register(action: Action)

  /** `{...base, ...derived}`. */
  function State(s: Store): Slots {
    (if s.base.Some? then s.base.value else map[]) + (if s.derived.Some? then s.derived.value else map[])
  }

  function Cancel(s: Store): Store {
    if s.timer.Some? then s.(live := s.live - {s.timer.value}) else s
  }

  function Schedule(s: Store): Store {
    var t := Cancel(s);
    t.(timer := Some(t.nextTimer), live := t.live + {t.nextTimer}, nextTimer := t.nextTimer + 1)
  }

  /** `_load`, which asserts that it was not called before. */
  function AfterLoad(s: Store, base: Slots, derived: Result<Slots>): Store {
    if s.loaded then s
    else match derived
      case Err(_) => s.(base := Some(base))
      case Ok(d) => Schedule(s.(base := Some(base), derived := Some(d), loaded := true))
  }

  predicate CanUpdate(s: Store) {
    s.base.Some? && s.derived.Some?
  }

  function NewBase(s: Store, update: Option<Slots>): Slots
    requires CanUpdate(s)
  {
    if update.Some? then Reduce(s.base.value, update.value) else s.base.value
  }

  /** `_update` before it notifies; when `_derive` throws, only the base state has changed. */
  function Updated(s: Store, update: Option<Slots>, derived: Result<Slots>): Store {
    if !CanUpdate(s) then s
    else
      var base := NewBase(s, update);
      match derived
      case Err(_) => s.(base := Some(base))
      case Ok(d) => Schedule(s.(base := Some(base), derived := Some(Reduce(s.derived.value, d))))
  }

  /** The whole of `_update`: listeners are notified if nothing was thrown. */
  function AfterUpdate(s: Store, update: Option<Slots>, derived: Result<Slots>, script: Script): Store {
    var t := Updated(s, update, derived);
    if CanUpdate(s) && derived.Ok? then t.(registry := WholeRound(t.registry, script).registry) else t
  }

  /** The timer's callback clears the recorded id, whichever timer it is. */
  function Fired(s: Store, id: nat): Store {
    s.(live := s.live - {id}, timer := None)
  }

  function Next(s: Store, e: Event): Store {
    match e
    case Load(base, derived) => AfterLoad(s, base, derived)
    case Update(update, derived, script) => AfterUpdate(s, update, derived, script)
    case Tick(id, derived, script) => AfterUpdate(Fired(s, id), None, derived, script)
    case Stop => Cancel(s)
    case Register(action) => s.(registry := Do(s.registry, action))
  }

  predicate Derives(s: Store, update: Option<Slots>, derived: Result<Slots>) {
    CanUpdate(s) ==> IsBase(NewBase(s, update)) && HoldsDerived(derived, NewBase(s, update))
  }

  predicate CanHappen(s: Store, e: Event) {
    match e
    case Load(base, derived) => IsBase(base) && (!s.loaded ==> HoldsDerived(derived, base))
    case Update(update, derived, _) => (update.Some? ==> IsUpdate(update.value)) && Derives(s, update, derived)
    case Tick(id, derived, _) => id in s.live && Derives(s, None, derived)
    case Stop => true
    case Register(_) => true
  }

  // ---------------------------------------------------------------- the invariant

  /** At most one timer is live, and it is the recorded one. */
  predicate TimersInOrder(s: Store) {
    && (forall id :: id in s.live ==> s.timer == Some(id))
    && (s.timer.Some? ==> s.timer.value < s.nextTimer)
  }

  predicate Inv(s: Store) {
    && (s.base.Some? ==> IsBase(s.base.value))
    && (s.derived.Some? ==> IsDerivedState(s.derived.value))
    && (s.loaded <==> s.derived.Some?) && (s.loaded ==> s.base.Some?)
    && TimersInOrder(s) && (s.live != {} ==> s.loaded) && Valid(s.registry)
  }

  lemma ScheduleInOrder(s: Store)
    requires TimersInOrder(s)
    ensures TimersInOrder(Schedule(s)) && Schedule(s).live == {s.nextTimer} && Schedule(s).timer == Some(s.nextTimer)
  {
  }

  lemma UpdateKeepsTypes(s: Store, update: Option<Slots>, derived: Result<Slots>)
    requires Inv(s) && CanUpdate(s) && (update.Some? ==> IsUpdate(update.value))
    ensures IsBase(NewBase(s, update))
    ensures derived.Ok? && IsDerivedState(derived.value) ==> IsDerivedState(Reduce(s.derived.value, derived.value))
  {
    if update.Some? {
      ReduceOverwrites(s.base.value, update.value);
    }
    if derived.Ok? && IsDerivedState(derived.value) {
      ReduceDerivedReplaces(s.derived.value, derived.value);
    }
  }

  lemma UpdateInv(s: Store, update: Option<Slots>, derived: Result<Slots>, script: Script)
    requires Inv(s) && (update.Some? ==> IsUpdate(update.value)) && Derives(s, update, derived)
    ensures Inv(AfterUpdate(s, update, derived, script))
  {
    if CanUpdate(s) {
      UpdateKeepsTypes(s, update, derived);
      ScheduleInOrder(s);
      RoundValid(s.registry, script);
    }
  }

  lemma LoadInv(s: Store, base: Slots, derived: Result<Slots>)
    requires Inv(s) && IsBase(base) && (derived.Ok? ==> IsDerivedState(derived.value))
    ensures Inv(AfterLoad(s, base, derived))
  {
    ScheduleInOrder(s);
  }

  /** Every event keeps the invariant. */
  lemma NextInv(s: Store, e: Event)
    requires Inv(s) && CanHappen(s, e)
    ensures Inv(Next(s, e))
  {
    match e
    case Load(base, derived) => if !s.loaded { LoadInv(s, base, derived); }
    case Update(update, derived, script) => UpdateInv(s, update, derived, script);
    case Tick(id, derived, script) => UpdateInv(Fired(s, id), None, derived, script);
    case Stop =>
    case Register(action) => DoValid(s.registry, action);
  }

  // ---------------------------------------------------------------- against the naive store

  /** A store that overwrites its fields with what it is given and recomputes everything. */
  datatype Naive = Naive(loaded: bool, base: Option<Values>, derived: Option<Values>)

  function NaiveRecompute(n: Naive, base: Values): Naive {
    if !AreBaseValues(base) then n
    else match Derive(base)
      case Err(_) => n.(base := Some(base))
      case Ok(d) => Naive(true, Some(base), Some(d))
  }

  function NaiveUpdate(n: Naive, update: Values): Naive {
    if n.base.None? || n.derived.None? then n else NaiveRecompute(n, n.base.value + update)
  }

  function NaiveNext(n: Naive, e: Event): Naive {
    match e
    case Load(base, _) => if n.loaded then n else NaiveRecompute(n, ValuesOf(base))
    case Update(update, _, _) => NaiveUpdate(n, if update.Some? then ValuesOf(update.value) else map[])
    case Tick(_, _, _) => NaiveUpdate(n, map[])
    case Stop => n
    case Register(_) => n
  }

  function NaiveRun(es: seq<Event>): Naive {
    if es == [] then Naive(false, None, None) else NaiveNext(NaiveRun(es[..|es| - 1]), es[|es| - 1])
  }

  /** The values a store holds, without their identities. */
  function Seen(s: Store): Naive {
    Naive(s.loaded,
          if s.base.Some? then Some(ValuesOf(s.base.value)) else None,
          if s.derived.Some? then Some(ValuesOf(s.derived.value)) else None)
  }

  lemma BaseValuesTyped(base: Slots)
    requires IsBase(base)
    ensures AreBaseValues(ValuesOf(base))
  {
  }

  lemma NewBaseValues(s: Store, update: Option<Slots>)
    requires Inv(s) && CanUpdate(s) && (update.Some? ==> IsUpdate(update.value))
    ensures ValuesOf(NewBase(s, update))
         == ValuesOf(s.base.value) + (if update.Some? then ValuesOf(update.value) else map[])
  {
    if update.Some? {
      ReduceOverwrites(s.base.value, update.value);
    } else {
      assert ValuesOf(s.base.value) + map[] == ValuesOf(s.base.value);
    }
  }

  lemma UpdateRefines(s: Store, update: Option<Slots>, derived: Result<Slots>, script: Script)
    requires Inv(s) && (update.Some? ==> IsUpdate(update.value)) && Derives(s, update, derived)
    ensures Seen(AfterUpdate(s, update, derived, script))
         == NaiveUpdate(Seen(s), if update.Some? then ValuesOf(update.value) else map[])
  {
    if CanUpdate(s) {
      NewBaseValues(s, update);
      BaseValuesTyped(NewBase(s, update));
      if derived.Ok? {
        ReduceDerivedReplaces(s.derived.value, derived.value);
      }
    }
  }

  /** Each event does to the values what the naive store does. */
  lemma NextRefines(s: Store, e: Event)
    requires Inv(s) && CanHappen(s, e)
    ensures Seen(Next(s, e)) == NaiveNext(Seen(s), e)
  {
    match e
    case Load(base, derived) => BaseValuesTyped(base);
    case Update(update, derived, script) => UpdateRefines(s, update, derived, script);
    case Tick(id, derived, script) => UpdateRefines(Fired(s, id), None, derived, script);
    case Stop =>
    case Register(action) =>
  }

  predicate HappensAt(ss: seq<Store>, es: seq<Event>, i: nat)
    requires i < |es| && |ss| == |es| + 1
  {
    CanHappen(ss[i], es[i]) && ss[i + 1] == Next(ss[i], es[i])
  }

  ghost predicate IsRun(ss: seq<Store>, es: seq<Event>) {
    |ss| == |es| + 1 && ss[0] == INITIAL && forall i :: 0 <= i < |es| ==> HappensAt(ss, es, i)
  }

  /** Over any run, the store keeps its invariant and refines the naive store. */
  lemma {:induction false} RunRefinesNaive(ss: seq<Store>, es: seq<Event>, i: nat)
    requires IsRun(ss, es) && i <= |es|
    ensures Inv(ss[i]) && Seen(ss[i]) == NaiveRun(es[..i])
  {
    if i > 0 {
      RunRefinesNaive(ss, es, i - 1);
      assert HappensAt(ss, es, i - 1);
      NextInv(ss[i - 1], es[i - 1]);
      NextRefines(ss[i - 1], es[i - 1]);
      assert es[..i][..i - 1] == es[..i - 1];
    }
  }

  // ---------------------------------------------------------------- consistency

  /** Each derived field is what `_derive` makes of the base state. */
  predicate Consistent(s: Store) {
    s.base.Some? && s.derived.Some? && AreBaseValues(ValuesOf(s.base.value))
    && Derive(ValuesOf(s.base.value)) == Ok(ValuesOf(s.derived.value))
  }

  /** Whether `e`, in the state `s`, makes the store derive its state anew. */
  predicate Rederives(s: Store, e: Event) {
    if e.Load? then !s.loaded else (e.Update? || e.Tick?) && s.loaded
  }

  /** The base state that `e` leaves to derive from. */
  function BaseAfter(s: Store, e: Event): Slots
    requires Inv(s) && Rederives(s, e)
  {
    match e
    case Load(base, _) => base
    case Update(update, _, _) => NewBase(s, update)
    case _ => s.base.value
  }

  lemma BaseAfterTyped(s: Store, e: Event)
    requires Inv(s) && CanHappen(s, e) && Rederives(s, e)
    ensures IsBase(BaseAfter(s, e)) && AreBaseValues(ValuesOf(BaseAfter(s, e)))
    ensures e.derived.Err? <==> TooOld(ValuesOf(BaseAfter(s, e)))
    ensures Next(s, e).base == Some(BaseAfter(s, e))
  {
    BaseValuesTyped(BaseAfter(s, e));
    DeriveFails(ValuesOf(BaseAfter(s, e)));
  }

  lemma UpdateConsistent(s: Store, update: Option<Slots>, derived: Result<Slots>, script: Script)
    requires Inv(s) && CanUpdate(s) && (update.Some? ==> IsUpdate(update.value)) && Derives(s, update, derived)
    ensures Consistent(AfterUpdate(s, update, derived, script)) <==> derived.Ok?
  {
    BaseValuesTyped(NewBase(s, update));
    if derived.Ok? {
      ReduceDerivedReplaces(s.derived.value, derived.value);
    }
  }

  /** A load or update makes the store consistent unless the fees are too old; no other event matters. */
  lemma NextConsistent(s: Store, e: Event)
    requires Inv(s) && CanHappen(s, e)
    ensures Rederives(s, e) ==> AreBaseValues(ValuesOf(BaseAfter(s, e)))
    ensures Rederives(s, e) ==> (Consistent(Next(s, e)) <==> !TooOld(ValuesOf(BaseAfter(s, e))))
    ensures !Rederives(s, e) ==> (Consistent(Next(s, e)) <==> Consistent(s))
  {
    if Rederives(s, e) {
      BaseAfterTyped(s, e);
    }
    match e
    case Load(base, derived) =>
    case Update(update, derived, script) =>
      if CanUpdate(s) { UpdateConsistent(s, update, derived, script); }
    case Tick(id, derived, script) =>
      if CanUpdate(s) { UpdateConsistent(Fired(s, id), None, derived, script); }
    case Stop =>
    case Register(action) =>
  }

  /**
   * In every state of a run from the first load on, the derived fields are what `_derive` makes of the
   * base state exactly if the fees are not too old.
   */
  lemma {:induction false} RunConsistent(ss: seq<Store>, es: seq<Event>, i: nat)
    requires IsRun(ss, es) && i <= |es|
    ensures Inv(ss[i]) && (ss[i].base.Some? ==> AreBaseValues(ValuesOf(ss[i].base.value)))
    ensures ss[i].loaded ==> (Consistent(ss[i]) <==> !TooOld(ValuesOf(ss[i].base.value)))
  {
    if i > 0 {
      RunConsistent(ss, es, i - 1);
      assert HappensAt(ss, es, i - 1);
      StepConsistent(ss[i - 1], es[i - 1]);
    }
  }

  lemma StepConsistent(s: Store, e: Event)
    requires Inv(s) && CanHappen(s, e) && (s.base.Some? ==> AreBaseValues(ValuesOf(s.base.value)))
    requires s.loaded ==> (Consistent(s) <==> !TooOld(ValuesOf(s.base.value)))
    ensures var t := Next(s, e);
            && Inv(t) && (t.base.Some? ==> AreBaseValues(ValuesOf(t.base.value)))
            && (t.loaded ==> (Consistent(t) <==> !TooOld(ValuesOf(t.base.value))))
  {
    NextInv(s, e);
    NextConsistent(s, e);
    if Rederives(s, e) {
      BaseAfterTyped(s, e);
    }
  }

  /** So in every loaded state of a run whose fees are not too old, the derived fields are what they mean. */
  lemma {:induction false} RunMeans(ss: seq<Store>, es: seq<Event>, i: nat)
    requires IsRun(ss, es) && i <= |es| && ss[i].loaded
    ensures ss[i].base.Some? && ss[i].derived.Some? && AreBaseValues(ValuesOf(ss[i].base.value))
    ensures !TooOld(ValuesOf(ss[i].base.value)) ==>
              MeansDerived(ValuesOf(ss[i].base.value), ValuesOf(ss[i].derived.value))
  {
    RunConsistent(ss, es, i);
    if !TooOld(ValuesOf(ss[i].base.value)) {
      DeriveMeans(ValuesOf(ss[i].base.value));
    }
  }

  // ---------------------------------------------------------------- what is reported as changed

  /** `stateChange` of the event that led from `s` to `t`. */
  function StateChange(s: Store, t: Store): Slots {
    Difference(State(t), State(s))
  }

  lemma StateAfterUpdate(s: Store, update: Option<Slots>, derived: Result<Slots>, script: Script)
    requires CanUpdate(s) && derived.Ok?
    ensures var change := (if update.Some? then update.value else map[]);
            State(AfterUpdate(s, update, derived, script))
              == Reduce(s.base.value, change) + Reduce(s.derived.value, derived.value)
  {
    if update.None? {
      ReduceBySameValues(s.base.value, map[]);
    }
  }

  /**
   * After a successful update, `stateChange` names exactly the base and derived fields whose values
   * changed, with the new reference; every other field keeps its very reference.
   */
  lemma ChangeIsExact(s: Store, update: Option<Slots>, derived: Result<Slots>, script: Script)
    requires Inv(s) && CanUpdate(s) && (update.Some? ==> IsUpdate(update.value))
    requires Derives(s, update, derived) && derived.Ok?
    ensures var t := AfterUpdate(s, update, derived, script);
            var old', new', change := State(s), State(t), StateChange(s, t);
            && old'.Keys == new'.Keys == BASE_KEYS + DERIVED_KEYS && change.Keys <= new'.Keys
            && forall k :: k in new' ==>
                 && (k in change <==> Held(new'[k]) != Held(old'[k]))
                 && (if k in change then change[k] == new'[k] else new'[k] == old'[k])
  {
    var t := AfterUpdate(s, update, derived, script);
    var change := if update.Some? then update.value else map[];
    StateAfterUpdate(s, update, derived, script);
    DifferenceIsValueChange(s.base.value, change);
    DifferenceIsValueChange(s.derived.value, derived.value);
    KeysApart();
    forall k | k in State(t)
      ensures k in StateChange(s, t) <==> Held(State(t)[k]) != Held(State(s)[k])
      ensures if k in StateChange(s, t) then StateChange(s, t)[k] == State(t)[k] else State(t)[k] == State(s)[k]
    {
      if k in BASE_KEYS {
        assert k in s.base.value;
      } else {
        assert k in s.derived.value;
      }
    }
  }

  lemma KeysApart()
    ensures BASE_KEYS !! DERIVED_KEYS && forall k: Key :: k in BASE_KEYS || k in DERIVED_KEYS
  {
  }

  /**
   * When the timer fires on a consistent store, nothing it holds changes, not even a reference; the
   * change reported is empty, and exactly one new timer is set.
   */
  lemma TickIsQuiet(s: Store, e: Event)
    requires Inv(s) && Consistent(s) && CanHappen(s, e) && e.Tick?
    ensures var t := Next(s, e);
            && e.derived.Ok? && t.base == s.base && t.derived == s.derived
            && StateChange(s, t) == map[]
            && t.live == {s.nextTimer} && t.timer == Some(s.nextTimer)
  {
    assert HoldsDerived(e.derived, s.base.value);
    assert ValuesOf(e.derived.value) == ValuesOf(s.derived.value);
    assert forall k :: k in s.derived.value ==> Held(e.derived.value[k]) == ValuesOf(e.derived.value)[k];
    ReduceBySameValues(s.derived.value, e.derived.value);
  }

  /**
   * Listeners are told in one round after every update that succeeds, timers' included, and not otherwise;
   * loading again changes nothing.
   */
  lemma ListenersTold(s: Store, e: Event)
    requires Inv(s) && CanHappen(s, e) && !e.Register?
    ensures var told := (e.Update? || e.Tick?) && s.loaded && e.derived.Ok?;
            Next(s, e).registry == if told then WholeRound(s.registry, e.script).registry else s.registry
    ensures e.Load? && s.loaded ==> Next(s, e) == s
  {
  }

  // ---------------------------------------------------------------- timers

  /**
   * A load or update sets one new timer, and no other stays live, exactly if the fees are not too old;
   * otherwise the timers stay as they were.
   */
  lemma OneTimerAfterSuccess(s: Store, e: Event)
    requires Inv(s) && CanHappen(s, e) && Rederives(s, e)
    ensures AreBaseValues(ValuesOf(BaseAfter(s, e)))
    ensures var t, before := Next(s, e), if e.Tick? then Fired(s, e.id) else s;
            if TooOld(ValuesOf(BaseAfter(s, e))) then t.live == before.live && t.timer == before.timer
            else t.live == {s.nextTimer} && t.timer == Some(s.nextTimer)
  {
    BaseAfterTyped(s, e);
    ScheduleInOrder(s);
  }

  /** A timer that fires is followed by another exactly if the fees are not too old; else polling ends. */
  lemma FailingTickStopsPolling(s: Store, e: Event)
    requires Inv(s) && CanHappen(s, e) && e.Tick?
    ensures s.loaded && AreBaseValues(ValuesOf(s.base.value))
    ensures TooOld(ValuesOf(s.base.value)) <==> Next(s, e).live == {}
    ensures TooOld(ValuesOf(s.base.value)) ==> Next(s, e).timer == None
  {
    OneTimerAfterSuccess(s, e);
  }

  /** Fees whose last operation is 2^32 minutes before the latest block. */
  const STALE_FEES: Fees := FeesFields(0, 0, 0, 0, 60000 * (MAX_EXPONENT + 1), false)

  /**
   * Polling can stop: an update to such fees is made in the base state only and leaves the timers alone,
   * and when the timer fires, none follows.
   */
  lemma PollingStops(s: Store, fees: Ref, d: Result<Slots>, tick: Event, script: Script)
    requires Inv(s) && Consistent(s) && s.live != {} && fees.value == OfFees(STALE_FEES)
    requires var e := Update(Some(map[FeesInNormalMode := Object(fees)]), d, script);
             CanHappen(s, e) && tick.Tick? && CanHappen(Next(s, e), tick)
    ensures var t := Next(s, Update(Some(map[FeesInNormalMode := Object(fees)]), d, script));
            && t.base != s.base && t.derived == s.derived && t.live == s.live && !Consistent(t)
            && Next(t, tick).live == {}
  {
    var update := map[FeesInNormalMode := Object(fees)];
    var e := Update(Some(update), d, script);
    ReduceHolds(s.base.value, update);
    BaseAfterTyped(s, e);
    NextConsistent(s, e);
    OneTimerAfterSuccess(s, e);
    NextInv(s, e);
    FailingTickStopsPolling(Next(s, e), tick);
  }

  /** Stopping leaves no timer live, although the recorded id stays. */
  lemma StopLeavesNone(s: Store)
    requires Inv(s)
    ensures Next(s, Stop).live == {} && Next(s, Stop).timer == s.timer
  {
  }

  /** With no timer live, nothing but a load or an update sets one or changes the state. */
  lemma StoppedStep(s: Store, e: Event)
    requires s.live == {} && CanHappen(s, e) && !e.Load? && !e.Update?
    ensures !e.Tick? && Next(s, e).live == {}
    ensures Next(s, e).base == s.base && Next(s, e).derived == s.derived
  {
  }

  predicate NoLoadOrUpdate(es: seq<Event>, i: nat, j: nat)
    requires i <= j <= |es|
  {
    forall k :: i <= k < j ==> !es[k].Load? && !es[k].Update?
  }

  /** What a store without live timers and what it holds stay, as no event but these changes them. */
  lemma {:induction false} StaysStopped(ss: seq<Store>, es: seq<Event>, i: nat, j: nat)
    requires IsRun(ss, es) && i <= j <= |es| && ss[i].live == {} && NoLoadOrUpdate(es, i, j)
    ensures ss[j].live == {} && ss[j].base == ss[i].base && ss[j].derived == ss[i].derived
    ensures forall k :: i <= k < j ==> !es[k].Tick?
    decreases j
  {
    if i < j {
      StaysStopped(ss, es, i, j - 1);
      assert HappensAt(ss, es, j - 1);
      StoppedStep(ss[j - 1], es[j - 1]);
    }
  }

  /** After stopping, no timer becomes live and no update is made until someone loads or updates. */
  lemma {:induction false} StoppedUntilUpdate(ss: seq<Store>, es: seq<Event>, i: nat, j: nat)
    requires IsRun(ss, es) && i < j <= |es| && es[i] == Stop && NoLoadOrUpdate(es, i + 1, j)
    ensures ss[j].live == {} && ss[j].base == ss[i].base && ss[j].derived == ss[i].derived
    ensures forall k :: i < k < j ==> !es[k].Tick?
  {
    RunRefinesNaive(ss, es, i);
    assert HappensAt(ss, es, i);
    StopLeavesNone(ss[i]);
    StaysStopped(ss, es, i + 1, j);
  }

  /** In every state of a run at most one timer is live, and it is the recorded one. */
  lemma {:induction false} RunTimers(ss: seq<Store>, es: seq<Event>, i: nat)
    requires IsRun(ss, es) && i <= |es|
    ensures |ss[i].live| <= 1 && forall id :: id in ss[i].live ==> ss[i].timer == Some(id)
  {
    RunRefinesNaive(ss, es, i);
    if ss[i].live != {} {
      var id :| id in ss[i].live;
      assert ss[i].live == {id};
    }
  }
}
