/**
 * What listeners can tell of the store from the changes they are told (packages/lib-base/src/LiquityStore.ts,
 * lines 195-198, 536-548 and 583-610).
 */
module StoreReports {
  import opened Decimals
  import opened FeeRates
  import opened Listeners
  import opened StoreRuns
  import opened StoreState
  import opened Wrappers

  /** The `stateChange` that listeners are told, if they are told any. */
  function Reported(s: Store, e: Event): Slots {
    if (e.Update? || e.Tick?) && s.loaded && e.derived.Ok? then StateChange(s, Next(s, e)) else map[]
  }

  /** The update gives some field a value that it does not hold. */
  predicate GivesNew(base: Slots, update: Slots) {
    exists k :: k in base && k in update && Held(update[k]) != Held(base[k])
  }

  /** The event changes the base state, but throws before it tells anyone: the fees it leaves are too old. */
  predicate ChangesUnseen(s: Store, e: Event)
    requires Inv(s) && CanHappen(s, e)
  {
    && e.Update? && e.update.Some? && s.loaded && GivesNew(s.base.value, e.update.value)
    && IsBase(NewBase(s, e.update)) && TooOldFees(NewBase(s, e.update))
  }

  predicate TooOldFees(base: Slots)
    requires IsBase(base)
  {
    BaseValuesTyped(base);
    TooOld(ValuesOf(base))
  }

  lemma ReduceSame(base: Slots, update: Slots)
    ensures Reduce(base, update) == base <==> !GivesNew(base, update)
  {
    if !GivesNew(base, update) {
      ReduceBySameValues(base, update);
    } else {
      ReduceHolds(base, update);
    }
  }

  /** One event: what is told makes the old state the new one, exactly if nothing changes unseen. */
  lemma EventReported(s: Store, e: Event)
    requires Inv(s) && s.loaded && CanHappen(s, e)
    ensures Next(s, e).loaded
    ensures State(Next(s, e)) == State(s) + Reported(s, e) <==> !ChangesUnseen(s, e)
  {
    match e
    case Load(base, derived) => NothingReported(s);
    case Update(update, derived, script) => UpdateReported(s, update, derived, script);
    case Tick(id, derived, script) => TickReported(s, id, derived, script);
    case Stop => NothingReported(s);
    case Register(action) => NothingReported(s);
  }

  lemma NothingReported(s: Store)
    ensures State(s) + map[] == State(s)
  {
  }

  /** A timer changes no base field, so that it tells everything even when it throws. */
  lemma TickReported(s: Store, id: nat, derived: Result<Slots>, script: Script)
    requires Inv(s) && s.loaded && CanHappen(s, Tick(id, derived, script))
    ensures var e := Tick(id, derived, script);
            Next(s, e).loaded && State(Next(s, e)) == State(s) + Reported(s, e)
  {
    if derived.Ok? {
      ReportedIsChange(Fired(s, id), None, derived, script);
    } else {
      NothingReported(s);
    }
  }

  lemma UpdateReported(s: Store, update: Option<Slots>, derived: Result<Slots>, script: Script)
    requires Inv(s) && s.loaded && CanHappen(s, Update(update, derived, script))
    ensures var e := Update(update, derived, script);
            State(Next(s, e)) == State(s) + Reported(s, e) <==> !ChangesUnseen(s, e)
  {
    var e := Update(update, derived, script);
    BaseAfterTyped(s, e);
    if derived.Ok? {
      ReportedIsChange(s, update, derived, script);
    } else {
      assert Reported(s, e) == map[];
      assert State(s) + map[] == State(s);
      FailedState(s, update, derived, script);
    }
  }

  /** A successful update tells everything. */
  lemma ReportedIsChange(s: Store, update: Option<Slots>, derived: Result<Slots>, script: Script)
    requires Inv(s) && CanUpdate(s) && (update.Some? ==> IsUpdate(update.value))
    requires Derives(s, update, derived) && derived.Ok?
    ensures var t := AfterUpdate(s, update, derived, script);
            t.loaded == s.loaded && State(t) == State(s) + StateChange(s, t)
  {
    var t := AfterUpdate(s, update, derived, script);
    ChangeIsExact(s, update, derived, script);
    Overwritten(State(s), State(t), StateChange(s, t));
  }

  lemma Overwritten(before: Slots, after: Slots, change: Slots)
    requires before.Keys == after.Keys && change.Keys <= after.Keys
    requires forall k :: k in after ==> if k in change then change[k] == after[k] else after[k] == before[k]
    ensures after == before + change
  {
  }

  /** A failing update changes the state exactly if it gives some field a new value. */
  lemma FailedState(s: Store, update: Option<Slots>, derived: Result<Slots>, script: Script)
    requires Inv(s) && CanUpdate(s) && derived.Err?
    ensures State(AfterUpdate(s, update, derived, script)) == State(s)
            <==> update.None? || !GivesNew(s.base.value, update.value)
  {
    var t := AfterUpdate(s, update, derived, script);
    if update.Some? {
      ReduceSame(s.base.value, update.value);
      KeysApart();
      BasePart(s);
      BasePart(t);
    }
  }

  /** The base state can be read off the whole state. */
  lemma BasePart(s: Store)
    requires s.base.Some? && s.base.value.Keys == BASE_KEYS && s.derived.Some? && s.derived.value.Keys == DERIVED_KEYS
    ensures (map k | k in State(s) && k in BASE_KEYS :: State(s)[k]) == s.base.value
  {
    KeysApart();
  }

  // ---------------------------------------------------------------- over a run

  predicate UnseenAt(ss: seq<Store>, es: seq<Event>, k: nat)
    requires k < |es| && |ss| == |es| + 1
  {
    Inv(ss[k]) && CanHappen(ss[k], es[k]) && ChangesUnseen(ss[k], es[k])
  }

  /** The state as a listener knows it that has known it at `j`, and applied every change that was told since. */
  function Known(ss: seq<Store>, es: seq<Event>, j: nat, i: nat): Slots
    requires j <= i <= |es| && |ss| == |es| + 1
  {
    if i == j then State(ss[j]) else Known(ss, es, j, i - 1) + Reported(ss[i - 1], es[i - 1])
  }

  predicate KnownAt(ss: seq<Store>, es: seq<Event>, j: nat, i: nat)
    requires j <= i <= |es| && |ss| == |es| + 1
  {
    Known(ss, es, j, i) == State(ss[i])
  }

  lemma StepReported(ss: seq<Store>, es: seq<Event>, j: nat, k: nat)
    requires IsRun(ss, es) && j <= k < |es| && ss[k].loaded
    ensures ss[k + 1].loaded
    ensures KnownAt(ss, es, j, k) ==> (KnownAt(ss, es, j, k + 1) <==> !UnseenAt(ss, es, k))
  {
    RunRefinesNaive(ss, es, k);
    assert HappensAt(ss, es, k);
    EventReported(ss[k], es[k]);
  }

  lemma {:induction false} StaysLoaded(ss: seq<Store>, es: seq<Event>, j: nat, i: nat)
    requires IsRun(ss, es) && j <= i <= |es| && ss[j].loaded
    ensures ss[i].loaded
    decreases i
  {
    if i > j {
      StaysLoaded(ss, es, j, i - 1);
      StepReported(ss, es, j, i - 1);
    }
  }

  /** If each step keeps `p` exactly without `q`, then `p` holds all along exactly if `q` never does. */
  lemma {:induction false} AllAlong(p: nat -> bool, q: nat -> bool, j: nat, i: nat)
    requires j <= i && p(j) && forall k :: j <= k < i && p(k) ==> (p(k + 1) <==> !q(k))
    ensures (forall k :: j <= k <= i ==> p(k)) <==> forall k :: j <= k < i ==> !q(k)
    decreases i
  {
    if i > j {
      AllAlong(p, q, j, i - 1);
      var k := i - 1;
      assert p(k) ==> (p(k + 1) <==> !q(k));
    }
  }

  /** Whether a listener knows the k-th state. */
  ghost function Knowns(ss: seq<Store>, es: seq<Event>, j: nat): nat -> bool {
    (k: nat) => |ss| == |es| + 1 && j <= k <= |es| && KnownAt(ss, es, j, k)
  }

  /** Whether the k-th event changes the state unseen. */
  ghost function Unseens(ss: seq<Store>, es: seq<Event>): nat -> bool {
    (k: nat) => |ss| == |es| + 1 && k < |es| && UnseenAt(ss, es, k)
  }

  lemma StepsReported(ss: seq<Store>, es: seq<Event>, j: nat, i: nat)
    requires IsRun(ss, es) && j <= i <= |es| && ss[j].loaded
    ensures Knowns(ss, es, j)(j)
    ensures forall k :: j <= k < i && Knowns(ss, es, j)(k) ==> (Knowns(ss, es, j)(k + 1) <==> !Unseens(ss, es)(k))
  {
    forall k: nat | j <= k < i && Knowns(ss, es, j)(k)
      ensures Knowns(ss, es, j)(k + 1) <==> !Unseens(ss, es)(k)
    {
      StaysLoaded(ss, es, j, k);
      StepReported(ss, es, j, k);
    }
  }

  /**
   * From a loaded state on, the changes that were told have added up to the state at every point exactly if
   * no update has changed a field while it failed for fees that are too old.
   */
  lemma {:induction false} RunReported(ss: seq<Store>, es: seq<Event>, j: nat, i: nat)
    requires IsRun(ss, es) && j <= i <= |es| && ss[j].loaded
    ensures var known, unseen := Knowns(ss, es, j), Unseens(ss, es);
            (forall k :: j <= k <= i ==> known(k)) <==> forall k :: j <= k < i ==> !unseen(k)
  {
    StepsReported(ss, es, j, i);
    AllAlong(Knowns(ss, es, j), Unseens(ss, es), j, i);
  }

  predicate SameAt(ss: seq<Store>, k: nat, key: Key)
    requires k + 1 < |ss|
  {
    key in State(ss[k]) && key in State(ss[k + 1]) && State(ss[k + 1])[key] == State(ss[k])[key]
  }

  /** `m` and `n` agree on whether they hold the key, and on what they hold for it. */
  predicate AgreeOn(m: Slots, n: Slots, key: Key) {
    (key in m <==> key in n) && (key in m ==> m[key] == n[key])
  }

  lemma {:induction false} Steady(known: nat -> Slots, m: nat, i: nat, key: Key)
    requires m <= i && forall k :: m <= k < i ==> AgreeOn(known(k + 1), known(k), key)
    ensures AgreeOn(known(i), known(m), key)
    decreases i
  {
    if i > m {
      Steady(known, m, i - 1, key);
      assert AgreeOn(known(i - 1 + 1), known(i - 1), key);
    }
  }

  /** What has not been told is not told later, unless it changes again. */
  lemma {:induction false} NotToldLater(ss: seq<Store>, es: seq<Event>, j: nat, m: nat, i: nat, key: Key)
    requires IsRun(ss, es) && j <= m <= i <= |es| && forall k :: m <= k < i ==> SameAt(ss, k, key)
    ensures AgreeOn(Known(ss, es, j, i), Known(ss, es, j, m), key)
  {
    var known := (k: nat) => if j <= k <= |es| && |ss| == |es| + 1 then Known(ss, es, j, k) else map[];
    forall k: nat | m <= k < i
      ensures AgreeOn(known(k + 1), known(k), key)
    {
      assert SameAt(ss, k, key);
      NotToldNext(ss, es, j, k, key);
    }
    Steady(known, m, i, key);
  }

  lemma NotToldNext(ss: seq<Store>, es: seq<Event>, j: nat, k: nat, key: Key)
    requires IsRun(ss, es) && j <= k < |es| && SameAt(ss, k, key)
    ensures AgreeOn(Known(ss, es, j, k + 1), Known(ss, es, j, k), key)
  {
    assert HappensAt(ss, es, k);
    NotTold(ss[k], es[k], key);
    Kept(Known(ss, es, j, k), Reported(ss[k], es[k]), key);
  }

  lemma Kept(m: Slots, change: Slots, key: Key)
    requires key !in change
    ensures AgreeOn(m + change, m, key)
  {
  }

  lemma NotTold(s: Store, e: Event, key: Key)
    requires key in State(s) && key in State(Next(s, e)) && State(Next(s, e))[key] == State(s)[key]
    ensures key !in Reported(s, e)
  {
  }

  /** An update with fees of 2^32 minutes is kept, and never told. */
  lemma UnseenChange(s: Store, fees: Ref, d: Result<Slots>, script: Script)
    requires Inv(s) && Consistent(s) && fees.value == OfFees(STALE_FEES)
    requires CanHappen(s, Update(Some(map[FeesInNormalMode := Object(fees)]), d, script))
    ensures var e := Update(Some(map[FeesInNormalMode := Object(fees)]), d, script);
            ChangesUnseen(s, e) && Reported(s, e) == map[] && State(Next(s, e)) != State(s)
  {
    var update := map[FeesInNormalMode := Object(fees)];
    var e := Update(Some(update), d, script);
    StaleFees(s, fees, d, script);
    EventReported(s, e);
    NothingReported(s);
  }

  lemma StaleFees(s: Store, fees: Ref, d: Result<Slots>, script: Script)
    requires Inv(s) && Consistent(s) && fees.value == OfFees(STALE_FEES)
    requires CanHappen(s, Update(Some(map[FeesInNormalMode := Object(fees)]), d, script))
    ensures d.Err? && ChangesUnseen(s, Update(Some(map[FeesInNormalMode := Object(fees)]), d, script))
  {
    var update := map[FeesInNormalMode := Object(fees)];
    ReduceHolds(s.base.value, update);
    BaseAfterTyped(s, Update(Some(update), d, script));
    DeriveFails(ValuesOf(s.base.value));
    assert Held(update[FeesInNormalMode]) != Held(s.base.value[FeesInNormalMode]);
  }
}
