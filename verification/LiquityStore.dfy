/** The store itself, updated in place (packages/lib-base/src/LiquityStore.ts, lines 211-283 and 536-610). */
module LiquityStores {
  import opened Listeners
  import opened StoreRuns
  import opened StoreState
  import opened Wrappers

  /** What listeners are told, and which of them were called. */
  datatype Report = Report(newState: Slots, oldState: Slots, stateChange: Slots, calls: seq<Listener>)

  class LiquityStore {
    var loaded: bool
    var baseState: Option<Slots>
    var derivedState: Option<Slots>
    var updateTimeoutId: Option<nat>
    var listeners: seq<Listener>

    // The environment: identities of wrapped listeners, and the event loop's timers set by this store.
    var nextListener: nat
    var nextTimer: nat
    var liveTimers: set<nat>

    function Registered(): Registry
      reads this
    {
      Registry(listeners, nextListener)
    }

    function Now(): Store
      reads this
    {
      Store(loaded, baseState, derivedState, updateTimeoutId, liveTimers, nextTimer, Registered())
    }

    constructor ()
      ensures Now() == INITIAL
    {
      loaded, baseState, derivedState, updateTimeoutId, listeners := false, None, None, None, [];
      nextListener, nextTimer, liveTimers := 0, 0, {};
    }

    /** The `state` getter. */
    function CurrentState(): Slots
      reads this
    {
      State(Now())
    }

    // -------------------------------------------------------------- timers

    method CancelUpdateIfScheduled()
      modifies this`liveTimers
      ensures Now() == Cancel(old(Now()))
    {
      if updateTimeoutId.Some? {
        liveTimers := liveTimers - {updateTimeoutId.value};
      }
    }

    method ScheduleUpdate()
      modifies this`liveTimers, this`updateTimeoutId, this`nextTimer
      ensures Now() == Schedule(old(Now()))
    {
      CancelUpdateIfScheduled();
      liveTimers := liveTimers + {nextTimer};
      updateTimeoutId := Some(nextTimer);
      nextTimer := nextTimer + 1;
    }

    /** The function `start` returns, after the subclass has stopped its own monitoring. */
    method StopMonitoring()
      modifies this`liveTimers
      ensures Now() == Next(old(Now()), Stop)
    {
      CancelUpdateIfScheduled();
    }

    // -------------------------------------------------------------- listeners

    /** Registers a wrapper of `fn`, and returns what its unsubscribe function closes over. */
    method SubscribeListener(fn: nat) returns (id: nat)
      modifies this`listeners, this`nextListener
      ensures id == old(nextListener) && Now() == Next(old(Now()), Register(Subscribe(fn)))
    {
      var uniqueListener := Listener(nextListener, fn);
      listeners := listeners + [uniqueListener];
      id := nextListener;
      nextListener := nextListener + 1;
    }

    method UnsubscribeListener(id: nat)
      modifies this`listeners
      ensures Now() == Next(old(Now()), Register(Unsubscribe(id)))
    {
      listeners := Without(listeners, id);
    }

    /** A listener being called: it subscribes and unsubscribes as it likes. */
    method Call(actions: seq<Action>)
      modifies this`listeners, this`nextListener
      ensures Registered() == DoAll(old(Registered()), actions)
    {
      for i := 0 to |actions|
        invariant DoAll(Registered(), actions[i..]) == DoAll(old(Registered()), actions)
      {
        match actions[i]
        case Subscribe(fn) => var _ := SubscribeListener(fn);
        case Unsubscribe(id) => UnsubscribeListener(id);
        assert actions[i..][1..] == actions[i + 1..];
      }
    }

    method NotifyListeners(script: Script) returns (calls: seq<Listener>)
      modifies this`listeners, this`nextListener
      ensures Round(calls, Registered()) == WholeRound(old(Registered()), script)
    {
      var copy := listeners;
      calls := [];
      for i := 0 to |copy|
        invariant var rest := Notify(copy[i..], Registered(), script, |calls|);
                  Round(calls + rest.calls, rest.registry) == WholeRound(old(Registered()), script)
      {
        assert copy[i..][0] == copy[i] && copy[i..][1..] == copy[i + 1..];
        if copy[i] in listeners {
          ghost var rest := Notify(copy[i..], Registered(), script, |calls|);
          Call(script(|calls|, copy[i]));
          assert calls + rest.calls == (calls + [copy[i]]) + rest.calls[1..];
          calls := calls + [copy[i]];
        }
      }
      assert copy[|copy|..] == [];
    }

    // -------------------------------------------------------------- load and update

    /** `_derive`: new objects that hold the derived values. */
    method DeriveState(base: Slots) returns (derived: Result<Slots>)
      requires IsBase(base)
      ensures HoldsDerived(derived, base)
    {
      BaseValuesTyped(base);
      match Derive(ValuesOf(base))
      case Err(e) => derived := Err(e);
      case Ok(values) =>
        DeriveWellTyped(ValuesOf(base));
        var trove := new Ref(values[TroveKey]);
        var fees := new Ref(values[FeesKey]);
        var borrowingRate := new Ref(values[BorrowingRateKey]);
        var redemptionRate := new Ref(values[RedemptionRateKey]);
        derived := Ok(DerivedSlots(trove, fees, borrowingRate, redemptionRate, values[HaveUndercollateralizedTroves]));
        DerivedSlotsHold(values, trove, fees, borrowingRate, redemptionRate);
    }

    /** `_load`; `derived` is, for the specification, what `_derive` returned. */
    method LoadState(base: Slots) returns (ok: bool, ghost derived: Result<Slots>)
      requires Inv(Now()) && IsBase(base)
      modifies this
      ensures CanHappen(old(Now()), Load(base, derived)) && Now() == Next(old(Now()), Load(base, derived))
      ensures ok <==> !old(loaded) && derived.Ok?
      ensures Inv(Now())
    {
      ghost var before := Now();
      derived := Err(AssertionFailed);
      if loaded {
        return false, derived;
      }
      baseState := Some(base);
      var d := DeriveState(base);
      derived := d;
      LoadInv(before, base, derived);
      if d.Err? {
        return false, derived;
      }
      derivedState := Some(d.value);
      loaded := true;
      ScheduleUpdate();
      ok := true;
    }

    /** The part of `_update` before listeners are notified. */
    method RefreshState(update: Option<Slots>) returns (ok: bool, ghost derived: Result<Slots>)
      requires Inv(Now()) && (update.Some? ==> IsUpdate(update.value))
      modifies this`baseState, this`derivedState, this`liveTimers, this`updateTimeoutId, this`nextTimer
      ensures Derives(old(Now()), update, derived) && Now() == Updated(old(Now()), update, derived)
      ensures ok <==> CanUpdate(old(Now())) && derived.Ok?
    {
      derived := Err(AssertionFailed);
      if baseState.None? || derivedState.None? {
        return false, derived;
      }
      UpdateKeepsTypes(Now(), update, derived);
      if update.Some? {
        baseState := Some(Reduce(baseState.value, update.value));
      }
      var d := DeriveState(baseState.value);
      derived := d;
      if d.Err? {
        return false, derived;
      }
      derivedState := Some(Reduce(derivedState.value, d.value));
      ScheduleUpdate();
      ok := true;
    }

    /** `_update`; what it reports to the listeners is returned. */
    method UpdateState(update: Option<Slots>, script: Script)
        returns (report: Option<Report>, ghost derived: Result<Slots>)
      requires Inv(Now()) && (update.Some? ==> IsUpdate(update.value))
      modifies this
      ensures CanHappen(old(Now()), Update(update, derived, script))
      ensures Now() == Next(old(Now()), Update(update, derived, script)) && Inv(Now())
      ensures report.Some? <==> CanUpdate(old(Now())) && derived.Ok?
      ensures report.Some? ==>
                && report.value.oldState == old(CurrentState()) && report.value.newState == CurrentState()
                && report.value.stateChange == StateChange(old(Now()), Now())
                && report.value.calls == WholeRound(old(Registered()), script).calls
    {
      ghost var before := Now();
      var oldState := CurrentState();
      var ok;
      ok, derived := RefreshState(update);
      UpdateInv(before, update, derived, script);
      if !ok {
        return None, derived;
      }
      var told := ReportChange(oldState, script);
      report := Some(told);
    }

    /** The end of `_update`: listeners are told what changed since `oldState`. */
    method ReportChange(oldState: Slots, script: Script) returns (report: Report)
      modifies this`listeners, this`nextListener
      ensures var round := WholeRound(old(Registered()), script);
              && Now() == old(Now()).(registry := round.registry)
              && report == Report(State(Now()), oldState, Difference(State(Now()), oldState), round.calls)
    {
      var newState := CurrentState();
      var calls := NotifyListeners(script);
      report := Report(newState, oldState, Difference(newState, oldState), calls);
    }

    /** The callback of `setTimeout`, run by the event loop for a timer that is live. */
    method FireTimer(id: nat, script: Script) returns (report: Option<Report>, ghost derived: Result<Slots>)
      requires Inv(Now()) && id in liveTimers
      modifies this
      ensures CanHappen(old(Now()), Tick(id, derived, script))
      ensures Now() == Next(old(Now()), Tick(id, derived, script)) && Inv(Now())
      ensures old(Consistent(Now())) ==>
                report.Some? && report.value.stateChange == map[] && report.value.newState == report.value.oldState
    {
      ghost var before := Now();
      liveTimers := liveTimers - {id};
      updateTimeoutId := None;
      report, derived := UpdateState(None, script);
      if Consistent(before) {
        TickIsQuiet(before, Tick(id, derived, script));
      }
    }
  }
}
