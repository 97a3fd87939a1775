/**
 * The store's listeners and one round of notification (packages/lib-base/src/LiquityStore.ts,
 * lines 193 and 536-564). While it is called, a listener may subscribe and unsubscribe at will.
 */
module Listeners {

  /** A wrapped listener: `wrap` gives each subscription of the function `fn` an identity of its own. */
  datatype Listener = Listener(id: nat, fn: nat)

  /** The `Set` of listeners, in insertion order, and the identity the next subscription gets. */
  datatype Registry = Registry(listeners: seq<Listener>, nextId: nat)

  datatype Action = Subscribe(fn: nat) | Unsubscribe(id: nat)

  /** What the n-th call of a round does to the registry. */
  type Script = (nat, Listener) -> seq<Action>

  /** No two of the listeners have the same identity. */
  predicate Distinct(listeners: seq<Listener>) {
    forall i, j :: 0 <= i < j < |listeners| ==> listeners[i].id != listeners[j].id
  }

  predicate Valid(r: Registry) {
    && (forall i :: 0 <= i < |r.listeners| ==> r.listeners[i].id < r.nextId)
    && Distinct(r.listeners)
  }

  function Without(listeners: seq<Listener>, id: nat): seq<Listener> {
    if listeners == [] then []
    else (if listeners[0].id == id then [] else [listeners[0]]) + Without(listeners[1..], id)
  }

  function Do(r: Registry, action: Action): Registry {
    match action
    case Subscribe(fn) => Registry(r.listeners + [Listener(r.nextId, fn)], r.nextId + 1)
    case Unsubscribe(id) => r.(listeners := Without(r.listeners, id))
  }

  function DoAll(r: Registry, actions: seq<Action>): Registry
    decreases |actions|
  {
    if actions == [] then r else DoAll(Do(r, actions[0]), actions[1..])
  }

  /** The calls a round makes, and the registry it leaves. */
  datatype Round = Round(calls: seq<Listener>, registry: Registry)

  /** `forEach` over the copy, with `n` calls made before. */
  function Notify(copy: seq<Listener>, r: Registry, script: Script, n: nat): Round {
    if copy == [] then Round([], r)
    else if copy[0] in r.listeners then
      var rest := Notify(copy[1..], DoAll(r, script(n, copy[0])), script, n + 1);
      Round([copy[0]] + rest.calls, rest.registry)
    else Notify(copy[1..], r, script, n)
  }

  /** A whole round: the copy is of the listeners registered when it starts. */
  function WholeRound(r: Registry, script: Script): Round {
    Notify(r.listeners, r, script, 0)
  }

  // ---------------------------------------------------------------- subscribing

  lemma {:induction false} WithoutMembers(listeners: seq<Listener>, id: nat)
    ensures forall l :: l in Without(listeners, id) <==> l in listeners && l.id != id
    ensures (forall l :: l in listeners ==> l.id != id) ==> Without(listeners, id) == listeners
  {
    if listeners != [] {
      WithoutMembers(listeners[1..], id);
      assert listeners == [listeners[0]] + listeners[1..];
    }
  }

  lemma {:induction false} WithoutConcat(a: seq<Listener>, b: seq<Listener>, id: nat)
    ensures Without(a + b, id) == Without(a, id) + Without(b, id)
  {
    if a == [] {
      assert a + b == b;
    } else {
      assert (a + b)[1..] == a[1..] + b;
      WithoutConcat(a[1..], b, id);
    }
  }

  lemma {:induction false} WithoutDistinct(listeners: seq<Listener>, id: nat)
    requires Distinct(listeners)
    ensures Distinct(Without(listeners, id))
  {
    if listeners != [] {
      var t := listeners[1..];
      WithoutDistinct(t, id);
      WithoutMembers(t, id);
      var w := Without(t, id);
      forall i | 0 <= i < |w|
        ensures w[i].id != listeners[0].id
      {
        assert w[i] in t;
      }
    }
  }

  lemma {:induction false} DoValid(r: Registry, action: Action)
    requires Valid(r)
    ensures Valid(Do(r, action)) && Do(r, action).nextId >= r.nextId
  {
    if action.Unsubscribe? {
      WithoutDistinct(r.listeners, action.id);
      WithoutMembers(r.listeners, action.id);
      var w := Without(r.listeners, action.id);
      forall i | 0 <= i < |w|
        ensures w[i].id < r.nextId
      {
        assert w[i] in r.listeners;
      }
    }
  }

  /** Unsubscribing undoes subscribing, whatever else is registered. */
  lemma {:induction false} UnsubscribeUndoes(r: Registry, fn: nat)
    requires Valid(r)
    ensures Do(Do(r, Subscribe(fn)), Unsubscribe(r.nextId)).listeners == r.listeners
  {
    WithoutConcat(r.listeners, [Listener(r.nextId, fn)], r.nextId);
    WithoutMembers(r.listeners, r.nextId);
    WithoutMembers([Listener(r.nextId, fn)], r.nextId);
    assert Without([Listener(r.nextId, fn)], r.nextId) == [];
  }

  /** Two subscriptions of one function are independent: ending either leaves the other. */
  lemma {:induction false} SubscriptionsIndependent(r: Registry, fn: nat)
    requires Valid(r)
    ensures var twice := Do(Do(r, Subscribe(fn)), Subscribe(fn));
            && twice.listeners == r.listeners + [Listener(r.nextId, fn), Listener(r.nextId + 1, fn)]
            && Do(twice, Unsubscribe(r.nextId)).listeners == r.listeners + [Listener(r.nextId + 1, fn)]
            && Do(twice, Unsubscribe(r.nextId + 1)).listeners == r.listeners + [Listener(r.nextId, fn)]
  {
    var a, b := [Listener(r.nextId, fn)], [Listener(r.nextId + 1, fn)];
    var once := Do(r, Subscribe(fn));
    UnsubscribeUndoes(r, fn);
    DoValid(r, Subscribe(fn));
    UnsubscribeUndoes(once, fn);
    WithoutConcat(once.listeners, b, r.nextId);
    WithoutMembers(b, r.nextId);
    assert Do(once, Subscribe(fn)).listeners == r.listeners + (a + b);
  }

  // ---------------------------------------------------------------- one round

  lemma {:induction false} DoKeeps(r: Registry, action: Action, l: Listener)
    requires l.id < r.nextId
    ensures l in Do(r, action).listeners <==> l in r.listeners && action != Unsubscribe(l.id)
  {
    if action.Unsubscribe? {
      WithoutMembers(r.listeners, action.id);
    }
  }

  /** A listener stays registered exactly if it was, and no action ends its subscription. */
  lemma {:induction false} DoAllKeeps(r: Registry, actions: seq<Action>, l: Listener)
    requires Valid(r) && l.id < r.nextId
    ensures Valid(DoAll(r, actions)) && DoAll(r, actions).nextId >= r.nextId
    ensures l in DoAll(r, actions).listeners <==> l in r.listeners && Unsubscribe(l.id) !in actions
    decreases |actions|
  {
    if actions != [] {
      DoValid(r, actions[0]);
      DoKeeps(r, actions[0], l);
      DoAllKeeps(Do(r, actions[0]), actions[1..], l);
      assert actions == [actions[0]] + actions[1..];
    }
  }

  /** No call of the round, the first of them the n-th overall, ends the subscription of `l`. */
  predicate NoneRemoves(calls: seq<Listener>, script: Script, n: nat, l: Listener) {
    forall j :: 0 <= j < |calls| ==> Unsubscribe(l.id) !in script(n + j, calls[j])
  }

  lemma NoneRemovesFirst(calls: seq<Listener>, c: Listener, script: Script, n: nat, l: Listener)
    ensures NoneRemoves([c] + calls, script, n, l)
            <==> Unsubscribe(l.id) !in script(n, c) && NoneRemoves(calls, script, n + 1, l)
  {
    var all := [c] + calls;
    if NoneRemoves(all, script, n, l) {
      assert all[0] == c;
      forall j | 0 <= j < |calls|
        ensures Unsubscribe(l.id) !in script(n + 1 + j, calls[j])
      {
        assert all[j + 1] == calls[j];
      }
    }
    if Unsubscribe(l.id) !in script(n, c) && NoneRemoves(calls, script, n + 1, l) {
      forall j | 0 <= j < |all|
        ensures Unsubscribe(l.id) !in script(n + j, all[j])
      {
        if j > 0 {
          assert all[j] == calls[j - 1];
          assert Unsubscribe(l.id) !in script(n + 1 + (j - 1), calls[j - 1]);
        }
      }
    }
  }

  /** After a round, a listener known before it is registered exactly if it was and no call removed it. */
  lemma {:induction false} NotifyKeeps(copy: seq<Listener>, r: Registry, script: Script, n: nat, l: Listener)
    requires Valid(r) && l.id < r.nextId
    ensures var round := Notify(copy, r, script, n);
            && Valid(round.registry) && round.registry.nextId >= r.nextId
            && (l in round.registry.listeners <==> l in r.listeners && NoneRemoves(round.calls, script, n, l))
  {
    if copy == [] {
    } else if copy[0] in r.listeners {
      var s := DoAll(r, script(n, copy[0]));
      DoAllKeeps(r, script(n, copy[0]), l);
      NotifyKeeps(copy[1..], s, script, n + 1, l);
      NoneRemovesFirst(Notify(copy[1..], s, script, n + 1).calls, copy[0], script, n, l);
    } else {
      NotifyKeeps(copy[1..], r, script, n, l);
    }
  }

  /** A round over a copy in two parts is a round over each part in turn. */
  lemma {:induction false} NotifyConcat(a: seq<Listener>, b: seq<Listener>, r: Registry, script: Script, n: nat)
    ensures var first := Notify(a, r, script, n);
            var second := Notify(b, first.registry, script, n + |first.calls|);
            Notify(a + b, r, script, n) == Round(first.calls + second.calls, second.registry)
  {
    if a == [] {
      assert a + b == b;
      assert [] + Notify(b, r, script, n).calls == Notify(b, r, script, n).calls;
    } else {
      assert (a + b)[0] == a[0] && (a + b)[1..] == a[1..] + b;
      if a[0] in r.listeners {
        var s := DoAll(r, script(n, a[0]));
        NotifyConcat(a[1..], b, s, script, n + 1);
        var first := Notify(a[1..], s, script, n + 1);
        var second := Notify(b, first.registry, script, n + 1 + |first.calls|);
        assert [a[0]] + (first.calls + second.calls) == ([a[0]] + first.calls) + second.calls;
      } else {
        NotifyConcat(a[1..], b, r, script, n);
      }
    }
  }

  /** `a` is `b` with some elements left out. */
  predicate IsSubsequence(a: seq<Listener>, b: seq<Listener>) {
    if a == [] then true
    else if b == [] then false
    else if a[0] == b[0] then IsSubsequence(a[1..], b[1..])
    else IsSubsequence(a, b[1..])
  }

  lemma {:induction false} SubsequenceSkip(a: seq<Listener>, b: seq<Listener>)
    requires b != [] && IsSubsequence(a, b[1..])
    ensures IsSubsequence(a, b)
  {
    if a != [] && a[0] == b[0] {
      SubsequenceTail(a, b[1..]);
    }
  }

  lemma {:induction false} SubsequenceTail(a: seq<Listener>, b: seq<Listener>)
    requires a != [] && IsSubsequence(a, b)
    ensures IsSubsequence(a[1..], b)
  {
    if a[0] == b[0] {
      SubsequenceSkip(a[1..], b);
    } else {
      SubsequenceTail(a, b[1..]);
      SubsequenceSkip(a[1..], b);
    }
  }

  /** Calls are made in subscription order, each listener of the copy at most once, and to no others. */
  lemma {:induction false} CallsInOrder(copy: seq<Listener>, r: Registry, script: Script, n: nat)
    ensures IsSubsequence(Notify(copy, r, script, n).calls, copy)
  {
    if copy == [] {
    } else if copy[0] in r.listeners {
      CallsInOrder(copy[1..], DoAll(r, script(n, copy[0])), script, n + 1);
    } else {
      CallsInOrder(copy[1..], r, script, n);
      SubsequenceSkip(Notify(copy[1..], r, script, n).calls, copy);
    }
  }

  lemma {:induction false} SubsequenceMembers(a: seq<Listener>, b: seq<Listener>)
    requires IsSubsequence(a, b)
    ensures forall l :: l in a ==> l in b
    ensures (forall i, j :: 0 <= i < j < |b| ==> b[i] != b[j]) ==> forall i, j :: 0 <= i < j < |a| ==> a[i] != a[j]
  {
    if a == [] {
    } else if a[0] == b[0] {
      SubsequenceMembers(a[1..], b[1..]);
      assert forall i :: 0 < i < |a| ==> a[i] == a[1..][i - 1] && a[i] in b[1..];
    } else {
      SubsequenceMembers(a, b[1..]);
    }
  }

  /**
   * The listener whose turn is the i-th is called exactly if none of the calls made before its turn
   * ended its subscription.
   */
  lemma {:induction false} CalledUnlessRemoved(r: Registry, script: Script, i: nat)
    requires Valid(r) && i < |r.listeners|
    ensures var round, before := WholeRound(r, script), Notify(r.listeners[..i], r, script, 0).calls;
            && before <= round.calls && (forall l :: l in before ==> l in r.listeners[..i])
            && (r.listeners[i] in round.calls <==> NoneRemoves(before, script, 0, r.listeners[i]))
  {
    var a, l, b := r.listeners[..i], r.listeners[i], r.listeners[i + 1..];
    var first := Notify(a, r, script, 0);
    SplitAtTurn(r, script, i);
    assert l in r.listeners && l !in a && l !in b;
    NotifyKeeps(a, r, script, 0, l);
    CallsInOrder(a, r, script, 0);
    SubsequenceMembers(first.calls, a);
    HeadCalled(l, b, first.registry, script, |first.calls|);
  }

  lemma {:induction false} SplitAtTurn(r: Registry, script: Script, i: nat)
    requires i < |r.listeners|
    ensures var first := Notify(r.listeners[..i], r, script, 0);
            WholeRound(r, script).calls == first.calls
              + Notify([r.listeners[i]] + r.listeners[i + 1..], first.registry, script, |first.calls|).calls
  {
    assert r.listeners == r.listeners[..i] + ([r.listeners[i]] + r.listeners[i + 1..]);
    RoundOfParts(r.listeners[..i], [r.listeners[i]] + r.listeners[i + 1..], r, script);
  }

  lemma {:induction false} RoundOfParts(a: seq<Listener>, b: seq<Listener>, r: Registry, script: Script)
    requires r.listeners == a + b
    ensures var first := Notify(a, r, script, 0);
            WholeRound(r, script).calls == first.calls + Notify(b, first.registry, script, |first.calls|).calls
  {
    NotifyConcat(a, b, r, script, 0);
  }

  lemma {:induction false} HeadCalled(l: Listener, b: seq<Listener>, r: Registry, script: Script, n: nat)
    requires l !in b
    ensures l in Notify([l] + b, r, script, n).calls <==> l in r.listeners
  {
    assert ([l] + b)[1..] == b;
    CallsInOrder(b, r, script, n);
    SubsequenceMembers(Notify(b, r, script, n).calls, b);
  }

  lemma {:induction false} RoundValid(r: Registry, script: Script)
    requires Valid(r)
    ensures Valid(WholeRound(r, script).registry)
  {
    if |r.listeners| > 0 {
      assert r.listeners[0].id < r.nextId;
      NotifyKeeps(r.listeners, r, script, 0, r.listeners[0]);
    }
  }

  /** Listeners added during a round are not called in it, and nobody is called twice. */
  lemma {:induction false} OnlyOldListenersOnce(r: Registry, script: Script)
    requires Valid(r)
    ensures var calls := WholeRound(r, script).calls;
            && IsSubsequence(calls, r.listeners)
            && (forall l :: l in calls ==> l in r.listeners && l.id < r.nextId)
            && forall i, j :: 0 <= i < j < |calls| ==> calls[i] != calls[j]
  {
    CallsInOrder(r.listeners, r, script, 0);
    SubsequenceMembers(WholeRound(r, script).calls, r.listeners);
  }

  /** Who of the old listeners is still registered after a round. */
  lemma {:induction false} RoundKeeps(r: Registry, script: Script, l: Listener)
    requires Valid(r) && l in r.listeners
    ensures var round := WholeRound(r, script);
            && Valid(round.registry)
            && (l in round.registry.listeners <==> NoneRemoves(round.calls, script, 0, l))
  {
    NotifyKeeps(r.listeners, r, script, 0, l);
  }
}
