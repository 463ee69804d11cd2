/** The callback registry of `EventWebSocket`: `on` and `once` append a
    listener to an event's list, and `dispatchEvent` invokes the list in
    order, then drops the listeners registered with `once`. A callback is
    identified by a `CallbackId`; invoking it is recorded, not performed. */
module EventRegistry {

  type CallbackId = nat

  datatype Listener = Listener(callback: CallbackId, once: bool)

  /** `callbacks`: the listener list of each event that has one. */
  type Registry = map<string, seq<Listener>>

  /** The registry after a dispatch, the callbacks invoked, in order, and
      whether one of them threw out of the dispatch. */
  datatype Dispatch = Dispatch(registry: Registry, invoked: seq<CallbackId>, threw: bool)

  function ListenersOf(reg: Registry, e: string): seq<Listener>
  {
    if e in reg then reg[e] else []
  }

  /** `callbacks[event] = callbacks[event] || []`, then `push`. */
  function Register(reg: Registry, e: string, cb: CallbackId, once: bool): (r: Registry)
    ensures r.Keys == reg.Keys + {e}
    ensures |r[e]| == |ListenersOf(reg, e)| + 1
    ensures r[e][..|r[e]| - 1] == ListenersOf(reg, e) && r[e][|r[e]| - 1] == Listener(cb, once)
    ensures forall e' | e' in reg && e' != e :: r[e'] == reg[e']
  {
    var ls := ListenersOf(reg, e) + [Listener(cb, once)];
    assert ls[..|ls| - 1] == ListenersOf(reg, e);
    reg[e := ls]
  }

  /** `on`: a lasting listener at the end of the event's list. */
  function On(reg: Registry, e: string, cb: CallbackId): (r: Registry)
    ensures r.Keys == reg.Keys + {e}
    ensures r[e] == ListenersOf(reg, e) + [Listener(cb, false)]
    ensures forall e' | e' in reg && e' != e :: r[e'] == reg[e']
  {
    var r := Register(reg, e, cb, false);
    assert r[e] == r[e][..|r[e]| - 1] + [r[e][|r[e]| - 1]];
    r
  }

  /** `once`: a one-shot listener at the end of the event's list. */
  function Once(reg: Registry, e: string, cb: CallbackId): (r: Registry)
    ensures r.Keys == reg.Keys + {e}
    ensures r[e] == ListenersOf(reg, e) + [Listener(cb, true)]
    ensures forall e' | e' in reg && e' != e :: r[e'] == reg[e']
  {
    var r := Register(reg, e, cb, true);
    assert r[e] == r[e][..|r[e]| - 1] + [r[e][|r[e]| - 1]];
    r
  }

  /** The callbacks of a list, in list order. */
  function Ids(ls: seq<Listener>): (ids: seq<CallbackId>)
    ensures |ids| == |ls|
    ensures forall k | 0 <= k < |ls| :: ids[k] == ls[k].callback
  {
    seq(|ls|, k requires 0 <= k < |ls| => ls[k].callback)
  }

  /** `filter(cb => !cb.once)`: the lasting listeners, in their order. */
  function Persistent(ls: seq<Listener>): (r: seq<Listener>)
    ensures |r| <= |ls|
    ensures forall l :: l in r <==> l in ls && !l.once
  {
    if |ls| == 0 then []
    else (if ls[0].once then [] else [ls[0]]) + Persistent(ls[1..])
  }

  /** Filtering distributes over concatenation, so the kept listeners stay
      in their original order. */
  lemma {:induction false} PersistentAppend(a: seq<Listener>, b: seq<Listener>)
    ensures Persistent(a + b) == Persistent(a) + Persistent(b)
  {
    if |a| > 0 {
      assert (a + b)[0] == a[0];
      assert (a + b)[1..] == a[1..] + b;
      PersistentAppend(a[1..], b);
      assert Persistent(a) == (if a[0].once then [] else [a[0]]) + Persistent(a[1..]);
    } else {
      assert a + b == b;
    }
  }

  /** A list with no one-shot listener is kept whole; in particular
      filtering twice is filtering once. */
  lemma {:induction false} PersistentKeepsLasting(ls: seq<Listener>)
    requires forall k | 0 <= k < |ls| :: !ls[k].once
    ensures Persistent(ls) == ls
  {
    if |ls| > 0 {
      PersistentKeepsLasting(ls[1..]);
    }
  }

  /** Some listener of the list throws when it is invoked. */
  predicate AnyThrows(ls: seq<Listener>, throws: set<CallbackId>) {
    exists k | 0 <= k < |ls| :: ls[k].callback in throws
  }

  /** The callbacks the `for` loop of `dispatchEvent` invokes: in list
      order, up to and including the first one that throws. */
  function Invoked(ls: seq<Listener>, throws: set<CallbackId>): (r: seq<CallbackId>)
    ensures |r| <= |ls|
    ensures forall k | 0 <= k < |r| :: r[k] == ls[k].callback
    ensures !AnyThrows(ls, throws) ==> r == Ids(ls)
    ensures AnyThrows(ls, throws) ==>
      && |r| > 0 && r[|r| - 1] in throws
      && forall k | 0 <= k < |r| - 1 :: r[k] !in throws
  {
    if |ls| == 0 then []
    else if ls[0].callback in throws then [ls[0].callback]
    else
      var rest := Invoked(ls[1..], throws);
      assert AnyThrows(ls, throws) ==> AnyThrows(ls[1..], throws) by {
        if AnyThrows(ls, throws) {
          var k :| 0 <= k < |ls| && ls[k].callback in throws;
          assert ls[1..][k - 1] == ls[k];
        }
      }
      [ls[0].callback] + rest
  }

  /** `dispatchEvent` when the callbacks in `throws` throw: an event without
      a list invokes nothing and changes nothing. Otherwise the listeners
      are invoked in order; when one throws, the dispatch stops there and
      the filter never runs, so the registry is left as it was; when none
      throws, only the event's lasting listeners remain. Other events are
      untouched in every case. */
  function DispatchEvent(reg: Registry, e: string, throws: set<CallbackId>): (r: Dispatch)
    ensures r.registry.Keys == reg.Keys
    ensures forall e' | e' in reg && e' != e :: r.registry[e'] == reg[e']
    ensures e !in reg ==> r == Dispatch(reg, [], false)
    ensures e in reg ==> r.invoked == Invoked(reg[e], throws)
    ensures r.threw <==> e in reg && AnyThrows(reg[e], throws)
    ensures r.threw ==> r.registry == reg
    ensures e in reg && !r.threw ==>
      && |r.invoked| == |reg[e]| && (forall k | 0 <= k < |reg[e]| :: r.invoked[k] == reg[e][k].callback)
      && r.registry[e] == Persistent(reg[e])
  {
    if e !in reg then Dispatch(reg, [], false)
    else if AnyThrows(reg[e], throws) then Dispatch(reg, Invoked(reg[e], throws), true)
    else Dispatch(reg[e := Persistent(reg[e])], Invoked(reg[e], throws), false)
  }

  /** A second dispatch of the same event leaves the registry as the first
      one left it. After a clean first dispatch it invokes exactly the
      lasting listeners and does not throw; after a throwing one it repeats
      the first dispatch exactly. */
  lemma DispatchTwice(reg: Registry, e: string, throws: set<CallbackId>)
    ensures var once := DispatchEvent(reg, e, throws);
      var twice := DispatchEvent(once.registry, e, throws);
      && twice.registry == once.registry
      && (!once.threw ==> !twice.threw && twice.invoked == Ids(Persistent(ListenersOf(reg, e))))
      && (once.threw ==> twice == once)
  {
    var once := DispatchEvent(reg, e, throws);
    if e in reg && !once.threw {
      var p := Persistent(reg[e]);
      forall k | 0 <= k < |p| ensures !p[k].once && p[k].callback !in throws {
        assert p[k] in p;
        var j :| 0 <= j < |reg[e]| && reg[e][j] == p[k];
      }
      PersistentKeepsLasting(p);
      assert once.registry[e := p] == once.registry;
    }
  }

  /** A listener registered with `on` is invoked last by the next dispatch
      when no listener throws, and stays registered after it; when one
      throws, the registry keeps everything, the new listener included. */
  lemma OnThenDispatch(reg: Registry, e: string, cb: CallbackId, throws: set<CallbackId>)
    ensures var d := DispatchEvent(On(reg, e, cb), e, throws);
      && (!d.threw ==> d.invoked == Ids(ListenersOf(reg, e)) + [cb])
      && (!d.threw ==> d.registry[e] == Persistent(ListenersOf(reg, e)) + [Listener(cb, false)])
      && (d.threw ==> d.registry == On(reg, e, cb))
  {
    var ls, l := ListenersOf(reg, e), Listener(cb, false);
    var reg' := On(reg, e, cb);
    assert reg'[e] == ls + [l];
    var d := DispatchEvent(reg', e, throws);
    if !d.threw {
      assert !AnyThrows(reg'[e], throws);
      assert d.invoked == Invoked(ls + [l], throws) == Ids(ls + [l]);
      IdsAppend(ls, [l]);
      assert Ids([l]) == [cb];
      assert d.registry[e] == Persistent(ls + [l]);
      PersistentAppend(ls, [l]);
      assert [l][1..] == [];
      assert Persistent([l]) == [l];
    }
  }

  /** A listener registered with `once` is invoked last by the next dispatch
      when no listener throws, and is gone after it; when one throws, the
      one-shot listener stays registered. */
  lemma OnceThenDispatch(reg: Registry, e: string, cb: CallbackId, throws: set<CallbackId>)
    ensures var d := DispatchEvent(Once(reg, e, cb), e, throws);
      && (!d.threw ==> d.invoked == Ids(ListenersOf(reg, e)) + [cb])
      && (!d.threw ==> d.registry[e] == Persistent(ListenersOf(reg, e)))
      && (d.threw ==> d.registry[e] == ListenersOf(reg, e) + [Listener(cb, true)])
  {
    var ls, l := ListenersOf(reg, e), Listener(cb, true);
    var reg' := Once(reg, e, cb);
    assert reg'[e] == ls + [l];
    var d := DispatchEvent(reg', e, throws);
    if !d.threw {
      assert !AnyThrows(reg'[e], throws);
      assert d.invoked == Invoked(ls + [l], throws) == Ids(ls + [l]);
      IdsAppend(ls, [l]);
      assert Ids([l]) == [cb];
      assert d.registry[e] == Persistent(ls + [l]);
      PersistentAppend(ls, [l]);
      assert [l][1..] == [];
      assert Persistent([l]) == [];
    }
  }

  /** Dispatch the events in order, with no registration in between; a
      throw ends one dispatch, not the ones after it. */
  function DispatchAll(reg: Registry, events: seq<string>, throws: set<CallbackId>): Dispatch
  {
    if |events| == 0 then Dispatch(reg, [], false)
    else
      var first := DispatchEvent(reg, events[0], throws);
      var rest := DispatchAll(first.registry, events[1..], throws);
      Dispatch(rest.registry, first.invoked + rest.invoked, first.threw || rest.threw)
  }

  function Occurrences(ids: seq<CallbackId>, x: CallbackId): nat
  {
    if |ids| == 0 then 0
    else (if ids[0] == x then 1 else 0) + Occurrences(ids[1..], x)
  }

  lemma {:induction false} OccurrencesAppend(a: seq<CallbackId>, b: seq<CallbackId>, x: CallbackId)
    ensures Occurrences(a + b, x) == Occurrences(a, x) + Occurrences(b, x)
  {
    if |a| > 0 {
      assert (a + b)[0] == a[0];
      assert (a + b)[1..] == a[1..] + b;
      OccurrencesAppend(a[1..], b, x);
    } else {
      assert a + b == b;
    }
  }

  /** The callbacks of a concatenation are the concatenated callbacks. */
  lemma IdsAppend(a: seq<Listener>, b: seq<Listener>)
    ensures Ids(a + b) == Ids(a) + Ids(b)
  {
    assert forall k | 0 <= k < |a + b| :: (a + b)[k] == if k < |a| then a[k] else b[k - |a|];
  }

  /** Filtering never adds a listener for x. */
  lemma {:induction false} PersistentOccurrences(ls: seq<Listener>, x: CallbackId)
    ensures Occurrences(Ids(Persistent(ls)), x) <= Occurrences(Ids(ls), x)
  {
    if |ls| > 0 {
      PersistentOccurrences(ls[1..], x);
      var head := if ls[0].once then [] else [ls[0]];
      IdsAppend(head, Persistent(ls[1..]));
      OccurrencesAppend(Ids(head), Ids(Persistent(ls[1..])), x);
      assert Ids(ls)[1..] == Ids(ls[1..]);
    }
  }

  /** Filtering removes every listener of x when x was only ever
      registered with `once`. */
  lemma {:induction false} PersistentDropsOnceOnly(ls: seq<Listener>, x: CallbackId)
    requires Listener(x, false) !in ls
    ensures Occurrences(Ids(Persistent(ls)), x) == 0
  {
    if |ls| > 0 {
      assert Listener(x, false) !in ls[1..];
      PersistentDropsOnceOnly(ls[1..], x);
      var head := if ls[0].once then [] else [ls[0]];
      IdsAppend(head, Persistent(ls[1..]));
      OccurrencesAppend(Ids(head), Ids(Persistent(ls[1..])), x);
    }
  }

  /** No registered listener throws. */
  predicate NoThrower(reg: Registry, throws: set<CallbackId>) {
    forall e | e in reg :: !AnyThrows(reg[e], throws)
  }

  /** x may still be invoked at most `budget` times: it is never a lasting
      listener, at most one event lists it, and that one at most `budget`
      times. */
  ghost predicate OnceBudget(reg: Registry, x: CallbackId, budget: nat) {
    && (forall e | e in reg :: Listener(x, false) !in reg[e])
    && (forall e | e in reg :: Occurrences(Ids(reg[e]), x) <= budget)
    && (forall e1, e2 | e1 in reg && e2 in reg && Occurrences(Ids(reg[e1]), x) > 0 && Occurrences(Ids(reg[e2]), x) > 0 :: e1 == e2)
  }

  /** A clean dispatch keeps every registry free of throwers. */
  lemma DispatchKeepsNoThrower(reg: Registry, e: string, throws: set<CallbackId>)
    requires NoThrower(reg, throws)
    ensures NoThrower(DispatchEvent(reg, e, throws).registry, throws)
  {
  }

  /** One clean dispatch of a listed event uses up that event's share of x's
      budget; the rest carries over. */
  lemma BudgetAfterDispatch(reg: Registry, e: string, throws: set<CallbackId>, x: CallbackId, budget: nat)
    requires e in reg && NoThrower(reg, throws)
    requires OnceBudget(reg, x, budget)
    ensures var used := Occurrences(Ids(reg[e]), x);
      && used <= budget
      && DispatchEvent(reg, e, throws).invoked == Ids(reg[e])
      && OnceBudget(DispatchEvent(reg, e, throws).registry, x, budget - used)
  {
    var first := DispatchEvent(reg, e, throws);
    var after := first.registry;
    var used := Occurrences(Ids(reg[e]), x);
    PersistentOccurrences(reg[e], x);
    PersistentDropsOnceOnly(reg[e], x);
    assert after[e] == Persistent(reg[e]);
    assert Occurrences(Ids(after[e]), x) == 0;
    forall e' | e' in after
      ensures Listener(x, false) !in after[e']
    {
      if e' == e {
        assert forall l | l in after[e] :: l in reg[e];
      }
    }
    forall e' | e' in after
      ensures Occurrences(Ids(after[e']), x) <= budget - used
    {
      if e' != e && used > 0 {
        assert Occurrences(Ids(reg[e']), x) == 0;
      }
    }
    forall e1, e2 | e1 in after && e2 in after && Occurrences(Ids(after[e1]), x) > 0 && Occurrences(Ids(after[e2]), x) > 0
      ensures e1 == e2
    {
      assert e1 != e && e2 != e;
    }
  }

  lemma {:induction false} DispatchAllWithinBudget(reg: Registry, events: seq<string>, throws: set<CallbackId>, x: CallbackId, budget: nat)
    requires NoThrower(reg, throws)
    requires OnceBudget(reg, x, budget)
    ensures Occurrences(DispatchAll(reg, events, throws).invoked, x) <= budget
    decreases |events|
  {
    if |events| > 0 {
      var e := events[0];
      var first := DispatchEvent(reg, e, throws);
      OccurrencesAppend(first.invoked, DispatchAll(first.registry, events[1..], throws).invoked, x);
      DispatchKeepsNoThrower(reg, e, throws);
      if e in reg {
        BudgetAfterDispatch(reg, e, throws, x, budget);
        DispatchAllWithinBudget(first.registry, events[1..], throws, x, budget - Occurrences(Ids(reg[e]), x));
      } else {
        DispatchAllWithinBudget(first.registry, events[1..], throws, x, budget);
      }
    }
  }

  /** A callback registered with `once` on a single event, and never with
      `on`, is invoked at most once over any sequence of dispatches without
      new registrations, provided no registered listener throws. */
  lemma OnceInvokedAtMostOnce(reg: Registry, events: seq<string>, throws: set<CallbackId>, x: CallbackId)
    requires NoThrower(reg, throws)
    requires forall e | e in reg :: Listener(x, false) !in reg[e]
    requires forall e | e in reg :: Occurrences(Ids(reg[e]), x) <= 1
    requires forall e1, e2 | e1 in reg && e2 in reg && Occurrences(Ids(reg[e1]), x) > 0 && Occurrences(Ids(reg[e2]), x) > 0 :: e1 == e2
    ensures Occurrences(DispatchAll(reg, events, throws).invoked, x) <= 1
  {
    DispatchAllWithinBudget(reg, events, throws, x, 1);
  }

  /** Why the no-throw condition is needed: with a one-shot listener a
      followed by a lasting listener b that throws, the filter never runs,
      so a is invoked by every one of any number of dispatches of e. */
  lemma {:induction false} ThrowKeepsOnceListener(a: CallbackId, b: CallbackId, e: string, events: seq<string>)
    requires forall k | 0 <= k < |events| :: events[k] == e
    ensures var reg := map[e := [Listener(a, true), Listener(b, false)]];
      Occurrences(DispatchAll(reg, events, {b}).invoked, a) == |events|
    decreases |events|
  {
    var reg := map[e := [Listener(a, true), Listener(b, false)]];
    if |events| > 0 {
      assert events[0] == e;
      var ls := reg[e];
      assert ls[1].callback in {b};
      var first := DispatchEvent(reg, e, {b});
      assert first.registry == reg;
      assert first.invoked[0] == a;
      assert Occurrences(first.invoked, a) == 1 by {
        if a == b {
          assert first.invoked == [a];
          assert first.invoked[1..] == [];
          assert Occurrences(first.invoked[1..], a) == 0;
        } else {
          assert first.invoked == [a, b];
          assert first.invoked[1..] == [b];
          assert first.invoked[1..][1..] == [];
          assert Occurrences(first.invoked[1..][1..], a) == 0;
          assert Occurrences(first.invoked[1..], a) == 0;
        }
      }
      ThrowKeepsOnceListener(a, b, e, events[1..]);
      OccurrencesAppend(first.invoked, DispatchAll(reg, events[1..], {b}).invoked, a);
    }
  }
}
