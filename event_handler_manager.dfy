/**
 * `EventHandlerManager` of `lib/event-handler.manager.ts`: one chain of
 * handlers per event. The first handler registered for an event heads its
 * chain; every later one is linked after the current tail.
 */
module EventManager {
  import opened Handlers
  import opened Chainable

  /** Where a registered handler sits: its event, its position in that event's
      chain, and the `next` field it holds. */
  datatype Slot = Slot(event: string, index: nat, next: ChainableHandler?)

  /** `chain` is event `e`'s chain in `slots`: each handler sits at its own
      position and holds the one after it, the last one `null`. */
  ghost predicate Placed(e: string, chain: seq<ChainableHandler>, slots: map<ChainableHandler, Slot>) {
    (forall i :: 0 <= i < |chain| ==> chain[i] in slots && slots[chain[i]].event == e && slots[chain[i]].index == i)
    && (forall i {:trigger slots[chain[i]]} :: 0 <= i < |chain| - 1 ==> slots[chain[i]].next == chain[i + 1])
    && (chain != [] ==> slots[chain[|chain| - 1]].next == null)
  }

  /** The manager's bookkeeping, as values: every event's chain is non-empty,
      headed by the registered head and placed in `slots`. */
  ghost predicate WellFormed(chains: map<string, ChainableHandler>, lists: map<string, seq<ChainableHandler>>,
                             slots: map<ChainableHandler, Slot>)
  {
    chains.Keys == lists.Keys
    && (forall e :: e in lists ==> lists[e] != [] && lists[e][0] == chains[e] && Placed(e, lists[e], slots))
  }

  /** The slots after linking `handler` after `last`, at position `n` of `event`'s chain. */
  ghost function Relinked(slots: map<ChainableHandler, Slot>, last: ChainableHandler, handler: ChainableHandler,
                          event: string, n: nat): map<ChainableHandler, Slot>
    requires last in slots
  {
    slots[last := slots[last].(next := handler)][handler := Slot(event, n, null)]
  }

  /** The manager owns only the map from events to the heads of their chains;
      the chains themselves live in the handlers' `next` fields. Its contracts
      describe them by two ghost values passed alongside: `lists`, each event's
      chain in registration order, and `slots`, where each registered handler
      sits. */
  class EventHandlerManager {
    /** `handlers`: the head of each event's chain. */
    var chains: map<string, ChainableHandler>

    /** `lists` and `slots` describe the manager's chains. */
    ghost predicate Valid(lists: map<string, seq<ChainableHandler>>, slots: map<ChainableHandler, Slot>)
      reads this, slots.Keys
    {
      WellFormed(chains, lists, slots)
      && (forall h :: h in slots ==> h.next == slots[h].next)
    }

    constructor ()
      ensures chains == map[] && Valid(map[], map[])
    {
      chains := map[];
    }

    /** `register`: a new event's chain is the handler alone; otherwise the
        handler is linked after the tail of the event's chain. Other events'
        chains are unchanged. The handler must be new to the manager: linking
        a handler already in a chain would make the chain a cycle. */
    method Register(event: string, handler: ChainableHandler,
                    ghost lists: map<string, seq<ChainableHandler>>, ghost slots: map<ChainableHandler, Slot>)
      returns (ghost lists': map<string, seq<ChainableHandler>>, ghost slots': map<ChainableHandler, Slot>)
      requires Valid(lists, slots)
      requires handler !in slots && handler.next == null
      modifies this, slots.Keys
      ensures Valid(lists', slots') && slots'.Keys == slots.Keys + {handler}
      ensures event !in old(chains) ==> chains == old(chains)[event := handler] && lists' == lists[event := [handler]]
      ensures event in old(chains) ==> chains == old(chains) && lists' == lists[event := lists[event] + [handler]]
    {
      if event !in chains {
        NewEvent(chains, lists, slots, event, handler);
        chains := chains[event := handler];
        lists', slots' := lists[event := [handler]], slots[handler := Slot(event, 0, null)];
        forall h | h in slots'
          ensures h.next == slots'[h].next
        {
          if h != handler {
            assert h in slots;
          }
        }
      } else {
        var last := TailOf(event, lists, slots);
        ghost var list := lists[event];
        Appended(chains, lists, slots, event, handler);
        assert last as object != this as object;
        slots' := LinkAfter(last, handler, event, |list|, slots);
        assert chains == old(chains);
        assert slots'.Keys == slots.Keys + {handler};
        lists' := lists[event := list + [handler]];
      }
    }

    /** The walk of `register` along `next` from an event's head: it stops at
        the last handler of the event's chain. */
    method TailOf(event: string, ghost lists: map<string, seq<ChainableHandler>>, ghost slots: map<ChainableHandler, Slot>)
      returns (last: ChainableHandler)
      requires Valid(lists, slots) && event in chains
      ensures event in lists && last == lists[event][|lists[event]| - 1]
    {
      ChainOf(this, event, lists, slots);
      last := Tail(chains[event], lists[event]);
    }

    /** The listener `attach` installs for an event: the chain's head executes
        the update, so every handler registered for the event runs once, in
        registration order. */
    method Dispatch(event: string, ctx: Context,
                    ghost lists: map<string, seq<ChainableHandler>>, ghost slots: map<ChainableHandler, Slot>)
      returns (runs: seq<Execution>)
      requires Valid(lists, slots) && event in chains
      ensures event in lists && |runs| == |lists[event]|
      ensures forall i :: 0 <= i < |runs| ==> runs[i] == ExecuteOn(lists[event][i].handler, ctx)
    {
      ChainOf(this, event, lists, slots);
      runs := chains[event].Execute(ctx, lists[event]);
    }
  }

  /** The link `register` makes in its second branch: `last.setNext(handler)`.
      The `next` fields still agree with the slots once the handler is placed
      after `last`. */
  method LinkAfter(last: ChainableHandler, handler: ChainableHandler, ghost event: string, ghost n: nat,
                   ghost slots: map<ChainableHandler, Slot>)
    returns (ghost slots': map<ChainableHandler, Slot>)
    requires last in slots && handler !in slots && handler.next == null
    requires forall h :: h in slots ==> h.next == slots[h].next
    modifies last
    ensures slots' == Relinked(slots, last, handler, event, n)
    ensures forall h :: h in slots' ==> h.next == slots'[h].next
  {
    slots' := Relinked(slots, last, handler, event, n);
    var _ := last.SetNext(handler);
    forall h | h in slots'
      ensures h.next == slots'[h].next
    {
      if h != last && h != handler {
        assert h in slots;
      }
    }
  }

  /** The walk of `register` along `next` from the head: it stops at the last
      handler of the chain. */
  method Tail(head: ChainableHandler, ghost chain: seq<ChainableHandler>) returns (last: ChainableHandler)
    requires IsChain(chain) && chain != [] && chain[0] == head
    ensures last == chain[|chain| - 1]
  {
    last := head;
    ghost var k := 0;
    while last.next != null
      invariant 0 <= k < |chain| && last == chain[k]
      invariant last.next == if k < |chain| - 1 then chain[k + 1] else null
      decreases |chain| - k
    {
      last := last.next;
      k := k + 1;
    }
  }

  /** In a valid manager each event's list is the chain the `next` fields form. */
  lemma ChainOf(m: EventHandlerManager, event: string,
                lists: map<string, seq<ChainableHandler>>, slots: map<ChainableHandler, Slot>)
    requires m.Valid(lists, slots) && event in m.chains
    ensures event in lists && IsChain(lists[event]) && lists[event] != [] && lists[event][0] == m.chains[event]
  {
    var chain := lists[event];
    assert Placed(event, chain, slots);
    forall i | 0 <= i < |chain|
      ensures chain[i].next == if i < |chain| - 1 then chain[i + 1] else null
    {
      assert chain[i] in slots && slots[chain[i]].next == if i < |chain| - 1 then chain[i + 1] else null;
    }
  }

  /** No handler sits in two places: not twice in one chain, not in two chains. */
  lemma NoSharedHandlers(chains: map<string, ChainableHandler>, lists: map<string, seq<ChainableHandler>>,
                         slots: map<ChainableHandler, Slot>, e: string, f: string, i: nat, j: nat)
    requires WellFormed(chains, lists, slots)
    requires e in lists && f in lists && i < |lists[e]| && j < |lists[f]| && lists[e][i] == lists[f][j]
    ensures e == f && i == j
  {
    assert Placed(e, lists[e], slots);
    assert Placed(f, lists[f], slots);
    assert slots[lists[e][i]].index == i && slots[lists[e][i]].event == e;
    assert slots[lists[f][j]].index == j && slots[lists[f][j]].event == f;
  }

  /** A chain stays placed when the slots of other handlers change. */
  lemma PlacedAgree(e: string, c: seq<ChainableHandler>, slots: map<ChainableHandler, Slot>,
                    slots': map<ChainableHandler, Slot>)
    requires Placed(e, c, slots)
    requires forall h :: h in slots && slots[h].event == e ==> h in slots' && slots'[h] == slots[h]
    ensures Placed(e, c, slots')
  {
    forall i | 0 <= i < |c|
      ensures c[i] in slots' && slots'[c[i]] == slots[c[i]]
    {
      assert c[i] in slots && slots[c[i]].event == e;
    }
  }

  /** A new event's one-handler chain keeps the bookkeeping well formed. */
  lemma NewEvent(chains: map<string, ChainableHandler>, lists: map<string, seq<ChainableHandler>>,
                 slots: map<ChainableHandler, Slot>, event: string, handler: ChainableHandler)
    requires WellFormed(chains, lists, slots) && event !in lists && handler !in slots
    ensures WellFormed(chains[event := handler], lists[event := [handler]], slots[handler := Slot(event, 0, null)])
  {
    var lists' := lists[event := [handler]];
    var slots' := slots[handler := Slot(event, 0, null)];
    forall e | e in lists'
      ensures lists'[e] != [] && lists'[e][0] == chains[event := handler][e] && Placed(e, lists'[e], slots')
    {
      if e != event {
        PlacedAgree(e, lists[e], slots, slots');
      }
    }
  }

  /** Pointing the tail of event `e`'s chain at a new handler, placed after it,
      places the chain with the handler appended. */
  lemma PlacedAppend(e: string, c: seq<ChainableHandler>, slots: map<ChainableHandler, Slot>, handler: ChainableHandler)
    requires Placed(e, c, slots) && c != [] && handler !in slots
    ensures c[|c| - 1] in slots && Placed(e, c + [handler], Relinked(slots, c[|c| - 1], handler, e, |c|))
  {
    var last := c[|c| - 1];
    assert last in slots;
    var slots' := Relinked(slots, last, handler, e, |c|);
    var c' := c + [handler];
    forall i | 0 <= i < |c'|
      ensures c'[i] in slots' && slots'[c'[i]].event == e && slots'[c'[i]].index == i
    {
      if i < |c| {
        assert c'[i] == c[i] && c[i] in slots;
      }
    }
    forall i | 0 <= i < |c'| - 1
      ensures slots'[c'[i]].next == c'[i + 1]
    {
      if i < |c| - 1 {
        assert c'[i] == c[i] && c'[i + 1] == c[i + 1];
        assert c[i] != last by {
          assert slots[c[i]].index == i;
        }
      }
    }
  }

  /** Linking a new handler after an event's tail keeps the bookkeeping well
      formed. */
  lemma Appended(chains: map<string, ChainableHandler>, lists: map<string, seq<ChainableHandler>>,
                 slots: map<ChainableHandler, Slot>, event: string, handler: ChainableHandler)
    requires WellFormed(chains, lists, slots) && event in lists && handler !in slots
    ensures var list := lists[event]; var last := list[|list| - 1];
      last in slots
      && WellFormed(chains, lists[event := list + [handler]], Relinked(slots, last, handler, event, |list|))
  {
    var list := lists[event];
    var last := list[|list| - 1];
    assert Placed(event, list, slots);
    var lists' := lists[event := list + [handler]];
    var slots' := Relinked(slots, last, handler, event, |list|);
    forall e | e in lists'
      ensures lists'[e] != [] && lists'[e][0] == chains[e] && Placed(e, lists'[e], slots')
    {
      if e == event {
        PlacedAppend(e, list, slots, handler);
      } else {
        PlacedAgree(e, lists[e], slots, slots');
      }
    }
  }
}
