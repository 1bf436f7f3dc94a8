// The cancel/wait rendezvous: waiters and signals meet in one list.
// Models libminkteec/src/CWait.c, every critical section under `lock` taken as one step.

module CWaits {

  /** A 32-bit mask of event bits, written as the set of its one bits. */
  type Events = set<nat>

  type Code = x: int | 0 <= x < 0x1_0000_0000

  /** A list_item; `id` is its identity, the address malloc gave it. */
  datatype Item =
    | Waiter(id: nat, code: Code, events: Events, signaled: bool)
    | Signal(id: nat, code: Code, events: Events)

  /** The test of signal_waiter_item. */
  predicate Wakes(it: Item, code: Code, events: Events) {
    it.Waiter? && it.events * events != {} && (it.code == 0 || it.code == code)
  }

  /** The test of get_signal_item. */
  predicate Serves(it: Item, code: Code, events: Events) {
    it.Signal? && it.events * events != {} && (it.code == code || it.code == 0)
  }

  /** The first waiter the signal wakes; the length of the list if there is none. */
  function FirstWoken(list: seq<Item>, code: Code, events: Events): (k: nat)
    ensures k <= |list| && (k < |list| ==> Wakes(list[k], code, events))
    ensures forall i :: 0 <= i < k ==> !Wakes(list[i], code, events)
  {
    if list == [] || Wakes(list[0], code, events) then 0 else 1 + FirstWoken(list[1..], code, events)
  }

  /** The first queued signal that serves the wait. */
  function FirstServing(list: seq<Item>, code: Code, events: Events): (k: nat)
    ensures k <= |list| && (k < |list| ==> Serves(list[k], code, events))
    ensures forall i :: 0 <= i < k ==> !Serves(list[i], code, events)
  {
    if list == [] || Serves(list[0], code, events) then 0 else 1 + FirstServing(list[1..], code, events)
  }

  /** The waiter is marked, and keeps only the events that were signalled. */
  function Woken(it: Item, events: Events): Item
    requires it.Waiter?
  {
    it.(signaled := true, events := it.events * events)
  }

  /** `alloc` is whether malloc has an item for a signal that no waiter takes. */
  function SignalList(list: seq<Item>, id: nat, code: Code, events: Events, alloc: bool): seq<Item> {
    var k := FirstWoken(list, code, events);
    if k < |list| then list[k := Woken(list[k], events)]
    else if code != 0 && alloc then list + [Signal(id, code, events)]
    else list
  }

  function WaitList(list: seq<Item>, id: nat, code: Code, events: Events): seq<Item> {
    var k := FirstServing(list, code, events);
    if k < |list| then list[..k] + list[k + 1..] else list + [Waiter(id, code, events, false)]
  }

  predicate IsWaiter(it: Item, id: nat) { it.Waiter? && it.id == id }

  predicate Listed(list: seq<Item>, id: nat) {
    exists i :: 0 <= i < |list| && IsWaiter(list[i], id)
  }

  /** The place of a waiter; the length of the list if it is not there. */
  function PlaceOf(list: seq<Item>, id: nat): (k: nat)
    ensures k <= |list| && (k < |list| <==> Listed(list, id))
    ensures k < |list| ==> IsWaiter(list[k], id)
  {
    if list == [] || IsWaiter(list[0], id) then 0
    else
      assert Listed(list[1..], id) ==> Listed(list, id);
      1 + PlaceOf(list[1..], id)
  }

  predicate SameItem(a: Item, b: Item) {
    a.Waiter? == b.Waiter? && a.id == b.id
  }

  /** No item is in the list twice. */
  ghost predicate Once(list: seq<Item>) {
    forall i, j :: 0 <= i < j < |list| ==> !SameItem(list[i], list[j])
  }

  lemma CutOut(list: seq<Item>, id: nat, n: nat)
    requires n < |list| && IsWaiter(list[n], id)
    ensures Once(list) ==> !Listed(list[..n] + list[n + 1..], id)
  {
    var rest := list[..n] + list[n + 1..];
    if Once(list) {
      forall i | 0 <= i < |rest| ensures !IsWaiter(rest[i], id) {
        var j := if i < n then i else i + 1;
        assert rest[i] == list[j] && !SameItem(list[n], list[j]) && !SameItem(list[j], list[n]);
      }
    }
  }

  class CWait {
    var list: seq<Item>

    constructor ()
      ensures list == []
    {
      list := [];
    }

    /** signal_waiter_item */
    method SignalWaiterItem(code: Code, events: Events) returns (signaled: bool)
      modifies this
      ensures var k := FirstWoken(old(list), code, events);
              && signaled == (k < |old(list)|)
              && list == if signaled then old(list)[k := Woken(old(list)[k], events)] else old(list)
    {
      var n := 0;
      while n < |list|
        invariant n <= |list| && list == old(list)
        invariant FirstWoken(list, code, events) == n + FirstWoken(list[n..], code, events)
      {
        if Wakes(list[n], code, events) {
          list := list[n := Woken(list[n], events)];
          return true;
        }
        n := n + 1;
      }
      return false;
    }

    /** get_signal_item */
    method GetSignalItem(code: Code, events: Events) returns (found: bool, eventsOut: Events)
      modifies this
      ensures var k := FirstServing(old(list), code, events);
              && found == (k < |old(list)|)
              && list == (if found then old(list)[..k] + old(list)[k + 1..] else old(list))
              && eventsOut == if found then old(list)[k].events * events else {}
    {
      var n := 0;
      while n < |list|
        invariant n <= |list| && list == old(list)
        invariant FirstServing(list, code, events) == n + FirstServing(list[n..], code, events)
      {
        if Serves(list[n], code, events) {
          eventsOut := list[n].events * events;
          list := list[..n] + list[n + 1..];
          return true, eventsOut;
        }
        n := n + 1;
      }
      return false, {};
    }

    /** CWait_signal; `id` is the item malloc would hand out. When it has none the signal is dropped. */
    method Signal(id: nat, code: Code, events: Events, alloc: bool)
      modifies this
      ensures list == SignalList(old(list), id, code, events, alloc)
    {
      var signaled := SignalWaiterItem(code, events);
      if !signaled && code != 0 && alloc {
        list := list + [Item.Signal(id, code, events)];
      }
    }

    /** The first critical section of CWait_wait: take a queued signal, or queue up for one. */
    method Wait(id: nat, code: Code, events: Events) returns (served: bool, eventsOut: Events)
      modifies this
      ensures list == WaitList(old(list), id, code, events)
      ensures var k := FirstServing(old(list), code, events);
              && served == (k < |old(list)|)
              && eventsOut == if served then old(list)[k].events * events else {}
    {
      served, eventsOut := GetSignalItem(code, events);
      if !served {
        list := list + [Waiter(id, code, events, false)];
      }
    }

    /** clear_waiter_item: the waiter is cut out at its place, the others keep their order, and in a
        list without duplicates no item of that waiter is left. */
    method Clear(id: nat)
      requires Listed(list, id)
      modifies this
      ensures var k := PlaceOf(old(list), id); list == old(list)[..k] + old(list)[k + 1..]
      ensures Once(old(list)) ==> !Listed(list, id)
    {
      hide Once;
      var n := 0;
      while !IsWaiter(list[n], id)
        invariant n < |list| && list == old(list)
        invariant PlaceOf(list, id) == n + PlaceOf(list[n..], id)
        decreases |list| - n
      {
        n := n + 1;
        assert list[n - 1..][1..] == list[n..];
      }
      CutOut(list, id, n);
      list := list[..n] + list[n + 1..];
    }
  }
}
