/** Waiting for report acknowledgements on the agent (internal/uplink/grpc.go). */
module Uplink {

  datatype Kind = Unspecified | Results | Audit | Inventory

  /** A pending `SendReliable`: the ids of its batch that no ack has named yet. The tag stands
      for the identity of the waiter and of its result channel. */
  datatype Waiter = Waiter(tag: nat, kind: Kind, ids: set<string>)

  datatype Ack = Ack(kind: Kind, ids: seq<string>)

  /** What is put into a waiter's channel: nil, or an error. */
  datatype Signal = Done | Failed

  /** The waiter list and the channel contents. */
  datatype Waiting = Waiting(list: seq<Waiter>, ch: map<nat, seq<Signal>>)

  const IDLE := Waiting([], map[])

  function Named(ack: Ack): set<string> {
    set i | 0 <= i < |ack.ids| :: ack.ids[i]
  }

  function Touch(w: Waiter, ack: Ack): Waiter {
    if w.kind == ack.kind then w.(ids := w.ids - Named(ack)) else w
  }

  predicate Resolves(w: Waiter, ack: Ack) {
    w.kind == ack.kind && w.ids <= Named(ack)
  }

  /** The waiters an ack leaves waiting, in their old order. */
  function Kept(ws: seq<Waiter>, ack: Ack): seq<Waiter> {
    if ws == [] then []
    else
      var w := ws[|ws| - 1];
      Kept(ws[..|ws| - 1], ack) + if Resolves(w, ack) then [] else [Touch(w, ack)]
  }

  function Send(ch: map<nat, seq<Signal>>, tag: nat, s: Signal): map<nat, seq<Signal>> {
    ch[tag := (if tag in ch then ch[tag] else []) + [s]]
  }

  function Notified(ch: map<nat, seq<Signal>>, ws: seq<Waiter>, ack: Ack): map<nat, seq<Signal>> {
    if ws == [] then ch
    else
      var w, rest := ws[|ws| - 1], Notified(ch, ws[..|ws| - 1], ack);
      if Resolves(w, ack) then Send(rest, w.tag, Done) else rest
  }

  function FailedAll(ch: map<nat, seq<Signal>>, ws: seq<Waiter>): map<nat, seq<Signal>> {
    if ws == [] then ch else Send(FailedAll(ch, ws[..|ws| - 1]), ws[|ws| - 1].tag, Failed)
  }

  function Without(ws: seq<Waiter>, tag: nat): seq<Waiter> {
    if ws == [] then []
    else if ws[0].tag == tag then ws[1..]
    else [ws[0]] + Without(ws[1..], tag)
  }

  /** Everything that can happen to the waiters. */
  datatype Event =
    | Register(w: Waiter)
    | Receive(ack: Ack)
    | Disconnect
    | SendError(tag: nat)
    | Remove(tag: nat)

  function Next(s: Waiting, ev: Event): Waiting {
    match ev
    case Register(w) => s.(list := s.list + [w])
    case Receive(ack) => Waiting(Kept(s.list, ack), Notified(s.ch, s.list, ack))
    case Disconnect => Waiting([], FailedAll(s.ch, s.list))
    case SendError(tag) => s.(ch := Send(s.ch, tag, Failed))
    case Remove(tag) => s.(list := Without(s.list, tag))
  }

  lemma KeptNone(ch: map<nat, seq<Signal>>, ack: Ack)
    ensures Kept([], ack) == [] && Notified(ch, [], ack) == ch
  {
  }

  lemma KeptSnoc(ws: seq<Waiter>, i: nat, ack: Ack)
    requires i < |ws|
    ensures Kept(ws[..i + 1], ack) == Kept(ws[..i], ack) + if Resolves(ws[i], ack) then [] else [Touch(ws[i], ack)]
    ensures forall ch :: (
              Notified(ch, ws[..i + 1], ack)
              == if Resolves(ws[i], ack) then Send(Notified(ch, ws[..i], ack), ws[i].tag, Done)
                 else Notified(ch, ws[..i], ack))
  {
    assert ws[..i + 1][..i] == ws[..i];
  }

  /** Deleting the ids of an ack one by one. */
  method StrikeOff(ids: set<string>, ack: Ack) returns (left: set<string>)
    ensures left == ids - Named(ack)
    ensures left == {} <==> ids <= Named(ack)
  {
    left := ids;
    for k := 0 to |ack.ids|
      invariant left == ids - Named(Ack(ack.kind, ack.ids[..k]))
    {
      assert Named(Ack(ack.kind, ack.ids[..k + 1])) == Named(Ack(ack.kind, ack.ids[..k])) + {ack.ids[k]};
      left := left - {ack.ids[k]};
    }
    assert ack.ids[..|ack.ids|] == ack.ids;
    if left == {} {
      forall id | id in ids ensures id in Named(ack) { assert id !in left; }
    }
  }

  /** The waiter list of the uplink. It is filtered in place: kept waiters move towards the
      front of the slice that is being ranged over. */
  class GRPCUplink {
    var slots: array<Waiter>
    var count: nat
    var ch: map<nat, seq<Signal>>

    ghost predicate Valid()
      reads this
    {
      count <= slots.Length
    }

    ghost function State(): Waiting
      reads this, slots
      requires Valid()
    {
      Waiting(slots[..count], ch)
    }

    constructor ()
      ensures Valid() && fresh(slots) && State() == IDLE
    {
      slots, count, ch := new Waiter[0], 0, map[];
    }

    /** Registering appends to the slice, which grows by reallocation. */
    method Add(w: Waiter)
      requires Valid()
      modifies this, slots
      ensures Valid() && (slots == old(slots) || fresh(slots))
      ensures State() == Next(old(State()), Register(w))
    {
      if count == slots.Length {
        var bigger := new Waiter[2 * count + 1](_ => w);
        for i := 0 to count
          invariant count == old(count) && slots == old(slots) && ch == old(ch) && slots[..count] == old(slots[..count])
          invariant bigger[..i] == slots[..i]
        {
          bigger[i] := slots[i];
        }
        slots := bigger;
      }
      assert slots[..count] == old(slots[..count]);
      slots[count] := w;
      count := count + 1;
      assert slots[..count] == old(slots[..count]) + [w];
    }

    method ReceiveAck(ack: Ack)
      requires Valid()
      modifies this`count, this`ch, slots
      ensures Valid()
      ensures State() == Next(old(State()), Receive(ack))
    {
      hide Kept, Notified, Send, Named;
      KeptNone(ch, ack);
      ghost var all := slots[..count];
      var kept := 0;
      for i := 0 to count
        invariant kept <= i && count == old(count)
        invariant slots[..kept] == Kept(all[..i], ack)
        invariant slots[i..count] == all[i..]
        invariant ch == Notified(old(ch), all[..i], ack)
      {
        var w := slots[i];
        ghost var front := slots[..kept];
        KeptSnoc(all, i, ack);
        var ids := w.ids;
        if w.kind == ack.kind {
          ids := StrikeOff(w.ids, ack);
        }
        assert front + [] == front;
        if w.kind == ack.kind && ids == {} {
          ch := Send(ch, w.tag, Done);
        } else {
          slots[kept] := w.(ids := ids);
          kept := kept + 1;
          assert slots[..kept] == front + [Touch(w, ack)];
        }
      }
      assert all[..count] == all;
      count := kept;
    }

    method FailAllWaiters()
      requires Valid()
      modifies this`count, this`ch
      ensures Valid()
      ensures State() == Next(old(State()), Disconnect)
    {
      ghost var all := slots[..count];
      for i := 0 to count
        invariant count == old(count)
        invariant ch == FailedAll(old(ch), all[..i])
      {
        assert all[..i + 1][..i] == all[..i];
        ch := Send(ch, slots[i].tag, Failed);
      }
      assert all[..count] == all;
      count := 0;
    }

    /** The first waiter with the given identity is cut out of the slice. */
    method RemoveWaiter(tag: nat)
      requires Valid()
      modifies this`count, slots
      ensures Valid()
      ensures State() == Next(old(State()), Remove(tag))
    {
      ghost var all := slots[..count];
      for i := 0 to count
        invariant count == old(count) && slots[..count] == all
        invariant forall k :: 0 <= k < i ==> all[k].tag != tag
      {
        if slots[i].tag == tag {
          assert slots[..i] == all[..i] && slots[i + 1..count] == all[i + 1..];
          WithoutAt(all, tag, i);
          CloseGap(slots, i, count);
          count := count - 1;
          return;
        }
      }
      WithoutNone(all, tag);
    }
  }

  /** The elements behind position `i` move up by one. */
  method CloseGap(a: array<Waiter>, i: nat, n: nat)
    requires i < n <= a.Length
    modifies a
    ensures a[..n - 1] == old(a[..i]) + old(a[i + 1..n])
  {
    for k := i + 1 to n
      invariant forall j :: 0 <= j < k - 1 ==> a[j] == if j < i then old(a[j]) else old(a[j + 1])
      invariant forall j :: k <= j < n ==> a[j] == old(a[j])
    {
      a[k - 1] := a[k];
    }
  }

  lemma {:induction false} WithoutAt(ws: seq<Waiter>, tag: nat, i: nat)
    requires i < |ws| && ws[i].tag == tag && forall k :: 0 <= k < i ==> ws[k].tag != tag
    ensures Without(ws, tag) == ws[..i] + ws[i + 1..]
    decreases i
  {
    if i == 0 {
    } else {
      WithoutAt(ws[1..], tag, i - 1);
    }
  }

  lemma {:induction false} WithoutNone(ws: seq<Waiter>, tag: nat)
    requires forall k :: 0 <= k < |ws| ==> ws[k].tag != tag
    ensures Without(ws, tag) == ws
  {
    if ws == [] {
    } else {
      WithoutNone(ws[1..], tag);
    }
  }
}
