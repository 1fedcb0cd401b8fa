/** The command mailbox of the connector (internal/connector/mailbox.go). */
module Mailbox {
  import opened Options

  datatype CommandState = Queued | Dispatched | Expired | Terminal

  /** What a command asks for. */
  datatype Order = Order(action: string, params: map<string, string>, timeoutSec: int)

  datatype Command = Command(
    order: Order, state: CommandState, queuedAt: int, expiresAt: int, result: Option<string>)

  /** The maps of the mailbox. Both the per-asset queues and the index refer to a command by its
      id, which never changes and is never reused. */
  datatype Box = Box(
    byAsset: map<string, seq<string>>,
    byID: map<string, Command>,
    pendingCancels: map<string, seq<string>>)

  const EMPTY := Box(map[], map[], map[])

  datatype Outcome = Accepted | MailboxFull | DuplicateId

  function At<V>(m: map<string, seq<V>>, k: string): seq<V> {
    if k in m then m[k] else []
  }

  predicate IsPending(byID: map<string, Command>, id: string) {
    id in byID && (byID[id].state.Queued? || byID[id].state.Dispatched?)
  }

  function Pending(byID: map<string, Command>, q: seq<string>): nat {
    if q == [] then 0
    else Pending(byID, q[..|q| - 1]) + if IsPending(byID, q[|q| - 1]) then 1 else 0
  }

  function Submit(b: Box, perAsset: int, asset: string, id: string, c: Command): (Box, Outcome) {
    if id in b.byID then (b, DuplicateId)
    else if Pending(b.byID, At(b.byAsset, asset)) >= perAsset then (b, MailboxFull)
    else (b.(byAsset := b.byAsset[asset := At(b.byAsset, asset) + [id]], byID := b.byID[id := c]), Accepted)
  }

  /** Cancelling a queued command expires it; a dispatched one gets a cancel frame. The result
      says whether a frame is needed, `None` if there is nothing to cancel. */
  function Cancel(b: Box, asset: string, id: string): (Box, Option<bool>) {
    if id !in b.byID || b.byID[id].state.Terminal? || b.byID[id].state.Expired? then (b, None)
    else if b.byID[id].state.Queued? then (b.(byID := b.byID[id := b.byID[id].(state := Expired)]), Some(false))
    else (b.(pendingCancels := b.pendingCancels[asset := At(b.pendingCancels, asset) + [id]]), Some(true))
  }

  function Complete(b: Box, id: string, result: string): Box {
    if id in b.byID then b.(byID := b.byID[id := b.byID[id].(state := Terminal, result := Some(result))]) else b
  }

  /** The sweep over one queue: commands handed out, ids kept, and the updated index. */
  datatype Sweep = Sweep(byID: map<string, Command>, kept: seq<string>, cmds: seq<string>)

  function SweepOne(s: Sweep, id: string, now: int): Sweep
    requires id in s.byID
  {
    var c := s.byID[id];
    match c.state
    case Queued =>
      if now > c.expiresAt then s.(byID := s.byID[id := c.(state := Expired)])
      else Sweep(s.byID[id := c.(state := Dispatched)], s.kept + [id], s.cmds + [id])
    case Dispatched =>
      if now > c.expiresAt then s.(byID := s.byID[id := c.(state := Expired)])
      else s.(kept := s.kept + [id])
    case _ => s.(kept := s.kept + [id])
  }

  predicate Indexed(byID: map<string, Command>, q: seq<string>) {
    forall i :: 0 <= i < |q| ==> q[i] in byID
  }

  /** Every queued id is in the index. */
  predicate Linked(b: Box) {
    forall a :: a in b.byAsset ==> Indexed(b.byID, b.byAsset[a])
  }

  function SweepAll(byID: map<string, Command>, q: seq<string>, now: int): (s: Sweep)
    requires Indexed(byID, q)
    ensures s.byID.Keys == byID.Keys
  {
    if q == [] then Sweep(byID, [], [])
    else SweepOne(SweepAll(byID, q[..|q| - 1], now), q[|q| - 1], now)
  }

  function NextDispatch(b: Box, asset: string, now: int): (Box, seq<string>, seq<string>)
    requires Indexed(b.byID, At(b.byAsset, asset))
  {
    var s := SweepAll(b.byID, At(b.byAsset, asset), now);
    (Box(b.byAsset[asset := s.kept], s.byID, b.pendingCancels[asset := []]), s.cmds, At(b.pendingCancels, asset))
  }

  /** The mailbox. Every method runs under its lock. */
  class Mailbox {
    const perAsset: int
    const ttl: int
    var byAsset: map<string, seq<string>>
    var byID: map<string, Command>
    var pendingCancels: map<string, seq<string>>

    ghost function State(): Box
      reads this
    {
      Box(byAsset, byID, pendingCancels)
    }

    ghost predicate Valid()
      reads this
    {
      Linked(State())
    }

    constructor (perAsset: int, ttl: int)
      ensures Valid() && State() == EMPTY && this.perAsset == perAsset && this.ttl == ttl
    {
      this.perAsset, this.ttl := perAsset, ttl;
      byAsset, byID, pendingCancels := map[], map[], map[];
    }

    method SubmitCommand(asset: string, id: string, order: Order, now: int, later: int) returns (outcome: Outcome)
      requires Valid()
      modifies this`byAsset, this`byID
      ensures Valid()
      ensures (State(), outcome)
           == Submit(old(State()), perAsset, asset, id, Command(order, Queued, now, later + ttl, None))
    {
      if id in byID {
        return DuplicateId;
      }
      var q, pending := At(byAsset, asset), 0;
      for i := 0 to |q|
        invariant pending == Pending(byID, q[..i])
      {
        assert q[..i + 1][..i] == q[..i];
        if q[i] in byID && (byID[q[i]].state == Queued || byID[q[i]].state == Dispatched) {
          pending := pending + 1;
        }
      }
      assert q[..|q|] == q;
      if pending >= perAsset {
        return MailboxFull;
      }
      byAsset := byAsset[asset := q + [id]];
      byID := byID[id := Command(order, Queued, now, later + ttl, None)];
      return Accepted;
    }

    method CancelCommand(asset: string, id: string) returns (needPush: Option<bool>)
      requires Valid()
      modifies this`byID, this`pendingCancels
      ensures Valid()
      ensures (State(), needPush) == Cancel(old(State()), asset, id)
    {
      if id !in byID || byID[id].state == Terminal || byID[id].state == Expired {
        return None;
      }
      if byID[id].state == Queued {
        byID := byID[id := byID[id].(state := Expired)];
        return Some(false);
      }
      pendingCancels := pendingCancels[asset := At(pendingCancels, asset) + [id]];
      return Some(true);
    }

    method TakeDispatch(asset: string, now: int) returns (cmds: seq<string>, cancels: seq<string>)
      requires Valid()
      modifies this
      ensures Valid()
      ensures (State(), cmds, cancels) == NextDispatch(old(State()), asset, now)
    {
      var q, kept := At(byAsset, asset), [];
      cmds, cancels := [], [];
      for i := 0 to |q|
        invariant Sweep(byID, kept, cmds) == SweepAll(old(byID), q[..i], now)
        invariant byAsset == old(byAsset) && pendingCancels == old(pendingCancels)
        invariant Indexed(byID, kept)
      {
        assert q[..i + 1][..i] == q[..i];
        var id := q[i];
        var c := byID[id];
        match c.state {
          case Queued =>
            if now > c.expiresAt {
              byID := byID[id := c.(state := Expired)];
              continue;
            }
            byID := byID[id := c.(state := Dispatched)];
            cmds := cmds + [id];
          case Dispatched =>
            if now > c.expiresAt {
              byID := byID[id := c.(state := Expired)];
              continue;
            }
          case _ =>
        }
        kept := kept + [id];
      }
      assert q[..|q|] == q;
      byAsset := byAsset[asset := kept];
      cancels := At(pendingCancels, asset);
      pendingCancels := pendingCancels[asset := []];
    }

    method CompleteCommand(id: string, result: string)
      requires Valid()
      modifies this`byID
      ensures Valid()
      ensures State() == Complete(old(State()), id, result)
    {
      if id in byID {
        byID := byID[id := byID[id].(state := Terminal, result := Some(result))];
      }
    }
  }
}
