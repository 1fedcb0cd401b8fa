/** Everything accepted can still be delivered (internal/reporter/reporter.go,
    internal/uplink/grpc.go, internal/connector/server.go). */
module Deliverable {
  import opened Bytes
  import opened Options
  import opened WalFormat
  import opened WalRead
  import opened WalLog
  import opened WalWrite
  import opened WalHistory
  import opened WalPass
  import opened WalDrains
  import opened Uplink
  import UplinkRuns
  import D = Delivery

  /** The steps of reading, sending, serving and acknowledging; batches of `b` entries are read. */
  predicate Delivers(a: D.Action, b: int) {
    match a
    case OpenRead(_, size) => size == b
    case OpenNext(_) => true
    case SendBatch(_) => true
    case Transmit(_) => true
    case StartServing(_) => true
    case SinkItem(_) => true
    case SendAck(_) => true
    case Receive(_) => true
    case Return(_, saved) => saved
    case _ => false
  }

  predicate OnlyDelivers(acts: seq<D.Action>, b: int) {
    forall i :: 0 <= i < |acts| ==> Delivers(acts[i], b)
  }

  // ---------- Reading a batch ----------

  function WithPass(s: D.System, k: Kind, p: Pass): D.System
    requires k in s.queues
  {
    s.(queues := s.queues[k := s.queues[k].(pass := Some(p))])
  }

  /** The call goes through its files to the end. */
  lemma {:induction false} ScanPhase(crc: Checksum, ident: D.Ident, maxBytes: int, s: D.System, k: Kind, p: Pass, b: int)
      returns (acts: seq<D.Action>, q: Pass)
    requires k in s.queues && LogInv(crc, s.queues[k].log)
    requires PassInv(crc, s.queues[k].log, p) && Undisturbed(s.queues[k].log, p)
    ensures D.Run(crc, ident, maxBytes, WithPass(s, k, p), acts, WithPass(s, k, q)) && OnlyDelivers(acts, b)
    ensures PassInv(crc, s.queues[k].log, q) && Undisturbed(s.queues[k].log, q) && Finished(q)
    ensures (q.start, q.from, q.max) == (p.start, p.from, p.max)
    decreases p.last + 1 - p.next
  {
    hide D.Run, LogInv, PassInv, Undisturbed;
    if Finished(p) {
      D.RunNone(crc, ident, maxBytes, WithPass(s, k, p));
      acts, q := [], p;
    } else {
      var l := s.queues[k].log;
      AdvanceKeeps(crc, l, p);
      AdvanceUndisturbed(crc, l, p);
      assert Listing(l.dir) by { LogShape(crc, l); }
      var rest, r := ScanPhase(crc, ident, maxBytes, s, k, Advance(crc, l, p), b);
      q := r;
      var t := WithPass(s, k, p);
      assert D.Apply(crc, ident, maxBytes, t, D.OpenNext(k)) == WithPass(s, k, Advance(crc, l, p));
      D.RunStep(crc, ident, maxBytes, t, D.OpenNext(k), rest, WithPass(s, k, q));
      acts := [D.OpenNext(k)] + rest;
    }
  }

  // ---------- Serving a report ----------

  /** What does not concern the agent's queues and waiters. */
  predicate SameAgent(s: D.System, s': D.System) {
    s'.queues == s.queues && s'.up == s.up && s.acks <= s'.acks
  }

  lemma {:induction false} SinkPhase(crc: Checksum, ident: D.Ident, maxBytes: int, s: D.System, w: D.Serving, b: int)
      returns (acts: seq<D.Action>, s': D.System)
    requires w in s.serving && w.done <= |w.report.items|
    ensures D.Run(crc, ident, maxBytes, s, acts, s') && OnlyDelivers(acts, b) && SameAgent(s, s')
    ensures Ack(w.report.kind, D.IdsOf(ident, w.report.items)) in s'.acks
    decreases |w.report.items| - w.done
  {
    hide D.Run, D.IdsOf;
    if w.done == |w.report.items| {
      s' := D.Apply(crc, ident, maxBytes, s, D.SendAck(w));
      D.RunNone(crc, ident, maxBytes, s');
      acts := [D.SendAck(w)] + [];
      D.RunStep(crc, ident, maxBytes, s, D.SendAck(w), [], s');
    } else {
      var m := D.Apply(crc, ident, maxBytes, s, D.SinkItem(w));
      var rest, t := SinkPhase(crc, ident, maxBytes, m, w.(done := w.done + 1), b);
      s' := t;
      acts := [D.SinkItem(w)] + rest;
      D.RunStep(crc, ident, maxBytes, s, D.SinkItem(w), rest, s');
    }
  }

  lemma ServePhase(crc: Checksum, ident: D.Ident, maxBytes: int, s: D.System, r: D.Report, b: int)
      returns (acts: seq<D.Action>, s': D.System)
    requires r in s.queued
    ensures D.Run(crc, ident, maxBytes, s, acts, s') && OnlyDelivers(acts, b) && SameAgent(s, s')
    ensures Ack(r.kind, D.IdsOf(ident, r.items)) in s'.acks
  {
    hide D.Run, D.IdsOf;
    var s1 := D.Apply(crc, ident, maxBytes, s, D.Transmit(r));
    var s2 := D.Apply(crc, ident, maxBytes, s1, D.StartServing(r));
    var rest, t := SinkPhase(crc, ident, maxBytes, s2, D.Serving(r, 0), b);
    s' := t;
    D.RunStep(crc, ident, maxBytes, s1, D.StartServing(r), rest, s');
    acts := [D.Transmit(r)] + ([D.StartServing(r)] + rest);
    D.RunStep(crc, ident, maxBytes, s, D.Transmit(r), [D.StartServing(r)] + rest, s');
  }

  // ---------- One batch, from the log to the cursor on disk ----------

  /** No waiter is left. */
  predicate Quiescent(up: UplinkRuns.History) {
    up.now.list == []
  }

  lemma BornTag(up: UplinkRuns.History)
    requires UplinkRuns.Numbered(up)
    ensures |up.born| !in up.born && |up.born| !in up.now.ch
  {
  }

  /** The one waiter registered is told nil by an ack that names all its ids. */
  lemma AckResolves(up: UplinkRuns.History, w: Waiter, ack: Ack)
    requires Quiescent(up) && UplinkRuns.Numbered(up) && w.tag == |up.born| && Resolves(w, ack)
    ensures var up' := UplinkRuns.Advance(UplinkRuns.Advance(up, Register(w)), Receive(ack));
            Quiescent(up') && w.tag in up'.now.ch && up'.now.ch[w.tag] == [Done]
  {
    hide Resolves, Kept, Notified, UplinkRuns.Numbered;
    var ws := [w];
    assert ws[..0] == [] && ws[..1] == ws && [] + [w] == ws;
    BornTag(up);
    KeptNone(up.now.ch, ack);
    KeptSnoc(ws, 0, ack);
    assert Kept(ws, ack) == [];
    assert Notified(up.now.ch, ws, ack) == Send(up.now.ch, w.tag, Done);
  }

  /** The replay loop stands before its next read. */
  predicate Idle(q: D.Queue) {
    q.pass.None? && q.flight.None?
  }

  /** Moreover its cursor is saved. */
  predicate AtRest(q: D.Queue) {
    Idle(q) && q.mem == q.durable && q.memPos == q.durPos
  }

  /** What one batch achieves: the cursor moves on, is saved, and only that queue moves. */
  ghost predicate BatchDone(crc: Checksum, ident: D.Ident, s: D.System, k: Kind, s': D.System) {
    && k in s.queues && k in s'.queues && s'.queues == s.queues[k := s'.queues[k]]
    && AtRest(s'.queues[k]) && s'.queues[k].log == s.queues[k].log
    && s.queues[k].memPos < s'.queues[k].memPos <= |s.queues[k].log.accepted|
    && Quiescent(s'.up) && D.SystemInv(crc, ident, s')
  }

  /** The replay loop reads a batch and hands it over. */
  lemma ReadPhase(crc: Checksum, ident: D.Ident, maxBytes: int, s: D.System, k: Kind, b: nat)
      returns (acts: seq<D.Action>, s': D.System, out: seq<Entry>, next: Cursor)
    requires k in s.queues && LogInv(crc, s.queues[k].log) && Idle(s.queues[k]) && b > 0
    requires Position(crc, s.queues[k].log, s.queues[k].mem, s.queues[k].memPos)
    requires s.queues[k].memPos < |s.queues[k].log.accepted|
    ensures D.Run(crc, ident, maxBytes, s, acts, s') && OnlyDelivers(acts, b)
    ensures 0 < |out| && s.queues[k].memPos + |out| <= |s.queues[k].log.accepted|
    ensures var q, tag := s.queues[k], |s.up.born|;
            s' == s.(queues := s.queues[k := q.(flight := Some(D.Flight(tag, q.memPos, q.memPos + |out|, next)))],
                     up := UplinkRuns.Advance(s.up, Register(Waiter(tag, k, D.IdSet(ident, out)))),
                     queued := s.queued + {D.Report(k, D.Items(ident, out))})
  {
    hide D.Run, LogInv, Position, PassInv, Undisturbed, Round, UplinkRuns.Advance, D.IdSet, D.Items;
    var q := s.queues[k];
    var open, send := D.OpenRead(k, b), D.SendBatch(k);
    assert Listing(q.log.dir) by { LogShape(crc, q.log); }
    OpenKeeps(crc, q.log, q.mem, q.memPos, b);
    var p := Open(q.log, q.mem, q.memPos, b);
    assert Undisturbed(q.log, p) by { OpenUndisturbed(q.log, q.mem, q.memPos, b); }
    var scan, r := ScanPhase(crc, ident, maxBytes, s, k, p, b);
    ScannedAll(crc, q.log, r, q.mem, q.memPos, b);
    assert r.pos == q.memPos + |r.out| by { UndisturbedPos(q.log, r); }
    out, next := r.out, r.cur;
    var s1, s2 := WithPass(s, k, p), WithPass(s, k, r);
    assert D.Apply(crc, ident, maxBytes, s, open) == s1;
    s' := D.Apply(crc, ident, maxBytes, s2, send);
    D.RunNone(crc, ident, maxBytes, s');
    D.RunStep(crc, ident, maxBytes, s2, send, [], s');
    D.RunThen(crc, ident, maxBytes, s1, scan, s2, [send] + [], s');
    acts := [open] + (scan + ([send] + []));
    D.RunStep(crc, ident, maxBytes, s, open, scan + ([send] + []), s');
  }

  /** The ack of a served report names all ids of the batch it came from. */
  lemma ReportResolves(ident: D.Ident, tag: nat, k: Kind, out: seq<Entry>)
    ensures Resolves(Waiter(tag, k, D.IdSet(ident, out)), Ack(k, D.IdsOf(ident, D.Items(ident, out))))
  {
    hide D.IdsOf, D.Items;
    D.ItemsDecode(ident, out);
  }

  /** The ack arrives, `SendReliable` returns nil, and the cursor is saved. */
  lemma ReturnPhase(crc: Checksum, ident: D.Ident, maxBytes: int, s: D.System, k: Kind, ack: Ack, b: int)
      returns (acts: seq<D.Action>, s': D.System)
    requires k in s.queues && s.queues[k].pass.None? && s.queues[k].flight.Some? && ack in s.acks
    requires s.queues[k].log.removed <= s.queues[k].flight.value.upto
    requires var up, tag := UplinkRuns.Advance(s.up, Receive(ack)), s.queues[k].flight.value.tag;
             tag in up.now.ch && up.now.ch[tag] == [Done]
    ensures D.Run(crc, ident, maxBytes, s, acts, s') && OnlyDelivers(acts, b)
    ensures s'.up == UplinkRuns.Advance(s.up, Receive(ack))
    ensures k in s'.queues && s'.queues == s.queues[k := s'.queues[k]] && AtRest(s'.queues[k])
    ensures s'.queues[k].log == s.queues[k].log && s'.queues[k].durPos == s.queues[k].flight.value.upto
  {
    hide D.Run, UplinkRuns.Advance;
    var receive, back := D.Receive(ack), D.Return(k, true);
    var m := D.Apply(crc, ident, maxBytes, s, receive);
    s' := D.Apply(crc, ident, maxBytes, m, back);
    D.RunNone(crc, ident, maxBytes, s');
    D.RunStep(crc, ident, maxBytes, m, back, [], s');
    acts := [receive] + ([back] + []);
    D.RunStep(crc, ident, maxBytes, s, receive, [back] + [], s');
  }

  lemma DeliversNone(b: int)
    ensures OnlyDelivers([], b)
  {
  }

  lemma DeliversBoth(as1: seq<D.Action>, as2: seq<D.Action>, b: int)
    requires OnlyDelivers(as1, b) && OnlyDelivers(as2, b)
    ensures OnlyDelivers(as1 + as2, b)
  {
  }

  lemma BatchPhase(crc: Checksum, ident: D.Ident, maxBytes: int, s: D.System, k: Kind, b: nat)
      returns (acts: seq<D.Action>, s': D.System)
    requires D.SystemInv(crc, ident, s) && Quiescent(s.up) && k in s.queues && Idle(s.queues[k]) && b > 0
    requires s.queues[k].memPos < |s.queues[k].log.accepted|
    ensures D.Run(crc, ident, maxBytes, s, acts, s') && OnlyDelivers(acts, b) && BatchDone(crc, ident, s, k, s')
  {
    hide D.Run, LogInv, Position, UplinkRuns.Advance, UplinkRuns.Numbered, D.IdSet, D.Items, D.IdsOf, D.SystemInv;
    hide Quiescent, OnlyDelivers, Resolves;
    QueueFacts(crc, ident, s, k);
    var read, s1, out, next := ReadPhase(crc, ident, maxBytes, s, k, b);
    var r := D.Report(k, D.Items(ident, out));
    var serve, s2 := ServePhase(crc, ident, maxBytes, s1, r, b);
    var w, ack := Waiter(|s.up.born|, k, D.IdSet(ident, out)), Ack(k, D.IdsOf(ident, r.items));
    ReportResolves(ident, |s.up.born|, k, out);
    AckResolves(s.up, w, ack);
    var last, t := ReturnPhase(crc, ident, maxBytes, s2, k, ack, b);
    s' := t;
    acts := read + (serve + last);
    D.RunThen(crc, ident, maxBytes, s1, serve, s2, last, s');
    D.RunThen(crc, ident, maxBytes, s, read, s1, serve + last, s');
    DeliversBoth(serve, last, b);
    DeliversBoth(read, serve + last, b);
    D.RunKeepsInv(crc, ident, maxBytes, s, acts, s');
  }

  lemma QueueFacts(crc: Checksum, ident: D.Ident, s: D.System, k: Kind)
    requires D.SystemInv(crc, ident, s) && k in s.queues
    ensures var q := s.queues[k];
            && LogInv(crc, q.log) && Position(crc, q.log, q.mem, q.memPos) && q.log.removed <= q.memPos
            && q.durPos <= |q.log.accepted| && q.memPos <= |q.log.accepted|
    ensures UplinkRuns.Numbered(s.up)
  {
  }

  // ---------- All batches of all queues ----------

  /** The loop's cursor has passed everything; the one on disk has if there was anything to save
      since it was `before`, or nothing was unsaved then. */
  predicate CaughtUp(before: D.Queue, q: D.Queue) {
    && Idle(q) && q.log == before.log && q.memPos == |q.log.accepted|
    && (AtRest(before) || before.memPos < |before.log.accepted| ==> AtRest(q))
  }

  lemma {:induction false} DrainQueue(crc: Checksum, ident: D.Ident, maxBytes: int, s: D.System, k: Kind, b: nat)
      returns (acts: seq<D.Action>, s': D.System)
    requires D.SystemInv(crc, ident, s) && Quiescent(s.up) && k in s.queues && Idle(s.queues[k]) && b > 0
    ensures D.Run(crc, ident, maxBytes, s, acts, s') && OnlyDelivers(acts, b)
    ensures D.SystemInv(crc, ident, s') && Quiescent(s'.up) && k in s'.queues && s'.queues == s.queues[k := s'.queues[k]]
    ensures CaughtUp(s.queues[k], s'.queues[k])
    decreases |s.queues[k].log.accepted| - s.queues[k].memPos
  {
    hide D.Run, D.SystemInv, Quiescent, OnlyDelivers, LogInv, Position, UplinkRuns.Numbered;
    QueueFacts(crc, ident, s, k);
    if s.queues[k].memPos == |s.queues[k].log.accepted| {
      D.RunNone(crc, ident, maxBytes, s);
      DeliversNone(b);
      acts, s' := [], s;
    } else {
      var batch, m := BatchPhase(crc, ident, maxBytes, s, k, b);
      var rest, t := DrainQueue(crc, ident, maxBytes, m, k, b);
      s' := t;
      acts := batch + rest;
      D.RunThen(crc, ident, maxBytes, s, batch, m, rest, s');
      DeliversBoth(batch, rest, b);
    }
  }

  lemma {:induction false} DrainAll(crc: Checksum, ident: D.Ident, maxBytes: int, s: D.System, todo: set<Kind>, b: nat)
      returns (acts: seq<D.Action>, s': D.System)
    requires D.SystemInv(crc, ident, s) && Quiescent(s.up) && todo <= s.queues.Keys && b > 0
    requires forall k :: k in todo ==> Idle(s.queues[k])
    ensures D.Run(crc, ident, maxBytes, s, acts, s') && OnlyDelivers(acts, b) && s'.queues.Keys == s.queues.Keys
    ensures forall k :: k in s.queues ==>
              if k in todo then CaughtUp(s.queues[k], s'.queues[k]) else s'.queues[k] == s.queues[k]
    decreases todo
  {
    hide D.Run, D.SystemInv, Quiescent, Idle, CaughtUp, OnlyDelivers;
    if todo == {} {
      D.RunNone(crc, ident, maxBytes, s);
      DeliversNone(b);
      acts, s' := [], s;
    } else {
      var k :| k in todo;
      var first, m := DrainQueue(crc, ident, maxBytes, s, k, b);
      var rest, t := DrainAll(crc, ident, maxBytes, m, todo - {k}, b);
      s' := t;
      acts := first + rest;
      D.RunThen(crc, ident, maxBytes, s, first, m, rest, s');
      DeliversBoth(first, rest, b);
    }
  }

  // ---------- Getting the loops back to where they read ----------

  /** A call of `ReadFrom` in progress comes to its end, whatever the writer has done meanwhile. */
  lemma {:induction false} FinishPass(crc: Checksum, ident: D.Ident, maxBytes: int, s: D.System, k: Kind, p: Pass)
      returns (acts: seq<D.Action>, q: Pass)
    requires k in s.queues && LogInv(crc, s.queues[k].log) && PassInv(crc, s.queues[k].log, p)
    ensures D.Run(crc, ident, maxBytes, WithPass(s, k, p), acts, WithPass(s, k, q)) && Finished(q)
    decreases p.last + 1 - p.next
  {
    hide D.Run, LogInv, PassInv;
    if Finished(p) {
      D.RunNone(crc, ident, maxBytes, WithPass(s, k, p));
      acts, q := [], p;
    } else {
      var l := s.queues[k].log;
      AdvanceKeeps(crc, l, p);
      assert Listing(l.dir) by { LogShape(crc, l); }
      var rest, r := FinishPass(crc, ident, maxBytes, s, k, Advance(crc, l, p));
      q := r;
      var t := WithPass(s, k, p);
      assert D.Apply(crc, ident, maxBytes, t, D.OpenNext(k)) == WithPass(s, k, Advance(crc, l, p));
      D.RunStep(crc, ident, maxBytes, t, D.OpenNext(k), rest, WithPass(s, k, q));
      acts := [D.OpenNext(k)] + rest;
    }
  }

  /** Only the replay loop of one queue has moved, and not its cursors. */
  predicate LoopOnly(s: D.System, k: Kind, s': D.System) {
    && k in s.queues && k in s'.queues && s'.queues == s.queues[k := s'.queues[k]]
    && s'.queues[k] == s.queues[k].(pass := s'.queues[k].pass, flight := s'.queues[k].flight)
  }

  /** A batch that was read but is not wanted: it is empty, or it is sent and times out. */
  lemma DropBatch(crc: Checksum, ident: D.Ident, maxBytes: int, s: D.System, k: Kind) returns (acts: seq<D.Action>, s': D.System)
    requires k in s.queues && s.queues[k].flight.None? && s.queues[k].pass.Some? && Finished(s.queues[k].pass.value)
    ensures D.Run(crc, ident, maxBytes, s, acts, s') && LoopOnly(s, k, s') && Idle(s'.queues[k])
  {
    hide D.Run, UplinkRuns.Advance, D.IdSet, D.Items, Finished;
    if s.queues[k].pass.value.out == [] {
      s' := D.Apply(crc, ident, maxBytes, s, D.EmptyRead(k));
      D.RunNone(crc, ident, maxBytes, s');
      acts := [D.EmptyRead(k)] + [];
      D.RunStep(crc, ident, maxBytes, s, D.EmptyRead(k), [], s');
    } else {
      var m := D.Apply(crc, ident, maxBytes, s, D.SendBatch(k));
      s' := D.Apply(crc, ident, maxBytes, m, D.Timeout(k));
      D.RunNone(crc, ident, maxBytes, s');
      D.RunStep(crc, ident, maxBytes, m, D.Timeout(k), [], s');
      acts := [D.SendBatch(k)] + ([D.Timeout(k)] + []);
      D.RunStep(crc, ident, maxBytes, s, D.SendBatch(k), [D.Timeout(k)] + [], s');
    }
  }

  lemma EndRead(crc: Checksum, ident: D.Ident, maxBytes: int, s: D.System, k: Kind) returns (acts: seq<D.Action>, s': D.System)
    requires D.SystemInv(crc, ident, s) && k in s.queues && s.queues[k].pass.Some?
    ensures D.Run(crc, ident, maxBytes, s, acts, s') && LoopOnly(s, k, s') && Idle(s'.queues[k])
  {
    hide D.Run, D.SystemInv, LogInv, PassInv, Finished;
    PassFacts(crc, ident, s, k);
    var scan, p := FinishPass(crc, ident, maxBytes, s, k, s.queues[k].pass.value);
    assert WithPass(s, k, s.queues[k].pass.value) == s;
    var drop, t := DropBatch(crc, ident, maxBytes, WithPass(s, k, p), k);
    s' := t;
    acts := scan + drop;
    D.RunThen(crc, ident, maxBytes, s, scan, WithPass(s, k, p), drop, s');
  }

  lemma Settle(crc: Checksum, ident: D.Ident, maxBytes: int, s: D.System, k: Kind) returns (acts: seq<D.Action>, s': D.System)
    requires D.SystemInv(crc, ident, s) && k in s.queues
    ensures D.Run(crc, ident, maxBytes, s, acts, s') && LoopOnly(s, k, s') && Idle(s'.queues[k])
  {
    hide D.Run, D.SystemInv;
    var q := s.queues[k];
    if q.pass.Some? {
      acts, s' := EndRead(crc, ident, maxBytes, s, k);
    } else if q.flight.Some? {
      hide UplinkRuns.Advance;
      s' := D.Apply(crc, ident, maxBytes, s, D.Timeout(k));
      D.RunNone(crc, ident, maxBytes, s');
      acts := [D.Timeout(k)] + [];
      D.RunStep(crc, ident, maxBytes, s, D.Timeout(k), [], s');
    } else {
      D.RunNone(crc, ident, maxBytes, s);
      acts, s' := [], s;
    }
  }

  lemma PassFacts(crc: Checksum, ident: D.Ident, s: D.System, k: Kind)
    requires D.SystemInv(crc, ident, s) && k in s.queues
    ensures var q := s.queues[k];
            && LogInv(crc, q.log) && (q.pass.Some? ==> PassInv(crc, q.log, q.pass.value) && q.flight.None?)
  {
  }

  lemma {:induction false} SettleAll(crc: Checksum, ident: D.Ident, maxBytes: int, s: D.System, todo: set<Kind>)
      returns (acts: seq<D.Action>, s': D.System)
    requires D.SystemInv(crc, ident, s) && todo <= s.queues.Keys
    ensures D.Run(crc, ident, maxBytes, s, acts, s') && s'.queues.Keys == s.queues.Keys
    ensures forall k :: k in s.queues ==>
              s'.queues[k] == s.queues[k].(pass := s'.queues[k].pass, flight := s'.queues[k].flight)
    ensures forall k :: k in s.queues ==> if k in todo then Idle(s'.queues[k]) else s'.queues[k] == s.queues[k]
    decreases todo
  {
    hide D.Run, D.SystemInv, Idle;
    if todo == {} {
      D.RunNone(crc, ident, maxBytes, s);
      acts, s' := [], s;
    } else {
      var k :| k in todo;
      var first, m := Settle(crc, ident, maxBytes, s, k);
      D.RunKeepsInv(crc, ident, maxBytes, s, first, m);
      var rest, t := SettleAll(crc, ident, maxBytes, m, todo - {k});
      s' := t;
      acts := first + rest;
      D.RunThen(crc, ident, maxBytes, s, first, m, rest, s');
    }
  }

  // ---------- Nothing is ever stuck ----------

  /** From every reachable state, whatever is torn, half read, under way or unsaved, after a restart
      of the agent there is a run of reading, sending, serving and acknowledging, in batches of any
      given size, after which the cursor on disk of every queue is past everything accepted. */
  lemma AllDeliverable(crc: Checksum, ident: D.Ident, maxBytes: int, acts: seq<D.Action>, s: D.System, b: nat)
      returns (more: seq<D.Action>, s': D.System)
    requires D.Run(crc, ident, maxBytes, D.INITIAL, acts, s) && b > 0
    ensures D.Run(crc, ident, maxBytes, s, [D.CrashRestart({})] + more, s') && OnlyDelivers(more, b)
    ensures s'.queues.Keys == s.queues.Keys
    ensures forall k :: k in s.queues ==>
              && s'.queues[k].log.accepted == s.queues[k].log.accepted && s'.queues[k].log.removed == s.queues[k].log.removed
              && s'.queues[k].durPos == |s.queues[k].log.accepted|
  {
    hide D.Run, D.SystemInv;
    D.InitialInv(crc, ident);
    D.RunKeepsInv(crc, ident, maxBytes, D.INITIAL, acts, s);
    var m := D.Apply(crc, ident, maxBytes, s, D.CrashRestart({}));
    D.StepKeepsInv(crc, ident, maxBytes, s, D.CrashRestart({}));
    var rest, t := DrainAll(crc, ident, maxBytes, m, m.queues.Keys, b);
    more, s' := rest, t;
    D.RunStep(crc, ident, maxBytes, s, D.CrashRestart({}), more, s');
  }

  /** Without a restart too: from every reachable state the replay loops can get back to reading,
      and then past everything accepted. The cursor on disk follows wherever there was anything
      left to read or nothing unsaved. */
  lemma LoopsNeverStuck(crc: Checksum, ident: D.Ident, maxBytes: int, acts: seq<D.Action>, s: D.System, b: nat)
      returns (settle: seq<D.Action>, more: seq<D.Action>, s': D.System)
    requires D.Run(crc, ident, maxBytes, D.INITIAL, acts, s) && b > 0
    ensures D.Run(crc, ident, maxBytes, s, settle + ([D.Disconnect] + more), s') && OnlyDelivers(more, b)
    ensures s'.queues.Keys == s.queues.Keys
    ensures forall k :: k in s.queues ==> Reached(s.queues[k], s'.queues[k])
  {
    hide D.Run, D.SystemInv, UplinkRuns.Advance;
    D.InitialInv(crc, ident);
    D.RunKeepsInv(crc, ident, maxBytes, D.INITIAL, acts, s);
    var s1;
    settle, s1 := SettleAll(crc, ident, maxBytes, s, s.queues.Keys);
    D.RunKeepsInv(crc, ident, maxBytes, s, settle, s1);
    var s2 := D.Apply(crc, ident, maxBytes, s1, D.Disconnect);
    D.StepKeepsInv(crc, ident, maxBytes, s1, D.Disconnect);
    assert Quiescent(s2.up) by { DisconnectEmpties(s1.up); }
    more, s' := DrainAll(crc, ident, maxBytes, s2, s2.queues.Keys, b);
    D.RunStep(crc, ident, maxBytes, s1, D.Disconnect, more, s');
    D.RunThen(crc, ident, maxBytes, s, settle, s1, [D.Disconnect] + more, s');
  }

  lemma DisconnectEmpties(up: UplinkRuns.History)
    ensures UplinkRuns.Advance(up, Disconnect).now.list == []
  {
  }

  predicate Reached(q: D.Queue, q': D.Queue) {
    && q'.log == q.log && Idle(q') && q'.memPos == |q.log.accepted|
    && ((q.mem == q.durable && q.memPos == q.durPos) || q.memPos < |q.log.accepted| ==> q'.durPos == |q.log.accepted|)
  }

  /** What each failure leaves behind. A read without entries, a full send queue and a timeout take
      the loop back to its next read with its cursors where they were; so does an error returned to
      it, while nil moves its cursor even if that cannot be saved. A report the sink fails on is
      dropped without an ack. A restart leaves no append, call, waiter or queued batch. */
  lemma FailuresRecover(crc: Checksum, ident: D.Ident, maxBytes: int, s: D.System, a: D.Action)
    requires D.Can(crc, maxBytes, s, a)
    ensures var s' := D.Apply(crc, ident, maxBytes, s, a);
            && (a.EmptyRead? || a.QueueFull? || a.Timeout? ==>
                  LoopOnly(s, a.kind, s') && (if a.EmptyRead? then s'.queues[a.kind].pass.None? else s'.queues[a.kind].flight.None?))
            && (a.QueueFull? ==> s'.up == UplinkRuns.Advance(s.up, Remove(s.queues[a.kind].flight.value.tag)))
            && (a.SendError? ==> UplinkRuns.Signalled(s'.up.now.ch, a.tag, Failed))
            && (a.SinkFails? ==> a.work !in s'.serving && s'.acks == s.acks && s'.sunk == s.sunk)
            && (a.CrashRestart? ==>
                  && s'.up == UplinkRuns.NEW && s'.queued == {} && s'.queues.Keys == s.queues.Keys
                  && forall k :: k in s'.queues ==> Idle(s'.queues[k]) && s'.queues[k].log.writing.None?)
  {
  }

  /** A batch its call was told nil for is behind the loop's cursor, saved or not, and behind the
      one on disk if saved; an error leaves both cursors where they were, so it is read again. */
  lemma ReturnMoves(crc: Checksum, ident: D.Ident, maxBytes: int, acts: seq<D.Action>, s: D.System, k: Kind, saved: bool)
    requires D.Run(crc, ident, maxBytes, D.INITIAL, acts, s) && D.Can(crc, maxBytes, s, D.Return(k, saved))
    ensures var q, q' := s.queues[k], D.Apply(crc, ident, maxBytes, s, D.Return(k, saved)).queues[k];
            var f := q.flight.value;
            var nil := s.up.now.ch[f.tag][0].Done?;
            && q'.flight.None? && q'.log == q.log
            && (nil ==> f.upto <= q'.memPos && (saved ==> f.upto <= q'.durPos))
            && (!nil ==> q'.mem == q.mem && q'.memPos == q.memPos)
            && (!nil || !saved ==> q'.durable == q.durable && q'.durPos == q.durPos)
  {
    hide D.Run, D.SystemInv;
    D.InitialInv(crc, ident);
    D.RunKeepsInv(crc, ident, maxBytes, D.INITIAL, acts, s);
  }
}
