/** Delivery is by id: when a late acknowledgement of one entry lets the cursor pass another entry
    with the same id, and exactly when that cannot happen (internal/reporter/reporter.go,
    internal/uplink/grpc.go). */
module SharedIds {
  import opened Bytes
  import opened Options
  import opened WalFormat
  import opened WalRead
  import opened WalLog
  import opened WalWrite
  import opened WalHistory
  import opened WalPass
  import opened WalRuns
  import opened Uplink
  import UplinkRuns
  import D = Delivery

  const BATCH := 10

  /** The action submits an entry that is not from `es`, or to another queue than `k`. */
  predicate SubmitsOther(a: D.Action, k: Kind, es: set<Entry>) {
    a.Write? && a.op.Begin? && !(a.kind == k && a.op.entry in es)
  }

  /** All entries submitted are from `es` and go to queue `k`. */
  predicate Submits(acts: seq<D.Action>, k: Kind, es: set<Entry>) {
    forall i :: 0 <= i < |acts| ==> !SubmitsOther(acts[i], k, es)
  }

  lemma SubmitsBoth(as1: seq<D.Action>, as2: seq<D.Action>, k: Kind, es1: set<Entry>, es2: set<Entry>)
    requires Submits(as1, k, es1) && Submits(as2, k, es2)
    ensures Submits(as1 + as2, k, es1 + es2)
  {
    forall i | 0 <= i < |as1 + as2| ensures !SubmitsOther((as1 + as2)[i], k, es1 + es2) {
      if i < |as1| {
        assert !SubmitsOther(as1[i], k, es1);
      } else {
        assert !SubmitsOther(as2[i - |as1|], k, es2);
      }
    }
  }

  // ---------- The log ----------

  /** A log at rest, in one small segment from which nothing was deleted. */
  predicate Whole(crc: Checksum, l: Log) {
    && LogInv(crc, l) && Quiet(l) && l.removed == 0
    && |l.dir| == 1 && l.dir[0].id == 0
    && |l.dir[0].data| <= |l.accepted| * (HEADER_SIZE + ENTRY_MAX)
  }

  function Appended(crc: Checksum, l: Log, e: Entry): Log
    requires Whole(crc, l)
  {
    var b := BeginAppend(l, e);
    if |b.segs| > 0 then Complete(crc, b) else b
  }

  lemma AppendedWhole(crc: Checksum, l: Log, e: Entry)
    requires Whole(crc, l) && |e| <= ENTRY_MAX && |l.accepted| <= 2
    ensures Whole(crc, Appended(crc, l, e)) && Appended(crc, l, e).accepted == l.accepted + [e]
    ensures CanBegin(l, e) && |BeginAppend(l, e).segs| == |BeginAppend(l, e).dir| > 0
  {
    hide Flatten, Intact;
    BeginAppendKeeps(crc, l, e);
    var b := BeginAppend(l, e);
    IntactShape(crc, b.dir, b.segs, b.torn);
    CompleteKeeps(crc, b);
    assert b.dir == l.dir;
    assert |Record(crc, e)| <= HEADER_SIZE + ENTRY_MAX;
    assert Record(crc, e)[0..] == Record(crc, e);
    hide Record, LogInv;
  }

  /** A call of `ReadFrom` from the start, over the one file, returns the whole log. */
  lemma ReadAll(crc: Checksum, l: Log)
    requires Whole(crc, l) && |l.accepted| <= BATCH
    ensures var p := Advance(crc, l, Open(l, START, 0, BATCH));
            Finished(p) && p.out == l.accepted && p.from == 0 && p.pos == |l.accepted|
    ensures !Finished(Open(l, START, 0, BATCH))
  {
    hide Intact, Marks, Flatten, Visit, ScanFile, Round;
    LogShape(crc, l);
    var o := Open(l, START, 0, BATCH);
    var p := Advance(crc, l, o);
    OpenReads(crc, l, START, 0, BATCH);
    AdvanceReads(crc, l, o);
    assert p.seen == l.dir && p.seen + [] == l.dir;
    FinishedIsReadFrom(crc, p, []);
    D.StartMarks(crc, l.dir, l.segs);
    ReadIntact(crc, l.dir, l.segs, l.torn, START, 0, BATCH);
    assert l.accepted[0..] == l.accepted;
  }

  // ---------- The phases of the run ----------

  /** The queue has sent nothing for good yet. */
  predicate AtStart(crc: Checksum, s: D.System, k: Kind) {
    && k in s.queues
    && var q := s.queues[k];
       Whole(crc, q.log) && q == D.Queue(q.log, START, 0, START, 0, None, None)
  }

  function SetLog(s: D.System, k: Kind, log: Log): D.System
    requires k in s.queues
  {
    s.(queues := s.queues[k := s.queues[k].(log := log)])
  }

  lemma AppendPhase(crc: Checksum, ident: D.Ident, s: D.System, k: Kind, e: Entry) returns (acts: seq<D.Action>)
    requires AtStart(crc, s, k) && |e| <= ENTRY_MAX && |s.queues[k].log.accepted| <= 2
    ensures var s' := SetLog(s, k, Appended(crc, s.queues[k].log, e));
            AtStart(crc, s', k) && D.Run(crc, ident, 0, s, acts, s')
    ensures Submits(acts, k, {e})
  {
    hide D.Run, LogInv, Record, Rotate, WalWrite.Write;
    var l := s.queues[k].log;
    AppendedWhole(crc, l, e);
    assert Listing(l.dir) && |l.segs| == |l.dir| by { LogShape(crc, l); }
    var s' := SetLog(s, k, Appended(crc, l, e));
    var begin, finish := D.Write(k, Begin(e)), D.Write(k, Finish);
    var m := D.Apply(crc, ident, 0, s, begin);
    assert m == SetLog(s, k, BeginAppend(l, e));
    assert D.Apply(crc, ident, 0, m, finish) == s';
    D.RunNone(crc, ident, 0, s');
    D.RunStep(crc, ident, 0, m, finish, [], s');
    acts := [begin] + ([finish] + []);
    D.RunStep(crc, ident, 0, s, begin, [finish] + [], s');
  }

  /** What sending the whole log as one batch does. */
  predicate Sent(crc: Checksum, ident: D.Ident, s: D.System, k: Kind, s': D.System) {
    && AtStart(crc, s, k) && k in s'.queues && s'.queues.Keys == s.queues.Keys
    && var q, q', n := s.queues[k], s'.queues[k], |s.queues[k].log.accepted|;
       && q'.flight.Some? && q' == q.(flight := q'.flight)
       && q'.flight.value.tag == |s.up.born| && q'.flight.value.from == 0 && q'.flight.value.upto == n
       && s' == s.(queues := s.queues[k := q'],
                   up := UplinkRuns.Advance(s.up, Register(Waiter(|s.up.born|, k, D.IdSet(ident, q.log.accepted)))),
                   queued := s.queued + {D.Report(k, D.Items(ident, q.log.accepted))})
  }

  lemma SendPhase(crc: Checksum, ident: D.Ident, s: D.System, k: Kind) returns (acts: seq<D.Action>, s': D.System)
    requires AtStart(crc, s, k) && 0 < |s.queues[k].log.accepted| <= BATCH
    ensures Sent(crc, ident, s, k, s') && D.Run(crc, ident, 0, s, acts, s')
    ensures Submits(acts, k, {})
  {
    hide D.Run, UplinkRuns.Advance, D.IdSet, D.Items, LogInv, Round;
    var q := s.queues[k];
    assert Listing(q.log.dir) by { LogShape(crc, q.log); }
    ReadAll(crc, q.log);
    var open, next, send := D.OpenRead(k, BATCH), D.OpenNext(k), D.SendBatch(k);
    var s1 := D.Apply(crc, ident, 0, s, open);
    var s2 := D.Apply(crc, ident, 0, s1, next);
    s' := D.Apply(crc, ident, 0, s2, send);
    assert s2.queues[k].pass.value == WalPass.Advance(crc, q.log, Open(q.log, START, 0, BATCH));
    assert s'.queues == s.queues[k := s'.queues[k]];
    D.RunNone(crc, ident, 0, s');
    D.RunStep(crc, ident, 0, s2, send, [], s');
    D.RunStep(crc, ident, 0, s1, next, [send] + [], s');
    acts := [open] + ([next] + ([send] + []));
    D.RunStep(crc, ident, 0, s, open, [next] + ([send] + []), s');
  }

  /** The connector handles a report of one item and acknowledges it. */
  lemma ServePhase(crc: Checksum, ident: D.Ident, s: D.System, k: Kind, e: Entry) returns (acts: seq<D.Action>)
    requires D.Report(k, [e]) in s.queued && s.serving == {}
    ensures D.Run(crc, ident, 0, s, acts,
                  s.(sent := s.sent + {D.Report(k, [e])}, sunk := s.sunk + {(k, e)},
                     acks := s.acks + {Ack(k, D.IdsOf(ident, [e]))}))
    ensures Submits(acts, k, {})
  {
    hide D.Run, D.IdsOf;
    var r := D.Report(k, [e]);
    var w0, w1 := D.Serving(r, 0), D.Serving(r, 1);
    var s1 := s.(sent := s.sent + {r});
    var s2 := s1.(serving := {w0});
    var s3 := s1.(serving := {w1}, sunk := s.sunk + {(k, e)});
    var s4 := s3.(serving := {}, acks := s.acks + {Ack(k, D.IdsOf(ident, [e]))});
    assert D.Apply(crc, ident, 0, s, D.Transmit(r)) == s1;
    assert D.Apply(crc, ident, 0, s1, D.StartServing(r)) == s2;
    assert D.Apply(crc, ident, 0, s2, D.SinkItem(w0)) == s3;
    assert D.Apply(crc, ident, 0, s3, D.SendAck(w1)) == s4;
    D.RunNone(crc, ident, 0, s4);
    D.RunStep(crc, ident, 0, s3, D.SendAck(w1), [], s4);
    D.RunStep(crc, ident, 0, s2, D.SinkItem(w0), [D.SendAck(w1)] + [], s4);
    D.RunStep(crc, ident, 0, s1, D.StartServing(r), [D.SinkItem(w0)] + ([D.SendAck(w1)] + []), s4);
    acts := [D.Transmit(r)] + ([D.StartServing(r)] + ([D.SinkItem(w0)] + ([D.SendAck(w1)] + [])));
    D.RunStep(crc, ident, 0, s, D.Transmit(r), [D.StartServing(r)] + ([D.SinkItem(w0)] + ([D.SendAck(w1)] + [])), s4);
  }

  lemma SameIds(ident: D.Ident, e1: Entry, e2: Entry, id: string)
    requires ident(e1) == Some(id) && ident(e2) == Some(id)
    ensures D.Items(ident, [e1]) == [e1] && D.IdsOf(ident, [e1]) == [id]
    ensures D.IdSet(ident, [e1]) == {id} && D.IdSet(ident, [e1, e2]) == {id}
  {
    assert [e1][1..] == [] && [e1, e2][1..] == [e2] && [e2][1..] == [];
    assert D.IdsOf(ident, [e1]) == [id];
    assert D.IdsOf(ident, [e1, e2]) == [id, id];
    assert Named(Ack(Unspecified, [id])) == {id} by { assert [id][0] == id; }
    assert Named(Ack(Unspecified, [id, id])) == {id} by { assert [id, id][0] == id; }
  }

  /** Both the waiter of the first attempt and that of the second are told nil. */
  lemma LateAck(k: Kind, id: string)
    ensures var up1 := UplinkRuns.Advance(UplinkRuns.NEW, Register(Waiter(0, k, {id})));
            var up2 := UplinkRuns.Advance(up1, Register(Waiter(1, k, {id})));
            var up3 := UplinkRuns.Advance(up2, Receive(Ack(k, [id])));
            |up1.born| == 1 && 1 in up3.now.ch && up3.now.ch[1] == [Done]
  {
    var w0, w1, ack := Waiter(0, k, {id}), Waiter(1, k, {id}), Ack(k, [id]);
    assert Resolves(w0, ack) && Resolves(w1, ack) by { assert ack.ids[0] == id; }
    hide Notified, Kept, Named, Resolves;
    var none: map<nat, seq<Signal>> := map[];
    var ws := [w0, w1];
    assert ws[..0] == [] && ws[..2] == ws;
    KeptNone(none, ack);
    KeptSnoc(ws, 0, ack);
    KeptSnoc(ws, 1, ack);
    assert Notified(none, ws, ack) == Send(Send(none, 0, Done), 1, Done);
    assert [] + [w0] + [w1] == ws;
  }

  lemma FreshWhole(crc: Checksum)
    ensures Whole(crc, EMPTY)
  {
    FreshReader(crc);
  }

  /** Up to the timeout: the first entry has been accepted by the sink, its acknowledgement is
      under way, and the cursor has not moved. */
  ghost predicate TimedOut(crc: Checksum, s: D.System, k: Kind, e: Entry, id: string) {
    && AtStart(crc, s, k) && s.queues[k].log.accepted == [e]
    && s.sunk == {(k, e)} && s.sent == {D.Report(k, [e])} && s.serving == {}
    && s.up == UplinkRuns.Advance(UplinkRuns.NEW, Register(Waiter(0, k, {id})))
    && Ack(k, [id]) in s.acks
  }

  /** Sending, serving and timing out, from a log with one entry. */
  lemma AttemptPhase(crc: Checksum, ident: D.Ident, s1: D.System, k: Kind, e: Entry, id: string)
      returns (acts: seq<D.Action>, s: D.System)
    requires AtStart(crc, s1, k) && s1.queues[k].log.accepted == [e] && ident(e) == Some(id)
    requires s1 == D.INITIAL.(queues := s1.queues)
    ensures D.Run(crc, ident, 0, s1, acts, s) && TimedOut(crc, s, k, e, id) && Submits(acts, k, {})
  {
    hide D.Run, UplinkRuns.Advance, D.IdSet, D.IdsOf, D.Items, Whole, Submits;
    SameIds(ident, e, e, id);
    var send, s2 := SendPhase(crc, ident, s1, k);
    var serve := ServePhase(crc, ident, s2, k, e);
    var s3 := s2.(sent := s2.sent + {D.Report(k, [e])}, sunk := s2.sunk + {(k, e)}, acks := s2.acks + {Ack(k, [id])});
    s := s3.(queues := s3.queues[k := s3.queues[k].(flight := None)]);
    var timeout := [D.Timeout(k)] + [];
    assert Submits(timeout, k, {}) by { NoSubmits(k); }
    D.RunNone(crc, ident, 0, s);
    D.RunStep(crc, ident, 0, s3, D.Timeout(k), [], s);
    D.RunThen(crc, ident, 0, s2, serve, s3, timeout, s);
    D.RunThen(crc, ident, 0, s1, send, s2, serve + timeout, s);
    acts := send + (serve + timeout);
    SubmitsBoth(serve, timeout, k, {}, {});
    SubmitsBoth(send, serve + timeout, k, {}, {});
  }

  lemma NoSubmits(k: Kind)
    ensures Submits([D.Timeout(k)] + [], k, {})
  {
  }

  lemma FirstAttempt(crc: Checksum, ident: D.Ident, k: Kind, e: Entry, id: string) returns (acts: seq<D.Action>, s: D.System)
    requires k in D.KINDS && |e| <= ENTRY_MAX && ident(e) == Some(id)
    ensures D.Run(crc, ident, 0, D.INITIAL, acts, s) && TimedOut(crc, s, k, e, id) && Submits(acts, k, {e})
  {
    hide D.Run, LogInv, Submits, TimedOut;
    FreshWhole(crc);
    AppendedWhole(crc, EMPTY, e);
    var append := AppendPhase(crc, ident, D.INITIAL, k, e);
    var s1 := SetLog(D.INITIAL, k, Appended(crc, EMPTY, e));
    assert s1.queues[k].log.accepted == [e];
    var rest, s2 := AttemptPhase(crc, ident, s1, k, e, id);
    s := s2;
    acts := append + rest;
    D.RunThen(crc, ident, 0, D.INITIAL, append, s1, rest, s);
    SubmitsBoth(append, rest, k, {e}, {});
    assert {e} + {} == {e};
  }

  /** Receiving the late acknowledgement, returning, and a restart of the agent. */
  lemma LastPhase(crc: Checksum, ident: D.Ident, s: D.System, k: Kind, id: string) returns (acts: seq<D.Action>, s': D.System)
    requires k in s.queues && s.queues[k].flight.Some? && s.queues[k].flight.value.tag == 1
    requires s.queues[k].pass.None? && s.queues[k].log.writing.None? && s.queues[k].log.removed == 0
    requires Ack(k, [id]) in s.acks
    requires var up := UplinkRuns.Advance(s.up, Receive(Ack(k, [id]))); 1 in up.now.ch && up.now.ch[1] == [Done]
    ensures D.Run(crc, ident, 0, s, acts, s') && Submits(acts, k, {})
    ensures k in s'.queues && s'.queues[k].log == s.queues[k].log && s'.queues[k].durPos == s.queues[k].flight.value.upto
    ensures s'.queues[k].pass.None? && s'.queues[k].flight.None?
    ensures s'.queued == {} && s'.sent == s.sent && s'.serving == s.serving && s'.sunk == s.sunk
  {
    hide D.Run, UplinkRuns.Advance;
    var receive, back, restart := D.Receive(Ack(k, [id])), D.Return(k, true), D.CrashRestart({});
    var s1 := D.Apply(crc, ident, 0, s, receive);
    var s2 := D.Apply(crc, ident, 0, s1, back);
    s' := D.Apply(crc, ident, 0, s2, restart);
    D.RunNone(crc, ident, 0, s');
    D.RunStep(crc, ident, 0, s2, restart, [], s');
    D.RunStep(crc, ident, 0, s1, back, [restart] + [], s');
    acts := [receive] + ([back] + ([restart] + []));
    D.RunStep(crc, ident, 0, s, receive, [back] + ([restart] + []), s');
  }

  /** The entry has been accepted and not deleted, the cursor on disk is past it, and it is
      neither at the sink nor on its way there. */
  ghost predicate LostEntry(s: D.System, k: Kind, i: nat) {
    && k in s.queues && i < |s.queues[k].log.accepted|
    && s.queues[k].log.removed <= i < s.queues[k].durPos
    && (k, s.queues[k].log.accepted[i]) !in s.sunk
    && s.queues[k].pass.None? && s.queues[k].flight.None?
    && (forall r :: r in s.queued || r in s.sent ==> s.queues[k].log.accepted[i] !in r.items)
    && (forall w :: w in s.serving ==> s.queues[k].log.accepted[i] !in w.report.items)
  }

  /** Two different entries of one queue share an id. The first attempt to send the first one
      times out, the second attempt hands over both, and the late acknowledgement of the first
      attempt resolves the second: the cursor on disk passes both entries. When the agent restarts
      before the second batch has left, the second entry is lost. */
  lemma SharedIdLosesEntry(crc: Checksum, ident: D.Ident, k: Kind, e1: Entry, e2: Entry, id: string)
      returns (acts: seq<D.Action>, s: D.System)
    requires k in D.KINDS && |e1| <= ENTRY_MAX && |e2| <= ENTRY_MAX && e1 != e2
    requires ident(e1) == Some(id) && ident(e2) == Some(id)
    ensures D.Run(crc, ident, 0, D.INITIAL, acts, s) && Submits(acts, k, {e1, e2})
    ensures k in s.queues && s.queues[k].log.accepted == [e1, e2] && LostEntry(s, k, 1)
  {
    hide D.Run, UplinkRuns.Advance, D.IdSet, D.IdsOf, D.Items, LogInv, Submits;
    SameIds(ident, e1, e2, id);
    LateAck(k, id);
    var first, s4 := FirstAttempt(crc, ident, k, e1, id);
    AppendedWhole(crc, s4.queues[k].log, e2);
    var append := AppendPhase(crc, ident, s4, k, e2);
    var s5 := SetLog(s4, k, Appended(crc, s4.queues[k].log, e2));
    assert s5.queues[k].log.accepted == [e1, e2];
    var send, s6 := SendPhase(crc, ident, s5, k);
    var last, s7 := LastPhase(crc, ident, s6, k, id);
    s := s7;
    acts := first + (append + (send + last));
    D.RunThen(crc, ident, 0, s5, send, s6, last, s);
    D.RunThen(crc, ident, 0, s4, append, s5, send + last, s);
    D.RunThen(crc, ident, 0, D.INITIAL, first, s4, append + (send + last), s);
    SubmitsBoth(send, last, k, {}, {});
    SubmitsBoth(append, send + last, k, {e2}, {} + {});
    SubmitsBoth(first, append + (send + last), k, {e1}, {e2} + ({} + {}));
    assert {e1} + ({e2} + ({} + {})) == {e1, e2};
  }

  // ---------- Exactly when no content is lost ----------

  /** What may be submitted to each queue. */
  type Allowed = (Kind, Entry) -> bool

  ghost predicate SubmitsAllowed(allowed: Allowed, acts: seq<D.Action>) {
    forall i :: 0 <= i < |acts| ==> ActAllowed(allowed, acts[i])
  }

  predicate ActAllowed(allowed: Allowed, a: D.Action) {
    a.Write? && a.op.Begin? ==> allowed(a.kind, a.op.entry)
  }

  /** Every decodable entry before the cursor on disk was deleted by the quota or is itself what
      the sink has accepted. */
  predicate NoneMissing(ident: D.Ident, s: D.System) {
    forall k, i :: k in s.queues && s.queues[k].log.removed <= i < s.queues[k].durPos && i < |s.queues[k].log.accepted|
                   && ident(s.queues[k].log.accepted[i]).Some? ==>
      (k, s.queues[k].log.accepted[i]) in s.sunk
  }

  /** In no run that submits only allowed entries is anything missing. */
  ghost predicate NeverMissing(crc: Checksum, ident: D.Ident, allowed: Allowed) {
    forall maxBytes, acts, s ::
      D.Run(crc, ident, maxBytes, D.INITIAL, acts, s) && SubmitsAllowed(allowed, acts) ==> NoneMissing(ident, s)
  }

  /** Two entries that may both be submitted to queue `k` decode to the same id. */
  predicate SameId(ident: D.Ident, allowed: Allowed, k: Kind, a: Entry, b: Entry) {
    && k in D.KINDS && allowed(k, a) && allowed(k, b) && |a| <= ENTRY_MAX && |b| <= ENTRY_MAX
    && ident(a).Some? && ident(a) == ident(b)
  }

  ghost predicate IdsDistinguish(ident: D.Ident, allowed: Allowed) {
    forall k, a, b :: SameId(ident, allowed, k, a, b) ==> a == b
  }

  predicate Admissible(allowed: Allowed, k: Kind, l: Log) {
    && (forall i :: 0 <= i < |l.accepted| ==> allowed(k, l.accepted[i]) && |l.accepted[i]| <= ENTRY_MAX)
    && (l.writing.Some? ==> allowed(k, l.writing.value) && |l.writing.value| <= ENTRY_MAX)
  }

  ghost predicate AllAdmissible(allowed: Allowed, s: D.System) {
    s.queues.Keys == D.KINDS && forall k :: k in s.queues ==> Admissible(allowed, k, s.queues[k].log)
  }

  lemma OpAdmissible(crc: Checksum, maxBytes: int, allowed: Allowed, k: Kind, l: Log, op: LogEvent)
    requires Admissible(allowed, k, l) && CanOp(crc, maxBytes, l, op) && (op.Begin? ==> allowed(k, op.entry))
    ensures Admissible(allowed, k, AfterOp(crc, maxBytes, l, op))
  {
    hide Record, Rotate, WalWrite.Write, Flatten, Total;
  }

  lemma StepAdmissible(crc: Checksum, ident: D.Ident, maxBytes: int, allowed: Allowed, s: D.System, a: D.Action)
    requires D.Can(crc, maxBytes, s, a) && AllAdmissible(allowed, s) && ActAllowed(allowed, a)
    ensures AllAdmissible(allowed, D.Apply(crc, ident, maxBytes, s, a))
  {
    hide CanOp, AfterOp, UplinkRuns.Advance, Round, D.Items, D.IdSet, Spares;
    if a.Write? { OpAdmissible(crc, maxBytes, allowed, a.kind, s.queues[a.kind].log, a.op); }
  }

  lemma {:induction false} RunAdmissible(crc: Checksum, ident: D.Ident, maxBytes: int, allowed: Allowed,
                                         s: D.System, acts: seq<D.Action>, s': D.System)
    requires AllAdmissible(allowed, s) && D.Run(crc, ident, maxBytes, s, acts, s') && SubmitsAllowed(allowed, acts)
    ensures AllAdmissible(allowed, s')
    decreases |acts|
  {
    hide AllAdmissible, D.Can, D.Apply, ActAllowed;
    if acts == [] {
    } else {
      StepAdmissible(crc, ident, maxBytes, allowed, s, acts[0]);
      RunAdmissible(crc, ident, maxBytes, allowed, D.Apply(crc, ident, maxBytes, s, acts[0]), acts[1..], s');
    }
  }

  lemma DistinctSafe(crc: Checksum, ident: D.Ident, maxBytes: int, allowed: Allowed, acts: seq<D.Action>, s: D.System)
    requires IdsDistinguish(ident, allowed) && D.Run(crc, ident, maxBytes, D.INITIAL, acts, s) && SubmitsAllowed(allowed, acts)
    ensures NoneMissing(ident, s)
  {
    hide D.Run, SubmitsAllowed;
    assert AllAdmissible(allowed, D.INITIAL);
    RunAdmissible(crc, ident, maxBytes, allowed, D.INITIAL, acts, s);
    forall k, i | k in s.queues && s.queues[k].log.removed <= i < s.queues[k].durPos && i < |s.queues[k].log.accepted|
                  && ident(s.queues[k].log.accepted[i]).Some?
      ensures (k, s.queues[k].log.accepted[i]) in s.sunk
    {
      var es := s.queues[k].log.accepted;
      assert Admissible(allowed, k, s.queues[k].log);
      forall a, b | 0 <= a < |es| && 0 <= b < |es| && ident(es[a]).Some? && ident(es[a]) == ident(es[b])
        ensures es[a] == es[b]
      {
        assert SameId(ident, allowed, k, es[a], es[b]);
      }
      D.NoContentLost(crc, ident, maxBytes, acts, s, k, i);
    }
  }

  /** Whatever set of entries is submitted to the queues: in all runs, what the cursor has passed
      is what the sink has accepted or the quota deleted, if and only if no two different entries
      submitted to one queue share an id. */
  lemma ContentSafeExactly(crc: Checksum, ident: D.Ident, allowed: Allowed)
    ensures NeverMissing(crc, ident, allowed) <==> IdsDistinguish(ident, allowed)
  {
    hide D.Run, SubmitsAllowed;
    if IdsDistinguish(ident, allowed) {
      forall maxBytes, acts, s | D.Run(crc, ident, maxBytes, D.INITIAL, acts, s) && SubmitsAllowed(allowed, acts)
        ensures NoneMissing(ident, s)
      {
        DistinctSafe(crc, ident, maxBytes, allowed, acts, s);
      }
    } else {
      var k, a, b :| SameId(ident, allowed, k, a, b) && a != b;
      var acts, s := SharedIdLosesEntry(crc, ident, k, a, b, ident(a).value);
      SubmitsAre(allowed, acts, k, a, b);
      assert s.queues[k].log.accepted[1] == b;
      assert !NoneMissing(ident, s);
    }
  }

  lemma SubmitsAre(allowed: Allowed, acts: seq<D.Action>, k: Kind, a: Entry, b: Entry)
    requires Submits(acts, k, {a, b}) && allowed(k, a) && allowed(k, b)
    ensures SubmitsAllowed(allowed, acts)
  {
    forall i | 0 <= i < |acts| ensures ActAllowed(allowed, acts[i]) {
      assert !SubmitsOther(acts[i], k, {a, b});
    }
  }
}
