/** The reliable uplink end to end: log, replay loop, waiters, connector and sink
    (internal/reporter/reporter.go, internal/uplink/grpc.go, internal/connector/server.go). */
module Delivery {
  import opened Bytes
  import opened Options
  import opened WalFormat
  import opened WalRead
  import opened WalLog
  import opened WalWrite
  import opened WalHistory
  import opened WalPass
  import opened WalRuns
  import opened Uplink
  import UplinkRuns

  /** Decoding of a raw log entry to the id of its item; `None` if it is not valid JSON. */
  type Ident = Entry -> Option<string>

  /** A `SendReliable` call in progress: the accepted entries `from..upto`, and the cursor to
      move to if it succeeds. */
  datatype Flight = Flight(tag: nat, from: nat, upto: nat, next: Cursor)

  /** One reliable queue: its log, the cursor on disk, the cursor of the replay loop, the
      positions in the history those cursors denote, and the loop's call of `ReadFrom` or of
      `SendReliable` in progress. */
  datatype Queue = Queue(
    log: Log, durable: Cursor, durPos: nat, mem: Cursor, memPos: nat, pass: Option<Pass>, flight: Option<Flight>)

  datatype Report = Report(kind: Kind, items: seq<Entry>)

  /** The connector working through a report: `done` items have been accepted by the sink. */
  datatype Serving = Serving(report: Report, done: nat)

  /** `queued` is what waits to be sent, `sent` and `acks` what is on the wire: anything in them
      may arrive at any time, late, repeatedly or never. */
  datatype System = System(
    queues: map<Kind, Queue>,
    up: UplinkRuns.History,
    queued: set<Report>,
    sent: set<Report>,
    serving: set<Serving>,
    acks: set<Ack>,
    sunk: set<(Kind, Entry)>)

  const KINDS := {Results, Audit, Inventory}

  const START_QUEUE := Queue(EMPTY, START, 0, START, 0, None, None)

  const INITIAL := System(map k | k in KINDS :: START_QUEUE, UplinkRuns.NEW, {}, {}, {}, {}, {})

  /** The entries that decode: only those go into the batch. */
  function Items(ident: Ident, es: seq<Entry>): seq<Entry> {
    if es == [] then []
    else (if ident(es[0]).Some? then [es[0]] else []) + Items(ident, es[1..])
  }

  function IdsOf(ident: Ident, es: seq<Entry>): seq<string> {
    if es == [] then []
    else (if ident(es[0]).Some? then [ident(es[0]).value] else []) + IdsOf(ident, es[1..])
  }

  function IdSet(ident: Ident, es: seq<Entry>): set<string> {
    Named(Ack(Unspecified, IdsOf(ident, es)))
  }

  function SunkIds(ident: Ident, sunk: set<(Kind, Entry)>, k: Kind): set<string> {
    set p | p in sunk && p.0 == k && ident(p.1).Some? :: ident(p.1).value
  }

  // ---------- The steps ----------

  datatype Action =
    | Write(kind: Kind, op: LogEvent)
    | OpenRead(kind: Kind, batchSize: int)
    | OpenNext(kind: Kind)
    | EmptyRead(kind: Kind)
    | SendBatch(kind: Kind)
    | Transmit(report: Report)
    | QueueFull(kind: Kind)
    | Timeout(kind: Kind)
    | Receive(ack: Ack)
    | Disconnect
    | SendError(tag: nat)
    | Return(kind: Kind, saved: bool)
    | StartServing(report: Report)
    | SinkItem(work: Serving)
    | SinkFails(work: Serving)
    | SendAck(work: Serving)
    | CrashRestart(cursorLost: set<Kind>)

  function Cursors(q: Queue): set<Cursor> {
    {q.durable, q.mem}
    + (if q.flight.Some? then {q.flight.value.next} else {})
    + (if q.pass.Some? then {q.pass.value.cur} else {})
  }

  /** The quota deletes nothing a non-zero cursor offset points into. */
  predicate CanWrite(crc: Checksum, maxBytes: int, q: Queue, op: LogEvent) {
    !op.Crash? && CanOp(crc, maxBytes, q.log, op) && forall c :: c in Cursors(q) ==> Spares(q.log, op, c)
  }

  predicate Can(crc: Checksum, maxBytes: int, s: System, a: Action) {
    match a
    case Write(k, op) => k in s.queues && CanWrite(crc, maxBytes, s.queues[k], op)
    case OpenRead(k, _) => k in s.queues && Listing(s.queues[k].log.dir) && s.queues[k].pass.None? && s.queues[k].flight.None?
    case OpenNext(k) =>
      k in s.queues && Listing(s.queues[k].log.dir) && s.queues[k].pass.Some? && !Finished(s.queues[k].pass.value)
    case EmptyRead(k) =>
      k in s.queues && s.queues[k].pass.Some? && Finished(s.queues[k].pass.value) && s.queues[k].pass.value.out == []
    case SendBatch(k) =>
      k in s.queues && s.queues[k].pass.Some? && Finished(s.queues[k].pass.value) && s.queues[k].pass.value.out != []
    case Transmit(r) => r in s.queued
    case QueueFull(k) => k in s.queues && s.queues[k].flight.Some?
    case Timeout(k) => k in s.queues && s.queues[k].flight.Some?
    case Receive(ack) => ack in s.acks
    case Disconnect => true
    case SendError(tag) => tag in s.up.born
    case Return(k, _) =>
      && k in s.queues && s.queues[k].flight.Some?
      && s.queues[k].flight.value.tag in s.up.now.ch
      && |s.up.now.ch[s.queues[k].flight.value.tag]| > 0
    case StartServing(r) => r in s.sent
    case SinkItem(w) => w in s.serving && w.done < |w.report.items|
    case SinkFails(w) => w in s.serving
    case SendAck(w) => w in s.serving && w.done == |w.report.items|
    case CrashRestart(_) => true
  }

  /** The quota may have moved the oldest entry past where a cursor stood. */
  function WithLog(q: Queue, log: Log): Queue {
    q.(log := log, durPos := Max(q.durPos, log.removed), memPos := Max(q.memPos, log.removed),
       pass := if q.pass.None? then None else Some(Clamp(q.pass.value, log)))
  }

  /** The replay loop's `SendReliable`: register a waiter for the ids of the batch and hand the
      batch to the send loop. */
  function Launch(ident: Ident, s: System, k: Kind): System
    requires k in s.queues && s.queues[k].pass.Some?
  {
    var q, p, tag := s.queues[k], s.queues[k].pass.value, |s.up.born|;
    var w := Waiter(tag, k, IdSet(ident, p.out));
    s.(queues := s.queues[k := q.(pass := None, flight := Some(Flight(tag, p.from, p.pos, p.cur)))],
       up := UplinkRuns.Advance(s.up, Register(w)),
       queued := s.queued + {Report(k, Items(ident, p.out))})
  }

  /** `SendReliable` returns what its channel holds first: only nil moves the cursor, and saving
      the cursor may fail. */
  function Resume(s: System, k: Kind, saved: bool): System
    requires k in s.queues && s.queues[k].flight.Some?
    requires s.queues[k].flight.value.tag in s.up.now.ch && |s.up.now.ch[s.queues[k].flight.value.tag]| > 0
  {
    var q := s.queues[k];
    var f := q.flight.value;
    var pos := Max(f.upto, q.log.removed);
    var q' := if s.up.now.ch[f.tag][0].Failed? then q.(flight := None)
              else if saved then q.(flight := None, mem := f.next, memPos := pos, durable := f.next, durPos := pos)
              else q.(flight := None, mem := f.next, memPos := pos);
    s.(queues := s.queues[k := q'])
  }

  /** After a restart the loop starts from the cursor file, or from the beginning if that cannot
      be read. */
  function Restarted(q: Queue, lost: bool): Queue {
    Queue(q.log.(writing := None), q.durable, q.durPos,
          if lost then START else q.durable, if lost then q.log.removed else q.durPos, None, None)
  }

  function Apply(crc: Checksum, ident: Ident, maxBytes: int, s: System, a: Action): System
    requires Can(crc, maxBytes, s, a)
  {
    match a
    case Write(k, op) => s.(queues := s.queues[k := WithLog(s.queues[k], AfterOp(crc, maxBytes, s.queues[k].log, op))])
    case OpenRead(k, batchSize) =>
      var q := s.queues[k];
      s.(queues := s.queues[k := q.(pass := Some(Open(q.log, q.mem, q.memPos, batchSize)))])
    case OpenNext(k) =>
      var q := s.queues[k];
      s.(queues := s.queues[k := q.(pass := Some(WalPass.Advance(crc, q.log, q.pass.value)))])
    case EmptyRead(k) => s.(queues := s.queues[k := s.queues[k].(pass := None)])
    case SendBatch(k) => Launch(ident, s, k)
    case Transmit(r) => s.(sent := s.sent + {r})
    case QueueFull(k) =>
      s.(queues := s.queues[k := s.queues[k].(flight := None)],
         up := UplinkRuns.Advance(s.up, Remove(s.queues[k].flight.value.tag)))
    case Timeout(k) => s.(queues := s.queues[k := s.queues[k].(flight := None)])
    case Receive(ack) => s.(up := UplinkRuns.Advance(s.up, Uplink.Receive(ack)))
    case Disconnect => s.(up := UplinkRuns.Advance(s.up, Uplink.Disconnect))
    case SendError(tag) => s.(up := UplinkRuns.Advance(s.up, Uplink.SendError(tag)))
    case Return(k, saved) => Resume(s, k, saved)
    case StartServing(r) => s.(serving := s.serving + {Serving(r, 0)})
    case SinkItem(w) =>
      s.(serving := s.serving - {w} + {w.(done := w.done + 1)},
         sunk := s.sunk + {(w.report.kind, w.report.items[w.done])})
    case SinkFails(w) => s.(serving := s.serving - {w})
    case SendAck(w) =>
      s.(serving := s.serving - {w}, acks := s.acks + {Ack(w.report.kind, IdsOf(ident, w.report.items))})
    case CrashRestart(lost) =>
      s.(queues := map k | k in s.queues :: Restarted(s.queues[k], k in lost), up := UplinkRuns.NEW, queued := {})
  }

  ghost predicate Run(crc: Checksum, ident: Ident, maxBytes: int, s: System, acts: seq<Action>, s': System)
    decreases |acts|
  {
    if acts == [] then s' == s
    else
      && Can(crc, maxBytes, s, acts[0])
      && Run(crc, ident, maxBytes, Apply(crc, ident, maxBytes, s, acts[0]), acts[1..], s')
  }

  lemma RunNone(crc: Checksum, ident: Ident, maxBytes: int, s: System)
    ensures Run(crc, ident, maxBytes, s, [], s)
  {
  }

  lemma RunStep(crc: Checksum, ident: Ident, maxBytes: int, s: System, a: Action, rest: seq<Action>, s': System)
    requires Can(crc, maxBytes, s, a) && Run(crc, ident, maxBytes, Apply(crc, ident, maxBytes, s, a), rest, s')
    ensures Run(crc, ident, maxBytes, s, [a] + rest, s')
  {
    hide Can, Apply;
    assert ([a] + rest)[1..] == rest;
  }

  lemma {:induction false} RunThen(crc: Checksum, ident: Ident, maxBytes: int, s: System, as1: seq<Action>, m: System,
                                   as2: seq<Action>, s': System)
    requires Run(crc, ident, maxBytes, s, as1, m) && Run(crc, ident, maxBytes, m, as2, s')
    ensures Run(crc, ident, maxBytes, s, as1 + as2, s')
    decreases |as1|
  {
    hide Can, Apply;
    if as1 == [] {
      assert as1 + as2 == as2;
    } else {
      RunThen(crc, ident, maxBytes, Apply(crc, ident, maxBytes, s, as1[0]), as1[1..], m, as2, s');
      assert (as1 + as2)[1..] == as1[1..] + as2;
    }
  }

  // ---------- The invariant ----------

  /** The entry's id has been accepted by the sink under its kind. */
  predicate Settled(ident: Ident, sunk: set<(Kind, Entry)>, k: Kind, e: Entry) {
    ident(e).Some? ==> ident(e).value in SunkIds(ident, sunk, k)
  }

  /** All accepted entries before `pos` are settled or were deleted by the quota. */
  predicate SettledBefore(ident: Ident, sunk: set<(Kind, Entry)>, k: Kind, log: Log, pos: nat) {
    pos <= |log.accepted| && forall i :: 0 <= i < pos ==> i < log.removed || Settled(ident, sunk, k, log.accepted[i])
  }

  /** The ids cover the entries from `from` to `upto`, apart from deleted and undecodable ones. */
  predicate Covered(ident: Ident, log: Log, from: nat, upto: nat, ids: set<string>) {
    && upto <= |log.accepted|
    && forall i :: from <= i < upto ==>
         i < log.removed || ident(log.accepted[i]).None? || ident(log.accepted[i]).value in ids
  }

  ghost predicate FlightInv(crc: Checksum, ident: Ident, k: Kind, q: Queue, f: Flight, up: UplinkRuns.History) {
    && f.from <= q.memPos
    && Position(crc, q.log, f.next, Max(f.upto, q.log.removed))
    && f.tag in up.born
    && up.born[f.tag].w.kind == k
    && Covered(ident, q.log, f.from, f.upto, up.born[f.tag].w.ids)
  }

  ghost predicate QueueInv(crc: Checksum, ident: Ident, k: Kind, q: Queue, up: UplinkRuns.History, sunk: set<(Kind, Entry)>) {
    && LogInv(crc, q.log)
    && Position(crc, q.log, q.durable, q.durPos)
    && Position(crc, q.log, q.mem, q.memPos)
    && SettledBefore(ident, sunk, k, q.log, q.durPos)
    && SettledBefore(ident, sunk, k, q.log, q.memPos)
    && (q.pass.Some? ==> PassInv(crc, q.log, q.pass.value) && q.pass.value.from <= q.memPos)
    && (q.flight.Some? ==> q.pass.None? && FlightInv(crc, ident, k, q, q.flight.value, up))
  }

  /** The report holds entries of the queue it names. */
  predicate FromQueue(queues: map<Kind, Queue>, r: Report) {
    r.kind in queues && forall i :: 0 <= i < |r.items| ==> r.items[i] in queues[r.kind].log.accepted
  }

  ghost predicate WireInv(ident: Ident, s: System) {
    && UplinkRuns.Numbered(s.up) && UplinkRuns.Correct(s.up)
    && (forall i :: 0 <= i < |s.up.log| && s.up.log[i].Receive? ==> s.up.log[i].ack in s.acks)
    && (forall a :: a in s.acks ==> Named(a) <= SunkIds(ident, s.sunk, a.kind))
    && (forall r :: r in s.queued || r in s.sent ==> FromQueue(s.queues, r))
    && (forall w :: w in s.serving ==>
          && FromQueue(s.queues, w.report) && w.done <= |w.report.items|
          && forall i :: 0 <= i < w.done ==> (w.report.kind, w.report.items[i]) in s.sunk)
    && (forall p :: p in s.sunk ==> p.0 in s.queues && p.1 in s.queues[p.0].log.accepted)
  }

  ghost predicate SystemInv(crc: Checksum, ident: Ident, s: System) {
    && WireInv(ident, s)
    && forall k :: k in s.queues ==> QueueInv(crc, ident, k, s.queues[k], s.up, s.sunk)
  }

  // ---------- Facts about ids ----------

  lemma {:induction false} ItemsDecode(ident: Ident, es: seq<Entry>)
    ensures forall i :: 0 <= i < |Items(ident, es)| ==> Items(ident, es)[i] in es
    ensures IdsOf(ident, Items(ident, es)) == IdsOf(ident, es)
  {
    if es == [] {
    } else {
      ItemsDecode(ident, es[1..]);
      assert es == [es[0]] + es[1..];
      var rest := Items(ident, es[1..]);
      if ident(es[0]).Some? {
        assert ([es[0]] + rest)[1..] == rest;
      } else {
        assert [] + rest == rest;
      }
    }
  }

  lemma {:induction false} IdsOfMember(ident: Ident, es: seq<Entry>, id: string)
    ensures id in IdsOf(ident, es) <==> exists i :: 0 <= i < |es| && ident(es[i]) == Some(id)
  {
    if es == [] {
    } else {
      IdsOfMember(ident, es[1..], id);
      assert es == [es[0]] + es[1..];
      if exists i :: 0 <= i < |es| && ident(es[i]) == Some(id) {
        var i :| 0 <= i < |es| && ident(es[i]) == Some(id);
        if i > 0 { assert es[1..][i - 1] == es[i]; }
      }
    }
  }

  lemma IdSetMember(ident: Ident, es: seq<Entry>, id: string)
    ensures id in IdSet(ident, es) <==> exists i :: 0 <= i < |es| && ident(es[i]) == Some(id)
  {
    IdsOfMember(ident, es, id);
  }

  // ---------- What a step leaves alone ----------

  /** Later sink successes, acks and log growth do not unsettle a queue. */
  lemma QueueInvMono(crc: Checksum, ident: Ident, k: Kind, q: Queue,
                     up: UplinkRuns.History, sunk: set<(Kind, Entry)>,
                     up': UplinkRuns.History, sunk': set<(Kind, Entry)>)
    requires QueueInv(crc, ident, k, q, up, sunk) && sunk <= sunk'
    requires q.flight.Some? && q.flight.value.tag in up.born ==>
               q.flight.value.tag in up'.born && up'.born[q.flight.value.tag] == up.born[q.flight.value.tag]
    ensures QueueInv(crc, ident, k, q, up', sunk')
  {
    hide LogInv, Position, PassInv, Covered;
    assert SunkIds(ident, sunk, k) <= SunkIds(ident, sunk', k);
  }

  lemma BornKept(up: UplinkRuns.History, ev: Uplink.Event, tag: nat)
    requires UplinkRuns.Numbered(up) && UplinkRuns.Possible(up, ev) && tag in up.born
    ensures tag in UplinkRuns.Advance(up, ev).born && UplinkRuns.Advance(up, ev).born[tag] == up.born[tag]
  {
  }

  // ---------- Steps of one log ----------

  lemma SettledGrow(ident: Ident, sunk: set<(Kind, Entry)>, k: Kind, log: Log, log': Log, pos: nat)
    requires SettledBefore(ident, sunk, k, log, pos)
    requires log.accepted <= log'.accepted && log.removed <= log'.removed <= |log'.accepted|
    ensures SettledBefore(ident, sunk, k, log', Max(pos, log'.removed))
  {
    hide Settled;
  }

  lemma FlightGrow(crc: Checksum, ident: Ident, maxBytes: int, k: Kind, q: Queue, f: Flight, op: LogEvent, up: UplinkRuns.History)
    requires LogInv(crc, q.log) && CanOp(crc, maxBytes, q.log, op) && Spares(q.log, op, f.next)
    requires FlightInv(crc, ident, k, q, f, up)
    ensures FlightInv(crc, ident, k, WithLog(q, AfterOp(crc, maxBytes, q.log, op)), f, up)
  {
    hide LogInv, Position, CanOp, AfterOp, Spares;
    OpKeeps(crc, maxBytes, q.log, op);
    OpPosition(crc, maxBytes, q.log, op, f.next, Max(f.upto, q.log.removed));
  }

  lemma QueueWrites(crc: Checksum, ident: Ident, maxBytes: int, k: Kind, q: Queue, op: LogEvent,
                    up: UplinkRuns.History, sunk: set<(Kind, Entry)>)
    requires QueueInv(crc, ident, k, q, up, sunk) && CanWrite(crc, maxBytes, q, op)
    ensures var q' := WithLog(q, AfterOp(crc, maxBytes, q.log, op));
            QueueInv(crc, ident, k, q', up, sunk) && q.log.accepted <= q'.log.accepted
  {
    hide LogInv, Position, CanOp, AfterOp, Spares, SettledBefore, FlightInv, PassInv;
    var log' := AfterOp(crc, maxBytes, q.log, op);
    OpKeeps(crc, maxBytes, q.log, op);
    OpPosition(crc, maxBytes, q.log, op, q.durable, q.durPos);
    OpPosition(crc, maxBytes, q.log, op, q.mem, q.memPos);
    SettledGrow(ident, sunk, k, q.log, log', q.durPos);
    SettledGrow(ident, sunk, k, q.log, log', q.memPos);
    if q.pass.Some? { WriterKeeps(crc, maxBytes, q.log, op, q.pass.value); }
    if q.flight.Some? { FlightGrow(crc, ident, maxBytes, k, q, q.flight.value, op, up); }
  }

  lemma FromQueueGrow(queues: map<Kind, Queue>, k: Kind, q': Queue, r: Report)
    requires k in queues && queues[k].log.accepted <= q'.log.accepted && FromQueue(queues, r)
    ensures FromQueue(queues[k := q'], r)
  {
  }

  /** The wire does not notice a queue moving on, as long as its history only grows. */
  lemma WireQueue(ident: Ident, s: System, k: Kind, q': Queue)
    requires WireInv(ident, s) && k in s.queues && s.queues[k].log.accepted <= q'.log.accepted
    ensures WireInv(ident, s.(queues := s.queues[k := q']))
  {
    hide UplinkRuns.Numbered, UplinkRuns.Correct, FromQueue, SunkIds;
    forall r | r in s.queued || r in s.sent || exists w :: w in s.serving && w.report == r
      ensures FromQueue(s.queues[k := q'], r)
    {
      FromQueueGrow(s.queues, k, q', r);
    }
    forall w | w in s.serving ensures FromQueue(s.queues[k := q'], w.report) {
      FromQueueGrow(s.queues, k, q', w.report);
    }
    forall p | p in s.sunk ensures p.0 in s.queues[k := q'] && p.1 in s.queues[k := q'][p.0].log.accepted {
      assert p.1 in s.queues[p.0].log.accepted;
    }
  }

  lemma OneQueue(crc: Checksum, ident: Ident, s: System, k: Kind, q': Queue)
    requires SystemInv(crc, ident, s) && k in s.queues && s.queues[k].log.accepted <= q'.log.accepted
    requires QueueInv(crc, ident, k, q', s.up, s.sunk)
    ensures SystemInv(crc, ident, s.(queues := s.queues[k := q']))
  {
    hide WireInv, QueueInv;
    WireQueue(ident, s, k, q');
  }

  lemma Writes(crc: Checksum, ident: Ident, maxBytes: int, s: System, a: Action)
    requires SystemInv(crc, ident, s) && Can(crc, maxBytes, s, a) && a.Write?
    ensures SystemInv(crc, ident, Apply(crc, ident, maxBytes, s, a))
  {
    hide WireInv, QueueInv, CanWrite, AfterOp, WithLog;
    var q := s.queues[a.kind];
    QueueWrites(crc, ident, maxBytes, a.kind, q, a.op, s.up, s.sunk);
    assert CanOp(crc, maxBytes, q.log, a.op) by { WriteCan(crc, maxBytes, q, a.op); }
    OneQueue(crc, ident, s, a.kind, WithLog(q, AfterOp(crc, maxBytes, q.log, a.op)));
  }

  lemma WriteCan(crc: Checksum, maxBytes: int, q: Queue, op: LogEvent)
    requires CanWrite(crc, maxBytes, q, op)
    ensures CanOp(crc, maxBytes, q.log, op)
  {
  }

  /** Listing the directory, opening the next file, and a call that found nothing. */
  lemma Reads(crc: Checksum, ident: Ident, maxBytes: int, s: System, a: Action)
    requires SystemInv(crc, ident, s) && Can(crc, maxBytes, s, a) && (a.OpenRead? || a.OpenNext? || a.EmptyRead?)
    ensures SystemInv(crc, ident, Apply(crc, ident, maxBytes, s, a))
  {
    hide WireInv, LogInv, Position, PassInv, SettledBefore, Covered, Round;
    var q := s.queues[a.kind];
    var q' := Apply(crc, ident, maxBytes, s, a).queues[a.kind];
    if a.OpenRead? {
      OpenKeeps(crc, q.log, q.mem, q.memPos, a.batchSize);
    } else if a.OpenNext? {
      AdvanceKeeps(crc, q.log, q.pass.value);
    }
    OneQueue(crc, ident, s, a.kind, q');
  }

  // ---------- Steps of the uplink ----------

  lemma WireEvent(ident: Ident, s: System, ev: Uplink.Event)
    requires WireInv(ident, s) && UplinkRuns.Possible(s.up, ev) && (ev.Receive? ==> ev.ack in s.acks)
    ensures WireInv(ident, s.(up := UplinkRuns.Advance(s.up, ev)))
  {
    hide UplinkRuns.Numbered, UplinkRuns.Correct, FromQueue, SunkIds;
    UplinkRuns.StepCorrect(s.up, ev);
  }

  lemma UplinkEvent(crc: Checksum, ident: Ident, s: System, ev: Uplink.Event)
    requires SystemInv(crc, ident, s) && UplinkRuns.Possible(s.up, ev) && (ev.Receive? ==> ev.ack in s.acks)
    ensures SystemInv(crc, ident, s.(up := UplinkRuns.Advance(s.up, ev)))
  {
    hide QueueInv, UplinkRuns.Numbered, UplinkRuns.Correct, UplinkRuns.Advance;
    WireEvent(ident, s, ev);
    var up' := UplinkRuns.Advance(s.up, ev);
    forall k | k in s.queues ensures QueueInv(crc, ident, k, s.queues[k], up', s.sunk) {
      var q := s.queues[k];
      if q.flight.Some? && q.flight.value.tag in s.up.born { BornKept(s.up, ev, q.flight.value.tag); }
      QueueInvMono(crc, ident, k, q, s.up, s.sunk, up', s.sunk);
    }
  }

  lemma Landed(crc: Checksum, ident: Ident, s: System, k: Kind)
    requires SystemInv(crc, ident, s) && k in s.queues
    ensures SystemInv(crc, ident, s.(queues := s.queues[k := s.queues[k].(flight := None)]))
  {
    hide WireInv, LogInv, Position;
    OneQueue(crc, ident, s, k, s.queues[k].(flight := None));
  }

  lemma WireQueued(ident: Ident, s: System, r: Report)
    requires WireInv(ident, s) && FromQueue(s.queues, r)
    ensures WireInv(ident, s.(queued := s.queued + {r}))
  {
    hide UplinkRuns.Numbered, UplinkRuns.Correct, FromQueue, SunkIds;
  }

  /** What a call of `ReadFrom` has collected covers all that its cursor passes. */
  lemma CollectedCovers(ident: Ident, l: Log, p: Pass)
    requires Collected(l, p)
    ensures Covered(ident, l, p.from, p.pos, IdSet(ident, p.out))
    ensures forall i :: 0 <= i < |p.out| ==> p.out[i] in l.accepted
  {
    hide IdSet;
    forall j: nat | p.from <= j < p.pos
      ensures j < l.removed || ident(l.accepted[j]).None? || ident(l.accepted[j]).value in IdSet(ident, p.out)
    {
      if j >= l.removed && ident(l.accepted[j]).Some? {
        assert j in p.got;
        var i :| 0 <= i < |p.got| && p.got[i] == j;
        assert p.out[i] == l.accepted[j];
        IdSetMember(ident, p.out, ident(l.accepted[j]).value);
      }
    }
  }

  lemma FlightTakesOff(crc: Checksum, ident: Ident, k: Kind, q: Queue, up: UplinkRuns.History, sunk: set<(Kind, Entry)>)
    requires QueueInv(crc, ident, k, q, up, sunk) && q.pass.Some?
    ensures var p := q.pass.value;
            && (forall i :: 0 <= i < |p.out| ==> p.out[i] in q.log.accepted)
            && QueueInv(crc, ident, k, q.(pass := None, flight := Some(Flight(|up.born|, p.from, p.pos, p.cur))),
                        UplinkRuns.Advance(up, Register(Waiter(|up.born|, k, IdSet(ident, p.out)))), sunk)
  {
    hide SettledBefore, LogInv, IdSet, Marks, Uplink.Next, Visit, Collected, Covered, PassReads, Frontier;
    var p := q.pass.value;
    CollectedCovers(ident, q.log, p);
    assert p.pos >= q.log.removed;
  }

  lemma Launches(crc: Checksum, ident: Ident, maxBytes: int, s: System, a: Action)
    requires SystemInv(crc, ident, s) && Can(crc, maxBytes, s, a) && a.SendBatch?
    ensures SystemInv(crc, ident, Apply(crc, ident, maxBytes, s, a))
  {
    hide WireInv, QueueInv, IdSet, Items, UplinkRuns.Advance;
    var k := a.kind;
    var q, p := s.queues[k], s.queues[k].pass.value;
    FlightTakesOff(crc, ident, k, q, s.up, s.sunk);
    var w := Waiter(|s.up.born|, k, IdSet(ident, p.out));
    var q' := q.(pass := None, flight := Some(Flight(|s.up.born|, p.from, p.pos, p.cur)));
    var s1 := s.(up := UplinkRuns.Advance(s.up, Register(w)));
    UplinkEvent(crc, ident, s, Register(w));
    OneQueue(crc, ident, s1, k, q');
    var s2 := s1.(queues := s1.queues[k := q']);
    var r := Report(k, Items(ident, p.out));
    ItemsDecode(ident, p.out);
    assert FromQueue(s2.queues, r);
    WireQueued(ident, s2, r);
    assert Apply(crc, ident, maxBytes, s, a) == s2.(queued := s2.queued + {r});
  }

  // ---------- A nil result means the sink has everything ----------

  lemma {:induction false} AckedAreSunk(ident: Ident, s: System, log: seq<Uplink.Event>, from: nat, k: Kind)
    requires forall i :: 0 <= i < |log| && log[i].Receive? ==> log[i].ack in s.acks
    requires forall a :: a in s.acks ==> Named(a) <= SunkIds(ident, s.sunk, a.kind)
    ensures UplinkRuns.AckedSince(log, from, k) <= SunkIds(ident, s.sunk, k)
    decreases |log|
  {
    hide SunkIds, Named;
    if |log| <= from {
    } else {
      AckedAreSunk(ident, s, log[..|log| - 1], from, k);
    }
  }

  lemma ResumeSettles(crc: Checksum, ident: Ident, s: System, k: Kind)
    requires SystemInv(crc, ident, s) && k in s.queues && s.queues[k].flight.Some?
    requires UplinkRuns.Told(s.up, s.queues[k].flight.value.tag)
    ensures var q := s.queues[k];
            SettledBefore(ident, s.sunk, k, q.log, Max(q.flight.value.upto, q.log.removed))
  {
    hide UplinkRuns.AckedSince, UplinkRuns.Numbered, FromQueue, LogInv, Position, SunkIds, PassInv;
    var q := s.queues[k];
    var f := q.flight.value;
    var b := s.up.born[f.tag];
    AckedAreSunk(ident, s, s.up.log, b.at, k);
    assert b.w.ids <= SunkIds(ident, s.sunk, k);
    RemovedInRange(crc, q.log);
  }

  lemma RemovedInRange(crc: Checksum, log: Log)
    requires LogInv(crc, log)
    ensures log.removed <= |log.accepted|
  {
  }

  lemma Resumes(crc: Checksum, ident: Ident, maxBytes: int, s: System, a: Action)
    requires SystemInv(crc, ident, s) && Can(crc, maxBytes, s, a) && a.Return?
    ensures SystemInv(crc, ident, Apply(crc, ident, maxBytes, s, a))
  {
    hide WireInv, LogInv, Position, SettledBefore, IdSet;
    var k := a.kind;
    var q := s.queues[k];
    var f := q.flight.value;
    if s.up.now.ch[f.tag][0].Failed? {
      Landed(crc, ident, s, k);
    } else {
      assert UplinkRuns.Told(s.up, f.tag);
      ResumeSettles(crc, ident, s, k);
      OneQueue(crc, ident, s, k, Resume(s, k, a.saved).queues[k]);
    }
  }

  // ---------- Steps of the connector ----------

  lemma SunkGrow(ident: Ident, sunk: set<(Kind, Entry)>, k: Kind, e: Entry)
    ensures forall j :: SunkIds(ident, sunk, j) <= SunkIds(ident, sunk + {(k, e)}, j)
  {
  }

  lemma ConnectorWire(crc: Checksum, ident: Ident, maxBytes: int, s: System, a: Action)
    requires WireInv(ident, s) && Can(crc, maxBytes, s, a)
    requires a.StartServing? || a.SinkItem? || a.SinkFails? || a.Transmit?
    ensures WireInv(ident, Apply(crc, ident, maxBytes, s, a))
  {
    hide UplinkRuns.Numbered, UplinkRuns.Correct, SunkIds;
    var s' := Apply(crc, ident, maxBytes, s, a);
    if a.SinkItem? {
      var w := a.work;
      SunkGrow(ident, s.sunk, w.report.kind, w.report.items[w.done]);
      assert w.report.items[w.done] in s.queues[w.report.kind].log.accepted;
    }
  }

  lemma AckWire(crc: Checksum, ident: Ident, maxBytes: int, s: System, a: Action)
    requires WireInv(ident, s) && Can(crc, maxBytes, s, a) && a.SendAck?
    ensures WireInv(ident, Apply(crc, ident, maxBytes, s, a))
  {
    hide UplinkRuns.Numbered, UplinkRuns.Correct, FromQueue, IdsOf;
    var w := a.work;
    var ack := Ack(w.report.kind, IdsOf(ident, w.report.items));
    forall id | id in Named(ack) ensures id in SunkIds(ident, s.sunk, ack.kind) {
      IdsOfMember(ident, w.report.items, id);
      var i :| 0 <= i < |w.report.items| && ident(w.report.items[i]) == Some(id);
      assert (w.report.kind, w.report.items[i]) in s.sunk;
    }
  }

  lemma ConnectorSteps(crc: Checksum, ident: Ident, maxBytes: int, s: System, a: Action)
    requires SystemInv(crc, ident, s) && Can(crc, maxBytes, s, a)
    requires a.StartServing? || a.SinkItem? || a.SinkFails? || a.SendAck? || a.Transmit?
    ensures SystemInv(crc, ident, Apply(crc, ident, maxBytes, s, a))
  {
    hide WireInv, QueueInv;
    var s' := Apply(crc, ident, maxBytes, s, a);
    if a.SendAck? {
      AckWire(crc, ident, maxBytes, s, a);
    } else {
      ConnectorWire(crc, ident, maxBytes, s, a);
    }
    forall k | k in s.queues ensures QueueInv(crc, ident, k, s.queues[k], s.up, s'.sunk) {
      QueueInvMono(crc, ident, k, s.queues[k], s.up, s.sunk, s.up, s'.sunk);
    }
  }

  // ---------- Crash and restart ----------

  lemma QueueRestarts(crc: Checksum, ident: Ident, k: Kind, q: Queue, lost: bool,
                      up: UplinkRuns.History, sunk: set<(Kind, Entry)>)
    requires QueueInv(crc, ident, k, q, up, sunk)
    ensures QueueInv(crc, ident, k, Restarted(q, lost), UplinkRuns.NEW, sunk)
  {
    hide Intact, Listing, Marks, Record, Settled;
    var log := q.log.(writing := None);
    IntactShape(crc, log.dir, log.segs, log.torn);
    assert LogInv(crc, log);
    assert Position(crc, log, q.durable, q.durPos);
    StartMarks(crc, log.dir, log.segs);
    assert Position(crc, log, START, log.removed);
  }

  lemma StartMarks(crc: Checksum, dir: seq<File>, segs: seq<seq<Entry>>)
    requires |dir| == |segs| > 0
    ensures Marks(crc, dir, segs, START, 0)
  {
    MarksFirst(crc, dir, segs);
  }

  lemma CrashWire(crc: Checksum, ident: Ident, maxBytes: int, s: System, a: Action)
    requires WireInv(ident, s) && a.CrashRestart?
    ensures WireInv(ident, Apply(crc, ident, maxBytes, s, a))
  {
    hide UplinkRuns.Numbered, UplinkRuns.Correct, SunkIds;
    UplinkRuns.NewCorrect();
  }

  lemma Crashes(crc: Checksum, ident: Ident, maxBytes: int, s: System, a: Action)
    requires SystemInv(crc, ident, s) && a.CrashRestart?
    ensures SystemInv(crc, ident, Apply(crc, ident, maxBytes, s, a))
  {
    hide WireInv, QueueInv, Restarted;
    CrashWire(crc, ident, maxBytes, s, a);
    var s' := Apply(crc, ident, maxBytes, s, a);
    forall k | k in s'.queues ensures QueueInv(crc, ident, k, s'.queues[k], s'.up, s'.sunk) {
      QueueRestarts(crc, ident, k, s.queues[k], k in a.cursorLost, s.up, s.sunk);
    }
  }

  // ---------- The theorem ----------

  lemma StepKeepsInv(crc: Checksum, ident: Ident, maxBytes: int, s: System, a: Action)
    requires SystemInv(crc, ident, s) && Can(crc, maxBytes, s, a)
    ensures SystemInv(crc, ident, Apply(crc, ident, maxBytes, s, a))
  {
    hide SystemInv, Launch, Resume, UplinkRuns.Advance;
    match a {
      case Write(_, _) => Writes(crc, ident, maxBytes, s, a);
      case OpenRead(_, _) => Reads(crc, ident, maxBytes, s, a);
      case OpenNext(_) => Reads(crc, ident, maxBytes, s, a);
      case EmptyRead(_) => Reads(crc, ident, maxBytes, s, a);
      case SendBatch(_) => Launches(crc, ident, maxBytes, s, a);
      case QueueFull(k) =>
        var ev := Remove(s.queues[k].flight.value.tag);
        UplinkEvent(crc, ident, s, ev);
        Landed(crc, ident, s.(up := UplinkRuns.Advance(s.up, ev)), k);
      case Timeout(k) => Landed(crc, ident, s, k);
      case Receive(ack) => UplinkEvent(crc, ident, s, Uplink.Receive(ack));
      case Disconnect => UplinkEvent(crc, ident, s, Uplink.Disconnect);
      case SendError(tag) => UplinkEvent(crc, ident, s, Uplink.SendError(tag));
      case Return(_, _) => Resumes(crc, ident, maxBytes, s, a);
      case CrashRestart(_) => Crashes(crc, ident, maxBytes, s, a);
      case _ => ConnectorSteps(crc, ident, maxBytes, s, a);
    }
  }

  lemma {:induction false} RunKeepsInv(crc: Checksum, ident: Ident, maxBytes: int, s: System, acts: seq<Action>, s': System)
    requires SystemInv(crc, ident, s) && Run(crc, ident, maxBytes, s, acts, s')
    ensures SystemInv(crc, ident, s')
    decreases |acts|
  {
    hide SystemInv, Can, Apply;
    if acts == [] {
    } else {
      StepKeepsInv(crc, ident, maxBytes, s, acts[0]);
      RunKeepsInv(crc, ident, maxBytes, Apply(crc, ident, maxBytes, s, acts[0]), acts[1..], s');
    }
  }

  lemma FreshQueue(crc: Checksum, ident: Ident, k: Kind)
    ensures QueueInv(crc, ident, k, START_QUEUE, UplinkRuns.NEW, {})
  {
    hide LogInv, Position;
    FreshReader(crc);
  }

  lemma InitialInv(crc: Checksum, ident: Ident)
    ensures SystemInv(crc, ident, INITIAL)
  {
    hide QueueInv, UplinkRuns.Numbered, UplinkRuns.Correct;
    UplinkRuns.NewCorrect();
    forall k | k in KINDS ensures QueueInv(crc, ident, k, START_QUEUE, UplinkRuns.NEW, {}) {
      FreshQueue(crc, ident, k);
    }
  }

  /** Every entry ever accepted by a reliable queue is still at or after the cursor on disk, or
      was deleted by the quota, or carries an id for which the connector's sink has returned
      success under the queue's kind. */
  ghost predicate NothingLost(crc: Checksum, ident: Ident, s: System) {
    forall k :: k in s.queues ==>
      var q := s.queues[k];
      && q.durPos <= |q.log.accepted|
      && Ahead(crc, q.log.dir, q.durable) == q.log.accepted[q.durPos..]
      && forall i :: 0 <= i < q.durPos ==>
           || i < q.log.removed
           || ident(q.log.accepted[i]).None?
           || ident(q.log.accepted[i]).value in SunkIds(ident, s.sunk, k)
  }

  /** No silent loss, over every run from the initial state. */
  lemma NoSilentLoss(crc: Checksum, ident: Ident, maxBytes: int, acts: seq<Action>, s: System)
    requires Run(crc, ident, maxBytes, INITIAL, acts, s)
    ensures NothingLost(crc, ident, s)
  {
    hide LogInv, Position, Ahead, SunkIds, WireInv, FlightInv, PassInv;
    InitialInv(crc, ident);
    RunKeepsInv(crc, ident, maxBytes, INITIAL, acts, s);
    forall k | k in s.queues
      ensures var q := s.queues[k];
              q.durPos <= |q.log.accepted| && Ahead(crc, q.log.dir, q.durable) == q.log.accepted[q.durPos..]
    {
      var q := s.queues[k];
      assert QueueInv(crc, ident, k, q, s.up, s.sunk);
      PositionAhead(crc, q.log, q.durable, q.durPos);
    }
  }

  /** If no two accepted entries of a queue share an id, the entry itself reached the sink. */
  lemma NoContentLost(crc: Checksum, ident: Ident, maxBytes: int, acts: seq<Action>, s: System, k: Kind, i: nat)
    requires Run(crc, ident, maxBytes, INITIAL, acts, s) && k in s.queues
    requires var es := s.queues[k].log.accepted;
             forall a, b :: 0 <= a < |es| && 0 <= b < |es| && ident(es[a]).Some? && ident(es[a]) == ident(es[b]) ==> es[a] == es[b]
    requires s.queues[k].log.removed <= i < s.queues[k].durPos && i < |s.queues[k].log.accepted|
    requires ident(s.queues[k].log.accepted[i]).Some?
    ensures (k, s.queues[k].log.accepted[i]) in s.sunk
  {
    hide QueueInv, FromQueue, UplinkRuns.Numbered, UplinkRuns.Correct, Ahead;
    NoSilentLoss(crc, ident, maxBytes, acts, s);
    InitialInv(crc, ident);
    RunKeepsInv(crc, ident, maxBytes, INITIAL, acts, s);
    var es := s.queues[k].log.accepted;
    assert ident(es[i]).value in SunkIds(ident, s.sunk, k);
    var p :| p in s.sunk && p.0 == k && ident(p.1) == ident(es[i]);
    assert p.1 in es;
    var j :| 0 <= j < |es| && es[j] == p.1;
  }
}
