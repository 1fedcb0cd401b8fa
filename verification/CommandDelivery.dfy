/** From the outbox through the mailbox to the control streams, within one connector process
    (cmd/connector/main.go, internal/platform/store.go, internal/connector/mailbox.go). */
module CommandDelivery {
  import opened Options
  import Mailbox
  import M = MailboxRuns
  import opened Store

  /** How far the dispatcher has got with a fetched row. */
  datatype Stage = Taken | Submitted | Succeeded | Failed | Done

  datatype Hand = Hand(row: nat, stage: Stage)

  /** What happened to the leases, in order. */
  datatype LeaseEvent = Handed(row: nat, at: int) | Released(row: nat) | Published(row: nat)

  /** The tables, the mailbox, the rows in the hands of dispatcher iterations, and the leases. */
  datatype System = System(db: Db, mail: M.History, hands: seq<Hand>, log: seq<LeaseEvent>)

  const INITIAL := System(EMPTY, M.NEW, [], [])

  datatype Action =
    | SubmitCmd(id: string, asset: string, order: Mailbox.Order, now: int)
    | AdminCancel(asset: string, id: string, now: int)
    | FetchRows(busy: set<nat>, now: int, limit: nat)
    | Enter(hand: nat, now: int, later: int)
    | Record(hand: nat, ok: bool)
    | Mark(hand: nat, ok: bool)
    | ControlDispatch(asset: string, now: int)
    | Move(id: string, kind: string, to: string)
    | ReportResult(id: string, result: string, status: string)

  predicate InHand(s: System, i: nat, stage: Stage) {
    i < |s.hands| && s.hands[i].stage == stage && s.hands[i].row < |s.db.outbox|
  }

  predicate Can(s: System, a: Action) {
    && Mailbox.Linked(s.mail.box)
    && match a
       case Enter(i, _, _) => InHand(s, i, Taken)
       case Record(i, _) => InHand(s, i, Submitted)
       case Mark(i, _) => InHand(s, i, Succeeded) || InHand(s, i, Failed)
       case _ => true
  }

  function SetStage(s: System, i: nat, stage: Stage): System
    requires i < |s.hands|
  {
    s.(hands := s.hands[i := s.hands[i].(stage := stage)])
  }

  /** `dispatchOutbox` up to the mailbox: a duplicate counts as delivered, a full mailbox is an
      error; a cancel request names no asset. */
  function EnterMailbox(perAsset: int, ttl: int, s: System, i: nat, now: int, later: int): System
    requires InHand(s, i, Taken) && Mailbox.Linked(s.mail.box)
  {
    var r := s.db.outbox[s.hands[i].row];
    if r.kind.CancelRequested? then
      SetStage(s, i, Succeeded).(mail := M.Advance(perAsset, ttl, s.mail, M.CancelEv(r.asset, r.cmd)))
    else
      var ev := M.SubmitEv(r.asset, r.cmd, r.order, now, later);
      var outcome := Mailbox.Submit(s.mail.box, perAsset, r.asset, r.cmd, M.Fresh(ev, ttl)).1;
      SetStage(s, i, match outcome case Accepted => Submitted case DuplicateId => Succeeded case MailboxFull => Failed)
        .(mail := M.Advance(perAsset, ttl, s.mail, ev))
  }

  /** The DISPATCHING transition may fail, in which case the row is released although the
      mailbox has the command. */
  function RecordDispatching(s: System, i: nat, ok: bool): System
    requires InHand(s, i, Submitted)
  {
    if !ok then SetStage(s, i, Failed)
    else
      var (db, outcome) := Transition(s.db, s.db.outbox[s.hands[i].row].cmd, "dispatching", "DISPATCHING");
      SetStage(s, i, if outcome == Committed then Succeeded else Failed).(db := db)
  }

  /** The final mark is best effort: if it fails the row stays leased until the lease ends. */
  function MarkRow(s: System, i: nat, ok: bool): System
    requires InHand(s, i, Succeeded) || InHand(s, i, Failed)
  {
    var row := s.hands[i].row;
    if !ok then SetStage(s, i, Done)
    else if s.hands[i].stage.Succeeded? then
      SetStage(s, i, Done).(db := MarkPublished(s.db, row), log := s.log + [Published(row)])
    else
      SetStage(s, i, Done).(db := MarkOutboxError(s.db, row), log := s.log + [Released(row)])
  }

  function Apply(perAsset: int, ttl: int, s: System, a: Action): System
    requires Can(s, a)
  {
    match a
    case SubmitCmd(id, asset, order, now) => s.(db := SubmitCommand(s.db, id, asset, order, now).0)
    case AdminCancel(asset, id, now) =>
      s.(db := CancelCommand(s.db, id, now), mail := M.Advance(perAsset, ttl, s.mail, M.CancelEv(asset, id)))
    case FetchRows(busy, now, limit) =>
      var (db, taken) := FetchOutbox(s.db, busy, now, limit);
      s.(db := db,
         hands := s.hands + seq(|taken|, k requires 0 <= k < |taken| => Hand(taken[k], Taken)),
         log := s.log + seq(|taken|, k requires 0 <= k < |taken| => Handed(taken[k], now)))
    case Enter(i, now, later) => EnterMailbox(perAsset, ttl, s, i, now, later)
    case Record(i, ok) => RecordDispatching(s, i, ok)
    case Mark(i, ok) => MarkRow(s, i, ok)
    case ControlDispatch(asset, now) => s.(mail := M.Advance(perAsset, ttl, s.mail, M.DispatchEv(asset, now)))
    case Move(id, kind, to) => s.(db := Transition(s.db, id, kind, to).0)
    case ReportResult(id, result, status) =>
      s.(db := CompleteCommand(s.db, id, status).0, mail := M.Advance(perAsset, ttl, s.mail, M.CompleteEv(id, result)))
  }

  ghost predicate Run(perAsset: int, ttl: int, s: System, acts: seq<Action>, s': System)
    decreases |acts|
  {
    if acts == [] then s' == s
    else Can(s, acts[0]) && Run(perAsset, ttl, Apply(perAsset, ttl, s, acts[0]), acts[1..], s')
  }

  // ---------- What is promised ----------

  predicate Knows(s: System, row: nat) {
    && row < |s.db.outbox|
    && (s.db.outbox[row].kind.DispatchRequested? ==> s.db.outbox[row].cmd in s.mail.box.byID)
  }

  /** A published dispatch request is known to the mailbox, and so is one that is about to be
      published. */
  predicate DeliveredOnce(s: System) {
    && (forall e :: 0 <= e < |s.db.outbox| && s.db.outbox[e].published ==> Knows(s, e))
    && (forall i :: 0 <= i < |s.hands| ==>
          && s.hands[i].row < |s.db.outbox|
          && (s.hands[i].stage.Submitted? || s.hands[i].stage.Succeeded? ==> Knows(s, s.hands[i].row)))
  }

  predicate HeldSince(log: seq<LeaseEvent>, i: nat) {
    && i < |log| && log[i].Handed?
    && forall k :: i < k < |log| ==> log[k] != Released(log[i].row)
  }

  /** A row handed out and not released since is locked at least until its lease ends. */
  predicate LocksHold(rows: seq<Row>, log: seq<LeaseEvent>) {
    && (forall i :: 0 <= i < |log| ==> log[i].row < |rows|)
    && (forall i :: 0 <= i < |log| && HeldSince(log, i) ==>
          rows[log[i].row].lockedUntil.Some? && rows[log[i].row].lockedUntil.value >= log[i].at + LEASE)
    && (forall i :: 0 <= i < |log| && log[i].Published? ==> rows[log[i].row].published)
  }

  predicate HandedTwice(log: seq<LeaseEvent>, i: nat, j: nat) {
    && i < j < |log| && log[i].Handed? && log[j].Handed? && log[i].row == log[j].row
    && forall k :: i < k < j ==> log[k] != Released(log[i].row)
  }

  /** No row is handed out twice within a lease unless it was released in between, and none after
      it was published. */
  predicate LeasesRespected(log: seq<LeaseEvent>) {
    && (forall i, j :: 0 <= i < j < |log| && HandedTwice(log, i, j) ==> log[j].at > log[i].at + 30_000)
    && (forall i, j :: 0 <= i < j < |log| && log[i].Published? && log[j].Handed? ==> log[i].row != log[j].row)
  }

  ghost predicate Inv(perAsset: int, s: System) {
    && M.MailInv(perAsset, s.mail)
    && DeliveredOnce(s)
    && LocksHold(s.db.outbox, s.log)
    && LeasesRespected(s.log)
  }

  // ---------- Every step ----------

  predicate SameRequest(r: Row, r': Row) {
    r'.cmd == r.cmd && r'.kind == r.kind
  }

  /** The outbox only grows, a row keeps what it asks for, and the mailbox forgets nothing. */
  predicate Extends(s: System, s': System) {
    && |s.db.outbox| <= |s'.db.outbox|
    && (forall e :: 0 <= e < |s.db.outbox| ==> SameRequest(s.db.outbox[e], s'.db.outbox[e]))
    && s.mail.box.byID.Keys <= s'.mail.box.byID.Keys
  }

  lemma KnowsStays(s: System, s': System, row: nat)
    requires Extends(s, s') && Knows(s, row)
    ensures Knows(s', row)
  {
    assert SameRequest(s.db.outbox[row], s'.db.outbox[row]);
  }

  lemma DeliveredStays(s: System, s': System)
    requires DeliveredOnce(s) && Extends(s, s') && s'.hands == s.hands
    requires forall e :: 0 <= e < |s'.db.outbox| && s'.db.outbox[e].published ==> e < |s.db.outbox| && s.db.outbox[e].published
    ensures DeliveredOnce(s')
  {
    hide Knows, Extends;
    forall row | Knows(s, row) ensures Knows(s', row) { KnowsStays(s, s', row); }
    assert |s.db.outbox| <= |s'.db.outbox| by { ExtendsLength(s, s'); }
  }

  lemma ExtendsLength(s: System, s': System)
    requires Extends(s, s')
    ensures |s.db.outbox| <= |s'.db.outbox|
  {
  }

  lemma LocksStay(rows: seq<Row>, rows': seq<Row>, log: seq<LeaseEvent>)
    requires LocksHold(rows, log) && |rows| <= |rows'|
    requires forall e :: 0 <= e < |rows| ==> rows'[e].lockedUntil == rows[e].lockedUntil && (rows[e].published ==> rows'[e].published)
    ensures LocksHold(rows', log)
  {
    hide HeldSince;
  }

  lemma MailMoves(perAsset: int, ttl: int, h: M.History, ev: M.Event)
    requires M.MailInv(perAsset, h)
    ensures Mailbox.Linked(h.box)
    ensures M.MailInv(perAsset, M.Advance(perAsset, ttl, h, ev))
    ensures h.box.byID.Keys <= M.Advance(perAsset, ttl, h, ev).box.byID.Keys
  {
    M.StepKeeps(perAsset, ttl, h, ev);
    M.StepForward(perAsset, ttl, h, ev);
    hide M.MailInv, M.Advance;
  }

  /** Steps that leave leases and dispatcher alone. */
  lemma PlainSteps(perAsset: int, ttl: int, s: System, a: Action)
    requires Inv(perAsset, s) && Can(s, a)
    requires a.SubmitCmd? || a.AdminCancel? || a.ControlDispatch? || a.Move? || a.ReportResult?
    ensures Inv(perAsset, Apply(perAsset, ttl, s, a))
  {
    hide M.MailInv, M.Advance, DeliveredOnce, LocksHold, LeasesRespected;
    var s' := Apply(perAsset, ttl, s, a);
    match a {
      case AdminCancel(asset, id, _) => MailMoves(perAsset, ttl, s.mail, M.CancelEv(asset, id));
      case ControlDispatch(asset, now) => MailMoves(perAsset, ttl, s.mail, M.DispatchEv(asset, now));
      case ReportResult(id, result, _) => MailMoves(perAsset, ttl, s.mail, M.CompleteEv(id, result));
      case _ =>
    }
    assert Extends(s, s');
    DeliveredStays(s, s');
    LocksStay(s.db.outbox, s'.db.outbox, s.log);
  }

  lemma EnterKeeps(perAsset: int, ttl: int, s: System, a: Action)
    requires Inv(perAsset, s) && Can(s, a) && a.Enter?
    ensures Inv(perAsset, Apply(perAsset, ttl, s, a))
  {
    hide M.MailInv, LocksHold, LeasesRespected;
    var s' := Apply(perAsset, ttl, s, a);
    var r := s.db.outbox[s.hands[a.hand].row];
    var ev := if r.kind.CancelRequested? then M.CancelEv(r.asset, r.cmd) else M.SubmitEv(r.asset, r.cmd, r.order, a.now, a.later);
    MailMoves(perAsset, ttl, s.mail, ev);
    assert Extends(s, s');
    HandMoves(s, s', a.hand);
  }

  /** Changing the stage of one hand. */
  lemma HandMoves(s: System, s': System, i: nat)
    requires DeliveredOnce(s) && Extends(s, s') && i < |s.hands| == |s'.hands|
    requires s'.hands == s.hands[i := s.hands[i].(stage := s'.hands[i].stage)]
    requires s'.hands[i].stage.Submitted? || s'.hands[i].stage.Succeeded? ==> Knows(s', s.hands[i].row)
    requires forall e :: 0 <= e < |s'.db.outbox| && s'.db.outbox[e].published ==>
               Knows(s', e) || (e < |s.db.outbox| && s.db.outbox[e].published)
    ensures DeliveredOnce(s')
  {
    hide Knows, Extends;
    ExtendsLength(s, s');
    forall row | Knows(s, row) ensures Knows(s', row) { KnowsStays(s, s', row); }
  }

  lemma RecordKeeps(perAsset: int, ttl: int, s: System, a: Action)
    requires Inv(perAsset, s) && Can(s, a) && a.Record?
    ensures Inv(perAsset, Apply(perAsset, ttl, s, a))
  {
    hide M.MailInv, LocksHold, LeasesRespected;
    var s' := Apply(perAsset, ttl, s, a);
    assert Extends(s, s');
    HandMoves(s, s', a.hand);
  }

  lemma MarkKeeps(perAsset: int, ttl: int, s: System, a: Action)
    requires Inv(perAsset, s) && Can(s, a) && a.Mark?
    ensures Inv(perAsset, Apply(perAsset, ttl, s, a))
  {
    hide M.MailInv, LocksHold, LeasesRespected;
    var s' := Apply(perAsset, ttl, s, a);
    assert Extends(s, s');
    HandMoves(s, s', a.hand);
    if a.ok { MarkLeases(s.db.outbox, s'.db.outbox, s.log, s.hands[a.hand].row, s.hands[a.hand].stage.Succeeded?); }
  }

  lemma MarkLeases(rows: seq<Row>, rows': seq<Row>, log: seq<LeaseEvent>, row: nat, publish: bool)
    requires LocksHold(rows, log) && LeasesRespected(log) && row < |rows|
    requires rows' == if publish then rows[row := rows[row].(published := true)] else rows[row := rows[row].(lockedUntil := None)]
    ensures var log' := log + [if publish then Published(row) else Released(row)];
            LocksHold(rows', log') && LeasesRespected(log')
  {
    var log' := log + [if publish then Published(row) else Released(row)];
    forall i | 0 <= i < |log'| && HeldSince(log', i)
      ensures rows'[log'[i].row].lockedUntil.Some? && rows'[log'[i].row].lockedUntil.value >= log'[i].at + LEASE
    {
      assert log'[i] == log[i];
      assert HeldSince(log, i) by {
        forall k | i < k < |log| ensures log[k] != Released(log[i].row) { assert log'[k] == log[k]; }
      }
      assert log'[|log|] != Released(log[i].row);
    }
    LeasesSnoc(log, log'[|log|]);
  }

  lemma LeasesSnoc(log: seq<LeaseEvent>, e: LeaseEvent)
    requires LeasesRespected(log) && !e.Handed?
    ensures LeasesRespected(log + [e])
  {
    var log' := log + [e];
    forall i, j | 0 <= i < j < |log'| && HandedTwice(log', i, j) ensures log'[j].at > log'[i].at + LEASE {
      assert HandedTwice(log, i, j) by { assert forall k :: i <= k <= j ==> log'[k] == log[k]; }
    }
  }

  /** Leasing one more row. */
  lemma HandOut(rows: seq<Row>, rows': seq<Row>, log: seq<LeaseEvent>, row: nat, now: int)
    requires LocksHold(rows, log) && LeasesRespected(log) && row < |rows| && Eligible(rows[row], now)
    requires rows' == rows[row := Leased(rows[row], now)]
    ensures LocksHold(rows', log + [Handed(row, now)]) && LeasesRespected(log + [Handed(row, now)])
  {
    var log', n := log + [Handed(row, now)], |log|;
    forall i | 0 <= i < |log'| && HeldSince(log', i)
      ensures rows'[log'[i].row].lockedUntil.Some? && rows'[log'[i].row].lockedUntil.value >= log'[i].at + LEASE
    {
      if i < n {
        assert HeldSince(log, i) by {
          forall k | i < k < n ensures log[k] != Released(log[i].row) { assert log'[k] == log[k]; }
        }
      }
    }
    forall i, j | 0 <= i < j < |log'| && HandedTwice(log', i, j) ensures log'[j].at > log'[i].at + LEASE {
      if j < n {
        assert HandedTwice(log, i, j) by { assert forall k :: i <= k <= j ==> log'[k] == log[k]; }
      } else {
        assert HeldSince(log, i) by {
          forall k | i < k < n ensures log[k] != Released(log[i].row) { assert log'[k] == log[k]; }
        }
      }
    }
  }

  function LeaseAll(rows: seq<Row>, taken: seq<nat>, now: int): (r: seq<Row>)
    requires forall k :: 0 <= k < |taken| ==> taken[k] < |rows|
    ensures |r| == |rows|
  {
    if taken == [] then rows
    else
      var r := LeaseAll(rows, taken[..|taken| - 1], now);
      r[taken[|taken| - 1] := Leased(r[taken[|taken| - 1]], now)]
  }

  lemma {:induction false} HandOutAll(rows: seq<Row>, log: seq<LeaseEvent>, taken: seq<nat>, now: int)
    requires LocksHold(rows, log) && LeasesRespected(log)
    requires forall k :: 0 <= k < |taken| ==> taken[k] < |rows| && Eligible(rows[taken[k]], now)
    requires forall k, l :: 0 <= k < l < |taken| ==> taken[k] < taken[l]
    ensures var rows', log' := LeaseAll(rows, taken, now), log + seq(|taken|, k requires 0 <= k < |taken| => Handed(taken[k], now));
            && LocksHold(rows', log') && LeasesRespected(log')
            && (forall e :: 0 <= e < |rows| ==> rows'[e] == if e in taken then Leased(rows[e], now) else rows[e])
    decreases |taken|
  {
    hide LocksHold, LeasesRespected;
    var log' := log + seq(|taken|, k requires 0 <= k < |taken| => Handed(taken[k], now));
    if taken == [] {
      assert log' == log;
    } else {
      var init, row := taken[..|taken| - 1], taken[|taken| - 1];
      HandOutAll(rows, log, init, now);
      var mid := log + seq(|init|, k requires 0 <= k < |init| => Handed(init[k], now));
      var r := LeaseAll(rows, init, now);
      assert row !in init;
      HandOut(r, LeaseAll(rows, taken, now), mid, row, now);
      assert log' == mid + [Handed(row, now)];
      assert forall e :: e in taken <==> e in init || e == row;
    }
  }

  lemma FetchKeeps(perAsset: int, ttl: int, s: System, a: Action)
    requires Inv(perAsset, s) && Can(s, a) && a.FetchRows?
    ensures Inv(perAsset, Apply(perAsset, ttl, s, a))
  {
    hide M.MailInv, LocksHold, LeasesRespected, Fetch;
    var s' := Apply(perAsset, ttl, s, a);
    FetchLeases(s.db.outbox, a.busy, a.now, a.limit);
    var (rows, taken) := Fetch(s.db.outbox, a.busy, a.now, a.limit);
    HandOutAll(s.db.outbox, s.log, taken, a.now);
    assert rows == LeaseAll(s.db.outbox, taken, a.now);
    assert Extends(s, s');
    FetchDelivered(s, s', taken);
  }

  lemma FetchDelivered(s: System, s': System, taken: seq<nat>)
    requires DeliveredOnce(s) && Extends(s, s')
    requires forall k :: 0 <= k < |taken| ==> taken[k] < |s'.db.outbox|
    requires s'.hands == s.hands + seq(|taken|, k requires 0 <= k < |taken| => Hand(taken[k], Taken))
    requires forall e :: 0 <= e < |s'.db.outbox| && s'.db.outbox[e].published ==> e < |s.db.outbox| && s.db.outbox[e].published
    ensures DeliveredOnce(s')
  {
    hide Knows, Extends;
    ExtendsLength(s, s');
    forall row | Knows(s, row) ensures Knows(s', row) { KnowsStays(s, s', row); }
  }

  lemma StepKeeps(perAsset: int, ttl: int, s: System, a: Action)
    requires Inv(perAsset, s) && Can(s, a)
    ensures Inv(perAsset, Apply(perAsset, ttl, s, a))
  {
    hide Inv, Can;
    match a {
      case FetchRows(_, _, _) => FetchKeeps(perAsset, ttl, s, a);
      case Enter(_, _, _) => EnterKeeps(perAsset, ttl, s, a);
      case Record(_, _) => RecordKeeps(perAsset, ttl, s, a);
      case Mark(_, _) => MarkKeeps(perAsset, ttl, s, a);
      case _ => PlainSteps(perAsset, ttl, s, a);
    }
  }

  lemma {:induction false} RunKeeps(perAsset: int, ttl: int, s: System, acts: seq<Action>, s': System)
    requires Inv(perAsset, s) && Run(perAsset, ttl, s, acts, s')
    ensures Inv(perAsset, s')
    decreases |acts|
  {
    hide Inv, Can, Apply;
    if acts == [] {
    } else {
      StepKeeps(perAsset, ttl, s, acts[0]);
      RunKeeps(perAsset, ttl, Apply(perAsset, ttl, s, acts[0]), acts[1..], s');
    }
  }

  /** For any schedule of fetches, lease expiries, failures, redeliveries, cancels, dispatches and
      results: a command enters the mailbox at most once and is handed to a control stream at
      most once, although its outbox row may be delivered many times; a published dispatch
      request is known to the mailbox; and leases are respected. */
  lemma AtMostOnce(perAsset: int, ttl: int, acts: seq<Action>, s: System)
    requires Run(perAsset, ttl, INITIAL, acts, s)
    ensures forall i, j :: 0 <= i < j < |s.mail.submits| ==> s.mail.submits[i].1 != s.mail.submits[j].1
    ensures forall i, j :: 0 <= i < j < |s.mail.sent| ==> s.mail.sent[i].id != s.mail.sent[j].id
    ensures forall e :: 0 <= e < |s.db.outbox| && s.db.outbox[e].published && s.db.outbox[e].kind.DispatchRequested? ==>
              s.db.outbox[e].cmd in s.mail.box.byID
    ensures LeasesRespected(s.log)
  {
    hide LeasesRespected, M.MailInv, Run, LocksHold;
    M.NewMailbox(perAsset);
    InitialInv(perAsset);
    RunKeeps(perAsset, ttl, INITIAL, acts, s);
    M.EachOnce(perAsset, s.mail);
    forall e | 0 <= e < |s.db.outbox| && s.db.outbox[e].published && s.db.outbox[e].kind.DispatchRequested?
      ensures s.db.outbox[e].cmd in s.mail.box.byID
    {
      assert Knows(s, e);
    }
  }

  lemma InitialInv(perAsset: int)
    requires M.MailInv(perAsset, M.NEW)
    ensures Inv(perAsset, INITIAL)
  {
    hide M.MailInv;
  }
}
