/** What becomes of a submitted command: it is dispatched as it was submitted, it can be, and it is
    not once it was cancelled or has its result (cmd/connector/main.go,
    internal/platform/store.go, internal/connector/mailbox.go). */
module CommandOutcomes {
  import opened Options
  import Mailbox
  import M = MailboxRuns
  import O = MailboxOutcomes
  import opened Store
  import D = CommandDelivery

  // ---------- What every step does to the mailbox ----------

  /** The mailbox stays as it is or makes one of its own steps. */
  ghost predicate MailStep(perAsset: int, ttl: int, h: M.History, h': M.History) {
    h' == h || (Mailbox.Linked(h.box) && exists ev :: h' == M.Advance(perAsset, ttl, h, ev))
  }

  lemma StepMail(perAsset: int, ttl: int, s: D.System, a: D.Action)
    requires D.Can(s, a)
    ensures MailStep(perAsset, ttl, s.mail, D.Apply(perAsset, ttl, s, a).mail)
  {
    hide M.Advance, Mailbox.Submit, Fetch;
    match a {
      case AdminCancel(asset, id, _) =>
        assert D.Apply(perAsset, ttl, s, a).mail == M.Advance(perAsset, ttl, s.mail, M.CancelEv(asset, id));
      case ControlDispatch(asset, now) =>
        assert D.Apply(perAsset, ttl, s, a).mail == M.Advance(perAsset, ttl, s.mail, M.DispatchEv(asset, now));
      case ReportResult(id, result, _) =>
        assert D.Apply(perAsset, ttl, s, a).mail == M.Advance(perAsset, ttl, s.mail, M.CompleteEv(id, result));
      case Enter(i, now, later) =>
        var r := s.db.outbox[s.hands[i].row];
        if r.kind.CancelRequested? {
          assert D.Apply(perAsset, ttl, s, a).mail == M.Advance(perAsset, ttl, s.mail, M.CancelEv(r.asset, r.cmd));
        } else {
          assert D.Apply(perAsset, ttl, s, a).mail
              == M.Advance(perAsset, ttl, s.mail, M.SubmitEv(r.asset, r.cmd, r.order, now, later));
        }
      case _ =>
    }
  }

  /** A command that is no longer queued is never handed out, whatever happens in the system. */
  lemma {:induction false} NotQueuedNotSent(perAsset: int, ttl: int, s: D.System, acts: seq<D.Action>, s': D.System, id: string)
    requires D.Inv(perAsset, s) && D.Run(perAsset, ttl, s, acts, s')
    requires id in s.mail.box.byID && !s.mail.box.byID[id].state.Queued?
    ensures s.mail.sent <= s'.mail.sent
    ensures forall i :: |s.mail.sent| <= i < |s'.mail.sent| ==> s'.mail.sent[i].id != id
    decreases |acts|
  {
    hide D.Inv, D.Apply, M.MailInv, M.Advance, Mailbox.Linked, D.Can;
    if acts == [] {
    } else {
      var m := D.Apply(perAsset, ttl, s, acts[0]);
      D.StepKeeps(perAsset, ttl, s, acts[0]);
      StepMail(perAsset, ttl, s, acts[0]);
      MailOnward(perAsset, ttl, s, m, id);
      NotQueuedNotSent(perAsset, ttl, m, acts[1..], s', id);
      forall i | |s.mail.sent| <= i < |s'.mail.sent| ensures s'.mail.sent[i].id != id {
        if i < |m.mail.sent| { assert s'.mail.sent[i] == m.mail.sent[i]; }
      }
    }
  }

  lemma MailOnward(perAsset: int, ttl: int, s: D.System, m: D.System, id: string)
    requires D.Inv(perAsset, s) && MailStep(perAsset, ttl, s.mail, m.mail)
    requires id in s.mail.box.byID && !s.mail.box.byID[id].state.Queued?
    ensures s.mail.sent <= m.mail.sent && id in m.mail.box.byID && !m.mail.box.byID[id].state.Queued?
    ensures forall i :: |s.mail.sent| <= i < |m.mail.sent| ==> m.mail.sent[i].id != id
  {
    hide M.MailInv, M.Advance, D.DeliveredOnce, D.LocksHold, D.LeasesRespected;
    if m.mail != s.mail {
      var ev :| m.mail == M.Advance(perAsset, ttl, s.mail, ev);
      M.StepForward(perAsset, ttl, s.mail, ev);
    }
  }

  lemma StopStep(perAsset: int, ttl: int, s: D.System, a: D.Action)
    requires D.Can(s, a)
    requires (a.AdminCancel? && M.IsQueued(s.mail.box, a.id)) || (a.ReportResult? && a.id in s.mail.box.byID)
    ensures var m := D.Apply(perAsset, ttl, s, a);
            m.mail.sent == s.mail.sent && a.id in m.mail.box.byID && !m.mail.box.byID[a.id].state.Queued?
  {
    if a.AdminCancel? {
      O.CancelExpires(perAsset, ttl, s.mail, a.asset, a.id);
    } else {
      O.CompleteEnds(perAsset, ttl, s.mail, a.id, a.result);
    }
  }

  /** A command that an administrator cancels while it is queued, or that has its result, is never
      handed out afterwards. */
  lemma StoppedNotSent(perAsset: int, ttl: int, s: D.System, a: D.Action, acts: seq<D.Action>, s': D.System)
    requires D.Inv(perAsset, s) && D.Run(perAsset, ttl, s, [a] + acts, s')
    requires (a.AdminCancel? && M.IsQueued(s.mail.box, a.id)) || (a.ReportResult? && a.id in s.mail.box.byID)
    ensures forall i :: |s.mail.sent| <= i < |s'.mail.sent| ==> s'.mail.sent[i].id != a.id
  {
    hide D.Inv, D.Apply, D.Can;
    assert ([a] + acts)[0] == a && ([a] + acts)[1..] == acts;
    var m := D.Apply(perAsset, ttl, s, a);
    D.StepKeeps(perAsset, ttl, s, a);
    StopStep(perAsset, ttl, s, a);
    NotQueuedNotSent(perAsset, ttl, m, acts, s', a.id);
  }

  // ---------- Dispatched as submitted ----------

  predicate Submitted(acts: seq<D.Action>, id: string, asset: string, order: Mailbox.Order) {
    exists j :: 0 <= j < |acts| && acts[j].SubmitCmd? && acts[j].id == id && acts[j].asset == asset && acts[j].order == order
  }

  predicate RowRight(acts: seq<D.Action>, r: Row) {
    r.kind.DispatchRequested? ==> Submitted(acts, r.cmd, r.asset, r.order)
  }

  predicate Asks(r: Row, id: string, asset: string, order: Mailbox.Order) {
    r.kind.DispatchRequested? && r.cmd == id && r.asset == asset && r.order == order
  }

  /** Every dispatch request is as submitted, and every command in the mailbox as requested. */
  ghost predicate Faithful(acts: seq<D.Action>, s: D.System) {
    && s.mail.owner.Keys == s.mail.box.byID.Keys
    && (forall e :: 0 <= e < |s.db.outbox| ==> RowRight(acts, s.db.outbox[e]))
    && (forall id :: id in s.mail.box.byID ==> Requested(s.db.outbox, id, s.mail.owner[id], s.mail.box.byID[id].order))
  }

  predicate Requested(rows: seq<Row>, id: string, asset: string, order: Mailbox.Order) {
    exists e :: 0 <= e < |rows| && Asks(rows[e], id, asset, order)
  }

  /** A step keeps what the rows ask for and adds at most the rows of the command submitted. */
  ghost predicate RowsKept(s: D.System, a: D.Action, s': D.System) {
    && |s.db.outbox| <= |s'.db.outbox|
    && (forall e :: 0 <= e < |s.db.outbox| ==> SameAsk(s.db.outbox[e], s'.db.outbox[e]))
    && (forall e :: |s.db.outbox| <= e < |s'.db.outbox| && s'.db.outbox[e].kind.DispatchRequested? ==>
          a.SubmitCmd? && Asks(s'.db.outbox[e], a.id, a.asset, a.order))
  }

  predicate SameAsk(r: Row, r': Row) {
    r'.kind == r.kind && r'.cmd == r.cmd && r'.asset == r.asset && r'.order == r.order
  }

  lemma StepRows(perAsset: int, ttl: int, s: D.System, a: D.Action)
    requires D.Can(s, a)
    ensures RowsKept(s, a, D.Apply(perAsset, ttl, s, a))
  {
    hide M.Advance, Mailbox.Submit, Fetch, Mailbox.Linked;
    if a.FetchRows? { FetchLeases(s.db.outbox, a.busy, a.now, a.limit); }
  }

  lemma SubmittedLater(acts: seq<D.Action>, a: D.Action, r: Row)
    requires RowRight(acts, r)
    ensures RowRight(acts + [a], r)
  {
    if r.kind.DispatchRequested? {
      var j :| 0 <= j < |acts| && acts[j].SubmitCmd? && acts[j].id == r.cmd && acts[j].asset == r.asset && acts[j].order == r.order;
      assert (acts + [a])[j] == acts[j];
    }
  }

  lemma RowsFaithful(acts: seq<D.Action>, s: D.System, a: D.Action, s': D.System)
    requires Faithful(acts, s) && RowsKept(s, a, s')
    ensures forall e :: 0 <= e < |s'.db.outbox| ==> RowRight(acts + [a], s'.db.outbox[e])
    ensures forall id, asset, order :: Requested(s.db.outbox, id, asset, order) ==> Requested(s'.db.outbox, id, asset, order)
  {
    forall e | 0 <= e < |s'.db.outbox| ensures RowRight(acts + [a], s'.db.outbox[e]) {
      if e < |s.db.outbox| {
        assert SameAsk(s.db.outbox[e], s'.db.outbox[e]) && RowRight(acts, s.db.outbox[e]);
        SubmittedLater(acts, a, s.db.outbox[e]);
      } else {
        assert (acts + [a])[|acts|] == a;
      }
    }
    forall id, asset, order | Requested(s.db.outbox, id, asset, order) ensures Requested(s'.db.outbox, id, asset, order) {
      var e :| 0 <= e < |s.db.outbox| && Asks(s.db.outbox[e], id, asset, order);
      assert SameAsk(s.db.outbox[e], s'.db.outbox[e]) && Asks(s'.db.outbox[e], id, asset, order);
    }
  }

  /** A command new in the mailbox is the one some row in hand asks for. */
  lemma NewIsRequested(perAsset: int, ttl: int, s: D.System, a: D.Action, id: string)
    requires D.Inv(perAsset, s) && D.Can(s, a)
    requires var s' := D.Apply(perAsset, ttl, s, a); id in s'.mail.box.byID && id !in s.mail.box.byID
    ensures var s' := D.Apply(perAsset, ttl, s, a);
            id in s'.mail.owner && Requested(s.db.outbox, id, s'.mail.owner[id], s'.mail.box.byID[id].order)
  {
    hide M.MailInv, M.Advance, Fetch, Mailbox.Submit, D.DeliveredOnce, D.LocksHold, D.LeasesRespected;
    var s' := D.Apply(perAsset, ttl, s, a);
    match a {
      case AdminCancel(asset, x, _) => O.StepAdds(perAsset, ttl, s.mail, M.CancelEv(asset, x));
      case ControlDispatch(asset, now) => O.StepAdds(perAsset, ttl, s.mail, M.DispatchEv(asset, now));
      case ReportResult(x, result, _) => O.StepAdds(perAsset, ttl, s.mail, M.CompleteEv(x, result));
      case Enter(i, now, later) =>
        var r := s.db.outbox[s.hands[i].row];
        if r.kind.CancelRequested? {
          O.StepAdds(perAsset, ttl, s.mail, M.CancelEv(r.asset, r.cmd));
        } else {
          O.StepAdds(perAsset, ttl, s.mail, M.SubmitEv(r.asset, r.cmd, r.order, now, later));
          assert Asks(r, id, s'.mail.owner[id], s'.mail.box.byID[id].order);
        }
      case _ =>
    }
  }

  lemma StepOwners(perAsset: int, ttl: int, s: D.System, m: D.System)
    requires D.Inv(perAsset, s) && MailStep(perAsset, ttl, s.mail, m.mail)
    ensures s.mail.owner.Keys == s.mail.box.byID.Keys && m.mail.owner.Keys == m.mail.box.byID.Keys
    ensures forall id :: id in s.mail.box.byID ==>
              id in m.mail.box.byID && m.mail.owner[id] == s.mail.owner[id] && m.mail.box.byID[id].order == s.mail.box.byID[id].order
  {
    hide M.MailInv, M.Advance, D.DeliveredOnce, D.LocksHold, D.LeasesRespected;
    if m.mail == s.mail {
      O.InvLinked(perAsset, s.mail);
    } else {
      var ev :| m.mail == M.Advance(perAsset, ttl, s.mail, ev);
      M.StepForward(perAsset, ttl, s.mail, ev);
      O.StepAdds(perAsset, ttl, s.mail, ev);
    }
  }

  lemma StepFaithful(perAsset: int, ttl: int, past: seq<D.Action>, s: D.System, a: D.Action)
    requires D.Inv(perAsset, s) && D.Can(s, a) && Faithful(past, s)
    ensures Faithful(past + [a], D.Apply(perAsset, ttl, s, a))
  {
    hide D.Inv, D.Apply, D.Can, RowsKept, RowRight, Requested;
    var s' := D.Apply(perAsset, ttl, s, a);
    StepMail(perAsset, ttl, s, a);
    StepRows(perAsset, ttl, s, a);
    RowsFaithful(past, s, a, s');
    StepOwners(perAsset, ttl, s, s');
    forall id | id in s'.mail.box.byID ensures Requested(s'.db.outbox, id, s'.mail.owner[id], s'.mail.box.byID[id].order) {
      if id !in s.mail.box.byID { NewIsRequested(perAsset, ttl, s, a, id); }
    }
  }

  lemma {:induction false} RunFaithful(perAsset: int, ttl: int, past: seq<D.Action>, s: D.System, acts: seq<D.Action>, s': D.System)
    requires D.Inv(perAsset, s) && Faithful(past, s) && D.Run(perAsset, ttl, s, acts, s')
    ensures Faithful(past + acts, s')
    decreases |acts|
  {
    hide D.Inv, D.Apply, D.Can, Faithful;
    if acts == [] {
      assert past + acts == past;
    } else {
      D.StepKeeps(perAsset, ttl, s, acts[0]);
      StepFaithful(perAsset, ttl, past, s, acts[0]);
      RunFaithful(perAsset, ttl, past + [acts[0]], D.Apply(perAsset, ttl, s, acts[0]), acts[1..], s');
      assert past + [acts[0]] + acts[1..] == past + acts;
    }
  }

  /** Whatever a control stream is handed was submitted: with that id, to that asset, with that
      action, those parameters and that time limit. */
  lemma DispatchedAsSubmitted(perAsset: int, ttl: int, acts: seq<D.Action>, s: D.System, i: nat)
    requires D.Run(perAsset, ttl, D.INITIAL, acts, s) && i < |s.mail.sent|
    ensures s.mail.sent[i].id in s.mail.box.byID
    ensures Submitted(acts, s.mail.sent[i].id, s.mail.sent[i].asset, s.mail.box.byID[s.mail.sent[i].id].order)
  {
    hide D.Run, D.Inv, M.MailInv, RowRight;
    M.NewMailbox(perAsset);
    D.InitialInv(perAsset);
    D.RunKeeps(perAsset, ttl, D.INITIAL, acts, s);
    assert Faithful([], D.INITIAL) by { assert |D.INITIAL.db.outbox| == 0; }
    RunFaithful(perAsset, ttl, [], D.INITIAL, acts, s);
    assert [] + acts == acts;
    var x := s.mail.sent[i];
    SentKnown(perAsset, s, i);
    AskedRight(acts, s, x.id);
  }

  lemma AskedRight(acts: seq<D.Action>, s: D.System, id: string)
    requires Faithful(acts, s) && id in s.mail.box.byID
    ensures Submitted(acts, id, s.mail.owner[id], s.mail.box.byID[id].order)
  {
    var e :| 0 <= e < |s.db.outbox| && Asks(s.db.outbox[e], id, s.mail.owner[id], s.mail.box.byID[id].order);
    assert RowRight(acts, s.db.outbox[e]);
  }

  lemma SentKnown(perAsset: int, s: D.System, i: nat)
    requires D.Inv(perAsset, s) && i < |s.mail.sent|
    ensures var x := s.mail.sent[i]; x.id in s.mail.box.byID && x.id in s.mail.owner && x.asset == s.mail.owner[x.id]
  {
    assert M.DispatchRight(s.mail, s.mail.sent[i]);
  }

  // ---------- Commands can be delivered ----------

  lemma RunNone(perAsset: int, ttl: int, s: D.System)
    ensures D.Run(perAsset, ttl, s, [], s)
  {
  }

  lemma RunStep(perAsset: int, ttl: int, s: D.System, a: D.Action, rest: seq<D.Action>, s': D.System)
    requires D.Can(s, a) && D.Run(perAsset, ttl, D.Apply(perAsset, ttl, s, a), rest, s')
    ensures D.Run(perAsset, ttl, s, [a] + rest, s')
  {
    hide D.Can, D.Apply;
    assert ([a] + rest)[1..] == rest;
  }

  lemma RecordTables(s: D.System, i: nat, ok: bool, id: string)
    requires D.InHand(s, i, D.Submitted) && CommandRight(s.db, id)
    ensures CommandRight(D.RecordDispatching(s, i, ok).db, id)
  {
    hide CommandRight;
    CommitKeeps(s.db, TransitionTx(s.db.outbox[s.hands[i].row].cmd, "dispatching", "DISPATCHING"), id);
  }

  lemma MarkTables(s: D.System, i: nat, ok: bool, id: string)
    requires (D.InHand(s, i, D.Succeeded) || D.InHand(s, i, D.Failed)) && CommandRight(s.db, id)
    ensures CommandRight(D.MarkRow(s, i, ok).db, id)
  {
    hide CommandRight;
    CommitKeeps(s.db, PublishTx(s.hands[i].row), id);
    CommitKeeps(s.db, ErrorTx(s.hands[i].row), id);
  }

  /** A step keeps the command tables right. */
  lemma StepTables(perAsset: int, ttl: int, s: D.System, a: D.Action, id: string)
    requires D.Can(s, a) && CommandRight(s.db, id)
    ensures CommandRight(D.Apply(perAsset, ttl, s, a).db, id)
  {
    var s' := D.Apply(perAsset, ttl, s, a);
    hide CommandRight, M.Advance, Fetch, Mailbox.Submit;
    match a {
      case SubmitCmd(x, asset, order, now) => CommitKeeps(s.db, SubmitTx(x, asset, order, now), id);
      case AdminCancel(_, x, now) => CommitKeeps(s.db, CancelTx(x, now), id);
      case FetchRows(busy, now, limit) => CommitKeeps(s.db, FetchTx(busy, now, limit), id);
      case Record(i, ok) => RecordTables(s, i, ok, id);
      case Mark(i, ok) => MarkTables(s, i, ok, id);
      case Move(x, kind, to) => CommitKeeps(s.db, TransitionTx(x, kind, to), id);
      case ReportResult(x, _, status) => CommitKeeps(s.db, TransitionTx(x, "result_received", status), id);
      case _ =>
    }
  }

  lemma {:induction false} RunTables(perAsset: int, ttl: int, s: D.System, acts: seq<D.Action>, s': D.System, id: string)
    requires D.Run(perAsset, ttl, s, acts, s') && CommandRight(s.db, id)
    ensures CommandRight(s'.db, id)
    decreases |acts|
  {
    hide D.Can, D.Apply, CommandRight;
    if acts == [] {
    } else {
      StepTables(perAsset, ttl, s, acts[0], id);
      RunTables(perAsset, ttl, D.Apply(perAsset, ttl, s, acts[0]), acts[1..], s', id);
    }
  }

  lemma {:induction false} RowCounted(rows: seq<Row>, e: nat)
    requires e < |rows| && rows[e].kind.DispatchRequested?
    ensures DispatchRows(rows, rows[e].cmd) > 0
  {
    if e == |rows| - 1 {
    } else {
      RowCounted(rows[..|rows| - 1], e);
    }
  }

  /** When a row is available. */
  function Available(r: Row): int {
    var unlocked := if r.lockedUntil.Some? then r.lockedUntil.value + 1 else r.availableAt;
    if unlocked > r.availableAt then unlocked else r.availableAt
  }

  /** A fetch of as many rows as there are takes every available one. */
  lemma FetchGets(rows: seq<Row>, now: int, e: nat) returns (k: nat)
    requires e < |rows| && Eligible(rows[e], now)
    ensures var taken := Fetch(rows, {}, now, |rows|).1; k < |taken| && taken[k] == e
    ensures var done := Fetch(rows, {}, now, |rows|).0; |done| == |rows| && done[e] == Leased(rows[e], now)
  {
    hide Fetch;
    FetchLeases(rows, {}, now, |rows|);
    FetchTakes(rows, {}, now, |rows|);
    var taken := Fetch(rows, {}, now, |rows|).1;
    assert Free(rows, {}, now, e);
    assert e in taken by { if e !in taken { CountBelow(taken, e); } }
    k :| k < |taken| && taken[k] == e;
  }

  lemma {:induction false} CountBelow(taken: seq<nat>, e: nat)
    requires forall k, l :: 0 <= k < l < |taken| ==> taken[k] < taken[l]
    requires forall k :: 0 <= k < |taken| ==> taken[k] < e
    ensures |taken| <= e
  {
    if taken == [] {
    } else {
      CountBelow(taken[..|taken| - 1], taken[|taken| - 1]);
    }
  }

  /** The dispatcher has taken row `e` and nothing else has changed but leases. */
  ghost predicate TakenUp(s: D.System, e: nat, j: nat, s': D.System) {
    && e < |s.db.outbox| == |s'.db.outbox| && s'.mail == s.mail && s'.db.commands == s.db.commands
    && D.InHand(s', j, D.Taken) && s'.hands[j].row == e && SameAsk(s.db.outbox[e], s'.db.outbox[e])
  }

  lemma FetchPhase(perAsset: int, ttl: int, s: D.System, e: nat, now: int) returns (j: nat)
    requires e < |s.db.outbox| && Eligible(s.db.outbox[e], now) && Mailbox.Linked(s.mail.box)
    ensures TakenUp(s, e, j, D.Apply(perAsset, ttl, s, D.FetchRows({}, now, |s.db.outbox|)))
  {
    hide Fetch, Mailbox.Linked;
    var k := FetchGets(s.db.outbox, now, e);
    j := |s.hands| + k;
  }

  /** A hand that has done its work marks the row. */
  lemma MarkPhase(perAsset: int, ttl: int, s: D.System, j: nat) returns (s': D.System)
    requires D.InHand(s, j, D.Succeeded) && Mailbox.Linked(s.mail.box)
    ensures D.Run(perAsset, ttl, s, [D.Mark(j, true)] + [], s')
    ensures s'.mail == s.mail && s'.db.commands == s.db.commands && |s'.db.outbox| == |s.db.outbox|
    ensures s'.db.outbox[s.hands[j].row].published
  {
    hide D.Run, Mailbox.Linked;
    s' := D.Apply(perAsset, ttl, s, D.Mark(j, true));
    RunNone(perAsset, ttl, s');
    RunStep(perAsset, ttl, s, D.Mark(j, true), [], s');
  }

  /** A command the mailbox knows already: the row is published and the mailbox left alone. */
  lemma KnownPhase(perAsset: int, ttl: int, s: D.System, j: nat, now: int) returns (acts: seq<D.Action>, s': D.System)
    requires D.InHand(s, j, D.Taken) && Mailbox.Linked(s.mail.box)
    requires var r := s.db.outbox[s.hands[j].row]; r.kind.DispatchRequested? && r.cmd in s.mail.box.byID
    ensures D.Run(perAsset, ttl, s, acts, s') && s'.mail == s.mail
    ensures |s'.db.outbox| == |s.db.outbox| && s'.db.outbox[s.hands[j].row].published
  {
    hide D.Run, Mailbox.Linked;
    var m := D.Apply(perAsset, ttl, s, D.Enter(j, now, now));
    s' := MarkPhase(perAsset, ttl, m, j);
    acts := [D.Enter(j, now, now)] + ([D.Mark(j, true)] + []);
    RunStep(perAsset, ttl, s, D.Enter(j, now, now), [D.Mark(j, true)] + [], s');
  }

  /** A new command enters the mailbox, and the transition is recorded. */
  lemma EnterPhase(perAsset: int, ttl: int, s: D.System, j: nat, now: int) returns (acts: seq<D.Action>, s': D.System)
    requires M.MailInv(perAsset, s.mail) && Mailbox.Linked(s.mail.box) && D.InHand(s, j, D.Taken)
    requires var r := s.db.outbox[s.hands[j].row];
             && r.kind.DispatchRequested? && r.cmd !in s.mail.box.byID && r.cmd in s.db.commands
             && |O.PendingIds(s.mail.box.byID, Mailbox.At(s.mail.box.byAsset, r.asset))| < perAsset
    ensures var r := s.db.outbox[s.hands[j].row];
            && D.Run(perAsset, ttl, s, acts, s') && D.InHand(s', j, D.Succeeded) && s'.hands[j].row == s.hands[j].row
            && s'.mail == M.Advance(perAsset, ttl, s.mail, M.SubmitEv(r.asset, r.cmd, r.order, now, now))
            && Mailbox.Submit(s.mail.box, perAsset, r.asset, r.cmd,
                              M.Fresh(M.SubmitEv(r.asset, r.cmd, r.order, now, now), ttl)).1 == Mailbox.Accepted
            && r.cmd in s'.db.commands && s'.db.commands[r.cmd] == "DISPATCHING"
            && Mailbox.Linked(s'.mail.box) && |s'.db.outbox| == |s.db.outbox|
  {
    hide D.Run, Mailbox.Linked, M.MailInv, M.Advance;
    var r := s.db.outbox[s.hands[j].row];
    var ev := M.SubmitEv(r.asset, r.cmd, r.order, now, now);
    O.SubmitThenDispatch(perAsset, ttl, s.mail, ev, now);
    hide Mailbox.Submit;
    var enter, record := D.Enter(j, now, now), D.Record(j, true);
    var m := D.Apply(perAsset, ttl, s, enter);
    assert m.mail == M.Advance(perAsset, ttl, s.mail, ev) && D.InHand(m, j, D.Submitted) && m.db == s.db;
    s' := D.Apply(perAsset, ttl, m, record);
    RunNone(perAsset, ttl, s');
    RunStep(perAsset, ttl, m, record, [], s');
    acts := [enter] + ([record] + []);
    RunStep(perAsset, ttl, s, enter, [record] + [], s');
  }

  lemma {:induction false} RunThen(perAsset: int, ttl: int, s: D.System, as1: seq<D.Action>, m: D.System, as2: seq<D.Action>, s': D.System)
    requires D.Run(perAsset, ttl, s, as1, m) && D.Run(perAsset, ttl, m, as2, s')
    ensures D.Run(perAsset, ttl, s, as1 + as2, s')
    decreases |as1|
  {
    hide D.Can, D.Apply;
    if as1 == [] {
      assert as1 + as2 == as2;
    } else {
      RunThen(perAsset, ttl, D.Apply(perAsset, ttl, s, as1[0]), as1[1..], m, as2, s');
      assert (as1 + as2)[1..] == as1[1..] + as2;
    }
  }

  predicate HandedOut(sent: seq<M.Sent>, id: string, asset: string, from: nat) {
    exists i :: from <= i < |sent| && sent[i].id == id && sent[i].asset == asset
  }

  /** From taking up the row to the control stream. */
  lemma DeliverPhase(perAsset: int, ttl: int, s: D.System, j: nat, now: int) returns (acts: seq<D.Action>, s': D.System)
    requires M.MailInv(perAsset, s.mail) && Mailbox.Linked(s.mail.box) && D.InHand(s, j, D.Taken) && ttl >= 0
    requires var r := s.db.outbox[s.hands[j].row];
             && r.kind.DispatchRequested? && r.cmd !in s.mail.box.byID && r.cmd in s.db.commands
             && |O.PendingIds(s.mail.box.byID, Mailbox.At(s.mail.box.byAsset, r.asset))| < perAsset
    ensures var r := s.db.outbox[s.hands[j].row];
            && D.Run(perAsset, ttl, s, acts, s') && HandedOut(s'.mail.sent, r.cmd, r.asset, |s.mail.sent|)
            && r.cmd in s'.db.commands && s'.db.commands[r.cmd] == "DISPATCHING"
            && |s'.db.outbox| == |s.db.outbox| && s'.db.outbox[s.hands[j].row].published
  {
    hide D.Run, Mailbox.Linked, M.MailInv, M.Advance, Mailbox.Submit;
    var r := s.db.outbox[s.hands[j].row];
    var enter, s1 := EnterPhase(perAsset, ttl, s, j, now);
    var s2 := MarkPhase(perAsset, ttl, s1, j);
    O.SubmitThenDispatch(perAsset, ttl, s.mail, M.SubmitEv(r.asset, r.cmd, r.order, now, now), now);
    var dispatch := D.ControlDispatch(r.asset, now);
    s' := D.Apply(perAsset, ttl, s2, dispatch);
    RunNone(perAsset, ttl, s');
    RunStep(perAsset, ttl, s2, dispatch, [], s');
    RunThen(perAsset, ttl, s1, [D.Mark(j, true)] + [], s2, [dispatch] + [], s');
    acts := enter + (([D.Mark(j, true)] + []) + ([dispatch] + []));
    RunThen(perAsset, ttl, s, enter, s1, ([D.Mark(j, true)] + []) + ([dispatch] + []), s');
    var i :| |s.mail.sent| <= i < |s'.mail.sent| && s'.mail.sent[i] == M.Sent(r.asset, r.cmd, now);
  }

  /** Every unpublished dispatch request can be delivered, whatever has happened to it before: from
      every reachable state there is a run that publishes it. A command the mailbox does not know
      yet, and for which it has room, is also marked as being dispatched and handed to a control
      stream of its asset. */
  lemma CommandDeliverable(perAsset: int, ttl: int, acts: seq<D.Action>, s: D.System, e: nat)
      returns (more: seq<D.Action>, s': D.System)
    requires D.Run(perAsset, ttl, D.INITIAL, acts, s) && ttl >= 0
    requires e < |s.db.outbox| && s.db.outbox[e].kind.DispatchRequested? && !s.db.outbox[e].published
    requires var r := s.db.outbox[e];
             r.cmd in s.mail.box.byID || |O.PendingIds(s.mail.box.byID, Mailbox.At(s.mail.box.byAsset, r.asset))| < perAsset
    ensures D.Run(perAsset, ttl, s, more, s') && |s'.db.outbox| == |s.db.outbox| && s'.db.outbox[e].published
    ensures var r := s.db.outbox[e];
            r.cmd !in s.mail.box.byID ==>
              && HandedOut(s'.mail.sent, r.cmd, r.asset, |s.mail.sent|)
              && r.cmd in s'.db.commands && s'.db.commands[r.cmd] == "DISPATCHING"
  {
    var r := s.db.outbox[e];
    var now := Available(r);
    ReachableFacts(perAsset, ttl, acts, s, e);
    hide D.Run, Mailbox.Linked, M.MailInv, D.Apply;
    var fetch := D.FetchRows({}, now, |s.db.outbox|);
    var j := FetchPhase(perAsset, ttl, s, e, now);
    var m := D.Apply(perAsset, ttl, s, fetch);
    var rest;
    if r.cmd in s.mail.box.byID {
      rest, s' := KnownPhase(perAsset, ttl, m, j, now);
    } else {
      rest, s' := DeliverPhase(perAsset, ttl, m, j, now);
    }
    more := [fetch] + rest;
    RunStep(perAsset, ttl, s, fetch, rest, s');
  }

  lemma ReachableFacts(perAsset: int, ttl: int, acts: seq<D.Action>, s: D.System, e: nat)
    requires D.Run(perAsset, ttl, D.INITIAL, acts, s) && e < |s.db.outbox| && s.db.outbox[e].kind.DispatchRequested?
    ensures M.MailInv(perAsset, s.mail) && Mailbox.Linked(s.mail.box) && s.db.outbox[e].cmd in s.db.commands
  {
    hide D.Run, M.MailInv, D.DeliveredOnce, D.LocksHold, D.LeasesRespected;
    M.NewMailbox(perAsset);
    D.InitialInv(perAsset);
    D.RunKeeps(perAsset, ttl, D.INITIAL, acts, s);
    O.InvLinked(perAsset, s.mail);
    RunTables(perAsset, ttl, D.INITIAL, acts, s, s.db.outbox[e].cmd);
    RowCounted(s.db.outbox, e);
  }

  /** A command submitted under a new id can always be delivered: from every reachable state whose
      mailbox has room for the asset, submitting it can be followed by a run that hands it to a
      control stream of that asset, as it was submitted. */
  lemma SubmitDelivers(perAsset: int, ttl: int, acts: seq<D.Action>, s: D.System, a: D.Action)
      returns (more: seq<D.Action>, s': D.System)
    requires D.Run(perAsset, ttl, D.INITIAL, acts, s) && ttl >= 0 && a.SubmitCmd? && a.id !in s.db.commands
    requires |O.PendingIds(s.mail.box.byID, Mailbox.At(s.mail.box.byAsset, a.asset))| < perAsset
    ensures D.Run(perAsset, ttl, s, [a] + more, s') && HandedOut(s'.mail.sent, a.id, a.asset, |s.mail.sent|)
    ensures a.id in s'.db.commands && s'.db.commands[a.id] == "DISPATCHING"
  {
    ReachableLinked(perAsset, ttl, acts, s);
    NotYetKnown(perAsset, ttl, acts, s, a.id);
    SubmitAsks(perAsset, ttl, s, a);
    hide D.Run, D.Apply, Mailbox.Linked;
    var m := D.Apply(perAsset, ttl, s, a);
    RunNone(perAsset, ttl, m);
    RunStep(perAsset, ttl, s, a, [], m);
    RunThen(perAsset, ttl, D.INITIAL, acts, s, [a] + [], m);
    more, s' := CommandDeliverable(perAsset, ttl, acts + ([a] + []), m, |s.db.outbox|);
    RunStep(perAsset, ttl, s, a, more, s');
  }

  lemma ReachableLinked(perAsset: int, ttl: int, acts: seq<D.Action>, s: D.System)
    requires D.Run(perAsset, ttl, D.INITIAL, acts, s)
    ensures Mailbox.Linked(s.mail.box)
  {
    hide D.Run, M.MailInv, D.DeliveredOnce, D.LocksHold, D.LeasesRespected;
    M.NewMailbox(perAsset);
    D.InitialInv(perAsset);
    D.RunKeeps(perAsset, ttl, D.INITIAL, acts, s);
    O.InvLinked(perAsset, s.mail);
  }

  /** A submission under a new id adds a dispatch request for it, and leaves the mailbox alone. */
  lemma SubmitAsks(perAsset: int, ttl: int, s: D.System, a: D.Action)
    requires Mailbox.Linked(s.mail.box) && a.SubmitCmd? && a.id !in s.db.commands
    ensures var m := D.Apply(perAsset, ttl, s, a);
            && |m.db.outbox| == |s.db.outbox| + 1 && m.mail == s.mail
            && Asks(m.db.outbox[|s.db.outbox|], a.id, a.asset, a.order) && !m.db.outbox[|s.db.outbox|].published
  {
  }

  /** The mailbox knows only commands that are in the tables. */
  lemma NotYetKnown(perAsset: int, ttl: int, acts: seq<D.Action>, s: D.System, id: string)
    requires D.Run(perAsset, ttl, D.INITIAL, acts, s) && id !in s.db.commands
    ensures id !in s.mail.box.byID
  {
    hide D.Run, M.MailInv, D.Inv, RowRight;
    M.NewMailbox(perAsset);
    D.InitialInv(perAsset);
    assert Faithful([], D.INITIAL) by { assert |D.INITIAL.db.outbox| == 0; }
    RunFaithful(perAsset, ttl, [], D.INITIAL, acts, s);
    assert [] + acts == acts;
    RunTables(perAsset, ttl, D.INITIAL, acts, s, id);
    forall e | 0 <= e < |s.db.outbox| && s.db.outbox[e].kind.DispatchRequested?
      ensures s.db.outbox[e].cmd != id
    {
      RowCounted(s.db.outbox, e);
    }
  }

  /** What the tables record of the other steps: the new status of a known command, the result
      status together with the mailbox's result, and a row for a cancel request. */
  lemma StepsRecorded(perAsset: int, ttl: int, s: D.System, a: D.Action)
    requires Mailbox.Linked(s.mail.box) && (a.Move? || a.ReportResult? || a.AdminCancel?)
    ensures var s' := D.Apply(perAsset, ttl, s, a);
            && (!a.AdminCancel? && a.id in s.db.commands ==>
                  a.id in s'.db.commands && s'.db.commands[a.id] == if a.Move? then a.to else a.status)
            && (a.ReportResult? && a.id in s.mail.box.byID ==>
                  a.id in s'.mail.box.byID && s'.mail.box.byID[a.id].result == Some(a.result))
            && (a.AdminCancel? ==>
                  && |s'.db.outbox| == |s.db.outbox| + 1
                  && s'.db.outbox[|s.db.outbox|].kind.CancelRequested? && s'.db.outbox[|s.db.outbox|].cmd == a.id)
  {
    if a.ReportResult? && a.id in s.mail.box.byID { O.CompleteEnds(perAsset, ttl, s.mail, a.id, a.result); }
  }

  // ---------- Attempts ----------

  /** How often a row was handed out. */
  function HandOuts(log: seq<D.LeaseEvent>, e: nat): nat {
    if log == [] then 0
    else
      HandOuts(log[..|log| - 1], e)
      + if log[|log| - 1].Handed? && log[|log| - 1].row == e then 1 else 0
  }

  /** The attempts counted in a row are the times it was handed out. */
  ghost predicate AttemptsRight(s: D.System) {
    && (forall e: nat :: e < |s.db.outbox| ==> s.db.outbox[e].attempts == HandOuts(s.log, e))
    && (forall e: nat :: e >= |s.db.outbox| ==> HandOuts(s.log, e) == 0)
  }

  lemma HandOutsSnoc(log: seq<D.LeaseEvent>, x: D.LeaseEvent, e: nat)
    ensures HandOuts(log + [x], e) == HandOuts(log, e) + if x.Handed? && x.row == e then 1 else 0
  {
    assert (log + [x])[..|log|] == log;
  }

  lemma {:induction false} HandOutsAll(log: seq<D.LeaseEvent>, taken: seq<nat>, now: int, e: nat)
    requires forall k, l :: 0 <= k < l < |taken| ==> taken[k] < taken[l]
    ensures HandOuts(log + seq(|taken|, k requires 0 <= k < |taken| => D.Handed(taken[k], now)), e)
         == HandOuts(log, e) + if e in taken then 1 else 0
    decreases |taken|
  {
    var all := log + seq(|taken|, k requires 0 <= k < |taken| => D.Handed(taken[k], now));
    if taken == [] {
      assert all == log;
    } else {
      hide HandOuts;
      var init, last := taken[..|taken| - 1], taken[|taken| - 1];
      HandOutsAll(log, init, now, e);
      var most := log + seq(|init|, k requires 0 <= k < |init| => D.Handed(init[k], now));
      assert all == most + [D.Handed(last, now)];
      HandOutsSnoc(most, D.Handed(last, now), e);
      assert taken == init + [last] && last !in init;
    }
  }

  lemma FetchAttempts(perAsset: int, ttl: int, s: D.System, a: D.Action)
    requires D.Can(s, a) && a.FetchRows? && AttemptsRight(s)
    ensures AttemptsRight(D.Apply(perAsset, ttl, s, a))
  {
    hide Fetch, HandOuts, Mailbox.Linked;
    FetchLeases(s.db.outbox, a.busy, a.now, a.limit);
    var s' := D.Apply(perAsset, ttl, s, a);
    var taken := Fetch(s.db.outbox, a.busy, a.now, a.limit).1;
    forall e: nat ensures HandOuts(s'.log, e) == HandOuts(s.log, e) + if e in taken then 1 else 0 {
      HandOutsAll(s.log, taken, a.now, e);
    }
  }

  lemma StepAttempts(perAsset: int, ttl: int, s: D.System, a: D.Action)
    requires D.Can(s, a) && AttemptsRight(s)
    ensures AttemptsRight(D.Apply(perAsset, ttl, s, a))
  {
    hide Fetch, HandOuts, Mailbox.Linked, M.Advance, Mailbox.Submit;
    if a.FetchRows? {
      FetchAttempts(perAsset, ttl, s, a);
    } else {
      var s' := D.Apply(perAsset, ttl, s, a);
      if s'.log != s.log {
        forall e: nat ensures HandOuts(s'.log, e) == HandOuts(s.log, e) { HandOutsSnoc(s.log, s'.log[|s.log|], e); }
      }
    }
  }

  lemma {:induction false} RunAttempts(perAsset: int, ttl: int, s: D.System, acts: seq<D.Action>, s': D.System)
    requires AttemptsRight(s) && D.Run(perAsset, ttl, s, acts, s')
    ensures AttemptsRight(s')
    decreases |acts|
  {
    hide D.Can, D.Apply, AttemptsRight;
    if acts == [] {
    } else {
      StepAttempts(perAsset, ttl, s, acts[0]);
      RunAttempts(perAsset, ttl, D.Apply(perAsset, ttl, s, acts[0]), acts[1..], s');
    }
  }

  /** In every run a row's attempts are the number of times it was handed out. */
  lemma AttemptsCount(perAsset: int, ttl: int, acts: seq<D.Action>, s: D.System, e: nat)
    requires D.Run(perAsset, ttl, D.INITIAL, acts, s) && e < |s.db.outbox|
    ensures s.db.outbox[e].attempts == HandOuts(s.log, e)
  {
    hide D.Run;
    assert AttemptsRight(D.INITIAL);
    RunAttempts(perAsset, ttl, D.INITIAL, acts, s);
  }
}
