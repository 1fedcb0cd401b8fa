/** What becomes of the commands in the mailbox: cancels, results, and that commands do go out
    (internal/connector/mailbox.go). */
module MailboxOutcomes {
  import opened Options
  import opened Mailbox
  import opened MailboxRuns

  // ---------- What a cancel does ----------

  lemma CancelExpires(perAsset: int, ttl: int, h: History, asset: string, id: string)
    requires Linked(h.box) && IsQueued(h.box, id)
    ensures Cancel(h.box, asset, id).1 == Some(false)
    ensures var m := Advance(perAsset, ttl, h, CancelEv(asset, id));
            id in m.box.byID && m.box.byID[id].state.Expired? && m.sent == h.sent
  {
  }

  /** A command cancelled while it is queued is never handed out, whatever happens later. */
  lemma CancelledNeverSent(perAsset: int, ttl: int, h: History, asset: string, id: string, evs: seq<Event>, h': History)
    requires MailInv(perAsset, h) && IsQueued(h.box, id) && Run(perAsset, ttl, h, [CancelEv(asset, id)] + evs, h')
    ensures Cancel(h.box, asset, id).1 == Some(false)
    ensures forall i :: |h.sent| <= i < |h'.sent| ==> h'.sent[i].id != id
    ensures id in h'.box.byID && (h'.box.byID[id].state.Expired? || h'.box.byID[id].state.Terminal?)
  {
    hide MailInv, Advance;
    var ev := CancelEv(asset, id);
    assert ([ev] + evs)[0] == ev && ([ev] + evs)[1..] == evs;
    var m := Advance(perAsset, ttl, h, ev);
    CancelExpires(perAsset, ttl, h, asset, id);
    StepKeeps(perAsset, ttl, h, ev);
    NeverDispatchedAgain(perAsset, ttl, m, evs, h');
  }

  function RequestsOf(requests: seq<(string, string)>, a: string): seq<string> {
    if requests == [] then []
    else
      RequestsOf(requests[..|requests| - 1], a)
      + if requests[|requests| - 1].0 == a then [requests[|requests| - 1].1] else []
  }

  function FramesOf(frames: seq<Frame>, a: string): seq<string> {
    if frames == [] then []
    else
      FramesOf(frames[..|frames| - 1], a)
      + if frames[|frames| - 1].asset == a then [frames[|frames| - 1].id] else []
  }

  /** The frames an asset was given and those pending for it are the cancels requested for it. */
  predicate FramesAccounted(h: History, a: string) {
    FramesOf(h.frames, a) + At(h.box.pendingCancels, a) == RequestsOf(h.requests, a)
  }

  lemma {:induction false} FramesAppend(frames: seq<Frame>, ids: seq<string>, asset: string, n: nat, a: string)
    ensures FramesOf(frames + seq(|ids|, i requires 0 <= i < |ids| => Frame(asset, ids[i], n)), a)
         == FramesOf(frames, a) + if a == asset then ids else []
    decreases |ids|
  {
    var all := frames + seq(|ids|, i requires 0 <= i < |ids| => Frame(asset, ids[i], n));
    if ids == [] {
      assert all == frames;
      assert FramesOf(frames, a) + [] == FramesOf(frames, a);
    } else {
      var init := ids[..|ids| - 1];
      FramesAppend(frames, init, asset, n, a);
      assert all[..|all| - 1] == frames + seq(|init|, i requires 0 <= i < |init| => Frame(asset, init[i], n));
      assert ids == init + [ids[|ids| - 1]];
    }
  }

  lemma RequestsSnoc(requests: seq<(string, string)>, asset: string, id: string, a: string)
    ensures RequestsOf(requests + [(asset, id)], a) == RequestsOf(requests, a) + if asset == a then [id] else []
  {
    assert (requests + [(asset, id)])[..|requests|] == requests;
  }

  lemma CancelAccountsFrames(perAsset: int, ttl: int, h: History, ev: Event, a: string)
    requires Linked(h.box) && FramesAccounted(h, a) && ev.CancelEv?
    ensures FramesAccounted(Advance(perAsset, ttl, h, ev), a)
  {
    hide Linked, FramesOf, RequestsOf;
    RequestsSnoc(h.requests, ev.asset, ev.id, a);
    var f, p := FramesOf(h.frames, a), At(h.box.pendingCancels, a);
    assert f + (p + [ev.id]) == f + p + [ev.id];
    assert RequestsOf(h.requests, a) + [] == RequestsOf(h.requests, a);
  }

  lemma DispatchAccountsFrames(perAsset: int, ttl: int, h: History, ev: Event, a: string)
    requires Linked(h.box) && FramesAccounted(h, a) && ev.DispatchEv?
    ensures FramesAccounted(Advance(perAsset, ttl, h, ev), a)
  {
    hide SweepAll, FramesOf, RequestsOf;
    var h', p := Advance(perAsset, ttl, h, ev), At(h.box.pendingCancels, ev.asset);
    FramesAppend(h.frames, p, ev.asset, |h.sent|, a);
    assert h'.frames == h.frames + seq(|p|, i requires 0 <= i < |p| => Frame(ev.asset, p[i], |h.sent|));
    var f := FramesOf(h'.frames, a);
    assert f + [] == f;
    if a == ev.asset { assert At(h'.box.pendingCancels, a) == []; }
  }

  lemma StepAccountsFrames(perAsset: int, ttl: int, h: History, ev: Event, a: string)
    requires Linked(h.box) && FramesAccounted(h, a)
    ensures FramesAccounted(Advance(perAsset, ttl, h, ev), a)
  {
    hide Linked, Pending, FramesOf, RequestsOf;
    match ev {
      case CancelEv(_, _) => CancelAccountsFrames(perAsset, ttl, h, ev, a);
      case DispatchEv(_, _) => DispatchAccountsFrames(perAsset, ttl, h, ev, a);
      case SubmitEv(_, _, _, _, _) =>
      case CompleteEv(_, _) =>
    }
  }

  lemma {:induction false} RunAccountsFrames(perAsset: int, ttl: int, h: History, evs: seq<Event>, h': History, a: string)
    requires FramesAccounted(h, a) && Run(perAsset, ttl, h, evs, h')
    ensures FramesAccounted(h', a)
    decreases |evs|
  {
    hide Advance, FramesAccounted;
    if evs == [] {
    } else {
      StepAccountsFrames(perAsset, ttl, h, evs[0], a);
      RunAccountsFrames(perAsset, ttl, Advance(perAsset, ttl, h, evs[0]), evs[1..], h', a);
    }
  }

  /** The cancel frames given to an asset are the cancels of its dispatched commands, each once and
      in order, and the next dispatch of the asset leaves none of them out. */
  lemma CancelFramesExact(perAsset: int, ttl: int, evs: seq<Event>, h: History, asset: string, now: int)
    requires Run(perAsset, ttl, NEW, evs, h)
    ensures FramesAccounted(h, asset)
    ensures Linked(h.box)
    ensures var h' := Advance(perAsset, ttl, h, DispatchEv(asset, now));
            h'.requests == h.requests && FramesOf(h'.frames, asset) == RequestsOf(h.requests, asset)
  {
    RunAccountsFrames(perAsset, ttl, NEW, evs, h, asset);
    NewMailbox(perAsset);
    MailboxCorrect(perAsset, ttl, NEW, evs, h);
    hide Run, MailInv, SweepAll;
    assert Linked(h.box) by { InvLinked(perAsset, h); }
    StepAccountsFrames(perAsset, ttl, h, DispatchEv(asset, now), asset);
    var f := FramesOf(Advance(perAsset, ttl, h, DispatchEv(asset, now)).frames, asset);
    assert f + [] == f;
  }

  lemma InvLinked(perAsset: int, h: History)
    requires MailInv(perAsset, h)
    ensures Linked(h.box) && h.owner.Keys == h.box.byID.Keys
  {
  }

  /** Cancelling a dispatched command requests a frame, and cancelling anything else does not. */
  lemma CancelRequests(perAsset: int, ttl: int, h: History, asset: string, id: string)
    requires Linked(h.box)
    ensures var h' := Advance(perAsset, ttl, h, CancelEv(asset, id));
            var dispatched := id in h.box.byID && h.box.byID[id].state.Dispatched?;
            && h'.requests == (if dispatched then h.requests + [(asset, id)] else h.requests)
            && (Cancel(h.box, asset, id).1 == None <==> id !in h.box.byID || Rank(h.box.byID[id].state) >= 2)
  {
  }

  // ---------- Commands do go out ----------

  function PendingIds(byID: map<string, Command>, q: seq<string>): set<string> {
    set id | id in q && id in byID && Rank(byID[id].state) < 2
  }

  /** How many of the commands in the queue are pending: the queue holds every id once. */
  lemma {:induction false} PendingIs(byID: map<string, Command>, q: seq<string>)
    requires forall i, j :: 0 <= i < j < |q| ==> q[i] != q[j]
    ensures Pending(byID, q) == |PendingIds(byID, q)|
  {
    if q == [] {
    } else {
      var init, last := q[..|q| - 1], q[|q| - 1];
      PendingIs(byID, init);
      assert q == init + [last];
      assert PendingIds(byID, q) == PendingIds(byID, init) + if IsPending(byID, last) then {last} else {};
    }
  }

  /** No asset ever has more commands queued or dispatched than `perAsset`. */
  lemma PendingBounded(perAsset: int, ttl: int, evs: seq<Event>, h: History, asset: string)
    requires Run(perAsset, ttl, NEW, evs, h)
    ensures |PendingIds(h.box.byID, At(h.box.byAsset, asset))| <= if perAsset > 0 then perAsset else 0
  {
    hide Run, MailInv;
    NewMailbox(perAsset);
    MailboxCorrect(perAsset, ttl, NEW, evs, h);
    InvSorted(perAsset, h, asset);
    InvBounded(perAsset, h, asset);
    PendingIs(h.box.byID, At(h.box.byAsset, asset));
  }

  lemma InvBounded(perAsset: int, h: History, asset: string)
    requires MailInv(perAsset, h)
    ensures Pending(h.box.byID, At(h.box.byAsset, asset)) <= if perAsset > 0 then perAsset else 0
  {
  }

  /** A queued command goes out with the next dispatch of its asset that is not past its expiry. */
  lemma QueuedGoesOut(perAsset: int, ttl: int, h: History, id: string, now: int)
    requires MailInv(perAsset, h) && IsQueued(h.box, id) && now <= h.box.byID[id].expiresAt
    ensures id in h.owner && Linked(h.box)
    ensures var h' := Advance(perAsset, ttl, h, DispatchEv(h.owner[id], now));
            exists i :: |h.sent| <= i < |h'.sent| && h'.sent[i] == Sent(h.owner[id], id, now)
  {
    hide Advance, Dispatches, MailInv, Linked;
    InvLinked(perAsset, h);
    InvListed(perAsset, h, id);
    var ev := DispatchEv(h.owner[id], now);
    DispatchIs(perAsset, ttl, h, ev);
    var h' := Advance(perAsset, ttl, h, ev);
    QueuedNotSent(perAsset, h, id);
    DispatchSends(h, ev.asset, now, h', id);
    var i :| 0 <= i < |h'.sent| && h'.sent[i].id == id;
    assert i >= |h.sent|;
  }

  lemma InvListed(perAsset: int, h: History, id: string)
    requires MailInv(perAsset, h) && IsQueued(h.box, id)
    ensures id in h.owner && id in At(h.box.byAsset, h.owner[id])
  {
  }

  lemma DispatchSends(h: History, asset: string, now: int, h': History, id: string)
    requires Dispatches(h, asset, now, h') && IsQueued(h.box, id)
    requires id in At(h.box.byAsset, asset) && now <= h.box.byID[id].expiresAt
    ensures h.sent <= h'.sent && exists i :: 0 <= i < |h'.sent| && h'.sent[i].id == id
    ensures forall i :: |h.sent| <= i < |h'.sent| ==> h'.sent[i].asset == asset && h'.sent[i].now == now
  {
    assert WasSent(h'.sent, id, |h'.sent|);
  }

  lemma QueuedNotSent(perAsset: int, h: History, id: string)
    requires MailInv(perAsset, h) && IsQueued(h.box, id)
    ensures forall i :: 0 <= i < |h.sent| ==> h.sent[i].id != id
  {
    forall i | 0 <= i < |h.sent| ensures h.sent[i].id != id {
      assert DispatchRight(h, h.sent[i]);
    }
  }

  /** A new command is accepted exactly if its asset has room, and then goes out with the next
      dispatch in time. */
  lemma SubmitThenDispatch(perAsset: int, ttl: int, h: History, ev: Event, now: int)
    requires MailInv(perAsset, h) && ev.SubmitEv?
    ensures var q := At(h.box.byAsset, ev.asset);
            var outcome := Submit(h.box, perAsset, ev.asset, ev.id, Fresh(ev, ttl)).1;
            && (outcome == DuplicateId <==> ev.id in h.box.byID)
            && (outcome == Accepted <==>
                  ev.id !in h.box.byID && |PendingIds(h.box.byID, q)| < perAsset)
    ensures var m := Advance(perAsset, ttl, h, ev);
            && Linked(m.box)
            && (Submit(h.box, perAsset, ev.asset, ev.id, Fresh(ev, ttl)).1 == Accepted && now <= ev.later + ttl ==>
                  var h' := Advance(perAsset, ttl, m, DispatchEv(ev.asset, now));
                  exists i :: |h.sent| <= i < |h'.sent| && h'.sent[i] == Sent(ev.asset, ev.id, now))
  {
    var q := At(h.box.byAsset, ev.asset);
    assert SortedBy(h.rank, q) by { InvSorted(perAsset, h, ev.asset); }
    PendingIs(h.box.byID, q);
    var m := Advance(perAsset, ttl, h, ev);
    StepKeeps(perAsset, ttl, h, ev);
    hide MailInv, SortedBy;
    InvLinked(perAsset, m);
    if Submit(h.box, perAsset, ev.asset, ev.id, Fresh(ev, ttl)).1 == Accepted && now <= ev.later + ttl {
      QueuedGoesOut(perAsset, ttl, m, ev.id, now);
    }
  }

  lemma InvSorted(perAsset: int, h: History, asset: string)
    requires MailInv(perAsset, h)
    ensures SortedBy(h.rank, At(h.box.byAsset, asset))
  {
  }

  // ---------- Results, and what was submitted ----------

  /** A result ends a command: it is terminal ever after and keeps the result until another one
      for it arrives. */
  lemma {:induction false} CompletedFinal(perAsset: int, ttl: int, h: History, evs: seq<Event>, h': History, id: string)
    requires MailInv(perAsset, h) && Run(perAsset, ttl, h, evs, h')
    requires id in h.box.byID && h.box.byID[id].state.Terminal?
    requires forall i :: 0 <= i < |evs| ==> !(evs[i].CompleteEv? && evs[i].id == id)
    ensures id in h'.box.byID && h'.box.byID[id] == h.box.byID[id]
    decreases |evs|
  {
    hide MailInv, Advance, Linked;
    if evs == [] {
    } else {
      StepKeeps(perAsset, ttl, h, evs[0]);
      TerminalStays(perAsset, ttl, h, evs[0], id);
      CompletedFinal(perAsset, ttl, Advance(perAsset, ttl, h, evs[0]), evs[1..], h', id);
    }
  }

  lemma TerminalStays(perAsset: int, ttl: int, h: History, ev: Event, id: string)
    requires MailInv(perAsset, h) && id in h.box.byID && h.box.byID[id].state.Terminal?
    requires !(ev.CompleteEv? && ev.id == id)
    ensures var h' := Advance(perAsset, ttl, h, ev); id in h'.box.byID && h'.box.byID[id] == h.box.byID[id]
  {
    hide MailInv, Advance, Dispatches;
    InvLinked(perAsset, h);
    if ev.DispatchEv? {
      DispatchIs(perAsset, ttl, h, ev);
      DispatchLeaves(h, ev.asset, ev.now, Advance(perAsset, ttl, h, ev), id);
    } else {
      OthersLeave(perAsset, ttl, h, ev, id);
    }
  }

  lemma DispatchLeaves(h: History, asset: string, now: int, h': History, id: string)
    requires Dispatches(h, asset, now, h') && id in h.box.byID && h.box.byID[id].state.Terminal?
    ensures id in h'.box.byID && h'.box.byID[id] == h.box.byID[id]
  {
    hide WasSent, SortedBy, Precedes;
  }

  lemma OthersLeave(perAsset: int, ttl: int, h: History, ev: Event, id: string)
    requires Linked(h.box) && !ev.DispatchEv? && id in h.box.byID && h.box.byID[id].state.Terminal?
    requires !(ev.CompleteEv? && ev.id == id)
    ensures var h' := Advance(perAsset, ttl, h, ev); id in h'.box.byID && h'.box.byID[id] == h.box.byID[id]
  {
    hide Pending, Linked;
  }

  lemma CompleteEnds(perAsset: int, ttl: int, h: History, id: string, result: string)
    requires Linked(h.box) && id in h.box.byID
    ensures var h' := Advance(perAsset, ttl, h, CompleteEv(id, result));
            && h'.box.byID[id].state.Terminal? && h'.box.byID[id].result == Some(result)
            && forall x :: x in h.box.byID && x != id ==> x in h'.box.byID && h'.box.byID[x] == h.box.byID[x]
  {
  }

  /** The command `id` is in the mailbox as some event submitted it. */
  predicate SubmittedBy(ttl: int, evs: seq<Event>, asset: string, id: string, c: Command) {
    exists j :: 0 <= j < |evs| && evs[j].SubmitEv? && evs[j].asset == asset && evs[j].id == id
                && c.order == evs[j].order && c.expiresAt == evs[j].later + ttl
  }

  ghost predicate AsSubmitted(ttl: int, evs: seq<Event>, h: History) {
    h.owner.Keys == h.box.byID.Keys
    && forall id :: id in h.box.byID ==> SubmittedBy(ttl, evs, h.owner[id], id, h.box.byID[id])
  }

  lemma SubmittedLater(ttl: int, evs: seq<Event>, ev: Event, asset: string, id: string, c: Command, c': Command)
    requires SubmittedBy(ttl, evs, asset, id, c) && c'.order == c.order && c'.expiresAt == c.expiresAt
    ensures SubmittedBy(ttl, evs + [ev], asset, id, c')
  {
    var j :| 0 <= j < |evs| && evs[j].SubmitEv? && evs[j].asset == asset && evs[j].id == id
             && c.order == evs[j].order && c.expiresAt == evs[j].later + ttl;
    assert (evs + [ev])[j] == evs[j];
  }

  /** A step keeps the owner of a known command, and adds at most the one submitted. */
  ghost predicate Adds(ttl: int, h: History, ev: Event, h': History) {
    && h.owner.Keys == h.box.byID.Keys && h'.owner.Keys == h'.box.byID.Keys
    && (forall id :: id in h'.box.byID && id !in h.box.byID ==>
          && ev.SubmitEv? && id == ev.id && h'.owner[id] == ev.asset
          && h'.box.byID[id].order == ev.order && h'.box.byID[id].expiresAt == ev.later + ttl)
    && (forall id :: id in h.box.byID ==> id in h'.box.byID && h'.owner[id] == h.owner[id])
  }

  lemma StepAdds(perAsset: int, ttl: int, h: History, ev: Event)
    requires MailInv(perAsset, h)
    ensures Adds(ttl, h, ev, Advance(perAsset, ttl, h, ev))
  {
    hide MailInv, Advance, Dispatches, Adds;
    InvLinked(perAsset, h);
    if ev.DispatchEv? {
      DispatchIs(perAsset, ttl, h, ev);
      DispatchAdds(ttl, h, ev, Advance(perAsset, ttl, h, ev));
    } else {
      OthersAdd(perAsset, ttl, h, ev);
    }
  }

  lemma DispatchAdds(ttl: int, h: History, ev: Event, h': History)
    requires ev.DispatchEv? && Dispatches(h, ev.asset, ev.now, h') && h.owner.Keys == h.box.byID.Keys
    ensures Adds(ttl, h, ev, h')
  {
    hide WasSent, SortedBy, Precedes, SweptTo;
  }

  lemma OthersAdd(perAsset: int, ttl: int, h: History, ev: Event)
    requires Linked(h.box) && !ev.DispatchEv? && h.owner.Keys == h.box.byID.Keys
    ensures Adds(ttl, h, ev, Advance(perAsset, ttl, h, ev))
  {
    hide Pending, Linked;
    var h' := Advance(perAsset, ttl, h, ev);
    if ev.SubmitEv? && h' != h {
      assert h'.box.byID.Keys == h.box.byID.Keys + {ev.id} && h'.owner.Keys == h.owner.Keys + {ev.id};
    } else {
      assert h'.box.byID.Keys == h.box.byID.Keys;
    }
  }

  lemma StepAsSubmitted(perAsset: int, ttl: int, h: History, past: seq<Event>, ev: Event)
    requires MailInv(perAsset, h) && AsSubmitted(ttl, past, h)
    ensures AsSubmitted(ttl, past + [ev], Advance(perAsset, ttl, h, ev))
  {
    hide MailInv, Advance;
    InvLinked(perAsset, h);
    StepAdds(perAsset, ttl, h, ev);
    StepForward(perAsset, ttl, h, ev);
    var h' := Advance(perAsset, ttl, h, ev);
    forall id | id in h'.box.byID ensures SubmittedBy(ttl, past + [ev], h'.owner[id], id, h'.box.byID[id]) {
      if id in h.box.byID {
        SubmittedLater(ttl, past, ev, h.owner[id], id, h.box.byID[id], h'.box.byID[id]);
      } else {
        assert (past + [ev])[|past|] == ev;
      }
    }
  }

  lemma {:induction false} RunAsSubmitted(perAsset: int, ttl: int, h: History, past: seq<Event>, evs: seq<Event>, h': History)
    requires MailInv(perAsset, h) && AsSubmitted(ttl, past, h) && Run(perAsset, ttl, h, evs, h')
    ensures AsSubmitted(ttl, past + evs, h')
    decreases |evs|
  {
    hide MailInv, Advance, AsSubmitted;
    if evs == [] {
      assert past + evs == past;
    } else {
      StepKeeps(perAsset, ttl, h, evs[0]);
      StepAsSubmitted(perAsset, ttl, h, past, evs[0]);
      RunAsSubmitted(perAsset, ttl, Advance(perAsset, ttl, h, evs[0]), past + [evs[0]], evs[1..], h');
      assert past + [evs[0]] + evs[1..] == past + evs;
    }
  }

  /** Whatever is handed out was submitted: to the same asset, with the same order, and no longer
      ago than the time to live. */
  lemma SentAsSubmitted(perAsset: int, ttl: int, evs: seq<Event>, h: History, i: nat)
    requires Run(perAsset, ttl, NEW, evs, h) && i < |h.sent|
    ensures h.sent[i].id in h.box.byID
    ensures var c := h.box.byID[h.sent[i].id];
            SubmittedBy(ttl, evs, h.sent[i].asset, h.sent[i].id, c) && h.sent[i].now <= c.expiresAt
  {
    NewMailbox(perAsset);
    MailboxCorrect(perAsset, ttl, NEW, evs, h);
    assert AsSubmitted(ttl, [], NEW);
    RunAsSubmitted(perAsset, ttl, NEW, [], evs, h);
    assert [] + evs == evs;
    assert DispatchRight(h, h.sent[i]);
  }
}
