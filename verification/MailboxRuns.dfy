/** The mailbox over whole runs: what is dispatched, when, and in which order
    (internal/connector/mailbox.go). */
module MailboxRuns {
  import opened Options
  import opened Mailbox

  /** A command handed to a control stream. */
  datatype Sent = Sent(asset: string, id: string, now: int)

  /** A cancel frame handed to a control stream of an asset, after so many dispatches. */
  datatype Frame = Frame(asset: string, id: string, after: nat)

  /** The mailbox with its history. Submissions are numbered in order; `requests` are the cancels
      answered with the need for a frame. */
  datatype History = History(
    box: Box,
    submits: seq<(string, string)>,
    rank: map<string, nat>,
    owner: map<string, string>,
    sent: seq<Sent>,
    requests: seq<(string, string)>,
    frames: seq<Frame>)

  const NEW := History(EMPTY, [], map[], map[], [], [], [])

  datatype Event =
    | SubmitEv(asset: string, id: string, order: Order, now: int, later: int)
    | CancelEv(asset: string, id: string)
    | DispatchEv(asset: string, now: int)
    | CompleteEv(id: string, result: string)

  function Fresh(ev: Event, ttl: int): Command
    requires ev.SubmitEv?
  {
    Command(ev.order, Queued, ev.now, ev.later + ttl, None)
  }

  function Advance(perAsset: int, ttl: int, h: History, ev: Event): History
    requires Linked(h.box)
  {
    match ev
    case SubmitEv(asset, id, _, _, _) =>
      var (box, outcome) := Submit(h.box, perAsset, asset, id, Fresh(ev, ttl));
      if outcome != Accepted then h
      else h.(box := box, submits := h.submits + [(asset, id)], rank := h.rank[id := |h.submits|], owner := h.owner[id := asset])
    case CancelEv(asset, id) =>
      var (box, needPush) := Cancel(h.box, asset, id);
      h.(box := box, requests := if needPush == Some(true) then h.requests + [(asset, id)] else h.requests)
    case DispatchEv(asset, now) =>
      var (box, cmds, cancels) := NextDispatch(h.box, asset, now);
      h.(box := box,
         sent := h.sent + seq(|cmds|, i requires 0 <= i < |cmds| => Sent(asset, cmds[i], now)),
         frames := h.frames + seq(|cancels|, i requires 0 <= i < |cancels| => Frame(asset, cancels[i], |h.sent|)))
    case CompleteEv(id, result) => h.(box := Complete(h.box, id, result))
  }

  ghost predicate Run(perAsset: int, ttl: int, h: History, evs: seq<Event>, h': History)
    decreases |evs|
  {
    if evs == [] then h' == h
    else Linked(h.box) && Run(perAsset, ttl, Advance(perAsset, ttl, h, evs[0]), evs[1..], h')
  }

  function Rank(s: CommandState): nat {
    match s case Queued => 0 case Dispatched => 1 case Expired => 2 case Terminal => 3
  }

  // ---------- The invariant ----------

  /** `rank` and `owner` give the number and the asset of each submission; a command is submitted
      once. */
  predicate Numbered(h: History) {
    h.rank.Keys == h.box.byID.Keys && h.owner.Keys == h.box.byID.Keys && Ranked(h.submits, h.rank, h.owner)
  }

  predicate SortedBy(rank: map<string, nat>, q: seq<string>) {
    && (forall i :: 0 <= i < |q| ==> q[i] in rank)
    && (forall i, j :: 0 <= i < j < |q| ==> rank[q[i]] < rank[q[j]])
  }

  predicate OwnedBy(owner: map<string, string>, q: seq<string>, a: string) {
    forall i :: 0 <= i < |q| ==> q[i] in owner && owner[q[i]] == a
  }

  /** Queues are in submission order and hold only commands of their asset. */
  predicate QueuesRight(h: History) {
    forall a :: a in h.box.byAsset ==> SortedBy(h.rank, h.box.byAsset[a]) && OwnedBy(h.owner, h.box.byAsset[a], a)
  }

  predicate IsQueued(b: Box, id: string) {
    id in b.byID && b.byID[id].state.Queued?
  }

  /** A command that is still queued is in the queue of its asset. */
  ghost predicate QueuedListed(h: History) {
    forall id :: IsQueued(h.box, id) ==> id in h.owner && id in At(h.box.byAsset, h.owner[id])
  }

  /** A dispatch is of a known command that is no longer queued, and was in time. */
  predicate DispatchRight(h: History, s: Sent) {
    && s.id in h.box.byID && s.id in h.rank && s.id in h.owner
    && !IsQueued(h.box, s.id)
    && s.asset == h.owner[s.id]
    && s.now <= h.box.byID[s.id].expiresAt
  }

  predicate SentRight(h: History) {
    forall i :: 0 <= i < |h.sent| ==> DispatchRight(h, h.sent[i])
  }

  /** Dispatches of one asset are in submission order, and each command is dispatched once. */
  predicate SentInOrder(h: History) {
    forall i, j :: 0 <= i < j < |h.sent| ==> Precedes(h.rank, h.sent[i], h.sent[j])
  }

  predicate Precedes(rank: map<string, nat>, s: Sent, t: Sent) {
    && s.id != t.id
    && (s.asset == t.asset ==> s.id in rank && t.id in rank && rank[s.id] < rank[t.id])
  }

  /** Every command still queued was submitted after all those of its asset already dispatched. */
  ghost predicate QueuedLater(h: History) {
    forall i, id :: 0 <= i < |h.sent| && IsQueued(h.box, id) ==> Behind(h, h.sent[i], id)
  }

  predicate Behind(h: History, s: Sent, id: string) {
    id in h.owner && h.owner[id] == s.asset ==> s.id in h.rank && id in h.rank && h.rank[s.id] < h.rank[id]
  }

  predicate WasSent(sent: seq<Sent>, id: string, before: nat) {
    exists i :: 0 <= i < before && i < |sent| && sent[i].id == id
  }

  /** Cancel frames, emitted or pending, are for commands dispatched before. */
  predicate FramesRight(h: History) {
    && (forall id :: id in h.box.byID && h.box.byID[id].state.Dispatched? ==> WasSent(h.sent, id, |h.sent|))
    && (forall a, i :: a in h.box.pendingCancels && 0 <= i < |h.box.pendingCancels[a]| ==>
          WasSent(h.sent, h.box.pendingCancels[a][i], |h.sent|))
    && (forall i :: 0 <= i < |h.frames| ==> WasSent(h.sent, h.frames[i].id, h.frames[i].after))
  }

  function Room(perAsset: int): nat { if perAsset > 0 then perAsset else 0 }

  predicate Bounded(perAsset: int, b: Box) {
    forall a :: a in b.byAsset ==> Pending(b.byID, b.byAsset[a]) <= Room(perAsset)
  }

  ghost predicate MailInv(perAsset: int, h: History) {
    && Linked(h.box)
    && Numbered(h)
    && QueuesRight(h)
    && QueuedListed(h)
    && SentRight(h)
    && SentInOrder(h)
    && QueuedLater(h)
    && FramesRight(h)
    && Bounded(perAsset, h.box)
  }

  // ---------- The sweep ----------

  predicate Late(c: Command, now: int) {
    (c.state.Queued? || c.state.Dispatched?) && now > c.expiresAt
  }

  predicate Ready(c: Command, now: int) {
    c.state.Queued? && now <= c.expiresAt
  }

  function Swept(c: Command, now: int): Command {
    if Late(c, now) then c.(state := Expired) else if Ready(c, now) then c.(state := Dispatched) else c
  }

  predicate Distinct(q: seq<string>) {
    forall i, j :: 0 <= i < j < |q| ==> q[i] != q[j]
  }

  lemma InitLast(q: seq<string>, x: string)
    requires q != [] && Distinct(q)
    ensures x in q <==> x in q[..|q| - 1] || x == q[|q| - 1]
    ensures q[|q| - 1] !in q[..|q| - 1] && Distinct(q[..|q| - 1])
  {
    assert q == q[..|q| - 1] + [q[|q| - 1]];
  }

  /** What the sweep does to one command. */
  lemma {:induction false} SweepState(byID: map<string, Command>, q: seq<string>, now: int, id: string)
    requires Indexed(byID, q) && Distinct(q) && id in byID
    ensures SweepAll(byID, q, now).byID[id] == if id in q then Swept(byID[id], now) else byID[id]
  {
    if q == [] {
    } else {
      hide Distinct;
      var init, last := q[..|q| - 1], q[|q| - 1];
      InitLast(q, id);
      SweepState(byID, init, now, id);
      if id == last { SweepState(byID, init, now, last); }
    }
  }

  /** Which commands the sweep keeps in the queue, and which it hands out. */
  lemma {:induction false} SweepHas(byID: map<string, Command>, q: seq<string>, now: int, id: string)
    requires Indexed(byID, q) && Distinct(q)
    ensures var s := SweepAll(byID, q, now);
            && (id in s.kept <==> id in q && !Late(byID[id], now))
            && (id in s.cmds <==> id in q && Ready(byID[id], now))
  {
    if q == [] {
    } else {
      hide Distinct;
      var init, last := q[..|q| - 1], q[|q| - 1];
      InitLast(q, id);
      SweepHas(byID, init, now, id);
      SweepState(byID, init, now, last);
    }
  }

  lemma {:induction false} SweepSorted(byID: map<string, Command>, q: seq<string>, now: int, rank: map<string, nat>)
    requires Indexed(byID, q) && SortedBy(rank, q) && Distinct(q)
    ensures SortedBy(rank, SweepAll(byID, q, now).kept) && SortedBy(rank, SweepAll(byID, q, now).cmds)
  {
    if q == [] {
    } else {
      var init := q[..|q| - 1];
      SweepSorted(byID, init, now, rank);
      var s := SweepAll(byID, init, now);
      forall x ensures x in s.kept ==> x in init { SweepHas(byID, init, now, x); }
      forall x ensures x in s.cmds ==> x in init { SweepHas(byID, init, now, x); }
      SortedSnoc(rank, q, s.kept);
      SortedSnoc(rank, q, s.cmds);
      hide SortedBy;
    }
  }

  lemma SortedDistinct(rank: map<string, nat>, q: seq<string>)
    requires SortedBy(rank, q)
    ensures Distinct(q)
  {
  }

  /** On a queue without repetitions the sweep treats every command by itself and keeps order. */
  lemma SweepIs(byID: map<string, Command>, q: seq<string>, now: int, rank: map<string, nat>)
    requires Indexed(byID, q) && SortedBy(rank, q)
    ensures var s := SweepAll(byID, q, now);
            && (forall id :: id in byID ==> s.byID[id] == if id in q then Swept(byID[id], now) else byID[id])
            && (forall id :: id in s.kept <==> id in q && !Late(byID[id], now))
            && (forall id :: id in s.cmds <==> id in q && Ready(byID[id], now))
            && SortedBy(rank, s.kept) && SortedBy(rank, s.cmds)
  {
    hide SweepAll, SortedBy, Distinct, Late, Ready;
    SortedDistinct(rank, q);
    var s := SweepAll(byID, q, now);
    forall id | id in byID ensures s.byID[id] == if id in q then Swept(byID[id], now) else byID[id] {
      SweepState(byID, q, now, id);
    }
    forall id ensures id in s.kept <==> id in q && !Late(byID[id], now) { SweepHas(byID, q, now, id); }
    forall id ensures id in s.cmds <==> id in q && Ready(byID[id], now) { SweepHas(byID, q, now, id); }
    SweepSorted(byID, q, now, rank);
  }

  lemma SortedSnoc(rank: map<string, nat>, q: seq<string>, s: seq<string>)
    requires q != [] && SortedBy(rank, q) && SortedBy(rank, s) && forall x :: x in s ==> x in q[..|q| - 1]
    ensures SortedBy(rank, s + [q[|q| - 1]])
  {
    forall i | 0 <= i < |s| ensures rank[s[i]] < rank[q[|q| - 1]] {
      assert s[i] in s;
      var j :| 0 <= j < |q| - 1 && q[j] == s[i];
    }
  }

  lemma {:induction false} PendingLess(m: map<string, Command>, m': map<string, Command>, q: seq<string>)
    requires forall i :: 0 <= i < |q| ==> (IsPending(m', q[i]) ==> IsPending(m, q[i]))
    ensures Pending(m', q) <= Pending(m, q)
  {
    if q == [] {
    } else {
      PendingLess(m, m', q[..|q| - 1]);
    }
  }

  lemma {:induction false} SweepPending(byID: map<string, Command>, q: seq<string>, now: int, rank: map<string, nat>)
    requires Indexed(byID, q) && SortedBy(rank, q)
    ensures Pending(SweepAll(byID, q, now).byID, SweepAll(byID, q, now).kept) <= Pending(byID, q)
  {
    if q == [] {
    } else {
      var init, id := q[..|q| - 1], q[|q| - 1];
      var s0, s := SweepAll(byID, init, now), SweepAll(byID, q, now);
      SweepPending(byID, init, now, rank);
      SweepIs(byID, init, now, rank);
      assert id !in init && s0.byID[id] == byID[id];
      SweepOnePending(s0, id, now);
    }
  }

  lemma SweepOnePending(s0: Sweep, id: string, now: int)
    requires id in s0.byID
    ensures var s := SweepOne(s0, id, now);
            Pending(s.byID, s.kept) <= Pending(s0.byID, s0.kept) + if IsPending(s0.byID, id) then 1 else 0
  {
    var s := SweepOne(s0, id, now);
    assert s.kept == s0.kept || s.kept[..|s.kept| - 1] == s0.kept;
    PendingLess(s0.byID, s.byID, s0.kept);
  }

  // ---------- Every step keeps the invariant ----------

  lemma SentSame(sent: seq<Sent>, sent': seq<Sent>, id: string, n: nat)
    requires sent <= sent' && WasSent(sent, id, n)
    ensures WasSent(sent', id, n)
  {
    var i :| 0 <= i < n && i < |sent| && sent[i].id == id;
    assert sent'[i].id == id;
  }

  /** `rank` and `owner` describe the submissions. */
  predicate Ranked(submits: seq<(string, string)>, rank: map<string, nat>, owner: map<string, string>) {
    && rank.Keys == owner.Keys
    && (forall id :: id in rank ==> rank[id] < |submits| && submits[rank[id]] == (owner[id], id))
    && (forall i :: 0 <= i < |submits| ==> submits[i].1 in rank && rank[submits[i].1] == i)
  }

  lemma RankedSnoc(submits: seq<(string, string)>, rank: map<string, nat>, owner: map<string, string>, a: string, id: string)
    requires Ranked(submits, rank, owner) && id !in rank
    ensures Ranked(submits + [(a, id)], rank[id := |submits|], owner[id := a])
  {
    var submits', rank' := submits + [(a, id)], rank[id := |submits|];
    forall i | 0 <= i < |submits'| ensures submits'[i].1 in rank' && rank'[submits'[i].1] == i {
      if i < |submits| { assert submits'[i] == submits[i]; }
    }
  }

  lemma SubmitNumbers(h: History, h': History, a: string, id: string)
    requires Numbered(h) && id !in h.box.byID && h'.box.byID.Keys == h.box.byID.Keys + {id}
    requires h'.submits == h.submits + [(a, id)]
    requires h'.rank == h.rank[id := |h.submits|] && h'.owner == h.owner[id := a]
    ensures Numbered(h')
  {
    hide Ranked;
    RankedSnoc(h.submits, h.rank, h.owner, a, id);
  }

  lemma SubmitQueues(h: History, h': History, a: string, id: string)
    requires Linked(h.box) && Numbered(h) && QueuesRight(h) && QueuedListed(h) && id !in h.box.byID
    requires h'.rank == h.rank[id := |h.submits|] && h'.owner == h.owner[id := a]
    requires h'.box.byAsset == h.box.byAsset[a := At(h.box.byAsset, a) + [id]]
    requires forall x :: IsQueued(h'.box, x) ==> x == id || IsQueued(h.box, x)
    ensures QueuesRight(h') && QueuedListed(h')
  {
    hide SortedBy, OwnedBy;
    forall x | x in h'.box.byAsset
      ensures SortedBy(h'.rank, h'.box.byAsset[x]) && OwnedBy(h'.owner, h'.box.byAsset[x], x)
    {
      SubmitQueue(h, a, id, x);
    }
  }

  lemma SubmitQueue(h: History, a: string, id: string, x: string)
    requires Numbered(h) && QueuesRight(h) && id !in h.box.byID
    ensures var q := At(h.box.byAsset, x);
            var rank, owner := h.rank[id := |h.submits|], h.owner[id := a];
            && SortedBy(rank, q) && OwnedBy(owner, q, x)
            && (x == a ==> SortedBy(rank, q + [id]) && OwnedBy(owner, q + [id], x))
  {
    var q := At(h.box.byAsset, x);
    assert SortedBy(h.rank, q) && OwnedBy(h.owner, q, x);
    assert forall i :: 0 <= i < |q| ==> q[i] in h.rank && q[i] != id && h.rank[q[i]] < |h.submits|;
  }

  lemma SubmitSent(h: History, h': History, a: string, id: string)
    requires Numbered(h) && SentRight(h) && SentInOrder(h) && QueuedLater(h) && id !in h.box.byID
    requires h'.rank == h.rank[id := |h.submits|] && h'.owner == h.owner[id := a] && h'.sent == h.sent
    requires id in h'.box.byID && h'.box.byID == h.box.byID[id := h'.box.byID[id]]
    ensures SentRight(h') && SentInOrder(h') && QueuedLater(h')
  {
    forall i | 0 <= i < |h.sent| ensures DispatchRight(h', h.sent[i]) {
      assert DispatchRight(h, h.sent[i]);
    }
    forall i, j | 0 <= i < j < |h.sent| ensures Precedes(h'.rank, h.sent[i], h.sent[j]) {
      assert DispatchRight(h, h.sent[i]) && DispatchRight(h, h.sent[j]) && Precedes(h.rank, h.sent[i], h.sent[j]);
    }
    forall i, x | 0 <= i < |h.sent| && IsQueued(h'.box, x) ensures Behind(h', h.sent[i], x) {
      assert DispatchRight(h, h.sent[i]);
      if x != id { assert IsQueued(h.box, x) && Behind(h, h.sent[i], x); }
    }
  }

  lemma PendingSnoc(m: map<string, Command>, q: seq<string>, id: string)
    ensures Pending(m, q + [id]) == Pending(m, q) + if IsPending(m, id) then 1 else 0
  {
    assert (q + [id])[..|q|] == q;
  }

  lemma SubmitBounded(perAsset: int, b: Box, b': Box, a: string, id: string)
    requires Bounded(perAsset, b) && Linked(b) && id !in b.byID && id in b'.byID
    requires Pending(b.byID, At(b.byAsset, a)) < perAsset
    requires b'.byAsset == b.byAsset[a := At(b.byAsset, a) + [id]]
    requires b'.byID == b.byID[id := b'.byID[id]]
    ensures Bounded(perAsset, b') && Linked(b')
  {
    hide Pending;
    forall x | x in b'.byAsset ensures Pending(b'.byID, b'.byAsset[x]) <= Room(perAsset) && Indexed(b'.byID, b'.byAsset[x]) {
      var q := At(b.byAsset, x);
      assert Indexed(b.byID, q);
      PendingLess(b.byID, b'.byID, q);
      PendingSnoc(b'.byID, q, id);
      PendingNone(b.byID);
    }
  }

  lemma PendingNone(m: map<string, Command>)
    ensures Pending(m, []) == 0
  {
  }

  lemma SubmitKeeps(perAsset: int, ttl: int, h: History, ev: Event)
    requires MailInv(perAsset, h) && ev.SubmitEv?
    ensures MailInv(perAsset, Advance(perAsset, ttl, h, ev))
  {
    hide Numbered, QueuesRight, QueuedListed, SentRight, SentInOrder, QueuedLater, Bounded, Linked, Pending;
    var h' := Advance(perAsset, ttl, h, ev);
    if h' != h {
      assert h'.box.byID.Keys == h.box.byID.Keys + {ev.id};
      SubmitNumbers(h, h', ev.asset, ev.id);
      SubmitQueues(h, h', ev.asset, ev.id);
      SubmitSent(h, h', ev.asset, ev.id);
      SubmitBounded(perAsset, h.box, h'.box, ev.asset, ev.id);
    }
  }

  /** What cancelling and completing have in common: commands only leave the queued and the
      dispatched state, and nothing else moves. */
  ghost predicate Ages(h: History, h': History) {
    && h'.box.byAsset == h.box.byAsset && h'.box.byID.Keys == h.box.byID.Keys
    && h'.submits == h.submits && h'.rank == h.rank && h'.owner == h.owner
    && h'.sent == h.sent && h'.frames == h.frames
    && (forall id :: IsQueued(h'.box, id) ==> IsQueued(h.box, id))
    && (forall id :: id in h.box.byID ==>
          && h'.box.byID[id].expiresAt == h.box.byID[id].expiresAt
          && (IsPending(h'.box.byID, id) ==> IsPending(h.box.byID, id))
          && (h'.box.byID[id].state.Dispatched? ==> h.box.byID[id].state.Dispatched?))
  }

  lemma AgesQueues(perAsset: int, h: History, h': History)
    requires MailInv(perAsset, h) && Ages(h, h')
    ensures Linked(h'.box) && Numbered(h') && QueuesRight(h') && QueuedListed(h') && Bounded(perAsset, h'.box)
  {
    hide SentRight, SentInOrder, QueuedLater, FramesRight, SortedBy, OwnedBy;
    forall a | a in h.box.byAsset
      ensures Indexed(h'.box.byID, h.box.byAsset[a]) && Pending(h'.box.byID, h.box.byAsset[a]) <= Room(perAsset)
    {
      assert Indexed(h.box.byID, h.box.byAsset[a]);
      PendingLess(h.box.byID, h'.box.byID, h.box.byAsset[a]);
    }
  }

  lemma AgesSent(h: History, h': History)
    requires SentRight(h) && SentInOrder(h) && QueuedLater(h) && Ages(h, h')
    ensures SentRight(h') && SentInOrder(h') && QueuedLater(h')
  {
    hide Precedes, IsQueued;
    forall i | 0 <= i < |h.sent| ensures DispatchRight(h', h.sent[i]) {
      assert DispatchRight(h, h.sent[i]);
    }
    forall i, x | 0 <= i < |h.sent| && IsQueued(h'.box, x) ensures Behind(h', h.sent[i], x) {
      assert IsQueued(h.box, x) && Behind(h, h.sent[i], x);
    }
  }

  lemma AgesFrames(h: History, h': History)
    requires FramesRight(h) && Ages(h, h')
    requires forall a :: a in h'.box.pendingCancels ==>
               var p, p' := At(h.box.pendingCancels, a), h'.box.pendingCancels[a];
               p' == p || (|p'| == |p| + 1 && p' == p + [p'[|p|]] && p'[|p|] in h.box.byID
                           && h.box.byID[p'[|p|]].state.Dispatched?)
    ensures FramesRight(h')
  {
    hide WasSent;
    forall a, i | a in h'.box.pendingCancels && 0 <= i < |h'.box.pendingCancels[a]|
      ensures WasSent(h'.sent, h'.box.pendingCancels[a][i], |h'.sent|)
    {
      var p := At(h.box.pendingCancels, a);
      if i < |p| { assert h'.box.pendingCancels[a][i] == p[i]; }
    }
  }

  lemma AgingKeeps(perAsset: int, ttl: int, h: History, ev: Event)
    requires MailInv(perAsset, h) && (ev.CancelEv? || ev.CompleteEv?)
    ensures MailInv(perAsset, Advance(perAsset, ttl, h, ev))
  {
    hide Numbered, QueuesRight, QueuedListed, SentRight, SentInOrder, QueuedLater, Bounded, Linked, FramesRight;
    var h' := Advance(perAsset, ttl, h, ev);
    assert h'.box.byID.Keys == h.box.byID.Keys;
    assert Ages(h, h');
    AgesQueues(perAsset, h, h');
    AgesSent(h, h');
    AgesFrames(h, h');
  }

  /** What one dispatch does, stated command by command. */
  ghost predicate Dispatches(h: History, asset: string, now: int, h': History) {
    && h'.box.byID.Keys == h.box.byID.Keys
    && h'.submits == h.submits && h'.rank == h.rank && h'.owner == h.owner
    && SweptTo(h.box.byID, At(h.box.byAsset, asset), now, h'.box.byID)
    && asset in h'.box.byAsset && h'.box.byAsset == h.box.byAsset[asset := h'.box.byAsset[asset]]
    && (forall id :: id in h'.box.byAsset[asset] <==>
          id in At(h.box.byAsset, asset) && id in h.box.byID && !Late(h.box.byID[id], now))
    && SortedBy(h.rank, h'.box.byAsset[asset])
    && h.sent <= h'.sent
    && (forall i :: |h.sent| <= i < |h'.sent| ==>
          && h'.sent[i].asset == asset && h'.sent[i].now == now
          && h'.sent[i].id in At(h.box.byAsset, asset)
          && h'.sent[i].id in h.box.byID && Ready(h.box.byID[h'.sent[i].id], now))
    && (forall id :: id in At(h.box.byAsset, asset) && id in h.box.byID && Ready(h.box.byID[id], now) ==>
          WasSent(h'.sent, id, |h'.sent|))
    && (forall i, j :: |h.sent| <= i < j < |h'.sent| ==> Precedes(h.rank, h'.sent[i], h'.sent[j]))
  }

  predicate SweptTo(byID: map<string, Command>, q: seq<string>, now: int, byID': map<string, Command>) {
    && byID'.Keys == byID.Keys
    && forall id :: id in byID ==> byID'[id] == if id in q then Swept(byID[id], now) else byID[id]
  }

  lemma DispatchIs(perAsset: int, ttl: int, h: History, ev: Event)
    requires MailInv(perAsset, h) && ev.DispatchEv?
    ensures Dispatches(h, ev.asset, ev.now, Advance(perAsset, ttl, h, ev))
  {
    hide SentRight, SentInOrder, FramesRight, Bounded, QueuedListed, QueuedLater, Numbered, SweepAll;
    var h', q := Advance(perAsset, ttl, h, ev), At(h.box.byAsset, ev.asset);
    assert SortedBy(h.rank, q) && Indexed(h.box.byID, q);
    SweepIs(h.box.byID, q, ev.now, h.rank);
    var s := SweepAll(h.box.byID, q, ev.now);
    SentAre(h.sent, h'.sent, ev.asset, ev.now, s.cmds, h.rank);
  }

  lemma SentAre(sent: seq<Sent>, sent': seq<Sent>, asset: string, now: int, cmds: seq<string>, rank: map<string, nat>)
    requires sent' == sent + seq(|cmds|, i requires 0 <= i < |cmds| => Sent(asset, cmds[i], now)) && SortedBy(rank, cmds)
    ensures sent <= sent'
    ensures forall i :: |sent| <= i < |sent'| ==> sent'[i].asset == asset && sent'[i].now == now && sent'[i].id in cmds
    ensures forall id :: id in cmds ==> WasSent(sent', id, |sent'|)
    ensures forall i, j :: |sent| <= i < j < |sent'| ==> Precedes(rank, sent'[i], sent'[j])
  {
    assert forall i :: |sent| <= i < |sent'| ==> sent'[i] == Sent(asset, cmds[i - |sent|], now);
    forall id | id in cmds ensures WasSent(sent', id, |sent'|) {
      var i :| 0 <= i < |cmds| && cmds[i] == id;
      assert sent'[|sent| + i].id == id;
    }
  }

  lemma DispatchQueues(h: History, asset: string, now: int, h': History)
    requires Linked(h.box) && Numbered(h) && QueuesRight(h) && QueuedListed(h) && Dispatches(h, asset, now, h')
    ensures Linked(h'.box) && Numbered(h') && QueuesRight(h') && QueuedListed(h')
  {
    hide WasSent, SortedBy, Precedes;
    var q, q' := At(h.box.byAsset, asset), h'.box.byAsset[asset];
    assert Indexed(h'.box.byID, q') && OwnedBy(h'.owner, q', asset) by {
      assert OwnedBy(h.owner, q, asset);
      forall i | 0 <= i < |q'| ensures q'[i] in h.box.byID && q'[i] in h.owner && h.owner[q'[i]] == asset {
        assert q'[i] in q' && q'[i] in q;
      }
    }
    forall id | IsQueued(h'.box, id) ensures id in h'.owner && id in At(h'.box.byAsset, h'.owner[id]) {
      assert IsQueued(h.box, id);
    }
  }

  lemma DispatchedStates(h: History, asset: string, now: int, h': History)
    requires Dispatches(h, asset, now, h')
    ensures forall id :: id in h.box.byID ==> h'.box.byID[id].expiresAt == h.box.byID[id].expiresAt
    ensures forall id :: IsQueued(h'.box, id) ==> IsQueued(h.box, id) && id !in At(h.box.byAsset, asset)
    ensures forall id :: id in h.box.byID ==> (IsPending(h'.box.byID, id) ==> IsPending(h.box.byID, id))
  {
    hide WasSent, SortedBy, Precedes;
  }

  lemma DispatchSent(h: History, asset: string, now: int, h': History)
    requires Numbered(h) && QueuesRight(h) && QueuedListed(h) && SentRight(h) && SentInOrder(h) && QueuedLater(h)
    requires Dispatches(h, asset, now, h')
    ensures SentRight(h') && SentInOrder(h')
  {
    hide WasSent, SortedBy, SweptTo;
    DispatchedStates(h, asset, now, h');
    var n, q := |h.sent|, At(h.box.byAsset, asset);
    assert OwnedBy(h.owner, q, asset);
    forall i | 0 <= i < |h'.sent| ensures DispatchRight(h', h'.sent[i]) {
      if i < n {
        assert h'.sent[i] == h.sent[i] && DispatchRight(h, h.sent[i]);
      } else {
        assert !IsQueued(h'.box, h'.sent[i].id);
      }
    }
    forall i, j | 0 <= i < j < |h'.sent| ensures Precedes(h'.rank, h'.sent[i], h'.sent[j]) {
      if j < n {
        assert h'.sent[i] == h.sent[i] && h'.sent[j] == h.sent[j] && Precedes(h.rank, h.sent[i], h.sent[j]);
      } else if i < n {
        assert h'.sent[i] == h.sent[i] && DispatchRight(h, h.sent[i]);
        assert IsQueued(h.box, h'.sent[j].id) && Behind(h, h.sent[i], h'.sent[j].id);
      }
    }
  }

  lemma DispatchQueuedLater(h: History, asset: string, now: int, h': History)
    requires QueuedListed(h) && QueuesRight(h) && QueuedLater(h) && Dispatches(h, asset, now, h')
    ensures QueuedLater(h')
  {
    hide WasSent, SortedBy, SweptTo, Precedes, IsQueued;
    DispatchedStates(h, asset, now, h');
    forall i, x | 0 <= i < |h'.sent| && IsQueued(h'.box, x) ensures Behind(h', h'.sent[i], x) {
      assert IsQueued(h.box, x);
      if i < |h.sent| { assert h'.sent[i] == h.sent[i] && Behind(h, h.sent[i], x); }
    }
  }

  lemma DispatchFrames(perAsset: int, ttl: int, h: History, ev: Event)
    requires Linked(h.box) && FramesRight(h) && ev.DispatchEv?
    requires Dispatches(h, ev.asset, ev.now, Advance(perAsset, ttl, h, ev))
    ensures FramesRight(Advance(perAsset, ttl, h, ev))
  {
    hide WasSent, SweepAll, SortedBy, Precedes;
    var h' := Advance(perAsset, ttl, h, ev);
    var n := |h.sent|;
    forall id, m: nat | WasSent(h.sent, id, m) ensures WasSent(h'.sent, id, m) { SentSame(h.sent, h'.sent, id, m); }
    forall id | WasSent(h.sent, id, n) ensures WasSent(h'.sent, id, |h'.sent|) { SentLater(h.sent, h'.sent, id); }
    forall i | 0 <= i < |h'.frames| ensures WasSent(h'.sent, h'.frames[i].id, h'.frames[i].after) {
      if i >= |h.frames| {
        var p := At(h.box.pendingCancels, ev.asset);
        assert h'.frames[i] == Frame(ev.asset, p[i - |h.frames|], n);
      } else {
        assert h'.frames[i] == h.frames[i];
      }
    }
  }

  lemma SentLater(sent: seq<Sent>, sent': seq<Sent>, id: string)
    requires sent <= sent' && WasSent(sent, id, |sent|)
    ensures WasSent(sent', id, |sent'|)
  {
    var i :| 0 <= i < |sent| && sent[i].id == id;
    assert sent'[i].id == id;
  }

  lemma DispatchBounded(perAsset: int, ttl: int, h: History, ev: Event)
    requires Linked(h.box) && QueuesRight(h) && Bounded(perAsset, h.box) && ev.DispatchEv?
    requires Dispatches(h, ev.asset, ev.now, Advance(perAsset, ttl, h, ev))
    ensures Bounded(perAsset, Advance(perAsset, ttl, h, ev).box)
  {
    hide WasSent, SweepAll, SweptTo, Precedes, SortedBy, OwnedBy;
    var h', q := Advance(perAsset, ttl, h, ev), At(h.box.byAsset, ev.asset);
    DispatchedStates(h, ev.asset, ev.now, h');
    assert SortedBy(h.rank, q) by { if q == [] { SortedNone(h.rank); } }
    SweepPending(h.box.byID, q, ev.now, h.rank);
    forall a | a in h'.box.byAsset && a != ev.asset ensures Pending(h'.box.byID, h'.box.byAsset[a]) <= Room(perAsset) {
      assert Indexed(h.box.byID, h.box.byAsset[a]);
      PendingLess(h.box.byID, h'.box.byID, h.box.byAsset[a]);
    }
  }

  lemma SortedNone(rank: map<string, nat>)
    ensures SortedBy(rank, [])
  {
  }

  lemma StepKeeps(perAsset: int, ttl: int, h: History, ev: Event)
    requires MailInv(perAsset, h)
    ensures MailInv(perAsset, Advance(perAsset, ttl, h, ev))
  {
    hide Dispatches, Numbered, QueuesRight, QueuedListed, SentRight, SentInOrder, QueuedLater, FramesRight, Bounded, Advance, Linked;
    match ev {
      case SubmitEv(_, _, _, _, _) => SubmitKeeps(perAsset, ttl, h, ev);
      case CancelEv(_, _) => AgingKeeps(perAsset, ttl, h, ev);
      case CompleteEv(_, _) => AgingKeeps(perAsset, ttl, h, ev);
      case DispatchEv(asset, now) =>
        var h' := Advance(perAsset, ttl, h, ev);
        DispatchIs(perAsset, ttl, h, ev);
        DispatchQueues(h, asset, now, h');
        DispatchSent(h, asset, now, h');
        DispatchQueuedLater(h, asset, now, h');
        DispatchFrames(perAsset, ttl, h, ev);
        DispatchBounded(perAsset, ttl, h, ev);
    }
  }

  // ---------- Over whole runs ----------

  /** Each command is handed out at most once over all control streams, never after its expiry;
      the commands of one asset come out in submission order; a cancel frame follows the
      dispatch of its command; no asset ever has more than `perAsset` commands pending; every
      queued command is in the one queue of its asset. */
  lemma {:induction false} MailboxCorrect(perAsset: int, ttl: int, h: History, evs: seq<Event>, h': History)
    requires MailInv(perAsset, h) && Run(perAsset, ttl, h, evs, h')
    ensures MailInv(perAsset, h')
    decreases |evs|
  {
    hide MailInv, Advance, Linked;
    if evs == [] {
    } else {
      StepKeeps(perAsset, ttl, h, evs[0]);
      MailboxCorrect(perAsset, ttl, Advance(perAsset, ttl, h, evs[0]), evs[1..], h');
    }
  }

  lemma NewMailbox(perAsset: int)
    ensures MailInv(perAsset, NEW)
  {
  }

  lemma EachOnce(perAsset: int, h: History)
    requires MailInv(perAsset, h)
    ensures forall i, j :: 0 <= i < j < |h.submits| ==> h.submits[i].1 != h.submits[j].1
    ensures forall i, j :: 0 <= i < j < |h.sent| ==> h.sent[i].id != h.sent[j].id
  {
    hide Linked, QueuesRight, QueuedListed, SentRight, QueuedLater, FramesRight, Bounded;
    forall i, j | 0 <= i < j < |h.sent| ensures h.sent[i].id != h.sent[j].id {
      assert Precedes(h.rank, h.sent[i], h.sent[j]);
    }
  }

  /** A command only moves forward, keeps its order and expiry, and is not forgotten. */
  predicate Forward(b: Box, b': Box) {
    forall id :: id in b.byID ==>
      && id in b'.byID
      && Rank(b.byID[id].state) <= Rank(b'.byID[id].state)
      && b'.byID[id].order == b.byID[id].order
      && b'.byID[id].expiresAt == b.byID[id].expiresAt
  }

  lemma DispatchForward(h: History, asset: string, now: int, h': History)
    requires Dispatches(h, asset, now, h')
    ensures Forward(h.box, h'.box)
  {
    hide WasSent, SortedBy, Precedes;
  }

  lemma OthersForward(perAsset: int, ttl: int, h: History, ev: Event)
    requires Linked(h.box) && !ev.DispatchEv?
    ensures var h' := Advance(perAsset, ttl, h, ev); Forward(h.box, h'.box) && h'.sent == h.sent
  {
    hide Pending;
  }

  lemma StepForward(perAsset: int, ttl: int, h: History, ev: Event)
    requires MailInv(perAsset, h)
    ensures var h' := Advance(perAsset, ttl, h, ev);
            && Forward(h.box, h'.box) && h.sent <= h'.sent
            && forall i :: |h.sent| <= i < |h'.sent| ==>
                 h'.sent[i].id in h.box.byID && h.box.byID[h'.sent[i].id].state.Queued?
  {
    assert Linked(h.box);
    hide Advance, MailInv, WasSent, SortedBy, Precedes, SweptTo, Forward;
    if ev.DispatchEv? {
      DispatchIs(perAsset, ttl, h, ev);
      DispatchForward(h, ev.asset, ev.now, Advance(perAsset, ttl, h, ev));
    } else {
      OthersForward(perAsset, ttl, h, ev);
    }
  }

  /** Once a known command is no longer queued, because it was dispatched, expired, cancelled
      while queued or completed, it is never handed out (again). States never move backwards. */
  lemma {:induction false} NeverDispatchedAgain(perAsset: int, ttl: int, h: History, evs: seq<Event>, h': History)
    requires MailInv(perAsset, h) && Run(perAsset, ttl, h, evs, h')
    ensures Forward(h.box, h'.box) && h.sent <= h'.sent
    ensures forall i :: |h.sent| <= i < |h'.sent| && h'.sent[i].id in h.box.byID ==>
              h.box.byID[h'.sent[i].id].state.Queued?
    decreases |evs|
  {
    hide MailInv, Advance, Linked;
    if evs == [] {
    } else {
      StepKeeps(perAsset, ttl, h, evs[0]);
      StepForward(perAsset, ttl, h, evs[0]);
      var m := Advance(perAsset, ttl, h, evs[0]);
      NeverDispatchedAgain(perAsset, ttl, m, evs[1..], h');
      forall i | |h.sent| <= i < |h'.sent| && h'.sent[i].id in h.box.byID
        ensures h.box.byID[h'.sent[i].id].state.Queued?
      {
        if i < |m.sent| { assert h'.sent[i] == m.sent[i]; }
      }
    }
  }
}
