/** What a report waiter is told, over any run of acks, errors and disconnects
    (internal/uplink/grpc.go). */
module UplinkRuns {
  import opened Uplink

  /** A waiter as it was registered, and the number of events before it. */
  datatype Born = Born(w: Waiter, at: nat)

  /** The uplink with its history. */
  datatype History = History(now: Waiting, log: seq<Event>, born: map<nat, Born>)

  const NEW := History(IDLE, [], map[])

  function Advance(h: History, ev: Event): History {
    History(Next(h.now, ev), h.log + [ev],
            if ev.Register? then h.born[ev.w.tag := Born(ev.w, |h.log|)] else h.born)
  }

  /** A registered waiter is a new one; a send error is that of a registered one. */
  predicate Possible(h: History, ev: Event) {
    && (ev.Register? ==> ev.w.tag == |h.born|)
    && (ev.SendError? ==> ev.tag in h.born)
  }

  ghost predicate Run(h: History, evs: seq<Event>, h': History)
    decreases |evs|
  {
    if evs == [] then h' == h
    else Possible(h, evs[0]) && Run(Advance(h, evs[0]), evs[1..], h')
  }

  /** The ids that acks of one kind have named since event number `from`. */
  function AckedSince(log: seq<Event>, from: nat, kind: Kind): set<string> {
    if |log| <= from then {}
    else
      var ev := log[|log| - 1];
      AckedSince(log[..|log| - 1], from, kind)
      + if ev.Receive? && ev.ack.kind == kind then Named(ev.ack) else {}
  }

  /** The waiter was removed by its own call, or there was a disconnect and it has been told an
      error. */
  predicate GivenUp(h: History, tag: nat)
    requires tag in h.born && h.born[tag].at <= |h.log|
  {
    exists i :: h.born[tag].at <= i < |h.log|
                && (h.log[i] == Remove(tag) || (h.log[i].Disconnect? && Signalled(h.now.ch, tag, Failed)))
  }

  predicate Signalled(ch: map<nat, seq<Signal>>, tag: nat, x: Signal) {
    tag in ch && x in ch[tag]
  }

  predicate Told(h: History, tag: nat) {
    tag in h.now.ch && Done in h.now.ch[tag]
  }

  predicate Waits(h: History, tag: nat) {
    exists i :: 0 <= i < |h.now.list| && h.now.list[i].tag == tag
  }

  /** A waiter is told nil only if acks of its own kind, received since it was registered, name
      all its ids. */
  ghost predicate ToldRight(h: History) {
    forall t :: t in h.born && Told(h, t) ==>
      h.born[t].w.ids <= AckedSince(h.log, h.born[t].at, h.born[t].w.kind)
  }

  predicate AckSince(log: seq<Event>, from: nat, kind: Kind) {
    exists i :: from <= i < |log| && log[i].Receive? && log[i].ack.kind == kind
  }

  /** A waiter in the list has exactly the ids no such ack has named yet, and that is at least
      one as soon as any ack of its kind has arrived. */
  predicate EntryRight(h: History, w: Waiter) {
    && w.tag in h.born
    && (w.ids == {} ==> !AckSince(h.log, h.born[w.tag].at, w.kind))
    && w == h.born[w.tag].w.(ids := h.born[w.tag].w.ids - AckedSince(h.log, h.born[w.tag].at, w.kind))
  }

  predicate ListRight(h: History) {
    forall i :: 0 <= i < |h.now.list| ==> EntryRight(h, h.now.list[i])
  }

  /** The list is in order of registration. */
  predicate InOrder(h: History) {
    forall i, j :: 0 <= i < j < |h.now.list| ==> h.now.list[i].tag < h.now.list[j].tag
  }

  /** No waiter leaves the list unless it was told nil, was told an error at a disconnect, or was
      removed by its own call. */
  ghost predicate NoneLost(h: History) {
    forall t :: t in h.born ==> h.born[t].at <= |h.log| && (Waits(h, t) || Told(h, t) || GivenUp(h, t))
  }

  ghost predicate Correct(h: History) {
    ToldRight(h) && ListRight(h) && InOrder(h) && NoneLost(h)
  }

  ghost predicate Numbered(h: History) {
    && (forall t :: t in h.born <==> 0 <= t < |h.born|)
    && (forall t :: t in h.born ==> h.born[t].w.tag == t && h.born[t].at < |h.log|)
    && (forall t :: t in h.now.ch ==> t in h.born)
  }

  // ---------- The pieces of one step ----------

  lemma {:induction false} KeptFrom(ws: seq<Waiter>, ack: Ack, i: nat) returns (j: nat)
    requires i < |Kept(ws, ack)|
    ensures j < |ws| && Kept(ws, ack)[i] == Touch(ws[j], ack) && !Resolves(ws[j], ack)
  {
    hide Resolves, Touch;
    var init := ws[..|ws| - 1];
    if i < |Kept(init, ack)| {
      j := KeptFrom(init, ack, i);
    } else {
      j := |ws| - 1;
    }
  }

  lemma {:induction false} KeptHas(ws: seq<Waiter>, ack: Ack, j: nat)
    requires j < |ws| && !Resolves(ws[j], ack)
    ensures Touch(ws[j], ack) in Kept(ws, ack)
  {
    hide Resolves, Touch;
    if j == |ws| - 1 {
    } else {
      KeptHas(ws[..|ws| - 1], ack, j);
    }
  }

  lemma {:induction false} KeptOrdered(ws: seq<Waiter>, ack: Ack)
    requires forall i, j :: 0 <= i < j < |ws| ==> ws[i].tag < ws[j].tag
    ensures var k := Kept(ws, ack); forall i, j :: 0 <= i < j < |k| ==> k[i].tag < k[j].tag
  {
    hide Resolves, Named;
    if ws == [] {
    } else {
      var init := ws[..|ws| - 1];
      KeptOrdered(init, ack);
      assert Kept(ws, ack)[..|Kept(init, ack)|] == Kept(init, ack);
      forall i: nat | i < |Kept(init, ack)| ensures Kept(init, ack)[i].tag < ws[|ws| - 1].tag {
        var j := KeptFrom(init, ack, i);
      }
    }
  }

  lemma KeptIs(ws: seq<Waiter>, ack: Ack)
    requires forall i, j :: 0 <= i < j < |ws| ==> ws[i].tag < ws[j].tag
    ensures var k := Kept(ws, ack);
            && (forall i :: 0 <= i < |k| ==> exists j :: 0 <= j < |ws| && k[i] == Touch(ws[j], ack) && !Resolves(ws[j], ack))
            && (forall j :: 0 <= j < |ws| && !Resolves(ws[j], ack) ==> Touch(ws[j], ack) in k)
            && (forall i, j :: 0 <= i < j < |k| ==> k[i].tag < k[j].tag)
  {
    hide Resolves, Touch;
    var k := Kept(ws, ack);
    forall i | 0 <= i < |k|
      ensures exists j :: 0 <= j < |ws| && k[i] == Touch(ws[j], ack) && !Resolves(ws[j], ack)
    {
      var j := KeptFrom(ws, ack, i);
      assert k[i] == Touch(ws[j], ack) && !Resolves(ws[j], ack);
    }
    forall j | 0 <= j < |ws| && !Resolves(ws[j], ack) ensures Touch(ws[j], ack) in k { KeptHas(ws, ack, j); }
    KeptOrdered(ws, ack);
  }

  lemma {:induction false} NotifiedIs(ch: map<nat, seq<Signal>>, ws: seq<Waiter>, ack: Ack, t: nat)
    ensures var n := Notified(ch, ws, ack);
            (t in n && Done in n[t])
            <==> (t in ch && Done in ch[t]) || exists j :: 0 <= j < |ws| && ws[j].tag == t && Resolves(ws[j], ack)
  {
    hide Resolves;
    if ws == [] {
    } else {
      var w, init := ws[|ws| - 1], ws[..|ws| - 1];
      NotifiedIs(ch, init, ack, t);
      assert forall j :: 0 <= j < |init| ==> ws[j] == init[j];
    }
  }

  /** A disconnect tells every waiter an error and nobody nil. */
  lemma {:induction false} FailedAllIs(ch: map<nat, seq<Signal>>, ws: seq<Waiter>, t: nat)
    ensures var n := FailedAll(ch, ws);
            && (Signalled(n, t, Done) <==> Signalled(ch, t, Done))
            && (Signalled(n, t, Failed) <==> Signalled(ch, t, Failed) || exists j :: 0 <= j < |ws| && ws[j].tag == t)
  {
    if ws == [] {
    } else {
      var init := ws[..|ws| - 1];
      FailedAllIs(ch, init, t);
      assert forall j :: 0 <= j < |init| ==> ws[j] == init[j];
    }
  }

  lemma {:induction false} NotifiedKeys(ch: map<nat, seq<Signal>>, ws: seq<Waiter>, ack: Ack, t: nat)
    ensures t in Notified(ch, ws, ack) ==> t in ch || exists j :: 0 <= j < |ws| && ws[j].tag == t
  {
    hide Resolves;
    if ws == [] {
    } else {
      var init := ws[..|ws| - 1];
      NotifiedKeys(ch, init, ack, t);
      assert forall j :: 0 <= j < |init| ==> ws[j] == init[j];
    }
  }

  lemma {:induction false} FailedAllKeys(ch: map<nat, seq<Signal>>, ws: seq<Waiter>, t: nat)
    ensures t in FailedAll(ch, ws) ==> t in ch || exists j :: 0 <= j < |ws| && ws[j].tag == t
  {
    if ws == [] {
    } else {
      var init := ws[..|ws| - 1];
      FailedAllKeys(ch, init, t);
      assert forall j :: 0 <= j < |init| ==> ws[j] == init[j];
    }
  }

  /** What a channel holds stays there. */
  lemma {:induction false} NotifiedKeeps(ch: map<nat, seq<Signal>>, ws: seq<Waiter>, ack: Ack, t: nat)
    requires Signalled(ch, t, Failed)
    ensures Signalled(Notified(ch, ws, ack), t, Failed)
  {
    hide Resolves;
    if ws == [] {
    } else {
      NotifiedKeeps(ch, ws[..|ws| - 1], ack, t);
    }
  }

  lemma FailedStays(h: History, ev: Event, t: nat)
    requires Signalled(h.now.ch, t, Failed)
    ensures Signalled(Advance(h, ev).now.ch, t, Failed)
  {
    hide Kept, Notified, FailedAll, Without;
    match ev {
      case Receive(ack) => NotifiedKeeps(h.now.ch, h.now.list, ack, t);
      case Disconnect => FailedAllIs(h.now.ch, h.now.list, t);
      case _ =>
    }
  }

  lemma AheadOf(ws: seq<Waiter>, w: Waiter)
    requires ws != [] && w in ws[1..]
    requires forall i, j :: 0 <= i < j < |ws| ==> ws[i].tag < ws[j].tag
    ensures ws[0].tag < w.tag
  {
    var j :| 0 <= j < |ws[1..]| && ws[1..][j] == w;
    assert ws[0].tag < ws[j + 1].tag;
  }

  lemma {:induction false} WithoutHas(ws: seq<Waiter>, tag: nat, w: Waiter)
    requires forall i, j :: 0 <= i < j < |ws| ==> ws[i].tag < ws[j].tag
    ensures w in Without(ws, tag) <==> w in ws && w.tag != tag
  {
    if ws == [] {
    } else {
      var rest := ws[1..];
      WithoutHas(rest, tag, w);
      assert w in ws <==> w == ws[0] || w in rest by { assert ws == [ws[0]] + rest; }
      if w in rest { AheadOf(ws, w); }
    }
  }

  lemma {:induction false} WithoutOrdered(ws: seq<Waiter>, tag: nat)
    requires forall i, j :: 0 <= i < j < |ws| ==> ws[i].tag < ws[j].tag
    ensures var k := Without(ws, tag); forall i, j :: 0 <= i < j < |k| ==> k[i].tag < k[j].tag
  {
    if ws == [] {
    } else {
      var rest := ws[1..];
      var k := Without(rest, tag);
      WithoutOrdered(rest, tag);
      forall j | 0 <= j < |k| ensures ws[0].tag < k[j].tag {
        WithoutHas(rest, tag, k[j]);
        AheadOf(ws, k[j]);
      }
    }
  }

  lemma WithoutIs(ws: seq<Waiter>, tag: nat)
    requires forall i, j :: 0 <= i < j < |ws| ==> ws[i].tag < ws[j].tag
    ensures var k := Without(ws, tag);
            && (forall w :: w in k <==> w in ws && w.tag != tag)
            && (forall i, j :: 0 <= i < j < |k| ==> k[i].tag < k[j].tag)
  {
    forall w ensures w in Without(ws, tag) <==> w in ws && w.tag != tag { WithoutHas(ws, tag, w); }
    WithoutOrdered(ws, tag);
  }

  lemma AckedSinceSnoc(log: seq<Event>, ev: Event, from: nat, kind: Kind)
    requires from <= |log|
    ensures AckedSince(log + [ev], from, kind)
         == AckedSince(log, from, kind) + if ev.Receive? && ev.ack.kind == kind then Named(ev.ack) else {}
  {
    assert (log + [ev])[..|log|] == log;
  }

  // ---------- Every step ----------

  lemma NumberedKept(h: History, ev: Event)
    requires Numbered(h) && ListRight(h) && Possible(h, ev)
    ensures Numbered(Advance(h, ev))
  {
    hide Kept, Notified, FailedAll, Without, Resolves, GivenUp, AckedSince;
    var h' := Advance(h, ev);
    if ev.Register? { assert h'.born.Keys == h.born.Keys + {ev.w.tag}; }
    forall t | t in h'.now.ch ensures t in h'.born {
      if ev.Receive? {
        NotifiedKeys(h.now.ch, h.now.list, ev.ack, t);
      } else if ev.Disconnect? {
        FailedAllKeys(h.now.ch, h.now.list, t);
      }
    }
  }

  lemma ToldCorrect(h: History, ev: Event, t: nat)
    requires Numbered(h) && ToldRight(h) && ListRight(h) && Possible(h, ev)
    requires t in Advance(h, ev).born && Told(Advance(h, ev), t)
    ensures var h' := Advance(h, ev);
            h'.born[t].w.ids <= AckedSince(h'.log, h'.born[t].at, h'.born[t].w.kind)
  {
    hide Kept, Notified, FailedAll, Without, GivenUp, AckedSince;
    var h' := Advance(h, ev);
    if t in h.born {
      var b := h.born[t];
      AckedSinceSnoc(h.log, ev, b.at, b.w.kind);
      if ev.Receive? {
        NotifiedIs(h.now.ch, h.now.list, ev.ack, t);
        if !Told(h, t) {
          var j :| 0 <= j < |h.now.list| && h.now.list[j].tag == t && Resolves(h.now.list[j], ev.ack);
        }
      } else if ev.Disconnect? {
        FailedAllIs(h.now.ch, h.now.list, t);
      }
    }
  }

  lemma EntryCarried(h: History, ev: Event, w: Waiter)
    requires Numbered(h) && EntryRight(h, w) && Possible(h, ev)
    requires ev.Receive? ==> !Resolves(w, ev.ack)
    ensures EntryRight(Advance(h, ev), if ev.Receive? then Touch(w, ev.ack) else w)
  {
    hide Next, AckedSince, Named;
    var h' := Advance(h, ev);
    assert h'.born[w.tag] == h.born[w.tag];
    AckedSinceSnoc(h.log, ev, h.born[w.tag].at, w.kind);
    if ev.Receive? && ev.ack.kind == w.kind {
      var id :| id in w.ids && id !in Named(ev.ack);
      assert id in Touch(w, ev.ack).ids;
    } else if AckSince(h'.log, h.born[w.tag].at, w.kind) {
      var i :| h.born[w.tag].at <= i < |h'.log| && h'.log[i].Receive? && h'.log[i].ack.kind == w.kind;
      assert h.log[i] == h'.log[i];
    }
  }

  lemma ListCorrect(h: History, ev: Event, i: nat)
    requires Numbered(h) && ListRight(h) && InOrder(h) && Possible(h, ev) && i < |Advance(h, ev).now.list|
    ensures EntryRight(Advance(h, ev), Advance(h, ev).now.list[i])
  {
    hide Kept, Notified, FailedAll, Without, GivenUp, Resolves, EntryRight, Numbered, Touch;
    var h' := Advance(h, ev);
    var w := h'.now.list[i];
    match ev {
      case Register(v) =>
        if i < |h.now.list| {
          EntryCarried(h, ev, h.now.list[i]);
        } else {
          EntryNew(h, v);
        }
      case Receive(ack) =>
        var j := KeptFrom(h.now.list, ack, i);
        EntryCarried(h, ev, h.now.list[j]);
      case SendError(tag) =>
        EntryCarried(h, ev, w);
      case Remove(tag) =>
        WithoutIs(h.now.list, tag);
        assert w in h.now.list;
        EntryCarried(h, ev, w);
    }
  }

  lemma EntryNew(h: History, w: Waiter)
    ensures EntryRight(Advance(h, Register(w)), w)
  {
    AckedSinceSnoc(h.log, Register(w), |h.log|, w.kind);
  }

  lemma OrderCorrect(h: History, ev: Event, i: nat, j: nat)
    requires Numbered(h) && ListRight(h) && InOrder(h) && Possible(h, ev) && i < j < |Advance(h, ev).now.list|
    ensures Advance(h, ev).now.list[i].tag < Advance(h, ev).now.list[j].tag
  {
    hide Kept, Notified, FailedAll, Without, GivenUp, Resolves, AckedSince;
    match ev {
      case Register(v) =>
        if j == |h.now.list| { assert h.now.list[i].tag in h.born; }
      case Receive(ack) =>
        KeptIs(h.now.list, ack);
        assert Advance(h, ev).now.list == Kept(h.now.list, ack);
      case SendError(_) =>
      case Remove(tag) => WithoutIs(h.now.list, tag);
    }
  }

  lemma NoneForgotten(h: History, ev: Event, t: nat)
    requires Numbered(h) && InOrder(h) && NoneLost(h) && Possible(h, ev) && t in Advance(h, ev).born
    ensures var h' := Advance(h, ev);
            h'.born[t].at <= |h'.log| && (Waits(h', t) || Told(h', t) || GivenUp(h', t))
  {
    hide Kept, Notified, FailedAll, Without, Resolves, AckedSince;
    var h' := Advance(h, ev);
    if ev.Register? && t == ev.w.tag {
      assert h'.now.list[|h.now.list|].tag == t;
    } else if GivenUp(h, t) {
      var i :| h.born[t].at <= i < |h.log|
               && (h.log[i] == Remove(t) || (h.log[i].Disconnect? && Signalled(h.now.ch, t, Failed)));
      assert h'.log[i] == h.log[i];
      if h.log[i].Disconnect? { FailedStays(h, ev, t); }
    } else if Told(h, t) {
      if ev.Receive? {
        NotifiedIs(h.now.ch, h.now.list, ev.ack, t);
      } else if ev.Disconnect? {
        FailedAllIs(h.now.ch, h.now.list, t);
      }
      assert Told(h', t);
    } else {
      var i :| 0 <= i < |h.now.list| && h.now.list[i].tag == t;
      StillWaits(h, ev, t, i);
    }
  }

  lemma StillWaits(h: History, ev: Event, t: nat, i: nat)
    requires Numbered(h) && InOrder(h) && Possible(h, ev) && t in h.born
    requires i < |h.now.list| && h.now.list[i].tag == t
    ensures var h' := Advance(h, ev);
            t in h'.born && h'.born[t].at <= |h'.log| && (Waits(h', t) || Told(h', t) || GivenUp(h', t))
  {
    hide Kept, Notified, FailedAll, Without, Resolves, AckedSince;
    var h', w := Advance(h, ev), h.now.list[i];
    match ev {
      case Register(_) => assert h'.now.list[i] == w;
      case Receive(ack) =>
        KeptIs(h.now.list, ack);
        NotifiedIs(h.now.ch, h.now.list, ack, t);
        if !Resolves(w, ack) {
          var k :| 0 <= k < |h'.now.list| && h'.now.list[k] == Touch(w, ack);
          assert Waits(h', t);
        }
      case Disconnect =>
        FailedAllIs(h.now.ch, h.now.list, t);
        assert h'.log[|h.log|] == Disconnect && Signalled(h'.now.ch, t, Failed);
      case SendError(_) => assert h'.now.list[i] == w;
      case Remove(tag) =>
        if tag == t {
          assert h'.log[|h.log|] == Remove(t);
        } else {
          WithoutIs(h.now.list, tag);
          assert w in h'.now.list;
        }
    }
  }

  lemma StepCorrect(h: History, ev: Event)
    requires Numbered(h) && Correct(h) && Possible(h, ev)
    ensures Numbered(Advance(h, ev)) && Correct(Advance(h, ev))
  {
    hide Advance, Told, Waits, GivenUp, AckedSince, Numbered, EntryRight;
    var h' := Advance(h, ev);
    NumberedKept(h, ev);
    forall t | t in h'.born && Told(h', t)
      ensures h'.born[t].w.ids <= AckedSince(h'.log, h'.born[t].at, h'.born[t].w.kind)
    {
      ToldCorrect(h, ev, t);
    }
    forall i | 0 <= i < |h'.now.list|
      ensures EntryRight(h', h'.now.list[i])
    {
      ListCorrect(h, ev, i);
    }
    forall i, j | 0 <= i < j < |h'.now.list| ensures h'.now.list[i].tag < h'.now.list[j].tag {
      OrderCorrect(h, ev, i, j);
    }
    forall t | t in h'.born
      ensures h'.born[t].at <= |h'.log| && (Waits(h', t) || Told(h', t) || GivenUp(h', t))
    {
      NoneForgotten(h, ev, t);
    }
  }

  /** For any split, order and repetition of acks, with send errors, timeouts and disconnects. */
  lemma {:induction false} WaitersCorrect(h: History, evs: seq<Event>, h': History)
    requires Numbered(h) && Correct(h) && Run(h, evs, h')
    ensures Numbered(h') && Correct(h')
    decreases |evs|
  {
    hide Correct, Numbered, Advance;
    if evs == [] {
    } else {
      StepCorrect(h, evs[0]);
      WaitersCorrect(Advance(h, evs[0]), evs[1..], h');
    }
  }

  lemma NewCorrect()
    ensures Numbered(NEW) && Correct(NEW)
  {
  }

  // ---------- Waiters that are gone ----------

  /** A waiter that is out of the list without having been told nil stays so. */
  lemma GoneStays(h: History, ev: Event, t: nat)
    requires Numbered(h) && InOrder(h) && Possible(h, ev) && t in h.born && !Waits(h, t) && !Told(h, t)
    ensures var h' := Advance(h, ev); t in h'.born && !Waits(h', t) && !Told(h', t)
  {
    hide Kept, Notified, FailedAll, Without, Resolves, AckedSince;
    var h' := Advance(h, ev);
    match ev {
      case Receive(ack) =>
        NotifiedIs(h.now.ch, h.now.list, ack, t);
        forall i: nat | i < |h'.now.list| ensures h'.now.list[i].tag != t {
          var j := KeptFrom(h.now.list, ack, i);
          assert h.now.list[j].tag != t;
        }
      case Disconnect => FailedAllIs(h.now.ch, h.now.list, t);
      case Remove(tag) =>
        WithoutIs(h.now.list, tag);
        forall i: nat | i < |h'.now.list| ensures h'.now.list[i].tag != t {
          assert h'.now.list[i] in h.now.list;
        }
      case _ =>
    }
  }

  lemma {:induction false} GoneForGood(h: History, evs: seq<Event>, h': History, t: nat)
    requires Numbered(h) && Correct(h) && Run(h, evs, h') && t in h.born && !Waits(h, t) && !Told(h, t)
    ensures !Waits(h', t) && !Told(h', t)
    decreases |evs|
  {
    hide Advance, Numbered, Waits, Told, ToldRight, ListRight, NoneLost, Possible;
    if evs == [] {
    } else {
      StepCorrect(h, evs[0]);
      GoneStays(h, evs[0], t);
      GoneForGood(Advance(h, evs[0]), evs[1..], h', t);
    }
  }

  /** A waiter that its call removes, or that a disconnect fails, is never told nil afterwards: a
      late ack cannot reach it. A send error and a disconnect tell it an error. */
  lemma NotToldLater(h: History, ev: Event, evs: seq<Event>, h': History, t: nat)
    requires Numbered(h) && Correct(h) && Run(h, [ev] + evs, h') && t in h.born && !Told(h, t)
    requires ev == Remove(t) || ev == Disconnect
    ensures !Waits(h', t) && !Told(h', t)
    ensures ev.Disconnect? && Waits(h, t) ==> Signalled(Advance(h, ev).now.ch, t, Failed)
  {
    assert ([ev] + evs)[0] == ev && ([ev] + evs)[1..] == evs;
    var m := Advance(h, ev);
    TakenOut(h, ev, t);
    StepCorrect(h, ev);
    hide Advance, Numbered, Waits, Told, Correct, Possible;
    GoneForGood(m, evs, h', t);
  }

  lemma TakenOut(h: History, ev: Event, t: nat)
    requires Numbered(h) && InOrder(h) && t in h.born && !Told(h, t) && (ev == Remove(t) || ev == Disconnect)
    ensures var m := Advance(h, ev); t in m.born && !Waits(m, t) && !Told(m, t)
    ensures ev.Disconnect? && Waits(h, t) ==> Signalled(Advance(h, ev).now.ch, t, Failed)
  {
    hide Kept, Notified, FailedAll, Without, Resolves;
    if ev.Disconnect? {
      FailedAllIs(h.now.ch, h.now.list, t);
    } else {
      WithoutIs(h.now.list, t);
      var m := Advance(h, ev);
      assert forall i :: 0 <= i < |m.now.list| ==> m.now.list[i] in m.now.list;
    }
  }

  lemma SendErrorTold(h: History, t: nat)
    ensures Signalled(Advance(h, SendError(t)).now.ch, t, Failed) && Advance(h, SendError(t)).now.list == h.now.list
  {
  }
}
