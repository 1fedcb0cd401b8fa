/** A log that is left alone for long enough is read to its end (internal/reporter/wal.go). */
module WalDrains {
  import opened Bytes
  import opened Options
  import opened WalFormat
  import opened WalRead
  import opened WalLog
  import opened WalWrite
  import opened WalHistory
  import opened WalPass
  import W = WalRuns

  // ---------- A call that nobody disturbs ----------

  /** A call over a directory that nobody changes: what it has seen is what is there. */
  predicate Undisturbed(l: Log, p: Pass) {
    && Listing(l.dir) && p.last == Active(l.dir).id
    && l.dir[0].id <= p.next <= l.dir[0].id + |l.dir|
    && p.seen == l.dir[..p.next - l.dir[0].id]
    && p.pos == p.from + |p.out|
  }

  lemma AdvanceUndisturbed(crc: Checksum, l: Log, p: Pass)
    requires LogInv(crc, l) && Undisturbed(l, p) && !Finished(p)
    ensures var q := Advance(crc, l, p);
            && Undisturbed(l, q) && (q.start, q.from, q.max, q.last, q.next) == (p.start, p.from, p.max, p.last, p.next + 1)
  {
    var i := p.next - l.dir[0].id;
    LogShape(crc, l);
    assert Opened(l, p.next) == l.dir[i];
    hide LogInv, Round, Opened, Sorted;
    RoundGrows(crc, Opened(l, p.next), p.last, p.cur, p.out, p.max);
    TakeNext(l.dir, i);
  }

  lemma TakeNext<T>(s: seq<T>, i: nat)
    requires i < |s|
    ensures s[..i] + [s[i]] == s[..i + 1]
  {
  }

  lemma RoundGrows(crc: Checksum, f: File, last: nat, cur: Cursor, out: seq<Entry>, max: int)
    ensures |Round(crc, f, last, cur, out, max).0| >= |out|
  {
  }

  /** A finished undisturbed call has the next entries, as many as asked for or all. */
  lemma ScannedAll(crc: Checksum, l: Log, p: Pass, cur: Cursor, pos: nat, b: nat)
    requires LogInv(crc, l) && PassInv(crc, l, p) && Undisturbed(l, p) && Finished(p)
    requires Position(crc, l, cur, pos) && (p.start, p.from, p.max) == (cur, pos, b)
    ensures pos <= |l.accepted| && p.out == Take(l.accepted[pos..], b)
  {
    hide Intact, Marks, Flatten, Visit, ScanFile, Collected, Ahead;
    LogShape(crc, l);
    var n := p.next - l.dir[0].id;
    var rest := l.dir[n..];
    assert p.seen + rest == l.dir;
    if |p.out| < p.max {
      FinishedIsReadFrom(crc, p, []);
      assert p.seen == l.dir && p.seen + [] == l.dir;
    } else {
      FinishedIsReadFrom(crc, p, rest);
    }
    ReadIntact(crc, l.dir, l.segs, l.torn, cur, pos - l.removed, b);
    PositionAhead(crc, l, cur, pos);
    assert l.accepted[l.removed..][pos - l.removed..] == l.accepted[pos..];
  }

  lemma OpenUndisturbed(l: Log, cur: Cursor, pos: nat, b: int)
    requires Listing(l.dir)
    ensures Undisturbed(l, Open(l, cur, pos, b))
  {
  }

  lemma UndisturbedPos(l: Log, p: Pass)
    requires Undisturbed(l, p)
    ensures p.pos == p.from + |p.out|
  {
  }

  // ---------- Runs ----------

  lemma RunNone(crc: Checksum, maxBytes: int, r: W.Reader)
    ensures W.Run(crc, maxBytes, r, [], r)
  {
  }

  lemma RunStep(crc: Checksum, maxBytes: int, r: W.Reader, ev: W.Event, rest: seq<W.Event>, r': W.Reader)
    requires W.Enabled(crc, maxBytes, r, ev) && W.Run(crc, maxBytes, W.Step(crc, maxBytes, r, ev), rest, r')
    ensures W.Run(crc, maxBytes, r, [ev] + rest, r')
  {
    hide W.Enabled, W.Step;
    assert ([ev] + rest)[1..] == rest;
  }

  lemma {:induction false} RunThen(crc: Checksum, maxBytes: int, r: W.Reader, first: seq<W.Event>, m: W.Reader,
                                   second: seq<W.Event>, r': W.Reader)
    requires W.Run(crc, maxBytes, r, first, m) && W.Run(crc, maxBytes, m, second, r')
    ensures W.Run(crc, maxBytes, r, first + second, r')
    decreases |first|
  {
    hide W.Enabled, W.Step;
    if first == [] {
      assert first + second == second;
    } else {
      RunThen(crc, maxBytes, W.Step(crc, maxBytes, r, first[0]), first[1..], m, second, r');
      assert (first + second)[0] == first[0] && (first + second)[1..] == first[1..] + second;
    }
  }

  predicate OnlyReads(evs: seq<W.Event>) {
    forall i :: 0 <= i < |evs| ==> !evs[i].Write?
  }

  // ---------- Reading to the end ----------

  function WithCall(r: W.Reader, p: Pass): W.Reader {
    r.(pass := Some(p))
  }

  /** A call in progress goes through its files to the end. One that was undisturbed so far has
      then seen the whole directory, or as much of it as it asked for. */
  lemma {:induction false} FinishCall(crc: Checksum, maxBytes: int, r: W.Reader, p: Pass)
      returns (evs: seq<W.Event>, q: Pass)
    requires LogInv(crc, r.log) && PassInv(crc, r.log, p)
    ensures W.Run(crc, maxBytes, WithCall(r, p), evs, WithCall(r, q)) && OnlyReads(evs)
    ensures PassInv(crc, r.log, q) && Finished(q)
    ensures Undisturbed(r.log, p) ==> Undisturbed(r.log, q) && (q.start, q.from, q.max) == (p.start, p.from, p.max)
    decreases p.last + 1 - p.next
  {
    hide W.Run, LogInv, PassInv, Undisturbed;
    if Finished(p) {
      RunNone(crc, maxBytes, WithCall(r, p));
      evs, q := [], p;
    } else {
      AdvanceKeeps(crc, r.log, p);
      if Undisturbed(r.log, p) { AdvanceUndisturbed(crc, r.log, p); }
      assert Listing(r.log.dir) by { LogShape(crc, r.log); }
      var rest, t := FinishCall(crc, maxBytes, r, Advance(crc, r.log, p));
      q := t;
      hide Advance;
      evs := [W.OpenNext] + rest;
      RunStep(crc, maxBytes, WithCall(r, p), W.OpenNext, rest, WithCall(r, q));
    }
  }

  lemma CloseCall(crc: Checksum, maxBytes: int, r: W.Reader, p: Pass) returns (evs: seq<W.Event>, q: Pass, r': W.Reader)
    requires LogInv(crc, r.log) && PassInv(crc, r.log, p)
    ensures W.Run(crc, maxBytes, WithCall(r, p), evs, r') && OnlyReads(evs)
    ensures PassInv(crc, r.log, q) && Finished(q) && r' == W.Step(crc, maxBytes, WithCall(r, q), W.CloseRead)
    ensures Undisturbed(r.log, p) ==> Undisturbed(r.log, q) && (q.start, q.from, q.max) == (p.start, p.from, p.max)
  {
    hide W.Run, LogInv, PassInv, Undisturbed, Finished;
    var scan, t := FinishCall(crc, maxBytes, r, p);
    q := t;
    r' := W.Step(crc, maxBytes, WithCall(r, q), W.CloseRead);
    RunNone(crc, maxBytes, r');
    RunStep(crc, maxBytes, WithCall(r, q), W.CloseRead, [], r');
    evs := scan + ([W.CloseRead] + []);
    RunThen(crc, maxBytes, WithCall(r, p), scan, WithCall(r, q), [W.CloseRead] + [], r');
  }

  /** One call of a reader returns the next `max` entries, or all there are. */
  lemma ReadOnce(crc: Checksum, maxBytes: int, r: W.Reader, max: nat) returns (evs: seq<W.Event>, r': W.Reader)
    requires LogInv(crc, r.log) && Position(crc, r.log, r.cur, r.pos) && r.pass.None?
    ensures W.Run(crc, maxBytes, r, evs, r') && OnlyReads(evs)
    ensures r.pos <= |r.log.accepted| && r'.log == r.log && r'.pass.None?
    ensures r'.out == r.out + Take(r.log.accepted[r.pos..], max)
    ensures r'.pos == r.pos + |Take(r.log.accepted[r.pos..], max)|
  {
    hide W.Run, LogInv, Position, PassInv, Undisturbed, Finished;
    var open := W.OpenRead(max);
    assert Listing(r.log.dir) by { LogShape(crc, r.log); }
    OpenKeeps(crc, r.log, r.cur, r.pos, max);
    var p := Open(r.log, r.cur, r.pos, max);
    OpenUndisturbed(r.log, r.cur, r.pos, max);
    var rest, q, t := CloseCall(crc, maxBytes, r, p);
    r' := t;
    ScannedAll(crc, r.log, q, r.cur, r.pos, max);
    UndisturbedPos(r.log, q);
    assert W.Step(crc, maxBytes, r, open) == WithCall(r, p);
    evs := [open] + rest;
    RunStep(crc, maxBytes, r, open, rest, r');
  }

  /** From every reachable state the reader can read to the end: a call in progress can be finished,
      and after one more call everything accepted has been returned or was deleted before. */
  lemma EverythingRead(crc: Checksum, maxBytes: int, evs: seq<W.Event>, r: W.Reader) returns (more: seq<W.Event>, r': W.Reader)
    requires W.Run(crc, maxBytes, W.FRESH, evs, r)
    ensures W.Run(crc, maxBytes, r, more, r') && OnlyReads(more) && r'.log == r.log && r'.pass.None?
    ensures r.out <= r'.out && r'.pos == |r.log.accepted|
    ensures forall j: nat :: j < |r.log.accepted| ==> j in r'.got || j < r.log.removed
    ensures r.pos < |r.log.accepted| ==> r'.out != [] && r'.out[|r'.out| - 1] == r.log.accepted[|r.log.accepted| - 1]
  {
    hide W.Run, LogInv, Position, PassInv, Undisturbed, Finished;
    W.FreshReader(crc);
    W.ReaderGetsEachEntryOnce(crc, maxBytes, W.FRESH, evs, r);
    var first, m := [], r;
    RunNone(crc, maxBytes, r);
    if r.pass.Some? {
      var close, q, t := CloseCall(crc, maxBytes, r, r.pass.value);
      first, m := close, t;
      assert WithCall(r, r.pass.value) == r;
    }
    W.ReaderGetsEachEntryOnce(crc, maxBytes, r, first, m);
    var second, t := ReadOnce(crc, maxBytes, m, |r.log.accepted|);
    r' := t;
    more := first + second;
    RunThen(crc, maxBytes, r, first, m, second, r');
    W.ReaderGetsEachEntryOnce(crc, maxBytes, m, second, r');
    LastReturned(crc, r, r');
  }

  /** The positions returned increase, so whoever has just reached the end returned the last entry
      last. */
  lemma LastReturned(crc: Checksum, r: W.Reader, r': W.Reader)
    requires W.Delivered(crc, r') && r'.log == r.log && r'.pos == |r.log.accepted| && r.log.removed <= r.pos
    ensures r.pos < |r.log.accepted| ==> r'.out != [] && r'.out[|r'.out| - 1] == r.log.accepted[|r.log.accepted| - 1]
  {
    hide Ahead;
    if r.pos < |r.log.accepted| {
      var last: nat := |r.log.accepted| - 1;
      assert last in r'.got;
      var i: nat :| i < |r'.got| && r'.got[i] == last;
      assert i == |r'.got| - 1;
    }
  }

  /** Whatever the reader and the writer were doing, an entry appended next is returned: unless a
      torn record stands at the end of the log, the agent can be restarted, the entry written, in
      two writes cut at any place after the header, and read, as the last of all entries. */
  lemma AppendedIsRead(crc: Checksum, maxBytes: int, evs: seq<W.Event>, r: W.Reader, e: Entry, cut: nat)
      returns (more: seq<W.Event>, r': W.Reader)
    requires W.Run(crc, maxBytes, W.FRESH, evs, r) && r.log.torn == [] && |e| <= ENTRY_MAX
    requires HEADER_SIZE <= cut < |Record(crc, e)|
    ensures W.Run(crc, maxBytes, r, Appends(e, cut) + more, r') && OnlyReads(more)
    ensures r'.log.accepted == r.log.accepted + [e] && r'.pos == |r'.log.accepted|
    ensures r'.out != [] && r'.out[|r'.out| - 1] == e
  {
    hide W.Run, LogInv, Position, PassInv, Record;
    W.FreshReader(crc);
    W.ReaderGetsEachEntryOnce(crc, maxBytes, W.FRESH, evs, r);
    var m := AppendPhase(crc, maxBytes, r, e, cut);
    RunThen(crc, maxBytes, W.FRESH, evs, r, Appends(e, cut), m);
    var rest, t := EverythingRead(crc, maxBytes, evs + Appends(e, cut), m);
    more, r' := rest, t;
    RunThen(crc, maxBytes, r, Appends(e, cut), m, more, r');
  }

  function Appends(e: Entry, cut: nat): seq<W.Event> {
    [W.Write(Crash)] + ([W.Write(Begin(e))] + ([W.Write(Progress(cut))] + ([W.Write(Finish)] + [])))
  }

  lemma AppendPhase(crc: Checksum, maxBytes: int, r: W.Reader, e: Entry, cut: nat) returns (m: W.Reader)
    requires LogInv(crc, r.log) && r.log.removed <= r.pos <= |r.log.accepted| && r.log.torn == []
    requires |e| <= ENTRY_MAX && HEADER_SIZE <= cut < |Record(crc, e)|
    ensures W.Run(crc, maxBytes, r, Appends(e, cut), m)
    ensures m.log.accepted == r.log.accepted + [e] && m.pos == r.pos
  {
    hide W.Run, LogInv, Record;
    var a0, a1, a2, a3 := W.Write(Crash), W.Write(Begin(e)), W.Write(Progress(cut)), W.Write(Finish);
    LogShape(crc, r.log);
    var r1 := W.Step(crc, maxBytes, r, a0);
    OpKeeps(crc, maxBytes, r.log, Crash);
    LogShape(crc, r1.log);
    var r2 := W.Step(crc, maxBytes, r1, a1);
    OpKeeps(crc, maxBytes, r1.log, Begin(e));
    LogShape(crc, r2.log);
    var r3 := W.Step(crc, maxBytes, r2, a2);
    OpKeeps(crc, maxBytes, r2.log, Progress(cut));
    LogShape(crc, r3.log);
    m := W.Step(crc, maxBytes, r3, a3);
    RunNone(crc, maxBytes, m);
    RunStep(crc, maxBytes, r3, a3, [], m);
    RunStep(crc, maxBytes, r2, a2, [a3] + [], m);
    RunStep(crc, maxBytes, r1, a1, [a2] + ([a3] + []), m);
    RunStep(crc, maxBytes, r, a0, [a1] + ([a2] + ([a3] + [])), m);
  }
}
