/** The command tables and their transactions (internal/platform/store.go): status, event log
    and outbox change together or not at all. */
module Store {
  import opened Options
  import Mailbox

  /** One row of `cmd.event`. */
  datatype Event = Event(cmd: string, kind: string, from: Option<string>, to: string)

  datatype RowKind = DispatchRequested | CancelRequested

  /** One row of `cmd.outbox`. The payload of a dispatch request carries the whole command; that
      of a cancel request only its id. */
  datatype Row = Row(
    cmd: string, kind: RowKind, asset: string, order: Mailbox.Order,
    availableAt: int, lockedUntil: Option<int>, published: bool, attempts: nat)

  datatype Db = Db(commands: map<string, string>, events: seq<Event>, outbox: seq<Row>)

  const EMPTY := Db(map[], [], [])

  /** Thirty seconds, in milliseconds. */
  const LEASE := 30_000

  datatype Outcome = Committed | Duplicate | NotFound

  function SubmitCommand(db: Db, id: string, asset: string, order: Mailbox.Order, now: int): (Db, Outcome) {
    if id in db.commands then (db, Duplicate)
    else
      (Db(db.commands[id := "QUEUED"],
          db.events + [Event(id, "created", None, "QUEUED")],
          db.outbox + [Row(id, DispatchRequested, asset, order, now, None, false, 0)]),
       Committed)
  }

  function Transition(db: Db, id: string, kind: string, to: string): (Db, Outcome) {
    if id !in db.commands then (db, NotFound)
    else
      (db.(commands := db.commands[id := to],
           events := db.events + [Event(id, kind, Some(db.commands[id]), to)]),
       Committed)
  }

  function CompleteCommand(db: Db, id: string, status: string): (Db, Outcome) {
    Transition(db, id, "result_received", status)
  }

  function CancelCommand(db: Db, id: string, now: int): Db {
    db.(outbox := db.outbox + [Row(id, CancelRequested, "", Mailbox.Order("", map[], 0), now, None, false, 0)])
  }

  predicate Eligible(r: Row, now: int) {
    && !r.published
    && r.availableAt <= now
    && (r.lockedUntil.None? || r.lockedUntil.value < now)
  }

  function Leased(r: Row, now: int): Row {
    r.(lockedUntil := Some(now + LEASE), attempts := r.attempts + 1)
  }

  /** The scan of `FetchOutbox` in order of event id: at most `limit` eligible rows are leased;
      rows another transaction holds locked are skipped. */
  function Fetch(rows: seq<Row>, busy: set<nat>, now: int, limit: nat): (seq<Row>, seq<nat>) {
    if rows == [] then ([], [])
    else
      var (done, taken) := Fetch(rows[..|rows| - 1], busy, now, limit);
      var i, r := |rows| - 1, rows[|rows| - 1];
      if |taken| < limit && i !in busy && Eligible(r, now) then (done + [Leased(r, now)], taken + [i])
      else (done + [r], taken)
  }

  function FetchOutbox(db: Db, busy: set<nat>, now: int, limit: nat): (Db, seq<nat>) {
    var (rows, taken) := Fetch(db.outbox, busy, now, limit);
    (db.(outbox := rows), taken)
  }

  function MarkPublished(db: Db, e: nat): Db {
    if e < |db.outbox| then db.(outbox := db.outbox[e := db.outbox[e].(published := true)]) else db
  }

  function MarkOutboxError(db: Db, e: nat): Db {
    if e < |db.outbox| then db.(outbox := db.outbox[e := db.outbox[e].(lockedUntil := None)]) else db
  }

  /** The store: every method is one transaction. */
  class CommandStore {
    var commands: map<string, string>
    var events: seq<Event>
    var outbox: seq<Row>

    ghost function State(): Db
      reads this
    {
      Db(commands, events, outbox)
    }

    constructor ()
      ensures State() == EMPTY
    {
      commands, events, outbox := map[], [], [];
    }

    method Submit(id: string, asset: string, order: Mailbox.Order, now: int) returns (outcome: Outcome)
      modifies this
      ensures (State(), outcome) == SubmitCommand(old(State()), id, asset, order, now)
    {
      if id in commands {
        return Duplicate;
      }
      commands := commands[id := "QUEUED"];
      events := events + [Event(id, "created", None, "QUEUED")];
      outbox := outbox + [Row(id, DispatchRequested, asset, order, now, None, false, 0)];
      return Committed;
    }

    method Move(id: string, kind: string, to: string) returns (outcome: Outcome)
      modifies this`commands, this`events
      ensures (State(), outcome) == Transition(old(State()), id, kind, to)
    {
      if id !in commands {
        return NotFound;
      }
      var from := commands[id];
      commands := commands[id := to];
      events := events + [Event(id, kind, Some(from), to)];
      return Committed;
    }

    method Lease(busy: set<nat>, now: int, limit: nat) returns (taken: seq<nat>)
      modifies this`outbox
      ensures (State(), taken) == FetchOutbox(old(State()), busy, now, limit)
    {
      taken := [];
      for i := 0 to |outbox|
        invariant |outbox| == |old(outbox)|
        invariant (outbox[..i], taken) == Fetch(old(outbox)[..i], busy, now, limit)
        invariant forall k :: i <= k < |outbox| ==> outbox[k] == old(outbox)[k]
      {
        assert old(outbox)[..i + 1][..i] == old(outbox)[..i];
        ghost var before := outbox[..i];
        var r := outbox[i];
        if |taken| < limit && i !in busy && !r.published && r.availableAt <= now
           && (r.lockedUntil == None || r.lockedUntil.value < now) {
          outbox := outbox[i := r.(lockedUntil := Some(now + LEASE), attempts := r.attempts + 1)];
          taken := taken + [i];
          assert outbox[..i + 1] == before + [Leased(r, now)];
        } else {
          assert outbox[..i + 1] == before + [r];
        }
      }
      assert old(outbox)[..|outbox|] == old(outbox) && outbox[..|outbox|] == outbox;
    }

    method Publish(e: nat)
      modifies this`outbox
      ensures State() == MarkPublished(old(State()), e)
    {
      if e < |outbox| {
        outbox := outbox[e := outbox[e].(published := true)];
      }
    }

    method Release(e: nat)
      modifies this`outbox
      ensures State() == MarkOutboxError(old(State()), e)
    {
      if e < |outbox| {
        outbox := outbox[e := outbox[e].(lockedUntil := None)];
      }
    }
  }

  // ---------- The event log determines the command table ----------

  /** A transaction on the tables. */
  datatype Tx =
    | SubmitTx(id: string, asset: string, order: Mailbox.Order, now: int)
    | TransitionTx(id: string, kind: string, to: string)
    | CancelTx(id: string, now: int)
    | FetchTx(busy: set<nat>, now: int, limit: nat)
    | PublishTx(e: nat)
    | ErrorTx(e: nat)

  function Commit(db: Db, tx: Tx): Db {
    match tx
    case SubmitTx(id, asset, order, now) => SubmitCommand(db, id, asset, order, now).0
    case TransitionTx(id, kind, to) => Transition(db, id, kind, to).0
    case CancelTx(id, now) => CancelCommand(db, id, now)
    case FetchTx(busy, now, limit) => FetchOutbox(db, busy, now, limit).0
    case PublishTx(e) => MarkPublished(db, e)
    case ErrorTx(e) => MarkOutboxError(db, e)
  }

  function CommitAll(db: Db, txs: seq<Tx>): Db {
    if txs == [] then db else Commit(CommitAll(db, txs[..|txs| - 1]), txs[|txs| - 1])
  }

  function Of(events: seq<Event>, id: string): seq<Event> {
    if events == [] then []
    else Of(events[..|events| - 1], id) + if events[|events| - 1].cmd == id then [events[|events| - 1]] else []
  }

  function Replay(events: seq<Event>): map<string, string> {
    if events == [] then map[]
    else Replay(events[..|events| - 1])[events[|events| - 1].cmd := events[|events| - 1].to]
  }

  /** Created as QUEUED, and from then on each event starts where the previous one ended. */
  predicate Chain(es: seq<Event>) {
    && (|es| > 0 ==> es[0].from == None && es[0].to == "QUEUED")
    && (forall i :: 0 < i < |es| ==> es[i].from == Some(es[i - 1].to))
  }

  function DispatchRows(rows: seq<Row>, id: string): nat {
    if rows == [] then 0
    else
      DispatchRows(rows[..|rows| - 1], id)
      + if rows[|rows| - 1].cmd == id && rows[|rows| - 1].kind.DispatchRequested? then 1 else 0
  }

  predicate CommandRight(db: Db, id: string) {
    var es := Of(db.events, id);
    && Chain(es)
    && (id in db.commands <==> es != [])
    && (id in db.commands ==> db.commands[id] == es[|es| - 1].to)
    && DispatchRows(db.outbox, id) == if id in db.commands then 1 else 0
  }

  lemma {:induction false} FetchLeases(rows: seq<Row>, busy: set<nat>, now: int, limit: nat)
    ensures var (done, taken) := Fetch(rows, busy, now, limit);
            && |done| == |rows| && |taken| <= limit
            && (forall i :: 0 <= i < |rows| ==>
                  done[i] == if i in taken then Leased(rows[i], now) else rows[i])
            && (forall k :: 0 <= k < |taken| ==> taken[k] < |rows| && Eligible(rows[taken[k]], now))
            && (forall k, l :: 0 <= k < l < |taken| ==> taken[k] < taken[l])
  {
    if rows == [] {
    } else {
      FetchLeases(rows[..|rows| - 1], busy, now, limit);
    }
  }

  /** A fetch skips the rows other transactions hold locked, and no others: the rows taken are
      the first `limit` free ones. */
  lemma {:induction false} FetchTakes(rows: seq<Row>, busy: set<nat>, now: int, limit: nat)
    ensures var taken := Fetch(rows, busy, now, limit).1;
            && (forall k :: 0 <= k < |taken| ==> taken[k] < |rows| && Free(rows, busy, now, taken[k]))
            && (forall i :: 0 <= i < |rows| && Free(rows, busy, now, i) && i !in taken ==>
                  |taken| == limit && forall k :: 0 <= k < |taken| ==> taken[k] < i)
  {
    if rows == [] {
    } else {
      var init, last := rows[..|rows| - 1], |rows| - 1;
      FetchTakes(init, busy, now, limit);
      FetchLeases(init, busy, now, limit);
      var before, taken := Fetch(init, busy, now, limit).1, Fetch(rows, busy, now, limit).1;
      assert forall i :: 0 <= i < |init| ==> rows[i] == init[i];
      assert taken == if |before| < limit && Free(rows, busy, now, last) then before + [last] else before;
      forall i | 0 <= i < |rows| && Free(rows, busy, now, i) && i !in taken
        ensures |taken| == limit && forall k :: 0 <= k < |taken| ==> taken[k] < i
      {
        if i < last { assert Free(init, busy, now, i) && i !in before; }
      }
    }
  }

  predicate Free(rows: seq<Row>, busy: set<nat>, now: int, i: nat)
    requires i < |rows|
  {
    i !in busy && Eligible(rows[i], now)
  }

  /** An error mark makes a row available again at once. */
  lemma ReleaseFrees(db: Db, e: nat, now: int)
    requires e < |db.outbox| && !db.outbox[e].published && db.outbox[e].availableAt <= now
    ensures Eligible(MarkOutboxError(db, e).outbox[e], now)
  {
  }

  lemma {:induction false} DispatchRowsSame(rows: seq<Row>, rows': seq<Row>, id: string)
    requires |rows| == |rows'| && forall i :: 0 <= i < |rows| ==> rows[i].cmd == rows'[i].cmd && rows[i].kind == rows'[i].kind
    ensures DispatchRows(rows, id) == DispatchRows(rows', id)
  {
    if rows == [] {
    } else {
      DispatchRowsSame(rows[..|rows| - 1], rows'[..|rows| - 1], id);
    }
  }

  lemma EventSnoc(events: seq<Event>, e: Event, id: string)
    ensures Of(events + [e], id) == Of(events, id) + if e.cmd == id then [e] else []
  {
    assert (events + [e])[..|events|] == events;
  }

  lemma RowSnoc(rows: seq<Row>, r: Row, id: string)
    ensures DispatchRows(rows + [r], id) == DispatchRows(rows, id) + if r.cmd == id && r.kind.DispatchRequested? then 1 else 0
  {
    assert (rows + [r])[..|rows|] == rows;
  }

  lemma CommitKeeps(db: Db, tx: Tx, id: string)
    requires CommandRight(db, id)
    ensures CommandRight(Commit(db, tx), id)
  {
    hide Of, DispatchRows, Fetch;
    var db' := Commit(db, tx);
    match tx {
      case SubmitTx(x, asset, order, now) =>
        if db' != db {
          EventSnoc(db.events, db'.events[|db.events|], id);
          RowSnoc(db.outbox, db'.outbox[|db.outbox|], id);
        }
      case TransitionTx(x, _, _) =>
        if db' != db { EventSnoc(db.events, db'.events[|db.events|], id); }
      case CancelTx(x, _) => RowSnoc(db.outbox, db'.outbox[|db.outbox|], id);
      case FetchTx(busy, now, limit) =>
        FetchLeases(db.outbox, busy, now, limit);
        DispatchRowsSame(db.outbox, db'.outbox, id);
      case PublishTx(_) => DispatchRowsSame(db.outbox, db'.outbox, id);
      case ErrorTx(_) => DispatchRowsSame(db.outbox, db'.outbox, id);
    }
  }

  /** In every reachable database a command's events form a chain from QUEUED to its current
      status, and it has exactly one dispatch request in the outbox. */
  lemma {:induction false} EventLogReplays(txs: seq<Tx>, id: string)
    ensures CommandRight(CommitAll(EMPTY, txs), id)
    decreases |txs|
  {
    if txs == [] {
    } else {
      EventLogReplays(txs[..|txs| - 1], id);
      CommitKeeps(CommitAll(EMPTY, txs[..|txs| - 1]), txs[|txs| - 1], id);
    }
  }

  lemma {:induction false} ReplayLast(events: seq<Event>, id: string)
    ensures id in Replay(events) <==> Of(events, id) != []
    ensures id in Replay(events) ==> Replay(events)[id] == Of(events, id)[|Of(events, id)| - 1].to
  {
    if events == [] {
    } else {
      ReplayLast(events[..|events| - 1], id);
    }
  }

  /** Replaying the event log from nothing gives the command table. */
  lemma ReplayIsState(txs: seq<Tx>)
    ensures Replay(CommitAll(EMPTY, txs).events) == CommitAll(EMPTY, txs).commands
  {
    var db := CommitAll(EMPTY, txs);
    forall id ensures id in Replay(db.events) <==> id in db.commands
              ensures id in db.commands ==> Replay(db.events)[id] == db.commands[id]
    {
      EventLogReplays(txs, id);
      ReplayLast(db.events, id);
    }
  }
}
