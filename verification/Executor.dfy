/** The command executor of the agent: envelopes in, results out
    (internal/executor/envelope.go, internal/executor/engine.go). */
module Executor {
  import opened Bytes
  import NonceCache

  /** What the executor looks at in an envelope; `signed` and `allowed` stand for the outcomes of
      signature verification and of the action's validator. */
  datatype Envelope = Envelope(cmdId: string, nonce: seq<byte>, expiresAt: int, signed: bool, allowed: bool)

  datatype Config = Config(verifying: bool, nonceCap: int, queueSize: nat, workers: int)

  function WorkerCount(cfg: Config): nat { if cfg.workers <= 0 then 4 else cfg.workers }

  /** The engine: nonce cache, command queue, commands being run, and the results handed to the
      reliable queue so far. */
  datatype Engine = Engine(
    nonces: NonceCache.Cache,
    queue: seq<string>,
    running: multiset<string>,
    reported: multiset<string>)

  const IDLE := Engine(NonceCache.EMPTY, [], multiset{}, multiset{})

  /** Where an envelope ended up. */
  datatype Verdict = RejectedPolicy | RejectedBusy | Accepted

  /** `Engine.Submit`. A queue of size 0 is an unbuffered channel: it takes a command only by
      handing it to a worker that is waiting for one. */
  function Submit(cfg: Config, e: Engine, env: Envelope, waiting: bool): (Engine, Verdict) {
    if !env.allowed then (e, RejectedPolicy)
    else if |e.queue| < cfg.queueSize then (e.(queue := e.queue + [env.cmdId]), Accepted)
    else if cfg.queueSize == 0 && waiting then (e.(running := e.running + multiset{env.cmdId}), Accepted)
    else (e, RejectedBusy)
  }

  /** Signature, nonce and expiry, in this order; the nonce is recorded before the expiry is
      looked at. */
  function Admit(cfg: Config, e: Engine, env: Envelope, now: int): (Engine, bool) {
    if cfg.verifying && (!env.signed || |env.nonce| == 0) then (e, false)
    else
      var (nonces, isNew) := if cfg.verifying then NonceCache.Check(e.nonces, cfg.nonceCap, env.nonce, env.expiresAt, now)
                             else (e.nonces, true);
      (e.(nonces := nonces), isNew && !(env.expiresAt > 0 && now > env.expiresAt))
  }

  /** `SubmitEnvelope`: anything that is not queued is reported at once. */
  function SubmitEnvelope(cfg: Config, e: Engine, env: Envelope, now: int, waiting: bool): Engine {
    var (e1, admitted) := Admit(cfg, e, env, now);
    if !admitted then e1.(reported := e1.reported + multiset{env.cmdId})
    else
      var (e2, verdict) := Submit(cfg, e1, env, waiting);
      if verdict.Accepted? then e2 else e2.(reported := e2.reported + multiset{env.cmdId})
  }

  /** The part of the engine that `SubmitEnvelope` works on. */
  class Intake {
    const cfg: Config
    const nonces: NonceCache.Nonces
    var queue: seq<string>
    var running: multiset<string>
    var reported: multiset<string>

    ghost function State(): Engine
      reads this, nonces
    {
      Engine(nonces.State(), queue, running, reported)
    }

    ghost predicate Valid()
      reads nonces
    {
      nonces.cap == cfg.nonceCap
    }

    constructor (cfg: Config)
      ensures Valid() && State() == IDLE && this.cfg == cfg && fresh(nonces)
    {
      this.cfg := cfg;
      nonces := new NonceCache.Nonces(cfg.nonceCap);
      queue, running, reported := [], multiset{}, multiset{};
    }

    method ReportImmediate(id: string)
      modifies this`reported
      ensures reported == old(reported) + multiset{id}
    {
      reported := reported + multiset{id};
    }

    method Enqueue(env: Envelope, waiting: bool) returns (verdict: Verdict)
      modifies this`queue, this`running
      ensures (State(), verdict) == Submit(cfg, old(State()), env, waiting)
    {
      if !env.allowed {
        return RejectedPolicy;
      }
      if |queue| < cfg.queueSize {
        queue := queue + [env.cmdId];
        return Accepted;
      }
      if cfg.queueSize == 0 && waiting {
        running := running + multiset{env.cmdId};
        return Accepted;
      }
      return RejectedBusy;
    }

    method TakeEnvelope(env: Envelope, now: int, waiting: bool)
      requires Valid()
      modifies this`queue, this`running, this`reported, nonces
      ensures Valid() && State() == SubmitEnvelope(cfg, old(State()), env, now, waiting)
    {
      if cfg.verifying {
        if !env.signed || |env.nonce| == 0 {
          ReportImmediate(env.cmdId);
          return;
        }
        var isNew := nonces.CheckNonce(env.nonce, env.expiresAt, now);
        if !isNew {
          ReportImmediate(env.cmdId);
          return;
        }
      }
      if env.expiresAt > 0 && now > env.expiresAt {
        ReportImmediate(env.cmdId);
        return;
      }
      var verdict := Enqueue(env, waiting);
      if verdict != Accepted {
        ReportImmediate(env.cmdId);
      }
    }
  }

  /** A worker takes the oldest queued command; later it reports the outcome. */
  predicate CanStart(cfg: Config, e: Engine) {
    |e.queue| > 0 && |e.running| < WorkerCount(cfg)
  }

  function Start(e: Engine): Engine
    requires |e.queue| > 0
  {
    e.(queue := e.queue[1..], running := e.running + multiset{e.queue[0]})
  }

  function Finish(e: Engine, id: string): Engine {
    e.(running := e.running - multiset{id}, reported := e.reported + multiset{id})
  }

  datatype Event = Present(env: Envelope, now: int, waiting: bool) | StartOne | FinishOne(id: string)

  /** A submission that reached `Engine.Submit`. */
  datatype Entry = Entry(env: Envelope, now: int)

  /** The engine with everything received, everything admitted, and the commands that workers
      have begun, in order. */
  datatype History = History(
    engine: Engine, received: multiset<string>, entered: seq<Entry>, begun: seq<string>, clock: int)

  function New(clock: int): History { History(IDLE, multiset{}, [], [], clock) }

  /** The clock does not run backwards; workers take turns. */
  predicate Possible(cfg: Config, h: History, ev: Event) {
    match ev
    case Present(_, now, waiting) => now >= h.clock && (waiting ==> |h.engine.running| < WorkerCount(cfg))
    case StartOne => CanStart(cfg, h.engine)
    case FinishOne(id) => id in h.engine.running
  }

  function Advance(cfg: Config, h: History, ev: Event): History
    requires Possible(cfg, h, ev)
  {
    match ev
    case Present(env, now, waiting) =>
      History(SubmitEnvelope(cfg, h.engine, env, now, waiting), h.received + multiset{env.cmdId},
              if Admit(cfg, h.engine, env, now).1 then h.entered + [Entry(env, now)] else h.entered,
              if |SubmitEnvelope(cfg, h.engine, env, now, waiting).running| > |h.engine.running| then h.begun + [env.cmdId]
              else h.begun,
              now)
    case StartOne => h.(engine := Start(h.engine), begun := h.begun + [h.engine.queue[0]])
    case FinishOne(id) => h.(engine := Finish(h.engine, id))
  }

  ghost predicate Run(cfg: Config, h: History, evs: seq<Event>, h': History)
    decreases |evs|
  {
    if evs == [] then h' == h
    else Possible(cfg, h, evs[0]) && Run(cfg, Advance(cfg, h, evs[0]), evs[1..], h')
  }

  // ---------- Every command gets exactly one result ----------

  /** Per command id: received = reported + queued + running. */
  predicate Conserved(cfg: Config, h: History) {
    && h.received == h.engine.reported + multiset(h.engine.queue) + h.engine.running
    && |h.engine.queue| <= cfg.queueSize
    && |h.engine.running| <= WorkerCount(cfg)
  }

  lemma PresentConserves(cfg: Config, h: History, ev: Event)
    requires ev.Present? && Conserved(cfg, h) && Possible(cfg, h, ev)
    ensures Conserved(cfg, Advance(cfg, h, ev))
  {
    hide Admit, SubmitEnvelope;
    EnvelopePlaced(cfg, h.engine, ev.env, ev.now, ev.waiting);
    MultisetSnoc(h.engine.queue, ev.env.cmdId);
  }

  lemma AdmitKeepsRest(cfg: Config, e: Engine, env: Envelope, now: int)
    ensures Admit(cfg, e, env, now).0 == e.(nonces := Admit(cfg, e, env, now).0.nonces)
  {
    hide NonceCache.Check;
  }

  lemma StepConserves(cfg: Config, h: History, ev: Event)
    requires Conserved(cfg, h) && Possible(cfg, h, ev)
    ensures Conserved(cfg, Advance(cfg, h, ev))
  {
    hide SubmitEnvelope, Admit;
    var q := h.engine.queue;
    match ev {
      case Present(_, _, _) => PresentConserves(cfg, h, ev);
      case StartOne => assert q == [q[0]] + q[1..];
      case FinishOne(id) =>
    }
  }

  lemma {:induction false} RunConserves(cfg: Config, h: History, evs: seq<Event>, h': History)
    requires Conserved(cfg, h) && Run(cfg, h, evs, h')
    ensures Conserved(cfg, h')
    decreases |evs|
  {
    hide Conserved, Advance, Possible;
    if evs == [] {
    } else {
      StepConserves(cfg, h, evs[0]);
      RunConserves(cfg, Advance(cfg, h, evs[0]), evs[1..], h');
    }
  }

  lemma NewConserved(cfg: Config, clock: int)
    ensures Conserved(cfg, New(clock))
  {
  }

  /** In every reachable state, for every command id, the envelopes received are the results
      handed over plus the commands queued and running, and queue and workers stay in bounds. */
  lemma ResultsConserved(cfg: Config, clock: int, evs: seq<Event>, h: History)
    requires Run(cfg, New(clock), evs, h)
    ensures h.received == h.engine.reported + multiset(h.engine.queue) + h.engine.running
    ensures |h.engine.queue| <= cfg.queueSize && |h.engine.running| <= if cfg.workers <= 0 then 4 else cfg.workers
  {
    hide Run;
    NewConserved(cfg, clock);
    RunConserves(cfg, New(clock), evs, h);
  }

  // ---------- What is executed ----------

  /** Where an envelope ends up. One that is not admitted, or whose action the validator refuses,
      or that finds no room, is reported and not executed; any other is queued last, or given to
      a waiting worker if the queue is unbuffered, and not reported. */
  lemma EnvelopePlaced(cfg: Config, e: Engine, env: Envelope, now: int, waiting: bool)
    ensures var e' := SubmitEnvelope(cfg, e, env, now, waiting);
            var placed := Admit(cfg, e, env, now).1 && env.allowed
                          && (|e.queue| < cfg.queueSize || (cfg.queueSize == 0 && waiting));
            && (placed ==> e'.reported == e.reported)
            && (placed && |e.queue| < cfg.queueSize ==> e'.queue == e.queue + [env.cmdId] && e'.running == e.running)
            && (placed && |e.queue| >= cfg.queueSize ==> e'.queue == e.queue && e'.running == e.running + multiset{env.cmdId})
            && (!placed ==> e'.queue == e.queue && e'.running == e.running && e'.reported == e.reported + multiset{env.cmdId})
  {
    AdmitKeepsRest(cfg, e, env, now);
    hide Admit;
  }

  /** The ids of the admitted envelopes whose action is allowed, in order. */
  function AllowedIds(entered: seq<Entry>): seq<string> {
    if entered == [] then []
    else
      AllowedIds(entered[..|entered| - 1])
      + if entered[|entered| - 1].env.allowed then [entered[|entered| - 1].env.cmdId] else []
  }

  /** `a` results from `b` by leaving elements out. */
  predicate Subsequence(a: seq<string>, b: seq<string>) {
    if b == [] then a == []
    else
      || Subsequence(a, b[..|b| - 1])
      || (a != [] && a[|a| - 1] == b[|b| - 1] && Subsequence(a[..|a| - 1], b[..|b| - 1]))
  }

  /** What was begun and what is queued are admitted envelopes with an allowed action, in the order
      of their arrival; what is running has been begun. */
  predicate Authorised(cfg: Config, h: History) {
    && Subsequence(h.begun + h.engine.queue, AllowedIds(h.entered))
    && h.engine.running <= multiset(h.begun)
    && (cfg.queueSize == 0 ==> h.engine.queue == [])
  }

  lemma SubsequenceSnoc(a: seq<string>, b: seq<string>, x: string)
    requires Subsequence(a, b)
    ensures Subsequence(a, b + [x]) && Subsequence(a + [x], b + [x])
  {
    assert (b + [x])[..|b|] == b && (a + [x])[..|a|] == a;
  }

  lemma MultisetSnoc(s: seq<string>, x: string)
    ensures multiset(s + [x]) == multiset(s) + multiset{x}
  {
  }

  lemma PlacedSizes(cfg: Config, e: Engine, env: Envelope, now: int, waiting: bool)
    ensures var e' := SubmitEnvelope(cfg, e, env, now, waiting);
            |e'.running| > |e.running| <==> e'.running == e.running + multiset{env.cmdId}
  {
    hide SubmitEnvelope, Admit;
    EnvelopePlaced(cfg, e, env, now, waiting);
  }

  lemma AllowedSnoc(entered: seq<Entry>, x: Entry)
    ensures AllowedIds(entered + [x]) == AllowedIds(entered) + if x.env.allowed then [x.env.cmdId] else []
  {
    assert (entered + [x])[..|entered|] == entered;
  }

  /** What an event that places a command, or none, does to order and running. */
  lemma PlaceAuthorised(cfg: Config, h: History, x: Entry, queue: seq<string>, begun: seq<string>)
    requires Authorised(cfg, h)
    requires || (queue == h.engine.queue && begun == h.begun)
             || (x.env.allowed && queue == h.engine.queue + [x.env.cmdId] && begun == h.begun)
             || (x.env.allowed && queue == h.engine.queue == [] && begun == h.begun + [x.env.cmdId])
    ensures Subsequence(begun + queue, AllowedIds(h.entered + [x]))
  {
    hide Subsequence, AllowedIds;
    AllowedSnoc(h.entered, x);
    var a, b := h.begun + h.engine.queue, AllowedIds(h.entered);
    SubsequenceSnoc(a, b, x.env.cmdId);
    assert b + [] == b;
    assert a + [x.env.cmdId] == h.begun + (h.engine.queue + [x.env.cmdId]);
    assert h.engine.queue == [] ==> a + [x.env.cmdId] == h.begun + [x.env.cmdId] + [];
  }

  lemma PresentAuthorised(cfg: Config, h: History, ev: Event)
    requires ev.Present? && Authorised(cfg, h) && Possible(cfg, h, ev)
    ensures Authorised(cfg, Advance(cfg, h, ev))
  {
    hide Subsequence, Admit, SubmitEnvelope, AllowedIds;
    var h', e, env := Advance(cfg, h, ev), h.engine, ev.env;
    EnvelopePlaced(cfg, e, env, ev.now, ev.waiting);
    PlacedSizes(cfg, e, env, ev.now, ev.waiting);
    MultisetSnoc(h.begun, env.cmdId);
    if Admit(cfg, e, env, ev.now).1 {
      PlaceAuthorised(cfg, h, Entry(env, ev.now), h'.engine.queue, h'.begun);
    }
  }

  lemma StepAuthorised(cfg: Config, h: History, ev: Event)
    requires Authorised(cfg, h) && Possible(cfg, h, ev)
    ensures Authorised(cfg, Advance(cfg, h, ev))
  {
    hide Subsequence, SubmitEnvelope, Admit;
    var q := h.engine.queue;
    match ev {
      case Present(_, _, _) => PresentAuthorised(cfg, h, ev);
      case StartOne => assert h.begun + [q[0]] + q[1..] == h.begun + q;
      case FinishOne(_) =>
    }
  }

  lemma {:induction false} RunAuthorised(cfg: Config, h: History, evs: seq<Event>, h': History)
    requires Authorised(cfg, h) && Run(cfg, h, evs, h')
    ensures Authorised(cfg, h')
    decreases |evs|
  {
    hide Authorised, Advance, Possible;
    if evs == [] {
    } else {
      StepAuthorised(cfg, h, evs[0]);
      RunAuthorised(cfg, Advance(cfg, h, evs[0]), evs[1..], h');
    }
  }

  /** In every run only admitted envelopes whose action is allowed are ever queued or begun, each
      at most once per admission, and they are begun in the order of their arrival. */
  lemma OnlyAllowedRun(cfg: Config, clock: int, evs: seq<Event>, h: History)
    requires Run(cfg, New(clock), evs, h)
    ensures Subsequence(h.begun + h.engine.queue, AllowedIds(h.entered)) && h.engine.running <= multiset(h.begun)
  {
    hide Run;
    assert Authorised(cfg, New(clock));
    RunAuthorised(cfg, New(clock), evs, h);
  }

  /** Everything received gets its result: from every reachable state workers can finish all that
      is queued and running, after which exactly the envelopes received have been reported. */
  lemma EverythingReported(cfg: Config, clock: int, evs: seq<Event>, h: History) returns (more: seq<Event>, h': History)
    requires Run(cfg, New(clock), evs, h)
    ensures Run(cfg, h, more, h') && forall i :: 0 <= i < |more| ==> !more[i].Present?
    ensures h'.engine.queue == [] && h'.engine.running == multiset{} && h'.engine.reported == h.received
  {
    hide Run;
    NewConserved(cfg, clock);
    RunConserves(cfg, New(clock), evs, h);
    more, h' := WorkOff(cfg, h);
    RunConserves(cfg, h, more, h');
  }

  lemma {:induction false} WorkOff(cfg: Config, h: History) returns (more: seq<Event>, h': History)
    ensures Run(cfg, h, more, h') && forall i :: 0 <= i < |more| ==> !more[i].Present?
    ensures h'.engine.queue == [] && h'.engine.running == multiset{} && h'.received == h.received
    decreases |h.engine.queue|, |h.engine.running|
  {
    hide SubmitEnvelope, Admit, Run;
    if h.engine.running != multiset{} {
      var id :| id in h.engine.running;
      var ev := FinishOne(id);
      var rest, r := WorkOff(cfg, Advance(cfg, h, ev));
      more, h' := [ev] + rest, r;
      RunCons(cfg, h, ev, rest, r);
    } else if h.engine.queue != [] {
      var rest, r := WorkOff(cfg, Advance(cfg, h, StartOne));
      more, h' := [StartOne] + rest, r;
      RunCons(cfg, h, StartOne, rest, r);
    } else {
      more, h' := [], h;
      RunNone(cfg, h);
    }
  }

  lemma RunNone(cfg: Config, h: History)
    ensures Run(cfg, h, [], h)
  {
  }

  lemma RunCons(cfg: Config, h: History, ev: Event, rest: seq<Event>, h': History)
    requires Possible(cfg, h, ev) && Run(cfg, Advance(cfg, h, ev), rest, h')
    ensures Run(cfg, h, [ev] + rest, h')
  {
    assert ([ev] + rest)[1..] == rest;
  }

  // ---------- An envelope is accepted once ----------

  /** A live cache entry blocks the nonce at `now`. */
  predicate Blocked(cfg: Config, c: NonceCache.Cache, nonce: seq<byte>, now: int) {
    var key := NonceCache.Hex(nonce);
    key in c.items && !(|c.items| >= cfg.nonceCap && c.items[key] <= now)
  }

  lemma AdmittedIff(cfg: Config, e: Engine, env: Envelope, now: int)
    requires NonceCache.Consistent(e.nonces)
    ensures Admit(cfg, e, env, now).1
       <==> && (cfg.verifying ==> env.signed && |env.nonce| > 0 && !Blocked(cfg, e.nonces, env.nonce, now))
            && !(env.expiresAt > 0 && now > env.expiresAt)
  {
    hide NonceCache.Purge;
    NonceCache.PurgeIs(e.nonces, cfg.nonceCap, now);
  }

  /** An admitted envelope with an expiry was in time, and its nonce is still in the cache until
      the clock reaches the expiry. */
  predicate Remembered(h: History, x: Entry) {
    x.env.expiresAt > 0 ==>
      && x.now <= x.env.expiresAt
      && var key := NonceCache.Hex(x.env.nonce);
         (key in h.engine.nonces.items && h.engine.nonces.items[key] == x.env.expiresAt) || h.clock >= x.env.expiresAt
  }

  predicate SameEnvelope(a: Envelope, b: Envelope) {
    a.nonce == b.nonce && a.expiresAt == b.expiresAt
  }

  predicate Repeats(x: Entry, y: Entry) {
    SameEnvelope(x.env, y.env) && x.env.expiresAt > 0
  }

  predicate Guarded(h: History) {
    && NonceCache.Consistent(h.engine.nonces)
    && (forall i :: 0 <= i < |h.entered| ==> h.entered[i].now <= h.clock && Remembered(h, h.entered[i]))
    && (forall i, j :: 0 <= i < j < |h.entered| && Repeats(h.entered[i], h.entered[j]) ==>
          h.entered[j].now == h.entered[j].env.expiresAt)
  }

  /** Once admitted, an envelope with an expiry is admitted again exactly at the instant of its
      expiry and if the cache no longer blocks it then: it was dropped, or the cache is full. */
  lemma ReadmittedExactly(cfg: Config, h: History, i: nat, env: Envelope, now: int)
    requires cfg.verifying && Guarded(h) && i < |h.entered| && now >= h.clock
    requires SameEnvelope(h.entered[i].env, env) && env.expiresAt > 0 && env.signed && |env.nonce| > 0
    ensures Admit(cfg, h.engine, env, now).1
       <==> now == env.expiresAt && !Blocked(cfg, h.engine.nonces, env.nonce, now)
  {
    hide Admit, NonceCache.Consistent;
    AdmittedIff(cfg, h.engine, env, now);
    assert Remembered(h, h.entered[i]);
  }

  lemma PresentGuarded(cfg: Config, h: History, ev: Event)
    requires cfg.verifying && Guarded(h) && ev.Present? && Possible(cfg, h, ev)
    ensures Guarded(Advance(cfg, h, ev))
  {
    var h', env, now := Advance(cfg, h, ev), ev.env, ev.now;
    AdmitCache(cfg, h.engine, env, now, ev.waiting);
    hide Admit, Submit, NonceCache.Check, NonceCache.Consistent, NonceCache.Hex;
    forall i | 0 <= i < |h.entered| ensures Remembered(h', h.entered[i]) {
      assert Remembered(h, h.entered[i]);
    }
    if |h'.entered| > |h.entered| {
      forall i | 0 <= i < |h.entered| && SameEnvelope(h.entered[i].env, env) && env.expiresAt > 0
        ensures now == env.expiresAt
      {
        ReadmittedExactly(cfg, h, i, env, now);
      }
    }
  }

  /** What admission does to the cache. */
  lemma AdmitCache(cfg: Config, e: Engine, env: Envelope, now: int, waiting: bool)
    requires cfg.verifying && NonceCache.Consistent(e.nonces)
    ensures var (e', ok) := Admit(cfg, e, env, now);
            var key := NonceCache.Hex(env.nonce);
            && NonceCache.Consistent(e'.nonces)
            && (env.signed && |env.nonce| > 0 ==> key in e'.nonces.items)
            && SubmitEnvelope(cfg, e, env, now, waiting).nonces == e'.nonces
            && (ok ==> env.signed && |env.nonce| > 0 && key in e'.nonces.items && e'.nonces.items[key] == env.expiresAt
                       && (env.expiresAt > 0 ==> now <= env.expiresAt))
            && (forall k :: k in e.nonces.items && e.nonces.items[k] > now ==>
                  k in e'.nonces.items && e'.nonces.items[k] == e.nonces.items[k])
            && (forall k :: k in e.nonces.items && k in e'.nonces.items && e'.nonces.items[k] != e.nonces.items[k] ==>
                  e.nonces.items[k] <= now)
  {
    hide NonceCache.Purge;
    NonceCache.PurgeIs(e.nonces, cfg.nonceCap, now);
    NonceCache.CheckConsistent(e.nonces, cfg.nonceCap, env.nonce, env.expiresAt, now);
  }

  lemma {:induction false} GuardKept(cfg: Config, h: History, evs: seq<Event>, h': History)
    requires cfg.verifying && Guarded(h) && Run(cfg, h, evs, h')
    ensures Guarded(h')
    decreases |evs|
  {
    hide Guarded;
    if evs == [] {
    } else {
      StepGuarded(cfg, h, evs[0]);
      GuardKept(cfg, Advance(cfg, h, evs[0]), evs[1..], h');
    }
  }

  lemma StepGuarded(cfg: Config, h: History, ev: Event)
    requires cfg.verifying && Guarded(h) && Possible(cfg, h, ev)
    ensures Guarded(Advance(cfg, h, ev))
  {
    if ev.Present? {
      PresentGuarded(cfg, h, ev);
    } else {
      var h' := Advance(cfg, h, ev);
      forall i | 0 <= i < |h.entered| ensures Remembered(h', h.entered[i]) {
        assert Remembered(h, h.entered[i]);
      }
    }
  }

  /** With verification on and a clock that does not run backwards, an envelope with an expiry
      that is never presented at the very instant of it reaches `Engine.Submit` at most once,
      whatever the cache evicts in between. */
  lemma SingleAcceptance(cfg: Config, clock: int, evs: seq<Event>, h: History, i: nat, j: nat)
    requires cfg.verifying && Run(cfg, New(clock), evs, h)
    requires i < |h.entered| && j < |h.entered| && SameEnvelope(h.entered[i].env, h.entered[j].env)
    requires h.entered[i].env.expiresAt > 0
    requires h.entered[i].now != h.entered[i].env.expiresAt && h.entered[j].now != h.entered[j].env.expiresAt
    ensures i == j
  {
    hide Run;
    assert Guarded(New(clock));
    GuardKept(cfg, New(clock), evs, h);
  }

  // ---------- The excluded instant, and envelopes without an expiry ----------

  /** A signed envelope that expires at `until` and has a nonce longer than that of `env` by
      `n + 1`. */
  function Filler(env: Envelope, n: nat, until: int): Envelope {
    Envelope("", seq(|env.nonce| + 1 + n, _ => 0), until, true, true)
  }

  /** `n` fillers are in the cache and nothing else is. */
  predicate FilledBy(h: History, env: Envelope, n: nat, clock: int) {
    && |h.engine.nonces.items| == n && |h.entered| == n && h.clock == clock
    && NonceCache.Consistent(h.engine.nonces)
    && forall k :: k in h.engine.nonces.items ==> 2 * |env.nonce| < |k| <= 2 * (|env.nonce| + n)
  }

  /** An envelope that has not expired goes into a cache that has room. */
  lemma AdmitAdds(cfg: Config, e: Engine, env: Envelope, now: int)
    requires cfg.verifying && env.signed && |env.nonce| > 0 && !(env.expiresAt > 0 && now > env.expiresAt)
    requires |e.nonces.items| < cfg.nonceCap && NonceCache.Hex(env.nonce) !in e.nonces.items
    ensures Admit(cfg, e, env, now).1
    ensures Admit(cfg, e, env, now).0.nonces
         == NonceCache.Cache(e.nonces.items[NonceCache.Hex(env.nonce) := env.expiresAt],
                             e.nonces.order + [NonceCache.Hex(env.nonce)])
  {
    hide NonceCache.Hex, NonceCache.Sweep;
  }

  /** One more filler. */
  lemma FillOne(cfg: Config, env: Envelope, clock: int, n: nat, m: History)
    requires cfg.verifying && |env.nonce| > 0 && n + 1 < cfg.nonceCap && FilledBy(m, env, n, clock)
    ensures Possible(cfg, m, Present(Filler(env, n, clock), clock, false))
    ensures FilledBy(Advance(cfg, m, Present(Filler(env, n, clock), clock, false)), env, n + 1, clock)
  {
    hide Admit, NonceCache.Hex, NonceCache.Consistent, SubmitEnvelope, NonceCache.Check;
    var f := Filler(env, n, clock);
    var key := NonceCache.Hex(f.nonce);
    NonceCache.HexLength(f.nonce);
    assert key !in m.engine.nonces.items;
    AdmitAdds(cfg, m.engine, f, clock);
    AdmitCache(cfg, m.engine, f, clock, false);
    assert m.engine.nonces.items[key := f.expiresAt].Keys == m.engine.nonces.items.Keys + {key};
  }

  lemma FillNone(env: Envelope, clock: int)
    ensures FilledBy(New(clock), env, 0, clock)
  {
  }

  lemma {:induction false} FillCache(cfg: Config, env: Envelope, clock: int, n: nat) returns (evs: seq<Event>, h: History)
    requires cfg.verifying && |env.nonce| > 0 && n < cfg.nonceCap
    ensures |evs| == n && Run(cfg, New(clock), evs, h) && FilledBy(h, env, n, clock)
    decreases n
  {
    hide Advance, Run, FilledBy, Possible;
    if n == 0 {
      evs, h := [], New(clock);
      RunNone(cfg, h);
      FillNone(env, clock);
    } else {
      var before, m := FillCache(cfg, env, clock, n - 1);
      var ev := Present(Filler(env, n - 1, clock), clock, false);
      FillOne(cfg, env, clock, n - 1, m);
      h := Advance(cfg, m, ev);
      evs := before + [ev];
      RunSnoc(cfg, New(clock), before, m, ev);
    }
  }

  lemma {:induction false} RunSnoc(cfg: Config, h: History, evs: seq<Event>, m: History, ev: Event)
    requires Run(cfg, h, evs, m) && Possible(cfg, m, ev)
    ensures Run(cfg, h, evs + [ev], Advance(cfg, m, ev))
    decreases |evs|
  {
    hide Possible, Advance;
    if evs == [] {
      assert (evs + [ev])[1..] == [];
    } else {
      RunSnoc(cfg, Advance(cfg, h, evs[0]), evs[1..], m, ev);
      assert (evs + [ev])[1..] == evs[1..] + [ev];
    }
  }

  /** For every capacity: once other envelopes have filled the cache, an envelope is admitted a
      second time, at its expiry if it has one and at any later instant if it has none. */
  lemma AcceptedTwice(cfg: Config, env: Envelope, clock: int, later: int) returns (evs: seq<Event>, h: History)
    requires cfg.verifying && cfg.nonceCap >= 1 && env.signed && |env.nonce| > 0
    requires if env.expiresAt > 0 then clock < later == env.expiresAt else 0 <= clock <= later
    ensures |evs| == cfg.nonceCap + 1 && Run(cfg, New(clock), evs, h)
    ensures |h.entered| == cfg.nonceCap + 1
    ensures h.entered[cfg.nonceCap - 1] == Entry(env, clock) && h.entered[cfg.nonceCap] == Entry(env, later)
  {
    hide Admit, NonceCache.Hex, Run, NonceCache.Consistent;
    var n := cfg.nonceCap - 1;
    var fill, m := FillCache(cfg, env, clock, n);
    NonceCache.HexLength(env.nonce);
    AdmitAdds(cfg, m.engine, env, clock);
    AdmitCache(cfg, m.engine, env, clock, false);
    var first, again := Present(env, clock, false), Present(env, later, false);
    var p := Advance(cfg, m, first);
    RunSnoc(cfg, New(clock), fill, m, first);
    AdmittedIff(cfg, p.engine, env, later);
    h := Advance(cfg, p, again);
    RunSnoc(cfg, New(clock), fill + [first], p, again);
    evs := fill + [first] + [again];
    assert h.entered == m.entered + [Entry(env, clock)] + [Entry(env, later)];
  }

  /** What the cache holds under the nonce of `env`, if anything, it got from an envelope with the
      same expiry. */
  predicate OwnEntry(c: NonceCache.Cache, env: Envelope) {
    NonceCache.Hex(env.nonce) in c.items ==> c.items[NonceCache.Hex(env.nonce)] == env.expiresAt
  }

  /** No other expiry was ever presented with the nonce of `env`. */
  predicate NonceOwned(evs: seq<Event>, env: Envelope) {
    forall i :: 0 <= i < |evs| && Presents(evs[i], env.nonce) ==> evs[i].env.expiresAt == env.expiresAt
  }

  lemma AdmitOwned(cfg: Config, e: Engine, x: Envelope, now: int, waiting: bool, env: Envelope)
    requires cfg.verifying && NonceCache.Consistent(e.nonces) && OwnEntry(e.nonces, env)
    requires x.signed && x.nonce == env.nonce ==> x.expiresAt == env.expiresAt
    ensures OwnEntry(SubmitEnvelope(cfg, e, x, now, waiting).nonces, env)
  {
    hide NonceCache.Purge, NonceCache.Hex;
    NonceCache.PurgeIs(e.nonces, cfg.nonceCap, now);
    NonceCache.HexInjective(x.nonce, env.nonce);
  }

  lemma {:induction false} CacheOwned(cfg: Config, clock: int, evs: seq<Event>, h: History, env: Envelope)
    requires cfg.verifying && Run(cfg, New(clock), evs, h) && NonceOwned(evs, env)
    ensures NonceCache.Consistent(h.engine.nonces) && OwnEntry(h.engine.nonces, env) && h.clock >= clock
    decreases |evs|
  {
    if evs == [] {
    } else {
      hide SubmitEnvelope, NonceCache.Hex, Admit, NonceCache.Consistent;
      var init, ev := evs[..|evs| - 1], evs[|evs| - 1];
      var m := RunUnsnoc(cfg, New(clock), evs, h);
      assert NonceOwned(init, env) by { assert forall i :: 0 <= i < |init| ==> init[i] == evs[i]; }
      CacheOwned(cfg, clock, init, m, env);
      if ev.Present? {
        AdmitCache(cfg, m.engine, ev.env, ev.now, ev.waiting);
        assert Presents(ev, env.nonce) ==> ev.env.expiresAt == env.expiresAt;
        AdmitOwned(cfg, m.engine, ev.env, ev.now, ev.waiting, env);
      }
    }
  }

  /** An envelope without an expiry, in any run with a clock at or above 0: it is admitted, the
      first time or again, exactly if its nonce is not in the cache or the cache is full. */
  lemma ReadmittedWithoutExpiry(cfg: Config, clock: int, evs: seq<Event>, h: History, env: Envelope, now: int)
    requires cfg.verifying && Run(cfg, New(clock), evs, h) && NonceOwned(evs, env) && 0 <= clock && h.clock <= now
    requires env.signed && |env.nonce| > 0 && env.expiresAt <= 0
    ensures Admit(cfg, h.engine, env, now).1
       <==> NonceCache.Hex(env.nonce) !in h.engine.nonces.items || |h.engine.nonces.items| >= cfg.nonceCap
  {
    hide Run, Admit, NonceCache.Consistent, NonceCache.Hex, NonceOwned;
    CacheOwned(cfg, clock, evs, h, env);
    AdmittedIff(cfg, h.engine, env, now);
  }

  // ---------- No false replay ----------

  /** The event put a nonce before the cache. */
  predicate Presents(ev: Event, nonce: seq<byte>) {
    ev.Present? && ev.env.signed && ev.env.nonce == nonce
  }

  /** Every key in the cache stems from a presented envelope. */
  ghost predicate Accounted(c: NonceCache.Cache, evs: seq<Event>) {
    forall k :: k in c.items ==> KeyFrom(k, evs)
  }

  predicate KeyFrom(k: string, evs: seq<Event>) {
    exists i :: 0 <= i < |evs| && evs[i].Present? && evs[i].env.signed && k == NonceCache.Hex(evs[i].env.nonce)
  }

  /** Admission puts at most the key of the envelope's own nonce into the cache. */
  lemma AdmitKeys(cfg: Config, e: Engine, env: Envelope, now: int, waiting: bool, k: string)
    requires cfg.verifying && NonceCache.Consistent(e.nonces)
    requires k in SubmitEnvelope(cfg, e, env, now, waiting).nonces.items
    ensures k in e.nonces.items || (env.signed && k == NonceCache.Hex(env.nonce))
  {
    hide NonceCache.Purge, NonceCache.Hex;
    NonceCache.PurgeIs(e.nonces, cfg.nonceCap, now);
  }

  lemma {:induction false} CacheAccounted(cfg: Config, clock: int, evs: seq<Event>, h: History)
    requires cfg.verifying && Run(cfg, New(clock), evs, h)
    ensures NonceCache.Consistent(h.engine.nonces) && Accounted(h.engine.nonces, evs)
    decreases |evs|
  {
    if evs == [] {
    } else {
      hide SubmitEnvelope, NonceCache.Hex, Admit, NonceCache.Consistent;
      var init, ev := evs[..|evs| - 1], evs[|evs| - 1];
      var m := RunUnsnoc(cfg, New(clock), evs, h);
      CacheAccounted(cfg, clock, init, m);
      if ev.Present? { AdmitCache(cfg, m.engine, ev.env, ev.now, ev.waiting); }
      forall k | k in h.engine.nonces.items ensures KeyFrom(k, evs) {
        if ev.Present? { AdmitKeys(cfg, m.engine, ev.env, ev.now, ev.waiting, k); }
        if k in m.engine.nonces.items {
          var i :| 0 <= i < |init| && init[i].Present? && init[i].env.signed && k == NonceCache.Hex(init[i].env.nonce);
          assert evs[i] == init[i];
        } else {
          assert evs[|evs| - 1] == ev;
        }
      }
    }
  }

  lemma {:induction false} RunUnsnoc(cfg: Config, h: History, evs: seq<Event>, h': History) returns (m: History)
    requires evs != [] && Run(cfg, h, evs, h')
    ensures Run(cfg, h, evs[..|evs| - 1], m)
    ensures Possible(cfg, m, evs[|evs| - 1]) && h' == Advance(cfg, m, evs[|evs| - 1])
    decreases |evs|
  {
    hide Possible, Advance;
    if |evs| == 1 {
      m := h;
    } else {
      m := RunUnsnoc(cfg, Advance(cfg, h, evs[0]), evs[1..], h');
      assert evs[1..][..|evs| - 2] == evs[..|evs| - 1][1..];
    }
  }

  /** A signed envelope that has not expired is admitted if no signed envelope with its nonce was
      presented before: the cache never takes one nonce for another. */
  lemma NoFalseReplay(cfg: Config, clock: int, evs: seq<Event>, h: History, env: Envelope, now: int)
    requires cfg.verifying && Run(cfg, New(clock), evs, h)
    requires env.signed && |env.nonce| > 0 && !(env.expiresAt > 0 && now > env.expiresAt)
    requires forall i :: 0 <= i < |evs| ==> !Presents(evs[i], env.nonce)
    ensures Admit(cfg, h.engine, env, now).1
  {
    hide Run, Admit, NonceCache.Consistent;
    CacheAccounted(cfg, clock, evs, h);
    AdmittedIff(cfg, h.engine, env, now);
    forall i | 0 <= i < |evs| && evs[i].Present? && evs[i].env.signed
      ensures NonceCache.Hex(env.nonce) != NonceCache.Hex(evs[i].env.nonce)
    {
      NonceCache.HexInjective(env.nonce, evs[i].env.nonce);
      assert !Presents(evs[i], env.nonce);
    }
  }
}
