/** Agent enrollment: concurrent `Register` calls over the enrollment table
    (internal/connector/bootstrap.go, internal/platform/store.go). */
module Enrollment {
  /** What a successful response carries. */
  datatype Issued = Issued(asset: string, certificate: seq<int>, notAfter: int)

  datatype Record = Processing | Completed(issued: Issued)

  /** A row of the certificate ledger, with the enrollment it was written for. */
  datatype LedgerRow = LedgerRow(enroll: string, issued: Issued)

  /** `register.enrollment` and `register.agent_certificate`. */
  datatype Tables = Tables(enrollments: map<string, Record>, ledger: seq<LedgerRow>)

  const EMPTY := Tables(map[], [])

  // ---------- The store calls ----------

  /** Insert a processing record unless there is one. */
  function BeginEnrollment(t: Tables, id: string): (Tables, bool) {
    if id in t.enrollments then (t, false) else (t.(enrollments := t.enrollments[id := Processing]), true)
  }

  /** Delete the record if it is still processing. */
  function FailEnrollment(t: Tables, id: string): Tables {
    if id in t.enrollments && t.enrollments[id].Processing? then t.(enrollments := t.enrollments - {id}) else t
  }

  /** Ledger row and completion in one transaction, which rolls back unless the record is
      processing. */
  function CompleteEnrollment(t: Tables, id: string, issued: Issued): (Tables, bool) {
    if id in t.enrollments && t.enrollments[id].Processing? then
      (Tables(t.enrollments[id := Completed(issued)], t.ledger + [LedgerRow(id, issued)]), true)
    else (t, false)
  }

  class EnrollmentStore {
    var enrollments: map<string, Record>
    var ledger: seq<LedgerRow>

    ghost function State(): Tables
      reads this
    {
      Tables(enrollments, ledger)
    }

    constructor ()
      ensures State() == EMPTY
    {
      enrollments, ledger := map[], [];
    }

    method Begin(id: string) returns (inserted: bool)
      modifies this`enrollments
      ensures (State(), inserted) == BeginEnrollment(old(State()), id)
    {
      if id in enrollments {
        return false;
      }
      enrollments := enrollments[id := Processing];
      return true;
    }

    method Fail(id: string)
      modifies this`enrollments
      ensures State() == FailEnrollment(old(State()), id)
    {
      if id in enrollments && enrollments[id] == Processing {
        enrollments := enrollments - {id};
      }
    }

    method Complete(id: string, issued: Issued) returns (ok: bool)
      modifies this
      ensures (State(), ok) == CompleteEnrollment(old(State()), id, issued)
    {
      var before := ledger;
      ledger := ledger + [LedgerRow(id, issued)];
      if id !in enrollments || enrollments[id] != Processing {
        ledger := before;
        return false;
      }
      enrollments := enrollments[id := Completed(issued)];
      return true;
    }
  }

  // ---------- Register calls, interleaved at store calls ----------

  /** Where a `Register` call stands; it ends with a response or with an error. */
  datatype Stage =
    | Finding
    | Resetting
    | Beginning
    | Signing
    | Completing(issued: Issued)
    | Compensating
    | Responded(issued: Issued)
    | Refused

  /** `asset` is derived from the public key of the call's own signing request. */
  datatype Call = Call(enroll: string, asset: string, stage: Stage)

  datatype System = System(tables: Tables, calls: seq<Call>)

  const INITIAL := System(EMPTY, [])

  /** How a store call went: done, failed without effect, or done but reported as failed. */
  datatype Fate = Fine | NoEffect | LostReply

  /** The steps of a call. `readable` says whether the stored certificate can be decoded. */
  datatype Action =
    | Arrive(enroll: string, asset: string)
    | Find(i: nat, ok: bool, readable: bool)
    | Reset(i: nat, fate: Fate)
    | BadRequest(i: nat)
    | Begin(i: nat, fate: Fate)
    | Sign(i: nat, ok: bool, certificate: seq<int>, notAfter: int)
    | Complete(i: nat, fate: Fate)
    | Compensate(i: nat, fate: Fate)
    | Abandon(i: nat)

  predicate InStage(s: System, i: nat, stage: Stage) {
    i < |s.calls| && s.calls[i].stage == stage
  }

  predicate Can(s: System, a: Action) {
    match a
    case Arrive(_, _) => true
    case Find(i, _, _) => InStage(s, i, Finding)
    case Reset(i, _) => InStage(s, i, Resetting)
    case BadRequest(i) => InStage(s, i, Beginning)
    case Begin(i, _) => InStage(s, i, Beginning)
    case Sign(i, _, _, _) => InStage(s, i, Signing)
    case Complete(i, _) => i < |s.calls| && s.calls[i].stage.Completing?
    case Compensate(i, _) => InStage(s, i, Compensating)
    case Abandon(i) => i < |s.calls| && !s.calls[i].stage.Responded?
  }

  function Goto(s: System, i: nat, stage: Stage): System
    requires i < |s.calls|
  {
    s.(calls := s.calls[i := s.calls[i].(stage := stage)])
  }

  /** A completed record is replayed if its certificate can be read back; any other record is
      taken for a stale one and reset. */
  function AfterFind(t: Tables, id: string, readable: bool): Stage {
    if id !in t.enrollments then Beginning
    else if t.enrollments[id].Completed? && readable && |t.enrollments[id].issued.certificate| > 0 then
      Responded(t.enrollments[id].issued)
    else Resetting
  }

  function Apply(s: System, a: Action): System
    requires Can(s, a)
  {
    match a
    case Arrive(enroll, asset) => s.(calls := s.calls + [Call(enroll, asset, Finding)])
    case Find(i, ok, readable) =>
      Goto(s, i, if ok then AfterFind(s.tables, s.calls[i].enroll, readable) else Refused)
    case Reset(i, fate) =>
      Goto(s, i, if fate.Fine? then Beginning else Refused)
        .(tables := if fate.NoEffect? then s.tables else FailEnrollment(s.tables, s.calls[i].enroll))
    case BadRequest(i) => Goto(s, i, Refused)
    case Begin(i, fate) =>
      var (t, inserted) := BeginEnrollment(s.tables, s.calls[i].enroll);
      Goto(s, i, if fate.Fine? && inserted then Signing else Refused)
        .(tables := if fate.NoEffect? then s.tables else t)
    case Sign(i, ok, certificate, notAfter) =>
      Goto(s, i, if ok then Completing(Issued(s.calls[i].asset, certificate, notAfter)) else Compensating)
    case Complete(i, fate) =>
      var issued := s.calls[i].stage.issued;
      var (t, done) := CompleteEnrollment(s.tables, s.calls[i].enroll, issued);
      Goto(s, i, if fate.Fine? && done then Responded(issued) else Compensating)
        .(tables := if fate.NoEffect? then s.tables else t)
    case Compensate(i, fate) =>
      Goto(s, i, Refused).(tables := if fate.NoEffect? then s.tables else FailEnrollment(s.tables, s.calls[i].enroll))
    case Abandon(i) => Goto(s, i, Refused)
  }

  ghost predicate Run(s: System, acts: seq<Action>, s': System)
    decreases |acts|
  {
    if acts == [] then s' == s else Can(s, acts[0]) && Run(Apply(s, acts[0]), acts[1..], s')
  }

  lemma RunNone(s: System)
    ensures Run(s, [], s)
  {
  }

  lemma RunStep(s: System, a: Action, rest: seq<Action>, s': System)
    requires Can(s, a) && Run(Apply(s, a), rest, s')
    ensures Run(s, [a] + rest, s')
  {
    assert ([a] + rest)[1..] == rest;
  }

  // ---------- Agreement ----------

  predicate IsCompleted(t: Tables, id: string, issued: Issued) {
    id in t.enrollments && t.enrollments[id] == Completed(issued)
  }

  function LedgerOf(ledger: seq<LedgerRow>, id: string): seq<Issued> {
    if ledger == [] then []
    else
      LedgerOf(ledger[..|ledger| - 1], id)
      + if ledger[|ledger| - 1].enroll == id then [ledger[|ledger| - 1].issued] else []
  }

  /** Every response agrees with the completed record of its enrollment. */
  predicate Answered(s: System) {
    forall i :: 0 <= i < |s.calls| && s.calls[i].stage.Responded? ==>
      IsCompleted(s.tables, s.calls[i].enroll, s.calls[i].stage.issued)
  }

  /** The ledger has one certificate for a completed enrollment and none for any other. */
  predicate Accounted(t: Tables, id: string) {
    LedgerOf(t.ledger, id)
    == if id in t.enrollments && t.enrollments[id].Completed? then [t.enrollments[id].issued] else []
  }

  /** No step alters or deletes a completed record. */
  lemma CompletedStays(s: System, a: Action, id: string, issued: Issued)
    requires Can(s, a) && IsCompleted(s.tables, id, issued)
    ensures IsCompleted(Apply(s, a).tables, id, issued)
  {
  }

  lemma StepAnswers(s: System, a: Action)
    requires Answered(s) && Can(s, a)
    ensures Answered(Apply(s, a))
  {
    var s' := Apply(s, a);
    forall i | 0 <= i < |s'.calls| && s'.calls[i].stage.Responded?
      ensures IsCompleted(s'.tables, s'.calls[i].enroll, s'.calls[i].stage.issued)
    {
      if i < |s.calls| && s'.calls[i] == s.calls[i] {
        CompletedStays(s, a, s.calls[i].enroll, s.calls[i].stage.issued);
      }
    }
  }

  lemma LedgerSnoc(ledger: seq<LedgerRow>, r: LedgerRow, id: string)
    ensures LedgerOf(ledger + [r], id) == LedgerOf(ledger, id) + if r.enroll == id then [r.issued] else []
  {
    assert (ledger + [r])[..|ledger|] == ledger;
  }

  lemma StepAccounts(s: System, a: Action, id: string)
    requires Accounted(s.tables, id) && Can(s, a)
    ensures Accounted(Apply(s, a).tables, id)
  {
    hide LedgerOf;
    if a.Complete? {
      LedgerSnoc(s.tables.ledger, LedgerRow(s.calls[a.i].enroll, s.calls[a.i].stage.issued), id);
    }
  }

  lemma {:induction false} RunKeeps(s: System, acts: seq<Action>, s': System, id: string)
    requires Answered(s) && Accounted(s.tables, id) && Run(s, acts, s')
    ensures Answered(s') && Accounted(s'.tables, id)
    decreases |acts|
  {
    hide Answered, Accounted, Apply, Can;
    if acts == [] {
    } else {
      StepAnswers(s, acts[0]);
      StepAccounts(s, acts[0], id);
      RunKeeps(Apply(s, acts[0]), acts[1..], s', id);
    }
  }

  /** Under any interleaving of concurrent calls, including failures, lost replies, stale-record
      resets and crashes, all successful responses for one enrollment id are identical, and its
      certificate is in the ledger exactly once. */
  lemma EnrollmentAgreement(acts: seq<Action>, s: System, i: nat, j: nat)
    requires Run(INITIAL, acts, s) && i < |s.calls| && j < |s.calls|
    requires s.calls[i].stage.Responded? && s.calls[j].stage.Responded? && s.calls[i].enroll == s.calls[j].enroll
    ensures s.calls[i].stage.issued == s.calls[j].stage.issued
    ensures LedgerOf(s.tables.ledger, s.calls[i].enroll) == [s.calls[i].stage.issued]
  {
    hide LedgerOf, Run;
    assert Accounted(INITIAL.tables, s.calls[i].enroll) by { NoLedger(s.calls[i].enroll); }
    RunKeeps(INITIAL, acts, s, s.calls[i].enroll);
    assert IsCompleted(s.tables, s.calls[i].enroll, s.calls[i].stage.issued);
    assert IsCompleted(s.tables, s.calls[j].enroll, s.calls[j].stage.issued);
  }

  lemma NoLedger(id: string)
    ensures LedgerOf([], id) == []
  {
  }

  /** Call 0 has begun enrollment `e`, call 1 has just arrived. */
  function Overtaken(asset0: string, asset1: string): System {
    System(Tables(map["e" := Processing], []), [Call("e", asset0, Signing), Call("e", asset1, Finding)])
  }

  function Finished(issued: Issued, asset1: string): System {
    System(Tables(map["e" := Completed(issued)], [LedgerRow("e", issued)]),
           [Call("e", issued.asset, Responded(issued)), Call("e", asset1, Signing)])
  }

  /** Call 1 has replaced call 0's record by its own. */
  function Replaced(asset0: string, asset1: string): System {
    Overtaken(asset0, asset1).(calls := [Call("e", asset0, Signing), Call("e", asset1, Signing)])
  }

  lemma ReplacedFinishes(issued: Issued, asset1: string) returns (acts: seq<Action>)
    ensures Run(Replaced(issued.asset, asset1), acts, Finished(issued, asset1))
  {
    hide Run;
    var s0, s := Replaced(issued.asset, asset1), Finished(issued, asset1);
    var sign := Sign(0, true, issued.certificate, issued.notAfter);
    var s1 := Apply(s0, sign);
    assert Apply(s1, Complete(0, Fine)) == s;
    RunNone(s);
    RunStep(s1, Complete(0, Fine), [], s);
    acts := [sign] + ([Complete(0, Fine)] + []);
    RunStep(s0, sign, [Complete(0, Fine)] + [], s);
  }

  lemma OvertakenFinishes(issued: Issued, asset1: string) returns (acts: seq<Action>)
    ensures Run(Overtaken(issued.asset, asset1), acts, Finished(issued, asset1))
    ensures Reset(1, Fine) in acts && Begin(1, Fine) in acts
  {
    hide Run, Finished;
    var s0, s := Overtaken(issued.asset, asset1), Finished(issued, asset1);
    var last := ReplacedFinishes(issued, asset1);
    var s1 := Apply(s0, Find(1, true, true));
    var s2 := Apply(s1, Reset(1, Fine));
    assert Apply(s2, Begin(1, Fine)) == Replaced(issued.asset, asset1);
    RunStep(s2, Begin(1, Fine), last, s);
    RunStep(s1, Reset(1, Fine), [Begin(1, Fine)] + last, s);
    acts := [Find(1, true, true)] + ([Reset(1, Fine)] + ([Begin(1, Fine)] + last));
    RunStep(s0, Find(1, true, true), [Reset(1, Fine)] + ([Begin(1, Fine)] + last), s);
  }

  /** A call need not complete the record it created: a call whose record was taken for stale and
      reset by another one completes the record of that other call. */
  lemma CompletedByAnother(issued: Issued, asset1: string) returns (acts: seq<Action>)
    ensures Run(INITIAL, acts, Finished(issued, asset1))
    ensures Reset(1, Fine) in acts && Begin(1, Fine) in acts
  {
    hide Run, Finished;
    var s := Finished(issued, asset1);
    var rest := OvertakenFinishes(issued, asset1);
    var s1 := Apply(INITIAL, Arrive("e", issued.asset));
    var s2 := Apply(s1, Find(0, true, true));
    var s3 := Apply(s2, Begin(0, Fine));
    assert Apply(s3, Arrive("e", asset1)) == Overtaken(issued.asset, asset1);
    RunStep(s3, Arrive("e", asset1), rest, s);
    RunStep(s2, Begin(0, Fine), [Arrive("e", asset1)] + rest, s);
    RunStep(s1, Find(0, true, true), [Begin(0, Fine)] + ([Arrive("e", asset1)] + rest), s);
    acts := [Arrive("e", issued.asset)]
      + ([Find(0, true, true)] + ([Begin(0, Fine)] + ([Arrive("e", asset1)] + rest)));
    RunStep(INITIAL, Arrive("e", issued.asset), [Find(0, true, true)] + ([Begin(0, Fine)] + ([Arrive("e", asset1)] + rest)), s);
  }

  /** Once an enrollment is completed no other call completes it again: the call compensates, and
      its compensation leaves the tables alone. */
  lemma LateCallCompensates(s: System, i: nat, issued: Issued, fate: Fate)
    requires Can(s, Complete(i, fate)) && IsCompleted(s.tables, s.calls[i].enroll, issued)
    ensures var s' := Apply(s, Complete(i, fate));
            InStage(s', i, Compensating) && s'.tables == s.tables
            && Apply(s', Compensate(i, fate)) == Goto(s, i, Refused)
  {
    var s' := Apply(s, Complete(i, fate));
    assert s'.calls[i].enroll == s.calls[i].enroll;
    assert s'.calls[i := s'.calls[i].(stage := Refused)] == Goto(s, i, Refused).calls;
  }

  // ---------- Every enrollment can be answered ----------

  /** A completed enrollment is answered at once from its record, and nothing changes. */
  lemma CompletedReplays(s: System, i: nat, issued: Issued)
    requires InStage(s, i, Finding) && IsCompleted(s.tables, s.calls[i].enroll, issued) && |issued.certificate| > 0
    ensures var s' := Apply(s, Find(i, true, true));
            InStage(s', i, Responded(issued)) && s'.tables == s.tables
  {
  }

  /** While another call has a record for the enrollment, a call that wants to begin is refused. */
  lemma BusyRefused(s: System, i: nat, fate: Fate)
    requires InStage(s, i, Beginning) && s.calls[i].enroll in s.tables.enrollments
    ensures Apply(s, Begin(i, fate)) == Goto(s, i, Refused)
  {
  }

  /** When signing fails, the compensation takes the call's record away, so that the enrollment
      can be tried again; if the compensation itself fails, the record stays. */
  lemma FailureCompensated(s: System, i: nat, fate: Fate, certificate: seq<int>, notAfter: int)
    requires InStage(s, i, Signing) && s.calls[i].enroll in s.tables.enrollments
    requires s.tables.enrollments[s.calls[i].enroll] == Processing
    ensures var s1 := Apply(s, Sign(i, false, certificate, notAfter));
            && InStage(s1, i, Compensating) && s1.tables == s.tables
            && var s2 := Apply(s1, Compensate(i, fate));
               InStage(s2, i, Refused) && (s.calls[i].enroll in s2.tables.enrollments <==> fate.NoEffect?)
  {
  }

  /** Only a record that is still processing, or cannot be read back, is taken for a stale one. */
  lemma ResetOnlyStale(s: System, i: nat, ok: bool, readable: bool)
    requires InStage(s, i, Finding)
    ensures InStage(Apply(s, Find(i, ok, readable)), i, Resetting)
       <==> ok && s.calls[i].enroll in s.tables.enrollments
            && var r := s.tables.enrollments[s.calls[i].enroll];
               r == Processing || !readable || |r.issued.certificate| == 0
  {
  }

  /** The rest of a call that has no record in its way. */
  lemma FreshAnswered(s: System, i: nat, certificate: seq<int>, notAfter: int) returns (acts: seq<Action>, s': System)
    requires InStage(s, i, Beginning) && s.calls[i].enroll !in s.tables.enrollments
    ensures var issued := Issued(s.calls[i].asset, certificate, notAfter);
            && Run(s, acts, s') && InStage(s', i, Responded(issued))
            && IsCompleted(s'.tables, s.calls[i].enroll, issued)
            && s'.tables.ledger == s.tables.ledger + [LedgerRow(s.calls[i].enroll, issued)]
  {
    hide Run;
    var begin, sign, complete := Begin(i, Fine), Sign(i, true, certificate, notAfter), Complete(i, Fine);
    var s1 := Apply(s, begin);
    var s2 := Apply(s1, sign);
    s' := Apply(s2, complete);
    RunNone(s');
    RunStep(s2, complete, [], s');
    RunStep(s1, sign, [complete] + [], s');
    acts := [begin] + ([sign] + ([complete] + []));
    RunStep(s, begin, [sign] + ([complete] + []), s');
  }

  /** In any state, whatever other calls have left behind, a new call can be answered: with the
      record if the enrollment is completed, and otherwise, after a reset of a stale record, with
      a certificate for its own key. */
  lemma EveryCallAnswered(s: System, enroll: string, asset: string, certificate: seq<int>, notAfter: int)
      returns (acts: seq<Action>, s': System)
    requires enroll in s.tables.enrollments && s.tables.enrollments[enroll].Completed? ==>
               |s.tables.enrollments[enroll].issued.certificate| > 0
    ensures Run(s, acts, s') && |s'.calls| > |s.calls| && s'.calls[|s.calls|].enroll == enroll
    ensures var own := Issued(asset, certificate, notAfter);
            var completed := enroll in s.tables.enrollments && s.tables.enrollments[enroll].Completed?;
            && s'.calls[|s.calls|].stage == Responded(if completed then s.tables.enrollments[enroll].issued else own)
            && (completed ==> s'.tables == s.tables)
  {
    hide Run;
    var i := |s.calls|;
    var s1 := Apply(s, Arrive(enroll, asset));
    var s2 := Apply(s1, Find(i, true, true));
    if enroll !in s.tables.enrollments {
      var rest, t := FreshAnswered(s2, i, certificate, notAfter);
      s', acts := t, rest;
    } else if s.tables.enrollments[enroll].Completed? {
      CompletedReplays(s1, i, s.tables.enrollments[enroll].issued);
      RunNone(s2);
      s', acts := s2, [];
    } else {
      var s3 := Apply(s2, Reset(i, Fine));
      var rest, t := FreshAnswered(s3, i, certificate, notAfter);
      s', acts := t, [Reset(i, Fine)] + rest;
      RunStep(s2, Reset(i, Fine), rest, s');
    }
    RunLonger(s2, acts, s');
    RunStep(s1, Find(i, true, true), acts, s');
    acts := [Find(i, true, true)] + acts;
    RunStep(s, Arrive(enroll, asset), acts, s');
    acts := [Arrive(enroll, asset)] + acts;
  }

  lemma {:induction false} RunLonger(s: System, acts: seq<Action>, s': System)
    requires Run(s, acts, s')
    ensures |s.calls| <= |s'.calls|
    ensures forall i :: 0 <= i < |s.calls| ==> s'.calls[i].enroll == s.calls[i].enroll && s'.calls[i].asset == s.calls[i].asset
    decreases |acts|
  {
    if acts == [] {
    } else {
      RunLonger(Apply(s, acts[0]), acts[1..], s');
    }
  }
}
