/** The session registry of the connector: one current session per asset, replaced sessions are
    fenced (internal/connector/session.go). */
module Sessions {
  import opened Options

  /** The registry as values. A session is named by its epoch; `closes` lists the fence channels
      closed so far and `issued` every session ever created. */
  datatype Registry = Registry(
    current: map<string, nat>, epochSeq: nat, closes: seq<nat>, issued: map<nat, string>)

  const EMPTY := Registry(map[], 0, [], map[])

  function Register(r: Registry, asset: string): Registry {
    var epoch := r.epochSeq + 1;
    Registry(r.current[asset := epoch], epoch,
             if asset in r.current then r.closes + [r.current[asset]] else r.closes,
             r.issued[epoch := asset])
  }

  predicate IsCurrent(r: Registry, asset: string, epoch: nat) {
    asset in r.current && r.current[asset] == epoch
  }

  function Unregister(r: Registry, asset: string, epoch: nat): Registry {
    if IsCurrent(r, asset, epoch) then r.(current := r.current - {asset}) else r
  }

  // ---------- The heap ----------

  class Session {
    const asset: string
    const epoch: nat
    var lastSeen: int
    var fenced: bool

    constructor (asset: string, epoch: nat, now: int)
      ensures this.asset == asset && this.epoch == epoch && lastSeen == now && !fenced
    {
      this.asset, this.epoch, lastSeen, fenced := asset, epoch, now, false;
    }

    /** Closing a channel twice would panic. */
    method CloseFence()
      requires !fenced
      modifies this`fenced
      ensures fenced
    {
      fenced := true;
    }
  }

  ghost function Epochs(m: map<string, Session>): map<string, nat> {
    map a | a in m :: m[a].epoch
  }

  lemma EpochsAre(m: map<string, Session>)
    ensures Epochs(m).Keys == m.Keys && forall a :: a in m ==> Epochs(m)[a] == m[a].epoch
  {
  }

  lemma EpochsUpdate(m: map<string, Session>, a: string, s: Session)
    ensures Epochs(m[a := s]) == Epochs(m)[a := s.epoch]
    ensures Epochs(m - {a}) == Epochs(m) - {a}
  {
  }

  class SessionRegistry {
    var byAsset: map<string, Session>
    var epochSeq: nat
    ghost var sessions: set<Session>
    ghost var closes: seq<nat>
    ghost var issued: map<nat, string>

    ghost function State(): Registry
      reads this
    {
      Registry(Epochs(byAsset), epochSeq, closes, issued)
    }

    /** The fence flags agree with the list of closed fences, and epochs name sessions. */
    ghost predicate Linked()
      reads this, sessions
    {
      && (forall a :: a in byAsset ==> byAsset[a] in sessions && byAsset[a].asset == a)
      && (forall s :: s in sessions ==>
            s.epoch in issued && issued[s.epoch] == s.asset && (s.fenced <==> s.epoch in closes))
      && (forall s, t :: s in sessions && t in sessions && s.epoch == t.epoch ==> s == t)
    }

    ghost predicate Valid()
      reads this, sessions
    {
      RegistryInv(State()) && Linked()
    }

    constructor ()
      ensures Valid() && sessions == {} && State() == EMPTY
    {
      byAsset, epochSeq := map[], 0;
      sessions, closes, issued := {}, [], map[];
    }

    method Connect(asset: string, now: int) returns (s: Session, replaced: Session?)
      requires Valid()
      modifies this, if asset in byAsset then {byAsset[asset]} else {}
      ensures Valid() && fresh(s) && sessions == old(sessions) + {s}
      ensures State() == Register(old(State()), asset)
      ensures s.asset == asset && s.epoch == epochSeq && s.lastSeen == now && !s.fenced
      ensures replaced == if asset in old(byAsset) then old(byAsset)[asset] else null
      ensures replaced != null ==> replaced.fenced && replaced.lastSeen == old(replaced.lastSeen)
    {
      hide RegistryInv, Epochs, Linked;
      RegisterKeeps(State(), asset);
      NotFenced(State());
      EpochsAre(byAsset);
      s := new Session(asset, epochSeq + 1, now);
      replaced := null;
      if asset in byAsset {
        replaced := byAsset[asset];
        CurrentKnown(asset);
        Fence(replaced);
      }
      Install(s);
      EpochsUpdate(old(byAsset), asset, s);
    }

    lemma CurrentKnown(asset: string)
      requires Linked() && asset in byAsset
      ensures byAsset[asset] in sessions
    {
    }

    method Fence(s: Session)
      requires Linked() && s in sessions && s.epoch !in closes
      modifies this`closes, s`fenced
      ensures Linked() && s.fenced
      ensures closes == old(closes) + [s.epoch]
    {
      s.CloseFence();
      closes := closes + [s.epoch];
    }

    method Install(s: Session)
      requires Linked() && !s.fenced
      requires s.epoch == epochSeq + 1 && s.epoch !in issued && s.epoch !in closes
      modifies this`byAsset, this`epochSeq, this`sessions, this`issued
      ensures Linked() && byAsset == old(byAsset)[s.asset := s] && epochSeq == s.epoch
      ensures sessions == old(sessions) + {s} && issued == old(issued)[s.epoch := s.asset]
    {
      epochSeq := epochSeq + 1;
      byAsset := byAsset[s.asset := s];
      sessions, issued := sessions + {s}, issued[s.epoch := s.asset];
    }

    /** A heartbeat refreshes the session only if it is still the current one. */
    method Touch(asset: string, epoch: nat, now: int) returns (ok: bool)
      requires Valid()
      modifies (set a | a in byAsset :: byAsset[a])`lastSeen
      ensures Valid() && State() == old(State())
      ensures ok <==> IsCurrent(State(), asset, epoch)
      ensures forall s :: s in sessions ==>
                s.lastSeen == if ok && s == byAsset[asset] then now else old(s.lastSeen)
    {
      if asset !in byAsset || byAsset[asset].epoch != epoch {
        return false;
      }
      byAsset[asset].lastSeen := now;
      return true;
    }

    method Disconnect(s: Session)
      requires Valid() && s in sessions
      modifies this`byAsset
      ensures Valid() && State() == Unregister(old(State()), s.asset, s.epoch)
    {
      hide RegistryInv;
      if s.asset in byAsset && byAsset[s.asset] == s {
        byAsset := byAsset - {s.asset};
        EpochsUpdate(old(byAsset), s.asset, s);
      }
      UnregisterKeeps(old(State()), s.asset, s.epoch);
    }
  }

  // ---------- Fencing over runs ----------

  /** Each fence is closed at most once. A current session is not fenced and has the largest epoch
      ever issued for its asset. A fenced session was followed by another one of its asset. */
  predicate RegistryInv(r: Registry) {
    && (forall e :: e in r.issued ==> 0 < e <= r.epochSeq)
    && (forall a :: a in r.current ==>
          r.current[a] in r.issued && r.issued[r.current[a]] == a && r.current[a] !in r.closes)
    && (forall a, e :: a in r.current && e in r.issued && r.issued[e] == a ==> e <= r.current[a])
    && (forall i, j :: 0 <= i < j < |r.closes| ==> r.closes[i] != r.closes[j])
    && (forall i :: 0 <= i < |r.closes| ==> r.closes[i] in r.issued && Followed(r, r.closes[i]))
  }

  predicate Followed(r: Registry, e: nat) {
    e in r.issued && exists f :: f in r.issued && f > e && r.issued[f] == r.issued[e]
  }

  lemma NotFenced(r: Registry)
    requires RegistryInv(r)
    ensures forall a :: a in r.current ==> r.current[a] !in r.closes
    ensures forall e :: e in r.issued ==> e <= r.epochSeq
    ensures forall i :: 0 <= i < |r.closes| ==> r.closes[i] <= r.epochSeq
  {
  }

  lemma RegisterKeeps(r: Registry, asset: string)
    requires RegistryInv(r)
    ensures RegistryInv(Register(r, asset))
  {
    var r' := Register(r, asset);
    forall i | 0 <= i < |r'.closes| ensures r'.closes[i] in r'.issued && Followed(r', r'.closes[i]) {
      if i < |r.closes| {
        var e := r.closes[i];
        var f :| f in r.issued && f > e && r.issued[f] == r.issued[e];
        assert f in r'.issued && r'.issued[f] == r'.issued[e];
      } else {
        assert r'.issued[r'.epochSeq] == asset;
      }
    }
  }

  lemma UnregisterKeeps(r: Registry, asset: string, epoch: nat)
    requires RegistryInv(r)
    ensures RegistryInv(Unregister(r, asset, epoch))
  {
    var r' := Unregister(r, asset, epoch);
    forall i | 0 <= i < |r.closes| ensures Followed(r', r.closes[i]) {
      var e := r.closes[i];
      var f :| f in r.issued && f > e && r.issued[f] == r.issued[e];
      assert f in r'.issued;
    }
  }

  datatype Op = RegisterOp(asset: string) | UnregisterOp(asset: string, epoch: nat)

  function Apply(r: Registry, op: Op): Registry {
    match op
    case RegisterOp(a) => Register(r, a)
    case UnregisterOp(a, e) => Unregister(r, a, e)
  }

  function ApplyAll(r: Registry, ops: seq<Op>): Registry
    decreases |ops|
  {
    if ops == [] then r else ApplyAll(Apply(r, ops[0]), ops[1..])
  }

  lemma {:induction false} OpsKeep(r: Registry, ops: seq<Op>)
    requires RegistryInv(r)
    ensures RegistryInv(ApplyAll(r, ops))
    decreases |ops|
  {
    hide RegistryInv;
    if ops == [] {
    } else {
      match ops[0] {
        case RegisterOp(a) => RegisterKeeps(r, a);
        case UnregisterOp(a, e) => UnregisterKeeps(r, a, e);
      }
      OpsKeep(Apply(r, ops[0]), ops[1..]);
    }
  }

  /** Fencing over every run of an initially empty registry. */
  lemma FencingHolds(ops: seq<Op>)
    ensures RegistryInv(ApplyAll(EMPTY, ops))
  {
    hide RegistryInv;
    NewRegistry();
    OpsKeep(EMPTY, ops);
  }

  /** A session that is no longer current never becomes current again, so whatever it does later,
      heartbeats and its own unregistration included, changes nothing. */
  lemma {:induction false} ReplacedStaysReplaced(r: Registry, ops: seq<Op>, e: nat)
    requires RegistryInv(r) && e in r.issued && !IsCurrent(r, r.issued[e], e)
    ensures var r' := ApplyAll(r, ops);
            && e in r'.issued && r'.issued[e] == r.issued[e]
            && !IsCurrent(r', r'.issued[e], e)
            && Unregister(r', r'.issued[e], e) == r'
    decreases |ops|
  {
    hide RegistryInv;
    if ops == [] {
    } else {
      var m := Apply(r, ops[0]);
      OpsKeep(r, [ops[0]]);
      assert [ops[0]][1..] == [] && ApplyAll(r, [ops[0]]) == m;
      EpochsGrow(r, ops[0], e);
      ReplacedStaysReplaced(m, ops[1..], e);
    }
  }

  lemma EpochsGrow(r: Registry, op: Op, e: nat)
    requires RegistryInv(r) && e in r.issued
    ensures var m := Apply(r, op);
            e in m.issued && m.issued[e] == r.issued[e] && (IsCurrent(m, r.issued[e], e) ==> IsCurrent(r, r.issued[e], e))
  {
  }

  lemma NewRegistry()
    ensures RegistryInv(EMPTY)
  {
  }

  // ---------- Who is current ----------

  /** How many sessions were registered. */
  function Registrations(ops: seq<Op>): nat {
    if ops == [] then 0
    else Registrations(ops[..|ops| - 1]) + if ops[|ops| - 1].RegisterOp? then 1 else 0
  }

  /** The session last registered for the asset, unless it has been unregistered since; sessions
      are numbered from 1 in the order of registration. */
  function LastRegistered(ops: seq<Op>, a: string): Option<nat> {
    if ops == [] then None
    else
      var init, op := ops[..|ops| - 1], ops[|ops| - 1];
      if op == RegisterOp(a) then Some(Registrations(ops))
      else if op.UnregisterOp? && op.asset == a && LastRegistered(init, a) == Some(op.epoch) then None
      else LastRegistered(init, a)
  }

  lemma {:induction false} ApplyAllSnoc(r: Registry, ops: seq<Op>, op: Op)
    ensures ApplyAll(r, ops + [op]) == Apply(ApplyAll(r, ops), op)
    decreases |ops|
  {
    if ops == [] {
      assert (ops + [op])[1..] == [];
    } else {
      ApplyAllSnoc(Apply(r, ops[0]), ops[1..], op);
      assert (ops + [op])[1..] == ops[1..] + [op];
    }
  }

  /** The current session of an asset is the one last registered for it, until it unregisters. */
  lemma {:induction false} CurrentIsLast(ops: seq<Op>, a: string)
    ensures var r := ApplyAll(EMPTY, ops);
            && r.epochSeq == Registrations(ops)
            && (if a in r.current then LastRegistered(ops, a) == Some(r.current[a]) else LastRegistered(ops, a) == None)
    decreases |ops|
  {
    if ops == [] {
    } else {
      var init, op := ops[..|ops| - 1], ops[|ops| - 1];
      CurrentIsLast(init, a);
      ApplyAllSnoc(EMPTY, init, op);
      assert init + [op] == ops;
    }
  }

  /** A session that is replaced is fenced, and nothing else is. */
  lemma FencedExactly(r: Registry, op: Op, e: nat)
    ensures e in Apply(r, op).closes
       <==> e in r.closes || (op.RegisterOp? && IsCurrent(r, op.asset, e))
  {
  }
}
