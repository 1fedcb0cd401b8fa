/** How far filled arguments depend on the iteration order of the parameters
    (internal/executor/actions.go). */
module ArgvOrder {
  import opened Argv

  // ---------- One hole: exactly when the order does not matter ----------

  /** For all parameters that give `name` the value `v`, all iteration orders agree. */
  ghost predicate OrderFree(pre: string, name: string, post: string, v: string) {
    forall params: Params, out1, out2 ::
      && name in params && params[name] == v
      && Filled(pre + Hole(name) + post, params, out1) && Filled(pre + Hole(name) + post, params, out2) ==>
        out1 == out2
  }

  /** The longer the value put in, the longer the text, where there is something to replace. */
  lemma {:induction false} ReplaceLonger(s: string, pattern: string, v: string, w: string)
    requires pattern != "" && |v| < |w|
    ensures |ReplaceAll(s, pattern, v)| <= |ReplaceAll(s, pattern, w)|
    ensures Occurs(pattern, s) ==> |ReplaceAll(s, pattern, v)| < |ReplaceAll(s, pattern, w)|
    decreases |s|
  {
    if s == "" {
    } else {
      hide Occurs;
      OccursStep(pattern, s);
      if pattern <= s {
        ReplaceLonger(s[|pattern|..], pattern, v, w);
      } else {
        ReplaceLonger(s[1..], pattern, v, w);
      }
    }
  }

  lemma {:induction false} ReplaceHolds(s: string, pattern: string, w: string)
    requires pattern != "" && Occurs(pattern, s)
    ensures |ReplaceAll(s, pattern, w)| >= |w|
    decreases |s|
  {
    if s == "" {
    } else if pattern <= s {
    } else {
      OccursStep(pattern, s);
      ReplaceHolds(s[1..], pattern, w);
    }
  }

  /** The default for `lines` shortens by less than four sevenths. */
  lemma {:induction false} DefaultKeeps(s: string)
    ensures 7 * |ReplaceAll(s, Hole("lines"), "100")| >= 3 * |s|
    decreases |s|
  {
    if s == "" {
    } else if Hole("lines") <= s {
      DefaultKeeps(s[7..]);
    } else {
      DefaultKeeps(s[1..]);
    }
  }

  function Repeat(n: nat): string {
    seq(n, _ => 'x')
  }

  /** A value for `k` that shows which of the two parameters came first. */
  function Witness(k: string, plain: string): string {
    if k == "lines" then "" else Repeat(3 * |plain| + 1)
  }

  lemma WitnessTells(k: string, plain: string)
    requires Occurs(Hole(k), plain)
    ensures ReplaceAll(ReplaceAll(plain, Hole(k), Witness(k, plain)), Hole("lines"), "100")
         != ReplaceAll(plain, Hole("lines"), "100")
  {
    hide ReplaceAll, Occurs, Hole;
    HoleSize("lines");
    HoleSize(k);
    var cut := ReplaceAll(plain, Hole(k), Witness(k, plain));
    ReplaceShortens(plain, Hole("lines"), "100");
    if k == "lines" {
      ReplaceShortens(cut, Hole("lines"), "100");
      ReplaceLonger(plain, Hole("lines"), "", "100");
    } else {
      ReplaceHolds(plain, Hole(k), Witness(k, plain));
      DefaultKeeps(cut);
    }
  }

  lemma HoleSize(k: string)
    ensures |Hole(k)| == |k| + 2
  {
  }

  /** When another hole occurs in the value, two orders differ. */
  lemma OrdersDiffer(pre: string, name: string, post: string, v: string, k: string)
      returns (params: Params, out1: string, out2: string)
    requires BraceFree(pre) && BraceFree(name) && BraceFree(post) && Occurs(Hole(k), v) && k != name
    ensures name in params && params[name] == v && out1 != out2
    ensures Filled(pre + Hole(name) + post, params, out1) && Filled(pre + Hole(name) + post, params, out2)
  {
    hide ReplaceAll, Occurs, Hole, Witness;
    var template, plain := pre + Hole(name) + post, pre + v + post;
    var w := Witness(k, plain);
    HoleSize(k);
    OccursInside(pre, v, post, k);
    ReplaceHole(pre, name, post, name, v);
    ReplaceHole(pre, name, post, k, w);
    WitnessTells(k, plain);
    params := map[name := v, k := w];
    assert [name, k][..1] == [name] && [k, name][..1] == [k] && [name][..0] == [] && [k][..0] == [];
    assert Substitute(template, [], params) == template;
    assert Substitute(template, [name], params) == plain;
    assert Substitute(template, [k], params) == template;
    assert Substitute(template, [name, k], params) == ReplaceAll(plain, Hole(k), w);
    assert Substitute(template, [k, name], params) == plain;
    assert Enumerates([name, k], params) && Enumerates([k, name], params);
    out1, out2 := InOrder(template, [name, k], params), InOrder(template, [k, name], params);
  }

  /** With no other hole in the value the result is the same for every order: its own hole can
      only be hit by the default. */
  lemma OwnOnlyFilled(pre: string, name: string, post: string, params: Params, out: string)
    requires BraceFree(pre) && BraceFree(name) && BraceFree(post)
    requires name in params && OwnOnly(name, params[name]) && Filled(pre + Hole(name) + post, params, out)
    ensures out == ReplaceAll(pre + params[name] + post, Hole("lines"), "100")
  {
    hide ReplaceAll, Substitute, Hole, Occurs;
    var order :| Enumerates(order, params) && out == InOrder(pre + Hole(name) + post, order, params);
    SubstituteHole(pre, name, post, order, params);
  }

  /** The iteration order does not matter, whatever the other parameters are, if and only if no
      other hole occurs in the value. */
  lemma OrderFreeExactly(pre: string, name: string, post: string, v: string)
    requires BraceFree(pre) && BraceFree(name) && BraceFree(post)
    ensures OrderFree(pre, name, post, v) <==> OwnOnly(name, v)
  {
    hide Filled, Occurs, ReplaceAll, Hole;
    if OwnOnly(name, v) {
      forall params: Params, out1, out2 |
        && name in params && params[name] == v
        && Filled(pre + Hole(name) + post, params, out1) && Filled(pre + Hole(name) + post, params, out2)
        ensures out1 == out2
      {
        OwnOnlyFilled(pre, name, post, params, out1);
        OwnOnlyFilled(pre, name, post, params, out2);
      }
    } else {
      var k :| Occurs(Hole(k), v) && k != name;
      var params, out1, out2 := OrdersDiffer(pre, name, post, v, k);
    }
  }

  // ---------- Any number of holes ----------

  /** A template as the sequence of its brace-free texts and its holes. */
  datatype Piece = Plain(text: string) | Slot(name: string)

  predicate WellFormed(ps: seq<Piece>) {
    forall i :: 0 <= i < |ps| ==> if ps[i].Plain? then BraceFree(ps[i].text) else BraceFree(ps[i].name)
  }

  function Show(p: Piece): string {
    if p.Plain? then p.text else Hole(p.name)
  }

  function Render(ps: seq<Piece>): string {
    if ps == [] then "" else Show(ps[0]) + Render(ps[1..])
  }

  /** Put `v` in for the slots with the name `k`. */
  function Put(ps: seq<Piece>, k: string, v: string): seq<Piece> {
    if ps == [] then [] else [if ps[0] == Slot(k) then Plain(v) else ps[0]] + Put(ps[1..], k, v)
  }

  /** Put in the values of the parameters in `order`. */
  function PutAll(ps: seq<Piece>, order: seq<string>, params: Params): seq<Piece>
    requires forall k :: k in order ==> k in params
  {
    if order == [] then ps
    else
      var k := order[|order| - 1];
      Put(PutAll(ps, order[..|order| - 1], params), k, params[k])
  }

  /** The value of every hole is put in at once. */
  function Together(ps: seq<Piece>, params: Params): string {
    if ps == [] then ""
    else (if ps[0].Plain? then ps[0].text else Value(ps[0].name, params)) + Together(ps[1..], params)
  }

  /** A key without a closing brace matches at a hole exactly if it is its name. */
  lemma MatchesSlot(name: string, rest: string, key: string)
    requires BraceFree(name) && '}' !in key
    ensures Hole(key) <= Hole(name) + rest <==> key == name
  {
    var s := Hole(name) + rest;
    assert key == name ==> s[..|Hole(key)|] == Hole(key);
    if Hole(key) <= s {
      var n := |key| + 2;
      assert s[..n] == Hole(key);
      assert s[1..] == key + "}" + s[n..];
      ClosingAt(key, s[n..]);
      assert s[1..] == name + "}" + rest;
      ClosingAt(name, rest);
      assert s[1..|key| + 1] == key && s[1..|name| + 1] == name;
    }
  }

  lemma ReplaceSlot(name: string, rest: string, key: string, value: string)
    requires BraceFree(name) && '}' !in key
    ensures ReplaceAll(Hole(name) + rest, Hole(key), value)
         == (if key == name then value else Hole(name)) + ReplaceAll(rest, Hole(key), value)
  {
    var s := Hole(name) + rest;
    MatchesSlot(name, rest, key);
    if key == name {
      assert s[|Hole(key)|..] == rest;
    } else {
      assert s[1..] == (name + "}") + rest;
      ReplaceLiteral(name + "}", rest, key, value);
      assert Hole(name) == [s[0]] + (name + "}");
    }
  }

  /** Replacing in the text is putting in for the slots. */
  lemma {:induction false} ReplacePieces(ps: seq<Piece>, key: string, value: string)
    requires WellFormed(ps) && '}' !in key
    ensures ReplaceAll(Render(ps), Hole(key), value) == Render(Put(ps, key, value))
  {
    if ps == [] {
    } else {
      var p, rest := ps[0], ps[1..];
      ReplacePieces(rest, key, value);
      assert Put(ps, key, value)[1..] == Put(rest, key, value);
      hide ReplaceAll, Hole;
      if p.Plain? {
        ReplaceLiteral(p.text, Render(rest), key, value);
      } else {
        ReplaceSlot(p.name, Render(rest), key, value);
      }
    }
  }

  /** All holes have values without braces. */
  predicate BraceFreeValues(ps: seq<Piece>, params: Params) {
    forall i :: 0 <= i < |ps| && ps[i].Slot? && ps[i].name in params ==> BraceFree(params[ps[i].name])
  }

  /** Piece `i` with the values in `order` put in. */
  function PieceAfter(p: Piece, order: seq<string>, params: Params): Piece
    requires forall k :: k in order ==> k in params
  {
    if p.Slot? && p.name in order then Plain(params[p.name]) else p
  }

  lemma {:induction false} PutIs(ps: seq<Piece>, k: string, v: string)
    ensures |Put(ps, k, v)| == |ps|
    ensures forall i :: 0 <= i < |ps| ==> Put(ps, k, v)[i] == if ps[i] == Slot(k) then Plain(v) else ps[i]
  {
    if ps == [] {
    } else {
      PutIs(ps[1..], k, v);
    }
  }

  lemma {:induction false} PutAllIs(ps: seq<Piece>, order: seq<string>, params: Params)
    requires forall k :: k in order ==> k in params
    ensures |PutAll(ps, order, params)| == |ps|
    ensures forall i :: 0 <= i < |ps| ==> PutAll(ps, order, params)[i] == PieceAfter(ps[i], order, params)
  {
    if order == [] {
    } else {
      var k, init := order[|order| - 1], order[..|order| - 1];
      assert order == init + [k];
      PutAllIs(ps, init, params);
      PutIs(PutAll(ps, init, params), k, params[k]);
    }
  }

  lemma PutAllWellFormed(ps: seq<Piece>, order: seq<string>, params: Params)
    requires WellFormed(ps) && BraceFreeValues(ps, params) && forall k :: k in order ==> k in params
    ensures WellFormed(PutAll(ps, order, params))
  {
    PutAllIs(ps, order, params);
  }

  lemma {:induction false} SubstitutePieces(ps: seq<Piece>, order: seq<string>, params: Params)
    requires WellFormed(ps) && BraceFreeValues(ps, params)
    requires forall k :: k in order ==> k in params && '}' !in k
    ensures Substitute(Render(ps), order, params) == Render(PutAll(ps, order, params))
  {
    if order == [] {
    } else {
      hide ReplaceAll, Hole, Render, Put, WellFormed;
      var k, init := order[|order| - 1], order[..|order| - 1];
      SubstitutePieces(ps, init, params);
      PutAllWellFormed(ps, init, params);
      ReplacePieces(PutAll(ps, init, params), k, params[k]);
    }
  }

  lemma {:induction false} SimultaneousPieces(ps: seq<Piece>, params: Params)
    requires WellFormed(ps)
    ensures Simultaneous(Render(ps), params) == Together(ps, params)
  {
    if ps == [] {
    } else {
      hide Simultaneous, Value, Hole;
      var p, rest := ps[0], ps[1..];
      SimultaneousPieces(rest, params);
      if p.Plain? {
        SimultaneousLiteral(p.text, Render(rest), params);
      } else {
        SimultaneousStart(p.name, Render(rest), params);
      }
    }
  }

  /** Piece by piece, what the steps have put in is what belongs there. */
  lemma {:induction false} RenderTogether(ps: seq<Piece>, qs: seq<Piece>, params: Params)
    requires |qs| == |ps|
    requires forall i :: 0 <= i < |ps| ==> Show(qs[i]) == if ps[i].Plain? then ps[i].text else Value(ps[i].name, params)
    ensures Render(qs) == Together(ps, params)
  {
    if ps == [] {
    } else {
      hide Show, Value;
      RenderTogether(ps[1..], qs[1..], params);
    }
  }

  /** Any number of holes in one argument: if no key has a closing brace and no hole a value with
      braces, every iteration order gives the simultaneous substitution. */
  lemma ManyHoles(ps: seq<Piece>, params: Params, out: string)
    requires WellFormed(ps) && BraceFreeValues(ps, params) && Filled(Render(ps), params, out)
    requires forall k :: k in params ==> '}' !in k
    ensures out == Simultaneous(Render(ps), params)
  {
    hide ReplaceAll, Substitute, Simultaneous, Render, Together, Put, PutAll, WellFormed;
    var order :| Enumerates(order, params) && out == InOrder(Render(ps), order, params);
    SubstitutePieces(ps, order, params);
    PutAllWellFormed(ps, order, params);
    PutAllIs(ps, order, params);
    var qs := PutAll(ps, order, params);
    ReplacePieces(qs, "lines", "100");
    PutIs(qs, "lines", "100");
    RenderTogether(ps, Put(qs, "lines", "100"), params);
    SimultaneousPieces(ps, params);
  }

  lemma ReplaceShort(s: string, pattern: string, value: string)
    requires |s| < |pattern|
    ensures ReplaceAll(s, pattern, value) == s
  {
    ReplaceAbsent(s, pattern, value);
  }

  lemma ReplaceItself(k: string, value: string)
    ensures ReplaceAll(Hole(k), Hole(k), value) == value
  {
    assert Hole(k)[|Hole(k)|..] == "";
    assert value + "" == value;
  }

  lemma ReplaceFirst(value: string)
    ensures ReplaceAll(Hole("a") + Hole("b"), Hole("a"), value) == value + Hole("b")
  {
    hide ReplaceAll, Hole;
    ReplaceSlot("a", Hole("b"), "a", value);
    ReplaceWhole("b", "a", value);
  }

  /** The condition on the keys matters: a key may reach from one hole into the next. */
  lemma SpanningKey()
    ensures var params := map["a" := "x", "a}{b" := "y"];
            var template := Hole("a") + Hole("b");
            Filled(template, params, "x" + Hole("b")) && Filled(template, params, "y")
  {
    var k, params, template := "a}{b", map["a" := "x", "a}{b" := "y"], Hole("a") + Hole("b");
    assert template == Hole(k);
    var half := "x" + Hole("b");
    assert |half| == 4 && |Hole(k)| == 6 && |Hole("lines")| == 7;
    hide ReplaceAll, Hole;
    ReplaceItself(k, "y");
    ReplaceFirst("x");
    ReplaceShort(half, Hole(k), "y");
    ReplaceShort("y", Hole("a"), "x");
    ReplaceShort(half, Hole("lines"), "100");
    ReplaceShort("y", Hole("lines"), "100");
    assert ["a", k][..1] == ["a"] && [k, "a"][..1] == [k] && ["a"][..0] == [] && [k][..0] == [];
    assert Substitute(template, [], params) == template;
    assert Substitute(template, ["a"], params) == half && Substitute(template, [k], params) == "y";
    assert InOrder(template, ["a", k], params) == half;
    assert InOrder(template, [k, "a"], params) == "y";
  }
}
