/** The executor's action catalog, its parameter validation and the construction of the argument
    vector (internal/executor/actions.go). */
module Argv {
  type Params = map<string, string>

  /** A parameter that is not given reads as the empty string. */
  function Get(params: Params, name: string): string {
    if name in params then params[name] else ""
  }

  // ---------- Validation ----------

  predicate Alphanumeric(c: char) {
    'a' <= c <= 'z' || 'A' <= c <= 'Z' || '0' <= c <= '9'
  }

  predicate ServiceName(s: string) {
    1 <= |s| <= 64 && forall i :: 0 <= i < |s| ==> Alphanumeric(s[i]) || s[i] in "_.@-"
  }

  predicate SafePath(s: string) {
    2 <= |s| <= 257 && s[0] == '/' && forall i :: 1 <= i < |s| ==> Alphanumeric(s[i]) || s[i] in "_./@+-"
  }

  predicate Lines(s: string) {
    1 <= |s| <= 4 && '1' <= s[0] <= '9' && forall i :: 1 <= i < |s| ==> '0' <= s[i] <= '9'
  }

  predicate SleepSeconds(s: string) {
    || (|s| == 1 && '1' <= s[0] <= '9')
    || (|s| == 2 && '1' <= s[0] <= '5' && '0' <= s[1] <= '9')
    || s == "60"
  }

  predicate Climbs(path: string) {
    exists i :: 0 <= i < |path| - 1 && path[i] == '.' && path[i + 1] == '.'
  }

  const LOG_PATHS := ["/var/log/", "/var/lib/tom_ai_agent/"]

  predicate LogPath(path: string) {
    SafePath(path) && !Climbs(path) && exists i :: 0 <= i < |LOG_PATHS| && LOG_PATHS[i] <= path
  }

  datatype Check = Unchecked | CheckService | CheckLogTail | CheckSleep

  predicate Accepts(check: Check, params: Params) {
    match check
    case Unchecked => true
    case CheckService => ServiceName(Get(params, "service"))
    case CheckLogTail => LogPath(Get(params, "path")) && (Get(params, "lines") == "" || Lines(Get(params, "lines")))
    case CheckSleep => SleepSeconds(Get(params, "seconds"))
  }

  /** The path whitelist is searched until a prefix matches. */
  method ValidateLogTail(params: Params) returns (ok: bool)
    ensures ok <==> Accepts(CheckLogTail, params)
  {
    var path := Get(params, "path");
    if !SafePath(path) || Climbs(path) {
      return false;
    }
    ok := false;
    var i := 0;
    while i < |LOG_PATHS| && !ok
      invariant i <= |LOG_PATHS| && (ok <==> exists j :: 0 <= j < i && LOG_PATHS[j] <= path)
      decreases |LOG_PATHS| - i
    {
      ok := LOG_PATHS[i] <= path;
      i := i + 1;
    }
    var lines := Get(params, "lines");
    ok := ok && (lines == "" || Lines(lines));
  }

  // ---------- Catalog ----------

  /** An action that starts a program. */
  datatype Action = Action(check: Check, binary: string, args: seq<string>)

  function DiskUsage(): Action { Action(Unchecked, "/usr/bin/df", ["-h"]) }

  function MemorySummary(): Action { Action(Unchecked, "/usr/bin/free", ["-m"]) }

  function CpuTop(): Action { Action(Unchecked, "/usr/bin/top", ["-b", "-n", "1"]) }

  function NetworkConnections(): Action { Action(Unchecked, "/usr/bin/ss", ["-s"]) }

  function ProcessList(): Action {
    Action(Unchecked, "/usr/bin/ps", ["-eo", "pid,ppid,user,pcpu,pmem,comm", "--sort=-pcpu"])
  }

  function ServiceStatus(): Action {
    Action(CheckService, "/usr/bin/systemctl", ["status", "--no-pager", "--", "{service}.service"])
  }

  function ReadLogTail(): Action { Action(CheckLogTail, "/usr/bin/tail", ["-n", "{lines}", "--", "{path}"]) }

  function TestSleep(): Action { Action(CheckSleep, "/usr/bin/sleep", ["{seconds}"]) }

  function Catalog(allowTestActions: bool): map<string, Action> {
    var actions := map[
      "diagnose.disk_usage" := DiskUsage(),
      "diagnose.memory_summary" := MemorySummary(),
      "diagnose.cpu_top" := CpuTop(),
      "diagnose.network_connections" := NetworkConnections(),
      "diagnose.process_list" := ProcessList(),
      "diagnose.service_status" := ServiceStatus(),
      "diagnose.read_log_tail" := ReadLogTail()];
    if allowTestActions then actions["diagnose.test_sleep" := TestSleep()] else actions
  }

  // ---------- Building the argument vector ----------

  /** Replace every occurrence of `pattern`, from the left, without overlaps. */
  function ReplaceAll(s: string, pattern: string, value: string): string
    requires pattern != ""
    decreases |s|
  {
    if s == "" then ""
    else if pattern <= s then value + ReplaceAll(s[|pattern|..], pattern, value)
    else [s[0]] + ReplaceAll(s[1..], pattern, value)
  }

  function Hole(name: string): string {
    "{" + name + "}"
  }

  /** Substitute the parameters one after the other. */
  function Substitute(arg: string, order: seq<string>, params: Params): string
    requires forall k :: k in order ==> k in params
  {
    if order == [] then arg
    else
      var k := order[|order| - 1];
      ReplaceAll(Substitute(arg, order[..|order| - 1], params), Hole(k), params[k])
  }

  /** `order` is a possible iteration order over the map: every key, once. */
  predicate Enumerates(order: seq<string>, params: Params) {
    && (forall k :: k in order ==> k in params)
    && (forall k :: k in params ==> k in order)
    && (forall i, j :: 0 <= i < j < |order| ==> order[i] != order[j])
  }

  function InOrder(arg: string, order: seq<string>, params: Params): string
    requires Enumerates(order, params)
  {
    ReplaceAll(Substitute(arg, order, params), Hole("lines"), "100")
  }

  method FillArg(template: string, params: Params) returns (arg: string, ghost order: seq<string>)
    ensures Enumerates(order, params) && arg == InOrder(template, order, params)
  {
    arg, order := template, [];
    var todo := params.Keys;
    while todo != {}
      invariant todo <= params.Keys
      invariant forall k :: k in params ==> k in todo || k in order
      invariant forall k :: k in order ==> k in params && k !in todo
      invariant forall i, j :: 0 <= i < j < |order| ==> order[i] != order[j]
      invariant arg == Substitute(template, order, params)
      decreases |todo|
    {
      var k :| k in todo;
      arg := ReplaceAll(arg, Hole(k), params[k]);
      ghost var before := order;
      order := order + [k];
      assert order[..|order| - 1] == before;
      todo := todo - {k};
    }
    arg := ReplaceAll(arg, Hole("lines"), "100");
  }

  /** `out` comes from `template` under some iteration order. */
  ghost predicate Filled(template: string, params: Params, out: string) {
    exists order :: Enumerates(order, params) && out == InOrder(template, order, params)
  }

  ghost predicate IsArgv(a: Action, params: Params, argv: seq<string>) {
    && |argv| == 1 + |a.args|
    && argv[0] == a.binary
    && forall i :: 0 <= i < |a.args| ==> Filled(a.args[i], params, argv[i + 1])
  }

  /** Each argument is filled under an iteration order of its own. */
  method BuildArgv(a: Action, params: Params) returns (argv: seq<string>)
    ensures IsArgv(a, params, argv)
  {
    argv := [a.binary];
    for i := 0 to |a.args|
      invariant |argv| == 1 + i && argv[0] == a.binary
      invariant forall j :: 0 <= j < i ==> Filled(a.args[j], params, argv[j + 1])
    {
      var arg, order := FillArg(a.args[i], params);
      assert Filled(a.args[i], params, arg);
      argv := argv + [arg];
    }
  }

  // ---------- Simultaneous substitution ----------

  /** What a hole stands for; an unknown one stays. */
  function Value(name: string, params: Params): string {
    if name in params then params[name] else if name == "lines" then "100" else Hole(name)
  }

  /** Position of the first closing brace, or the length if there is none. */
  function Closing(s: string): nat
    ensures Closing(s) <= |s|
  {
    if s == "" || s[0] == '}' then 0 else 1 + Closing(s[1..])
  }

  /** Read the template once, from left to right; values are not looked at again. */
  function Simultaneous(s: string, params: Params): string
    decreases |s|
  {
    if s == "" then ""
    else if s[0] == '{' && Closing(s[1..]) < |s| - 1 then
      var n := Closing(s[1..]);
      Value(s[1..n + 1], params) + Simultaneous(s[n + 2..], params)
    else [s[0]] + Simultaneous(s[1..], params)
  }

  predicate BraceFree(s: string) {
    '{' !in s && '}' !in s
  }

  lemma {:induction false} ClosingAt(name: string, rest: string)
    requires '}' !in name
    ensures Closing(name + "}" + rest) == |name|
  {
    var s := name + "}" + rest;
    if name == "" {
      assert s[0] == '}';
    } else {
      assert s[1..] == name[1..] + "}" + rest;
      ClosingAt(name[1..], rest);
    }
  }

  lemma {:induction false} SimultaneousLiteral(s: string, rest: string, params: Params)
    requires '{' !in s
    ensures Simultaneous(s + rest, params) == s + Simultaneous(rest, params)
  {
    if s == "" {
      assert s + rest == rest;
    } else {
      assert (s + rest)[1..] == s[1..] + rest;
      assert s[0] in s;
      SimultaneousLiteral(s[1..], rest, params);
    }
  }

  lemma SimultaneousStart(name: string, post: string, params: Params)
    requires BraceFree(name)
    ensures Simultaneous(Hole(name) + post, params) == Value(name, params) + Simultaneous(post, params)
  {
    var s := Hole(name) + post;
    assert s[1..] == name + "}" + post;
    ClosingAt(name, post);
    assert s[1..|name| + 1] == name && s[|name| + 2..] == post;
    hide Value, Closing;
  }

  lemma SimultaneousHole(pre: string, name: string, post: string, params: Params)
    requires BraceFree(pre) && BraceFree(name) && BraceFree(post)
    ensures Simultaneous(pre + Hole(name) + post, params) == pre + Value(name, params) + post
  {
    hide Simultaneous, Value, Hole;
    assert pre + Hole(name) + post == pre + (Hole(name) + post);
    SimultaneousLiteral(pre, Hole(name) + post, params);
    SimultaneousStart(name, post, params);
    SimultaneousText(post, params);
    assert pre + (Value(name, params) + post) == pre + Value(name, params) + post;
  }

  // ---------- Replacement at the single hole of a template ----------

  lemma {:induction false} ReplaceLiteral(s: string, rest: string, key: string, value: string)
    requires '{' !in s
    ensures ReplaceAll(s + rest, Hole(key), value) == s + ReplaceAll(rest, Hole(key), value)
  {
    if s == "" {
      assert s + rest == rest;
    } else {
      assert Hole(key)[0] == '{' && (s + rest)[0] == s[0] && s[0] in s;
      assert (s + rest)[1..] == s[1..] + rest;
      ReplaceLiteral(s[1..], rest, key, value);
    }
  }

  /** Text without an opening brace is left alone. */
  lemma ReplaceNone(s: string, key: string, value: string)
    requires '{' !in s
    ensures ReplaceAll(s, Hole(key), value) == s
  {
    assert s + "" == s;
    ReplaceLiteral(s, "", key, value);
  }

  lemma OnlyClosing(name: string, post: string, n: nat)
    requires BraceFree(name) && BraceFree(post) && n < |Hole(name) + post|
    ensures (Hole(name) + post)[n] == '}' <==> n == |name| + 1
  {
    var s := Hole(name) + post;
    assert s == "{" + name + "}" + post;
    if 1 <= n <= |name| {
      assert s[n] == name[n - 1];
    } else if n > |name| + 1 {
      assert s[n] == post[n - |name| - 2];
    }
  }

  /** Whatever the key is, braces included, it matches the only hole exactly if it is its name. */
  lemma MatchesOnlyName(name: string, post: string, key: string)
    requires BraceFree(name) && BraceFree(post)
    ensures Hole(key) <= Hole(name) + post <==> key == name
  {
    var s := Hole(name) + post;
    assert key == name ==> s[..|Hole(key)|] == Hole(key);
    if Hole(key) <= s {
      var n := |key| + 1;
      assert s[n] == Hole(key)[n] == '}';
      OnlyClosing(name, post, n);
      assert s[1..n] == Hole(key)[1..n] == key && s[1..n] == name;
    }
  }

  lemma ReplaceHole(pre: string, name: string, post: string, key: string, value: string)
    requires BraceFree(pre) && BraceFree(name) && BraceFree(post)
    ensures ReplaceAll(pre + Hole(name) + post, Hole(key), value)
         == if key == name then pre + value + post else pre + Hole(name) + post
  {
    var s := Hole(name) + post;
    assert pre + Hole(name) + post == pre + s;
    ReplaceLiteral(pre, s, key, value);
    MatchesOnlyName(name, post, key);
    if key == name {
      assert s[|Hole(key)|..] == post;
      ReplaceNone(post, key, value);
    } else {
      assert s[1..] == name + "}" + post;
      ReplaceNone(s[1..], key, value);
      assert s == [s[0]] + s[1..];
    }
  }

  lemma {:induction false} SubstituteLiteral(s: string, order: seq<string>, params: Params)
    requires BraceFree(s) && forall k :: k in order ==> k in params
    ensures Substitute(s, order, params) == s
  {
    if order == [] {
    } else {
      var k := order[|order| - 1];
      SubstituteLiteral(s, order[..|order| - 1], params);
      ReplaceNone(s, k, params[k]);
    }
  }

  // ---------- When a value can be substituted again ----------

  predicate OccursAt(pattern: string, s: string, i: int) {
    0 <= i <= |s| - |pattern| && s[i..i + |pattern|] == pattern
  }

  ghost predicate Occurs(pattern: string, s: string) {
    exists i :: OccursAt(pattern, s, i)
  }

  lemma OccursStep(pattern: string, s: string)
    requires pattern != "" && s != ""
    ensures Occurs(pattern, s) <==> pattern <= s || Occurs(pattern, s[1..])
  {
    if Occurs(pattern, s) {
      var i :| OccursAt(pattern, s, i);
      assert i > 0 ==> OccursAt(pattern, s[1..], i - 1);
    }
    if pattern <= s { assert OccursAt(pattern, s, 0); }
    if Occurs(pattern, s[1..]) {
      var i :| OccursAt(pattern, s[1..], i);
      assert OccursAt(pattern, s, i + 1);
    }
  }

  lemma {:induction false} ReplaceAbsent(s: string, pattern: string, value: string)
    requires pattern != "" && !Occurs(pattern, s)
    ensures ReplaceAll(s, pattern, value) == s
  {
    if s == "" {
    } else {
      OccursStep(pattern, s);
      ReplaceAbsent(s[1..], pattern, value);
    }
  }

  /** Replacing something by something shorter makes the text shorter where it occurs. */
  lemma {:induction false} ReplaceShortens(s: string, pattern: string, value: string)
    requires |value| < |pattern|
    ensures |ReplaceAll(s, pattern, value)| <= |s|
    ensures Occurs(pattern, s) ==> |ReplaceAll(s, pattern, value)| < |s|
    decreases |s|
  {
    if s == "" {
    } else {
      OccursStep(pattern, s);
      if pattern <= s {
        ReplaceShortens(s[|pattern|..], pattern, value);
      } else {
        ReplaceShortens(s[1..], pattern, value);
      }
    }
  }

  /** A hole cannot reach into brace-free surroundings. */
  lemma OccursInside(pre: string, v: string, post: string, key: string)
    requires BraceFree(pre) && BraceFree(post)
    ensures Occurs(Hole(key), pre + v + post) <==> Occurs(Hole(key), v)
  {
    var s := pre + v + post;
    if Occurs(Hole(key), s) {
      var i :| OccursAt(Hole(key), s, i);
      OccursWithin(pre, v, post, key, i);
    }
    if Occurs(Hole(key), v) {
      var i :| OccursAt(Hole(key), v, i);
      assert OccursAt(Hole(key), s, |pre| + i);
    }
  }

  lemma OccursWithin(pre: string, v: string, post: string, key: string, i: int)
    requires BraceFree(pre) && BraceFree(post) && OccursAt(Hole(key), pre + v + post, i)
    ensures OccursAt(Hole(key), v, i - |pre|)
  {
    var s, h := pre + v + post, Hole(key);
    var n := |h|;
    assert h[0] == '{' && h[n - 1] == '}';
    assert s[i] == s[i..i + n][0] && s[i + n - 1] == s[i..i + n][n - 1];
    hide Hole;
    BraceInside(pre, v, post, i);
    BraceInside(pre, v, post, i + n - 1);
    assert v[i - |pre|..i - |pre| + n] == s[i..i + n];
  }

  lemma BraceInside(pre: string, v: string, post: string, i: nat)
    requires BraceFree(pre) && BraceFree(post) && i < |pre + v + post|
    ensures (pre + v + post)[i] == '{' || (pre + v + post)[i] == '}' ==> |pre| <= i < |pre| + |v|
  {
    if i < |pre| {
      assert (pre + v + post)[i] == pre[i] && pre[i] in pre;
    } else if i >= |pre| + |v| {
      assert (pre + v + post)[i] == post[i - |pre| - |v|] && post[i - |pre| - |v|] in post;
    }
  }

  /** No hole but its own occurs in the value. */
  ghost predicate OwnOnly(name: string, v: string) {
    forall k :: Occurs(Hole(k), v) ==> k == name
  }

  /** Nor is its own one filled by the default for `lines`. */
  ghost predicate Closed(name: string, v: string) {
    forall k :: Occurs(Hole(k), v) ==> k == name && name != "lines"
  }

  lemma HoleHasBrace(k: string, v: string)
    ensures Occurs(Hole(k), v) ==> '{' in v
  {
    if Occurs(Hole(k), v) {
      var i :| OccursAt(Hole(k), v, i);
      assert v[i] == v[i..i + |Hole(k)|][0];
    }
  }

  lemma BraceFreeClosed(name: string, v: string)
    requires BraceFree(v)
    ensures Closed(name, v)
  {
    forall k ensures Occurs(Hole(k), v) ==> '{' in v { HoleHasBrace(k, v); }
  }

  ghost predicate Inert(name: string, params: Params) {
    name in params ==> Closed(name, params[name])
  }

  lemma ReplaceOther(pre: string, post: string, v: string, key: string, value: string)
    requires BraceFree(pre) && BraceFree(post) && !Occurs(Hole(key), v)
    ensures ReplaceAll(pre + v + post, Hole(key), value) == pre + v + post
  {
    OccursInside(pre, v, post, key);
    ReplaceAbsent(pre + v + post, Hole(key), value);
  }

  lemma {:induction false} SubstituteHole(pre: string, name: string, post: string, order: seq<string>, params: Params)
    requires BraceFree(pre) && BraceFree(name) && BraceFree(post)
    requires name in params ==> OwnOnly(name, params[name])
    requires forall k :: k in order ==> k in params
    requires forall i, j :: 0 <= i < j < |order| ==> order[i] != order[j]
    ensures Substitute(pre + Hole(name) + post, order, params)
         == if name in order then pre + params[name] + post else pre + Hole(name) + post
  {
    if order == [] {
    } else {
      hide ReplaceAll, Hole, Occurs;
      var k, rest := order[|order| - 1], order[..|order| - 1];
      assert order == rest + [k];
      SubstituteHole(pre, name, post, rest, params);
      if name in rest {
        assert k != name by { var i :| 0 <= i < |rest| && rest[i] == name; assert order[i] == name; }
        ReplaceOther(pre, post, params[name], k, params[k]);
      } else {
        ReplaceHole(pre, name, post, k, params[k]);
      }
    }
  }

  /** One hole whose value is closed: every iteration order gives the simultaneous substitution,
      whatever other parameters there are. */
  lemma OneHole(pre: string, name: string, post: string, params: Params, out: string)
    requires BraceFree(pre) && BraceFree(name) && BraceFree(post) && Inert(name, params)
    requires Filled(pre + Hole(name) + post, params, out)
    ensures out == Simultaneous(pre + Hole(name) + post, params) == pre + Value(name, params) + post
  {
    hide ReplaceAll, Simultaneous, Substitute, Occurs;
    var order :| Enumerates(order, params) && out == InOrder(pre + Hole(name) + post, order, params);
    SubstituteHole(pre, name, post, order, params);
    SimultaneousHole(pre, name, post, params);
    if name in params {
      DefaultClosed(pre, name, post, params[name]);
    } else {
      ReplaceHole(pre, name, post, "lines", "100");
    }
  }

  lemma DefaultClosed(pre: string, name: string, post: string, v: string)
    requires BraceFree(pre) && BraceFree(post) && Closed(name, v)
    ensures ReplaceAll(pre + v + post, Hole("lines"), "100") == pre + v + post
  {
    hide ReplaceAll, Occurs;
    ReplaceOther(pre, post, v, "lines", "100");
  }

  /** Every iteration order gives the simultaneous substitution, for all parameters that give
      `name` the value `v`. */
  ghost predicate Determined(pre: string, name: string, post: string, v: string) {
    forall params: Params, out ::
      name in params && params[name] == v && Filled(pre + Hole(name) + post, params, out) ==>
        out == Simultaneous(pre + Hole(name) + post, params)
  }

  /** Exactly which values are substituted simultaneously under every iteration order: those in
      which no other hole occurs, nor one for `lines`. */
  lemma DeterminedExactly(pre: string, name: string, post: string, v: string)
    requires BraceFree(pre) && BraceFree(name) && BraceFree(post)
    ensures Determined(pre, name, post, v) <==> Closed(name, v)
  {
    hide Filled, Simultaneous, Occurs;
    if Closed(name, v) {
      forall params: Params, out | name in params && params[name] == v && Filled(pre + Hole(name) + post, params, out)
        ensures out == Simultaneous(pre + Hole(name) + post, params)
      {
        OneHole(pre, name, post, params, out);
      }
    } else {
      var k :| Occurs(Hole(k), v) && !(k == name && name != "lines");
      var params, out := SubstitutedAgain(pre, name, post, v, k);
      assert out != Simultaneous(pre + Hole(name) + post, params);
    }
  }

  /** A hole that occurs in the value is filled in turn when its key comes later. */
  lemma SubstitutedAgain(pre: string, name: string, post: string, v: string, k: string)
      returns (params: Params, out: string)
    requires BraceFree(pre) && BraceFree(name) && BraceFree(post)
    requires Occurs(Hole(k), v) && !(k == name && name != "lines")
    ensures name in params && params[name] == v && Filled(pre + Hole(name) + post, params, out)
    ensures out != Simultaneous(pre + Hole(name) + post, params)
  {
    hide ReplaceAll, Simultaneous, Occurs;
    var template, plain := pre + Hole(name) + post, pre + v + post;
    OccursInside(pre, v, post, k);
    ReplaceHole(pre, name, post, name, v);
    assert [name][..0] == [];
    if k == name {
      params := map[name := v];
      assert Substitute(template, [name], params) == plain;
      ReplaceShortens(plain, Hole("lines"), "100");
      assert Enumerates([name], params);
      out := InOrder(template, [name], params);
    } else {
      params := map[name := v, k := ""];
      assert [name, k][..1] == [name];
      assert Substitute(template, [name], params) == plain;
      var cut := ReplaceAll(plain, Hole(k), "");
      assert Substitute(template, [name, k], params) == cut;
      ReplaceShortens(plain, Hole(k), "");
      ReplaceShortens(cut, Hole("lines"), "100");
      assert Enumerates([name, k], params);
      out := InOrder(template, [name, k], params);
    }
    SimultaneousHole(pre, name, post, params);
    assert |out| < |plain|;
  }

  lemma NoHole(s: string, params: Params, out: string)
    requires BraceFree(s) && Filled(s, params, out)
    ensures out == Simultaneous(s, params) == s
  {
    hide ReplaceAll, Simultaneous, Substitute;
    var order :| Enumerates(order, params) && out == InOrder(s, order, params);
    SubstituteLiteral(s, order, params);
    ReplaceNone(s, "lines", "100");
    SimultaneousText(s, params);
  }

  // ---------- The catalog ----------

  /** The holes of a catalog entry. */
  datatype Template = Literal(text: string) | Holed(pre: string, name: string, post: string)

  predicate Wellformed(t: Template) {
    match t
    case Literal(text) => BraceFree(text)
    case Holed(pre, name, post) => BraceFree(pre) && BraceFree(name) && BraceFree(post)
  }

  function Text(t: Template): string {
    match t
    case Literal(text) => text
    case Holed(pre, name, post) => pre + Hole(name) + post
  }

  lemma TemplateFills(t: Template, params: Params, out: string)
    requires Wellformed(t) && (t.Holed? ==> Inert(t.name, params)) && Filled(Text(t), params, out)
    ensures out == Simultaneous(Text(t), params)
  {
    hide Filled, Simultaneous;
    match t
    case Literal(text) => NoHole(text, params, out);
    case Holed(pre, name, post) => OneHole(pre, name, post, params, out);
  }

  /** `ts` are the arguments of `a`, with their holes. */
  predicate Fits(a: Action, ts: seq<Template>) {
    && |ts| == |a.args|
    && forall i :: 0 <= i < |ts| ==> Wellformed(ts[i]) && Text(ts[i]) == a.args[i]
  }

  ghost predicate AllInert(ts: seq<Template>, params: Params) {
    forall i :: 0 <= i < |ts| && ts[i].Holed? ==> Inert(ts[i].name, params)
  }

  function Literals(args: seq<string>): seq<Template> {
    seq(|args|, i requires 0 <= i < |args| => Literal(args[i]))
  }

  /** All holes of the action are filled with closed values. */
  ghost predicate Guarded(a: Action, params: Params) {
    exists ts :: Fits(a, ts) && AllInert(ts, params)
  }

  lemma PlainGuarded(a: Action, params: Params)
    requires forall i :: 0 <= i < |a.args| ==> BraceFree(a.args[i])
    ensures Guarded(a, params)
  {
    assert Fits(a, Literals(a.args)) && AllInert(Literals(a.args), params);
  }

  lemma PlainOnes(params: Params)
    ensures Guarded(DiskUsage(), params) && Guarded(MemorySummary(), params) && Guarded(CpuTop(), params)
    ensures Guarded(NetworkConnections(), params) && Guarded(ProcessList(), params)
  {
    hide Guarded;
    PlainGuarded(DiskUsage(), params);
    PlainGuarded(MemorySummary(), params);
    PlainGuarded(CpuTop(), params);
    PlainGuarded(NetworkConnections(), params);
    PlainGuarded(ProcessList(), params);
  }

  function ServiceTemplates(): seq<Template> {
    [Literal("status"), Literal("--no-pager"), Literal("--"), Holed("", "service", ".service")]
  }

  function LogTailTemplates(): seq<Template> {
    [Literal("-n"), Holed("", "lines", ""), Literal("--"), Holed("", "path", "")]
  }

  lemma ServiceHole()
    ensures Text(Holed("", "service", ".service")) == "{service}.service"
  {
    assert Hole("service") == "{service}";
    assert "" + "{service}" == "{service}";
    assert "{service}" + ".service" == "{service}.service";
  }

  lemma ServiceBraceFree()
    ensures BraceFree("status") && BraceFree("--no-pager") && BraceFree("--")
    ensures BraceFree("") && BraceFree("service") && BraceFree(".service")
  {
  }

  lemma ServiceFits()
    ensures Fits(ServiceStatus(), ServiceTemplates())
  {
    hide Hole, BraceFree;
    ServiceHole();
    ServiceBraceFree();
  }

  lemma LogTailFits()
    ensures Fits(ReadLogTail(), LogTailTemplates())
  {
    assert "" + Hole("lines") + "" == "{lines}" && "" + Hole("path") + "" == "{path}";
    hide Hole;
  }

  lemma ServiceNameInert(params: Params)
    requires Accepts(CheckService, params)
    ensures Inert("service", params)
  {
    if "service" in params { BraceFreeClosed("service", params["service"]); }
  }

  lemma ServiceGuarded(params: Params)
    requires Accepts(CheckService, params)
    ensures Guarded(ServiceStatus(), params)
  {
    ServiceNameInert(params);
    hide Accepts, Inert, Fits, ServiceStatus;
    ServiceFits();
    assert AllInert(ServiceTemplates(), params);
  }

  lemma LogTailInert(params: Params)
    requires Accepts(CheckLogTail, params)
    ensures Inert("lines", params) && Inert("path", params)
  {
    hide Climbs, Closed;
    if "lines" in params { BraceFreeClosed("lines", params["lines"]); }
    if "path" in params { BraceFreeClosed("path", params["path"]); }
  }

  lemma LogTailGuarded(params: Params)
    requires Accepts(CheckLogTail, params)
    ensures Guarded(ReadLogTail(), params)
  {
    LogTailInert(params);
    hide Accepts, Inert, Fits, ReadLogTail;
    LogTailFits();
    assert AllInert(LogTailTemplates(), params);
  }

  lemma SleepGuarded(params: Params)
    requires Accepts(CheckSleep, params)
    ensures Guarded(TestSleep(), params)
  {
    assert "" + Hole("seconds") + "" == "{seconds}";
    assert Fits(TestSleep(), [Holed("", "seconds", "")]);
    hide Fits, Closed;
    if "seconds" in params { BraceFreeClosed("seconds", params["seconds"]); }
    assert AllInert([Holed("", "seconds", "")], params);
  }

  predicate Checked(a: Action, params: Params) {
    Accepts(a.check, params)
  }

  /** Validation makes every hole of a catalog action safe to fill. */
  lemma CatalogGuarded(id: string, allowTestActions: bool, params: Params)
    requires id in Catalog(allowTestActions) && Accepts(Catalog(allowTestActions)[id].check, params)
    ensures Guarded(Catalog(allowTestActions)[id], params)
  {
    var a := Catalog(allowTestActions)[id];
    assert Checked(a, params);
    CatalogHas(allowTestActions, id);
    hide *;
    PlainOnes(params);
    if a == ServiceStatus() {
      CheckOf(params);
      ServiceGuarded(params);
    } else if a == ReadLogTail() {
      CheckOf(params);
      LogTailGuarded(params);
    } else if a == TestSleep() {
      CheckOf(params);
      SleepGuarded(params);
    }
  }

  lemma CheckOf(params: Params)
    ensures Checked(ServiceStatus(), params) ==> Accepts(CheckService, params)
    ensures Checked(ReadLogTail(), params) ==> Accepts(CheckLogTail, params)
    ensures Checked(TestSleep(), params) ==> Accepts(CheckSleep, params)
  {
  }

  lemma CatalogHas(allowTestActions: bool, id: string)
    requires id in Catalog(allowTestActions)
    ensures var a := Catalog(allowTestActions)[id];
            || a == DiskUsage() || a == MemorySummary() || a == CpuTop() || a == NetworkConnections()
            || a == ProcessList() || a == ServiceStatus() || a == ReadLogTail() || a == TestSleep()
  {
    hide DiskUsage, MemorySummary, CpuTop, NetworkConnections, ProcessList, ServiceStatus, ReadLogTail, TestSleep;
  }

  /** With inert holes every iteration order gives the simultaneous substitution. */
  lemma GuardedArgv(a: Action, params: Params, argv: seq<string>)
    requires Guarded(a, params) && IsArgv(a, params, argv)
    ensures argv == [a.binary] + seq(|a.args|, i requires 0 <= i < |a.args| => Simultaneous(a.args[i], params))
  {
    hide Filled, Simultaneous, Text, Inert, Wellformed;
    var ts :| Fits(a, ts) && AllInert(ts, params);
    forall i | 0 <= i < |a.args|
      ensures argv[i + 1] == Simultaneous(a.args[i], params)
    {
      TemplateFills(ts[i], params, argv[i + 1]);
    }
  }

  /** For every program of the catalog and all parameters its validator accepts, with any further
      keys and values, every iteration order yields the one argument vector obtained by
      simultaneous substitution in the template. */
  lemma ArgvDetermined(id: string, allowTestActions: bool, params: Params, argv: seq<string>)
    requires id in Catalog(allowTestActions)
    requires Accepts(Catalog(allowTestActions)[id].check, params) && IsArgv(Catalog(allowTestActions)[id], params, argv)
    ensures var a := Catalog(allowTestActions)[id];
            argv == [a.binary] + seq(|a.args|, i requires 0 <= i < |a.args| => Simultaneous(a.args[i], params))
  {
    hide *;
    CatalogGuarded(id, allowTestActions, params);
    GuardedArgv(Catalog(allowTestActions)[id], params, argv);
  }

  /** What the log reader is started with: the path is in one of the log directories and has no
      parent step, and only an absent line count is defaulted. */
  lemma LogTailArgv(params: Params, argv: seq<string>)
    requires Accepts(CheckLogTail, params) && IsArgv(ReadLogTail(), params, argv)
    ensures "path" in params && LogPath(params["path"])
    ensures argv == ["/usr/bin/tail", "-n", if "lines" in params then params["lines"] else "100", "--", params["path"]]
  {
    hide Filled, Simultaneous, Guarded, SafePath, Climbs;
    LogTailGuarded(params);
    GuardedArgv(ReadLogTail(), params, argv);
    LogTailValues(params);
  }

  lemma LogTailValues(params: Params)
    ensures Simultaneous("-n", params) == "-n" && Simultaneous("--", params) == "--"
    ensures Simultaneous("{lines}", params) == Value("lines", params)
    ensures Simultaneous("{path}", params) == Value("path", params)
  {
    hide Simultaneous, Value;
    SimultaneousText("-n", params);
    SimultaneousText("--", params);
    assert "" + Hole("lines") + "" == "{lines}" && "" + Hole("path") + "" == "{path}";
    SimultaneousHole("", "lines", "", params);
    SimultaneousHole("", "path", "", params);
    assert "" + Value("lines", params) + "" == Value("lines", params);
    assert "" + Value("path", params) + "" == Value("path", params);
  }

  lemma SimultaneousText(s: string, params: Params)
    requires BraceFree(s)
    ensures Simultaneous(s, params) == s
  {
    assert s + "" == s;
    SimultaneousLiteral(s, "", params);
  }

  /** Without validation the order matters: a value that itself is a hole may or may not be
      filled. */
  lemma OrderMatters(x: string)
    requires BraceFree(x)
    ensures var params := map["a" := Hole("b"), "b" := x];
            Filled(Hole("a"), params, x) && Filled(Hole("a"), params, Hole("b"))
  {
    hide ReplaceAll;
    var params := map["a" := Hole("b"), "b" := x];
    ReplaceWhole("a", "a", Hole("b"));
    ReplaceWhole("a", "b", x);
    ReplaceWhole("b", "b", x);
    ReplaceWhole("b", "lines", "100");
    ReplaceNone(x, "lines", "100");
    assert ["a", "b"][..1] == ["a"] && ["b", "a"][..1] == ["b"] && ["a"][..0] == [] && ["b"][..0] == [];
    assert Substitute(Hole("a"), [], params) == Hole("a");
    assert Substitute(Hole("a"), ["a"], params) == Hole("b");
    assert Substitute(Hole("a"), ["b"], params) == Hole("a");
    assert InOrder(Hole("a"), ["a", "b"], params) == x;
    assert InOrder(Hole("a"), ["b", "a"], params) == Hole("b");
  }

  lemma ReplaceWhole(name: string, key: string, value: string)
    requires BraceFree(name)
    ensures ReplaceAll(Hole(name), Hole(key), value) == if key == name then value else Hole(name)
  {
    hide Hole, ReplaceAll;
    ReplaceHole("", name, "", key, value);
    assert "" + Hole(name) + "" == Hole(name) && "" + value + "" == value;
  }
}
