/** What the parameter validators let through (internal/executor/actions.go). */
module ArgvParams {
  import opened Argv

  // ---------- Numbers ----------

  function Digit(d: nat): char
    requires d < 10
  {
    "0123456789"[d]
  }

  /** Decimal notation without leading zeros. */
  function Decimal(n: nat): string {
    if n < 10 then [Digit(n)] else Decimal(n / 10) + [Digit(n % 10)]
  }

  function Number(s: string): nat
    requires forall i :: 0 <= i < |s| ==> '0' <= s[i] <= '9'
  {
    if s == "" then 0 else 10 * Number(s[..|s| - 1]) + (s[|s| - 1] - '0') as int
  }

  predicate IsNumeral(s: string) {
    s != "" && s[0] != '0' && forall i :: 0 <= i < |s| ==> '0' <= s[i] <= '9'
  }

  function Power(k: nat): nat {
    if k == 0 then 1 else 10 * Power(k - 1)
  }

  /** Numerals and positive numbers correspond, and `k` digits are what is below 10^k. */
  lemma {:induction false} NumeralBack(s: string)
    requires IsNumeral(s)
    ensures Number(s) > 0 && Decimal(Number(s)) == s
  {
    if |s| == 1 {
      assert s[..0] == "";
      assert s == [s[0]];
    } else {
      var init, d := s[..|s| - 1], s[|s| - 1];
      NumeralBack(init);
      assert Number(s) / 10 == Number(init) && Number(s) % 10 == (d - '0') as int;
      assert s == init + [d];
    }
  }

  lemma {:induction false} DecimalBack(n: nat)
    requires n > 0
    ensures IsNumeral(Decimal(n)) && Number(Decimal(n)) == n
  {
    if n < 10 {
      assert Decimal(n)[..0] == "";
    } else {
      DecimalBack(n / 10);
      var s := Decimal(n);
      assert s[..|s| - 1] == Decimal(n / 10);
    }
  }

  lemma {:induction false} DecimalSize(n: nat, k: nat)
    requires k > 0
    ensures |Decimal(n)| <= k <==> n < Power(k)
    decreases k
  {
    if k == 1 {
      assert Power(1) == 10 * Power(0);
    } else if n >= 10 {
      DecimalSize(n / 10, k - 1);
    } else {
      PowerPositive(k - 1);
    }
  }

  lemma {:induction false} PowerPositive(k: nat)
    ensures Power(k) >= 1
  {
    if k == 0 {
    } else {
      PowerPositive(k - 1);
    }
  }

  /** The numerals with at most `k` digits are the numbers below 10^k. */
  lemma NumeralsBelow(s: string, k: nat)
    requires k > 0
    ensures IsNumeral(s) && |s| <= k <==> exists n: nat :: 0 < n < Power(k) && s == Decimal(n)
  {
    if IsNumeral(s) && |s| <= k {
      NumeralBack(s);
      DecimalSize(Number(s), k);
    }
    if exists n: nat :: 0 < n < Power(k) && s == Decimal(n) {
      var n: nat :| 0 < n < Power(k) && s == Decimal(n);
      DecimalBack(n);
      DecimalSize(n, k);
    }
  }

  /** A line count is accepted exactly if it is a number from 1 to 9999. */
  lemma LinesAre(s: string)
    ensures Lines(s) <==> exists n: nat :: 0 < n <= 9999 && s == Decimal(n)
  {
    NumeralsBelow(s, 4);
    assert Power(1) == 10 && Power(2) == 100 && Power(3) == 1000 && Power(4) == 10000;
  }

  /** A sleep is accepted exactly if it is a number of seconds from 1 to 60. */
  lemma SleepSecondsAre(s: string)
    ensures SleepSeconds(s) <==> exists n: nat :: 0 < n <= 60 && s == Decimal(n)
  {
    if SleepSeconds(s) {
      NumeralBack(s);
      SmallNumber(s);
    }
    if exists n: nat :: 0 < n <= 60 && s == Decimal(n) {
      var n: nat :| 0 < n <= 60 && s == Decimal(n);
      DecimalBack(n);
      DecimalSize(n, 2);
      assert Power(1) == 10 && Power(2) == 100;
      SmallNumber(s);
    }
  }

  lemma SmallNumber(s: string)
    requires IsNumeral(s) && |s| <= 2
    ensures Number(s) <= 60 <==> SleepSeconds(s)
  {
    assert s[..0] == "" && s[..1] == [s[0]];
    assert Number(s[..1]) == (s[0] - '0') as int by { assert s[..1][..0] == ""; }
    if |s| == 1 {
      assert s == s[..1];
    } else {
      assert s == [s[0], s[1]];
    }
  }

  // ---------- Paths ----------

  /** A slash begins a new component, any other character belongs to the first one. */
  function Before(c: char, cs: seq<string>): (r: seq<string>)
    requires |cs| > 0
    ensures |r| > 0
  {
    if c == '/' then [""] + cs else [[c] + cs[0]] + cs[1..]
  }

  /** The components of a path, between its slashes. */
  function Split(path: string): (cs: seq<string>)
    ensures |cs| > 0
  {
    if path == "" then [""] else Before(path[0], Split(path[1..]))
  }

  /** One component of a path, from the directory `at`. */
  function Enter(at: seq<string>, c: string): seq<string> {
    if c == "" || c == "." then at
    else if c == ".." then if at == [] then [] else at[..|at| - 1]
    else at + [c]
  }

  /** Where a path leads from the directory `at`, without symbolic links. */
  function Walk(at: seq<string>, cs: seq<string>): seq<string>
    decreases |cs|
  {
    if cs == [] then at else Walk(Enter(at, cs[0]), cs[1..])
  }

  lemma BeforeAppend(c: char, x: seq<string>, y: seq<string>)
    requires |x| > 0
    ensures Before(c, x + y) == Before(c, x) + y
  {
    assert (x + y)[0] == x[0] && (x + y)[1..] == x[1..] + y;
  }

  lemma {:induction false} SplitSlash(a: string, b: string)
    ensures Split(a + "/" + b) == Split(a) + Split(b)
  {
    var s := a + "/" + b;
    if a == "" {
      assert s[0] == '/' && s[1..] == b;
    } else {
      hide Before;
      assert s[0] == a[0] && s[1..] == a[1..] + "/" + b;
      SplitSlash(a[1..], b);
      BeforeAppend(a[0], Split(a[1..]), Split(b));
    }
  }

  lemma {:induction false} SplitFirst(path: string)
    ensures Split(path)[0] <= path
  {
    if path == "" {
    } else {
      SplitFirst(path[1..]);
    }
  }

  /** A path with a parent step among its components has two dots in a row. */
  lemma {:induction false} ParentClimbs(path: string)
    ensures ".." in Split(path) ==> Climbs(path)
  {
    if path == "" {
    } else {
      SplitFirst(path);
      ParentClimbs(path[1..]);
      if ".." in Split(path) {
        if Split(path)[0] == ".." {
          assert path[0] == '.' && path[0 + 1] == '.';
        } else {
          assert ".." in Split(path[1..]);
          var i :| 0 <= i < |path[1..]| - 1 && path[1..][i] == '.' && path[1..][i + 1] == '.';
          assert path[i + 1] == '.' && path[(i + 1) + 1] == '.';
        }
      }
    }
  }

  lemma {:induction false} WalkAppend(at: seq<string>, a: seq<string>, b: seq<string>)
    ensures Walk(at, a + b) == Walk(Walk(at, a), b)
    decreases |a|
  {
    if a == [] {
      assert a + b == b;
    } else {
      assert (a + b)[1..] == a[1..] + b;
      WalkAppend(Enter(at, a[0]), a[1..], b);
    }
  }

  lemma {:induction false} WalkStays(at: seq<string>, cs: seq<string>)
    requires ".." !in cs
    ensures at <= Walk(at, cs)
    decreases |cs|
  {
    if cs == [] {
    } else {
      assert cs[0] in cs;
      WalkStays(Enter(at, cs[0]), cs[1..]);
    }
  }

  lemma {:induction false} SplitPlain(c: string)
    requires '/' !in c
    ensures Split(c) == [c]
  {
    if c == "" {
    } else {
      assert c[0] in c && forall x :: x in c[1..] ==> x in c;
      SplitPlain(c[1..]);
      assert [c[0]] + c[1..] == c;
    }
  }

  /** A path below a directory without parent steps leads to somewhere below that directory. */
  lemma Contained(dir: string, path: string)
    requires dir + "/" <= path && !Climbs(path)
    ensures Walk([], Split(dir)) <= Walk([], Split(path))
  {
    var rest := path[|dir| + 1..];
    assert path == dir + "/" + rest;
    SplitSlash(dir, rest);
    ParentClimbs(path);
    WalkAppend([], Split(dir), Split(rest));
    forall c | c in Split(rest) ensures c != ".." { assert c in Split(path); }
    WalkStays(Walk([], Split(dir)), Split(rest));
  }

  lemma LogDirs()
    ensures Walk([], Split("/var/log")) == ["var", "log"]
    ensures Walk([], Split("/var/lib/tom_ai_agent")) == ["var", "lib", "tom_ai_agent"]
  {
    hide Split;
    SplitPlain("");
    SplitPlain("var");
    SplitSlash("", "var");
    assert "" + "/" + "var" == "/var" && [""] + ["var"] == ["", "var"];
    SplitPlain("log");
    SplitPlain("lib");
    SplitPlain("tom_ai_agent");
    SplitSlash("/var", "log");
    SplitSlash("/var", "lib");
    SplitSlash("/var/lib", "tom_ai_agent");
    assert "/var" + "/" + "log" == "/var/log";
    assert "/var" + "/" + "lib" == "/var/lib";
    assert "/var/lib" + "/" + "tom_ai_agent" == "/var/lib/tom_ai_agent";
    WalkThree("var", "log");
    WalkFour("var", "lib", "tom_ai_agent");
  }

  predicate Named(c: string) {
    c != "" && c != "." && c != ".."
  }

  lemma WalkThree(a: string, b: string)
    requires Named(a) && Named(b)
    ensures Walk([], ["", a] + [b]) == [a, b]
  {
    assert (["", a] + [b])[1..] == [a, b] && [a, b][1..] == [b] && [b][1..] == [];
    assert Walk([a, b], []) == [a, b];
    assert Walk([a], [b]) == [a, b];
    assert Enter([], a) == [a] && Enter([], "") == [];
    assert Walk([], [a, b]) == [a, b];
  }

  lemma WalkFour(a: string, b: string, c: string)
    requires Named(a) && Named(b) && Named(c)
    ensures Walk([], ["", a] + [b] + [c]) == [a, b, c]
  {
    WalkThree(a, b);
    WalkAppend([], ["", a] + [b], [c]);
    assert [c][1..] == [];
    assert Walk([a, b, c], []) == [a, b, c];
  }

  /** The file the log reader is started on lies in one of the two log directories: no accepted
      path leads out of them. */
  lemma LogPathContained(path: string)
    requires LogPath(path)
    ensures ["var", "log"] <= Walk([], Split(path)) || ["var", "lib", "tom_ai_agent"] <= Walk([], Split(path))
  {
    hide Split, Walk, SafePath, Climbs;
    LogDirs();
    var i :| 0 <= i < |LOG_PATHS| && LOG_PATHS[i] <= path;
    if i == 0 {
      assert "/var/log" + "/" == LOG_PATHS[0];
      Contained("/var/log", path);
    } else {
      assert "/var/lib/tom_ai_agent" + "/" == LOG_PATHS[1];
      Contained("/var/lib/tom_ai_agent", path);
    }
  }
}
