/** The validators against the regular expressions they are written with
    (internal/executor/actions.go). */
module ArgvPatterns {
  import opened Argv

  /** A character class is a sequence of ranges. */
  datatype Regexp =
    | Class(ranges: seq<(char, char)>)
    | Then(first: Regexp, second: Regexp)
    | Either(left: Regexp, right: Regexp)
    | Times(body: Regexp, low: nat, high: nat)

  predicate InClass(ranges: seq<(char, char)>, c: char) {
    exists i :: 0 <= i < |ranges| && ranges[i].0 <= c <= ranges[i].1
  }

  function Depth(r: Regexp): nat {
    match r
    case Class(_) => 0
    case Then(a, b) => 1 + Depth(a) + Depth(b)
    case Either(a, b) => 1 + Depth(a) + Depth(b)
    case Times(a, _, _) => 1 + Depth(a)
  }

  /** The whole of `s` matches. */
  ghost predicate Matches(r: Regexp, s: string)
    decreases Depth(r), if r.Times? then r.high else 0
  {
    match r
    case Class(ranges) => |s| == 1 && InClass(ranges, s[0])
    case Then(a, b) => exists i :: 0 <= i <= |s| && Matches(a, s[..i]) && Matches(b, s[i..])
    case Either(a, b) => Matches(a, s) || Matches(b, s)
    case Times(a, low, high) =>
      || (low == 0 && s == "")
      || (high > 0 && exists i :: 0 <= i <= |s| && Matches(a, s[..i]) && Matches(OneLess(a, low, high), s[i..]))
  }

  function OneLess(r: Regexp, low: nat, high: nat): Regexp
    requires high > 0
  {
    Times(r, if low == 0 then 0 else low - 1, high - 1)
  }

  function Single(c: char): Regexp {
    Class([(c, c)])
  }

  const WORD := [('a', 'z'), ('A', 'Z'), ('0', '9'), ('_', '_'), ('.', '.'), ('@', '@'), ('-', '-')]

  const PATH_CHARS :=
    [('a', 'z'), ('A', 'Z'), ('0', '9'), ('_', '_'), ('.', '.'), ('/', '/'), ('@', '@'), ('+', '+'), ('-', '-')]

  const DIGIT := [('0', '9')]

  const POSITIVE := [('1', '9')]

  const SERVICE_NAME := Times(Class(WORD), 1, 64)

  const SAFE_PATH := Then(Single('/'), Times(Class(PATH_CHARS), 1, 256))

  const LINES := Then(Class(POSITIVE), Times(Class(DIGIT), 0, 3))

  const SLEEP_SECONDS :=
    Either(Class(POSITIVE), Either(Then(Class([('1', '5')]), Class(DIGIT)), Then(Single('6'), Single('0'))))

  // ---------- What the patterns match ----------

  lemma {:induction false} TimesClass(ranges: seq<(char, char)>, low: nat, high: nat, s: string)
    requires low <= high
    ensures Matches(Times(Class(ranges), low, high), s)
       <==> low <= |s| <= high && forall i :: 0 <= i < |s| ==> InClass(ranges, s[i])
    decreases high
  {
    hide InClass;
    if high == 0 {
    } else {
      var less := OneLess(Class(ranges), low, high);
      if s != "" { TimesClass(ranges, less.low, less.high, s[1..]); }
      assert forall j :: 1 <= j < |s| ==> s[1..][j - 1] == s[j];
      if low <= |s| <= high && s != "" && forall i :: 0 <= i < |s| ==> InClass(ranges, s[i]) {
        assert Matches(Class(ranges), s[..1]) && Matches(less, s[1..]);
      }
      if s != "" && Matches(Times(Class(ranges), low, high), s) {
        var i :| 0 <= i <= |s| && Matches(Class(ranges), s[..i]) && Matches(less, s[i..]);
        assert i == 1 && s[..1][0] == s[0];
      }
    }
  }

  /** A class followed by something else. */
  lemma ClassThen(ranges: seq<(char, char)>, r: Regexp, s: string)
    ensures Matches(Then(Class(ranges), r), s) <==> s != "" && InClass(ranges, s[0]) && Matches(r, s[1..])
  {
    hide InClass;
    if s != "" && InClass(ranges, s[0]) && Matches(r, s[1..]) {
      assert Matches(Class(ranges), s[..1]);
    }
    if Matches(Then(Class(ranges), r), s) {
      var i :| 0 <= i <= |s| && Matches(Class(ranges), s[..i]) && Matches(r, s[i..]);
      assert i == 1 && s[..1][0] == s[0];
    }
  }

  lemma ClassesAre(c: char)
    ensures InClass(WORD, c) <==> Alphanumeric(c) || c in "_.@-"
    ensures InClass(DIGIT, c) <==> '0' <= c <= '9'
    ensures InClass(POSITIVE, c) <==> '1' <= c <= '9'
    ensures InClass([('1', '5')], c) <==> '1' <= c <= '5'
  {
    assert WORD[0] == ('a', 'z') && WORD[1] == ('A', 'Z') && WORD[2] == ('0', '9');
    assert WORD[3] == ('_', '_') && WORD[4] == ('.', '.') && WORD[5] == ('@', '@') && WORD[6] == ('-', '-');
    assert DIGIT[0] == ('0', '9') && POSITIVE[0] == ('1', '9') && [('1', '5')][0] == ('1', '5');
  }

  lemma PathCharsAre(c: char)
    ensures InClass(PATH_CHARS, c) <==> Alphanumeric(c) || c in "_./@+-"
  {
    var p := PATH_CHARS;
    assert p[0] == ('a', 'z') && p[1] == ('A', 'Z') && p[2] == ('0', '9') && p[3] == ('_', '_');
    assert p[4] == ('.', '.') && p[5] == ('/', '/') && p[6] == ('@', '@') && p[7] == ('+', '+') && p[8] == ('-', '-');
  }

  lemma SingleIs(d: char, c: char)
    ensures InClass([(d, d)], c) <==> c == d
  {
    assert [(d, d)][0] == (d, d);
  }

  // ---------- The validators ----------

  lemma ServiceNameIs(s: string)
    ensures ServiceName(s) <==> Matches(SERVICE_NAME, s)
  {
    hide InClass, Alphanumeric;
    TimesClass(WORD, 1, 64, s);
    forall c ensures InClass(WORD, c) <==> Alphanumeric(c) || c in "_.@-" { ClassesAre(c); }
  }

  lemma SafePathIs(s: string)
    ensures SafePath(s) <==> Matches(SAFE_PATH, s)
  {
    hide InClass, Alphanumeric, Matches;
    ClassThen([('/', '/')], Times(Class(PATH_CHARS), 1, 256), s);
    if s != "" {
      SingleIs('/', s[0]);
      TimesClass(PATH_CHARS, 1, 256, s[1..]);
      forall c ensures InClass(PATH_CHARS, c) <==> Alphanumeric(c) || c in "_./@+-" { PathCharsAre(c); }
      assert forall i :: 1 <= i < |s| ==> s[i] == s[1..][i - 1];
    }
  }

  lemma LinesIs(s: string)
    ensures Lines(s) <==> Matches(LINES, s)
  {
    hide InClass, Matches;
    ClassThen(POSITIVE, Times(Class(DIGIT), 0, 3), s);
    if s != "" {
      forall c ensures (InClass(DIGIT, c) <==> '0' <= c <= '9') && (InClass(POSITIVE, c) <==> '1' <= c <= '9') {
        ClassesAre(c);
      }
      TimesClass(DIGIT, 0, 3, s[1..]);
      assert forall i :: 1 <= i < |s| ==> s[i] == s[1..][i - 1];
    }
  }

  lemma TwoClasses(a: seq<(char, char)>, b: seq<(char, char)>, s: string)
    ensures Matches(Then(Class(a), Class(b)), s) <==> |s| == 2 && InClass(a, s[0]) && InClass(b, s[1])
  {
    hide InClass;
    ClassThen(a, Class(b), s);
  }

  lemma SleepSecondsIs(s: string)
    ensures SleepSeconds(s) <==> Matches(SLEEP_SECONDS, s)
  {
    hide InClass;
    TwoClasses([('1', '5')], DIGIT, s);
    TwoClasses([('6', '6')], [('0', '0')], s);
    forall i | 0 <= i < |s|
      ensures InClass(DIGIT, s[i]) <==> '0' <= s[i] <= '9'
      ensures InClass(POSITIVE, s[i]) <==> '1' <= s[i] <= '9'
      ensures InClass([('1', '5')], s[i]) <==> '1' <= s[i] <= '5'
      ensures InClass([('6', '6')], s[i]) <==> s[i] == '6'
      ensures InClass([('0', '0')], s[i]) <==> s[i] == '0'
    {
      ClassesAre(s[i]);
      SingleIs('6', s[i]);
      SingleIs('0', s[i]);
    }
    assert |s| == 2 ==> s == [s[0], s[1]];
  }

  /** The validators accept exactly what the patterns and the whitelist describe; an empty line
      count counts as none, and programs without a validator take any parameters. */
  lemma AcceptsExactly(check: Check, params: Params)
    ensures Accepts(check, params)
       <==> match check
            case Unchecked => true
            case CheckService => Matches(SERVICE_NAME, Get(params, "service"))
            case CheckLogTail =>
              var path, lines := Get(params, "path"), Get(params, "lines");
              && Matches(SAFE_PATH, path) && !Climbs(path)
              && ("/var/log/" <= path || "/var/lib/tom_ai_agent/" <= path)
              && (lines == "" || Matches(LINES, lines))
            case CheckSleep => Matches(SLEEP_SECONDS, Get(params, "seconds"))
  {
    hide Matches, ServiceName, SafePath, Lines, SleepSeconds, Climbs;
    ServiceNameIs(Get(params, "service"));
    SafePathIs(Get(params, "path"));
    LinesIs(Get(params, "lines"));
    SleepSecondsIs(Get(params, "seconds"));
    assert LOG_PATHS[0] == "/var/log/" && LOG_PATHS[1] == "/var/lib/tom_ai_agent/";
  }
}
