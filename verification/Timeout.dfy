/** Rendering a bounded command, and inspecting how a command line bounds its call. */
module Timeout {
  import opened Basics
  import opened Decimal

  const U64_MAX: nat := 0xFFFF_FFFF_FFFF_FFFF

  /** A span of time in whole seconds and nanoseconds. */
  datatype Duration = Duration(secs: nat, nanos: nat) {
    predicate Valid() { secs <= U64_MAX && nanos < 1_000_000_000 }
    predicate IsWhole() { nanos == 0 }
  }

  datatype Escalation = Escalation(limit: Duration, grace: Duration)

  datatype Command = Escalating(limit: Duration, grace: Duration) | Bare(limit: Duration) | Unbounded

  // ----- words -----

  /** The `White_Space` characters of Unicode. */
  predicate IsSpace(c: char) {
    var n := c as int;
    || 0x09 <= n <= 0x0D || n == 0x20 || n == 0x85 || n == 0xA0 || n == 0x1680
    || 0x2000 <= n <= 0x200A || n == 0x2028 || n == 0x2029 || n == 0x202F || n == 0x205F || n == 0x3000
  }

  function WordStart(s: string, i: nat): (k: nat)
    requires i <= |s|
    ensures i <= k <= |s|
    ensures k < |s| ==> !IsSpace(s[k])
    decreases |s| - i
  {
    if i == |s| || !IsSpace(s[i]) then i else WordStart(s, i + 1)
  }

  function WordEnd(s: string, i: nat): (k: nat)
    requires i <= |s|
    ensures i <= k <= |s|
    decreases |s| - i
  {
    if i == |s| || IsSpace(s[i]) then i else WordEnd(s, i + 1)
  }

  /** `split_whitespace` from position `i` on. */
  function Words(s: string, i: nat): (words: seq<string>)
    requires i <= |s|
    decreases |s| - i
  {
    var a := WordStart(s, i);
    if a == |s| then []
    else
      var b := WordEnd(s, a + 1);
      [s[a..b]] + Words(s, b)
  }

  /** `s` is what `q` holds from `d` on. */
  ghost predicate IsTail(q: string, s: string, d: nat) {
    |q| == d + |s| && forall k :: 0 <= k < |s| ==> s[k] == q[d + k]
  }

  lemma {:induction false} StartShifts(q: string, s: string, d: nat, i: nat)
    requires IsTail(q, s, d) && i <= |s|
    ensures WordStart(q, d + i) == d + WordStart(s, i)
    decreases |s| - i
  {
    if i < |s| && IsSpace(s[i]) {
      StartShifts(q, s, d, i + 1);
    }
  }

  lemma {:induction false} EndShifts(q: string, s: string, d: nat, i: nat)
    requires IsTail(q, s, d) && i <= |s|
    ensures WordEnd(q, d + i) == d + WordEnd(s, i)
    decreases |s| - i
  {
    if i < |s| && !IsSpace(s[i]) {
      EndShifts(q, s, d, i + 1);
    }
  }

  lemma ShiftedSlice(q: string, s: string, d: nat, a: nat, b: nat)
    requires IsTail(q, s, d) && a <= b <= |s|
    ensures q[d + a..d + b] == s[a..b]
  {
  }

  lemma FirstOfWords(s: string, i: nat, a: nat, from: nat, b: nat, word: string, rest: seq<string>)
    requires i <= |s| && a == WordStart(s, i) && a < |s| && from == a + 1 && b == WordEnd(s, from)
    requires word == s[a..b] && rest == Words(s, b)
    ensures Words(s, i) == [word] + rest
  {
  }

  lemma StartAt(q: string, s: string, d: nat, i: nat, j: nat, a: nat, c: nat)
    requires IsTail(q, s, d) && i <= |s| && j == d + i && a == WordStart(s, i) && c == d + a
    ensures WordStart(q, j) == c
  {
    StartShifts(q, s, d, i);
  }

  lemma EndAt(q: string, s: string, d: nat, i: nat, j: nat, b: nat, e: nat)
    requires IsTail(q, s, d) && i <= |s| && j == d + i && b == WordEnd(s, i) && e == d + b
    ensures WordEnd(q, j) == e
  {
    EndShifts(q, s, d, i);
  }

  lemma FirstWordShifts(q: string, s: string, d: nat, i: nat, j: nat, a: nat, c: nat, b: nat, e: nat)
    requires IsTail(q, s, d) && i <= |s| && a == WordStart(s, i) && a < |s| && b == WordEnd(s, a + 1)
    requires j == d + i && c == d + a && e == d + b && Words(q, e) == Words(s, b)
    ensures Words(q, j) == Words(s, i)
  {
    StartAt(q, s, d, i, j, a, c);
    EndAt(q, s, d, a + 1, c + 1, b, e);
    ShiftedSlice(q, s, d, a, b);
    FirstOfWords(s, i, a, a + 1, b, s[a..b], Words(s, b));
    FirstOfWords(q, j, c, c + 1, e, s[a..b], Words(s, b));
  }

  lemma {:induction false} WordsShift(q: string, s: string, d: nat, i: nat, j: nat)
    requires IsTail(q, s, d) && i <= |s| && j == d + i
    ensures Words(q, j) == Words(s, i)
    decreases |s| - i
  {
    var a := WordStart(s, i);
    if a < |s| {
      var b := WordEnd(s, a + 1);
      var c, e := d + a, d + b;
      WordsShift(q, s, d, b, e);
      FirstWordShifts(q, s, d, i, j, a, c, b, e);
    } else {
      StartAt(q, s, d, i, j, a, |q|);
    }
  }

  predicate IsWord(w: string) {
    w != "" && forall i :: 0 <= i < |w| ==> !IsSpace(w[i])
  }

  lemma Joined(w: string, rest: string, i: nat)
    requires i < |w| + |rest|
    ensures (w + rest)[i] == if i < |w| then w[i] else rest[i - |w|]
  {
  }

  lemma {:induction false} WordEndsAt(w: string, rest: string, i: nat)
    requires IsWord(w) && 0 < i <= |w| && rest != "" && IsSpace(rest[0])
    ensures WordEnd(w + rest, i) == |w|
    decreases |w| - i
  {
    Joined(w, rest, i);
    if i < |w| {
      WordEndsAt(w, rest, i + 1);
    }
  }

  lemma TailOf(p: string, s: string)
    ensures IsTail(p + s, s, |p|)
  {
  }

  lemma WordInFront(q: string, w: string, tail: string)
    requires IsWord(w) && tail != "" && IsSpace(tail[0]) && q == w + tail
    ensures Words(q, 0) == [w] + Words(q, |w|)
  {
    Joined(w, tail, 0);
    WordEndsAt(w, tail, 1);
    FirstSlice(q, w, tail);
  }

  lemma FirstSlice(q: string, w: string, tail: string)
    requires q == w + tail
    ensures q[0..|w|] == w
  {
  }

  lemma RestWords(q: string, w: string, tail: string)
    requires IsTail(q, tail, |w|) && Words(q, 0) == [w] + Words(q, |w|)
    ensures Words(q, 0) == [w] + Words(tail, 0)
  {
    WordsShift(q, tail, |w|, 0, |w|);
  }

  lemma AfterSpace(q: string, rest: string)
    requires IsTail(q, rest, 1) && IsSpace(q[0])
    ensures Words(q, 0) == Words(rest, 0)
  {
    WordsShift(q, rest, 1, 0, 1);
    SpaceSkipped(q);
  }

  /** A word and a space in front add that word. */
  lemma FirstWord(w: string, rest: string)
    requires IsWord(w)
    ensures Words(w + (" " + rest), 0) == [w] + Words(rest, 0)
  {
    var tail := " " + rest;
    WordInFront(w + tail, w, tail);
    TailOf(w, tail);
    RestWords(w + tail, w, tail);
    TailOf(" ", rest);
    AfterSpace(tail, rest);
  }

  lemma SpaceSkipped(s: string)
    requires s != "" && IsSpace(s[0])
    ensures Words(s, 0) == Words(s, 1)
  {
  }

  // ----- what the words are -----

  /** A word followed by whitespace is the first word, and the others are those of the rest. */
  lemma WordThenSpace(w: string, c: char, rest: string)
    requires IsWord(w) && IsSpace(c)
    ensures Words(w + ([c] + rest), 0) == [w] + Words(rest, 0)
  {
    var tail := [c] + rest;
    WordInFront(w + tail, w, tail);
    TailOf(w, tail);
    RestWords(w + tail, w, tail);
    TailOf([c], rest);
    AfterSpace(tail, rest);
  }

  /** Whitespace in front is skipped. */
  lemma SpaceInFront(c: char, rest: string)
    requires IsSpace(c)
    ensures Words([c] + rest, 0) == Words(rest, 0)
  {
    TailOf([c], rest);
    AfterSpace([c] + rest, rest);
  }

  lemma {:induction false} WordEndsLast(w: string, i: nat)
    requires IsWord(w) && i <= |w|
    ensures WordEnd(w, i) == |w|
    decreases |w| - i
  {
    if i < |w| {
      WordEndsLast(w, i + 1);
    }
  }

  /** A word by itself is the only word, and nothing has none. */
  lemma OnlyWord(w: string)
    requires IsWord(w)
    ensures Words(w, 0) == [w] && Words("", 0) == []
  {
    WordEndsLast(w, 1);
    assert w[0..|w|] == w;
    assert Words(w, |w|) == [];
  }

  // ----- durations -----

  /** `num.parse::<u64>()`: an optional plus sign and digits, within 64 bits. */
  function ParseU64(s: string): (r: Option<nat>) {
    var digits := if s != "" && s[0] == '+' then s[1..] else s;
    if digits != "" && AllDigits(digits, |digits|) && Value(digits, |digits|) <= U64_MAX
    then Some(Value(digits, |digits|)) else None
  }

  /** The multiplier of a suffix. */
  function Unit(c: char): (r: Option<nat>) {
    if c == 's' then Some(1) else if c == 'm' then Some(60)
    else if c == 'h' then Some(3600) else if c == 'd' then Some(86400) else None
  }

  /** `parse_secs`: a number and an optional unit, refused when the product overflows. */
  function ParseSecs(token: string): (r: Option<Duration>)
    ensures r.Some? ==> r.value.Valid() && r.value.IsWhole()
  {
    var unit := if token == "" then None else Unit(token[|token| - 1]);
    var number := if unit.Some? then token[..|token| - 1] else token;
    var multiplier := if unit.Some? then unit.value else 1;
    var parsed := ParseU64(number);
    if parsed.Some? && parsed.value * multiplier <= U64_MAX then Some(Duration(parsed.value * multiplier, 0)) else None
  }

  lemma {:induction false} DigitAt(s: string, n: nat, i: nat)
    requires i < n <= |s| && AllDigits(s, n)
    ensures IsDigit(s[i])
  {
    if i < n - 1 {
      DigitAt(s, n - 1, i);
    }
  }

  lemma PrintedIsWord(n: nat)
    ensures IsWord(Print(n)) && IsDigit(Print(n)[0])
  {
    var s := Print(n);
    PrintReadsBack(n);
    forall i | 0 <= i < |s| ensures !IsSpace(s[i]) {
      DigitAt(s, |s|, i);
    }
    DigitAt(s, |s|, 0);
  }

  /** A printed number of seconds is read back as that duration. */
  lemma PrintedParses(n: nat)
    requires n <= U64_MAX
    ensures ParseSecs(Print(n)) == Some(Duration(n, 0))
  {
    var s := Print(n);
    PrintReadsBack(n);
    DigitAt(s, |s|, 0);
    DigitAt(s, |s|, |s| - 1);
    assert Unit(s[|s| - 1]) == None;
    assert ParseU64(s) == Some(n);
  }

  // ----- rendering and inspecting -----

  /** `render_command` */
  function Render(e: Escalation, args: string): string {
    "timeout" + (" " + ("-k" + (" " + (Print(e.grace.secs) + (" " + (Print(e.limit.secs) + (" " + args)))))))
  }

  datatype Scan = Scan(limit: Option<Duration>, grace: Option<Duration>, graceNext: bool)

  const KILL_AFTER: string := "--kill-after="

  function Step(st: Scan, token: string): Scan {
    if st.limit.Some? then st
    else if st.graceNext then st.(grace := ParseSecs(token), graceNext := false)
    else if HasPrefix(token, KILL_AFTER) then st.(grace := ParseSecs(token[|KILL_AFTER|..]))
    else if token == "-k" then st.(graceNext := true)
    else if HasPrefix(token, "-k") then st.(grace := ParseSecs(token[2..]))
    else if HasPrefix(token, "-") then st
    else if ParseSecs(token).Some? then st.(limit := ParseSecs(token))
    else st
  }

  function ScanTo(tokens: seq<string>, n: nat): Scan
    requires n <= |tokens|
  {
    if n == 0 then Scan(None, None, false) else Step(ScanTo(tokens, n - 1), tokens[n - 1])
  }

  function Verdict(st: Scan): Command {
    if st.limit.None? then Unbounded
    else if st.grace.Some? then Escalating(st.limit.value, st.grace.value)
    else Bare(st.limit.value)
  }

  /** The first `timeout` from `i` on, or the end. */
  function Wrapper(tokens: seq<string>, i: nat): (k: nat)
    requires i <= |tokens|
    ensures i <= k <= |tokens|
    decreases |tokens| - i
  {
    if i == |tokens| || tokens[i] == "timeout" then i else Wrapper(tokens, i + 1)
  }

  /** How the words after `timeout` are classified. */
  function Behind(after: seq<string>): Command {
    Verdict(ScanTo(after, |after|))
  }

  function Classify(tokens: seq<string>): Command {
    var k := Wrapper(tokens, 0);
    if k == |tokens| then Unbounded
    else
      Behind(tokens[k + 1..])
  }

  lemma {:induction false} LimitEnds(tokens: seq<string>, i: nat, n: nat)
    requires i <= n <= |tokens| && ScanTo(tokens, i).limit.Some?
    ensures ScanTo(tokens, n) == ScanTo(tokens, i)
  {
    if i < n {
      LimitEnds(tokens, i, n - 1);
    }
  }

  lemma NextScan(tokens: seq<string>, i: nat, before: Scan)
    requires i < |tokens| && ScanTo(tokens, i) == before
    ensures ScanTo(tokens, i + 1) == Step(before, tokens[i])
  {
  }

  /** `inspect_timeout_command` */
  method Inspect(command: string) returns (r: Command)
    ensures r == Classify(Words(command, 0))
  {
    var tokens := Words(command, 0);
    var start := Wrapper(tokens, 0);
    if start == |tokens| {
      return Unbounded;
    }
    var after := tokens[start + 1..];
    var limit, grace: Option<Duration>, graceNext := None, None, false;
    var i := 0;
    while i < |after|
      invariant i <= |after| && ScanTo(after, i) == Scan(limit, grace, graceNext)
    {
      var token := after[i];
      if limit.Some? {
        LimitEnds(after, i, |after|);
        break;
      }
      ghost var before := Scan(limit, grace, graceNext);
      NextScan(after, i, before);
      if graceNext {
        grace, graceNext := ParseSecs(token), false;
      } else if HasPrefix(token, KILL_AFTER) {
        grace := ParseSecs(token[|KILL_AFTER|..]);
      } else if token == "-k" {
        graceNext := true;
      } else if HasPrefix(token, "-k") {
        grace := ParseSecs(token[2..]);
      } else if HasPrefix(token, "-") {
      } else if ParseSecs(token).Some? {
        limit := ParseSecs(token);
      }
      i := i + 1;
    }
    return Verdict(Scan(limit, grace, graceNext));
  }

  // ----- what is rendered is recognised -----

  lemma PrefixAt(s: string, p: string, i: nat)
    requires i < |p|
    ensures HasPrefix(s, p) ==> i < |s| && s[i] == p[i]
  {
    if HasPrefix(s, p) {
      assert s[..|p|][i] == s[i];
    }
  }

  lemma NoDash(token: string)
    requires !HasPrefix(token, "-")
    ensures !HasPrefix(token, KILL_AFTER) && token != "-k" && !HasPrefix(token, "-k")
  {
    PrefixAt(token, KILL_AFTER, 0);
    PrefixAt(token, "-k", 0);
    DashIsPrefix(token);
  }

  lemma DashIsPrefix(token: string)
    ensures token != "" && token[0] == '-' ==> HasPrefix(token, "-")
  {
  }

  lemma DashIsNoNumber(s: string)
    ensures ParseU64(s).Some? ==> s != "" && s[0] != '-'
  {
    if ParseU64(s).Some? && s[0] != '+' {
      DigitAt(s, |s|, 0);
    }
  }

  /** What parses as a duration does not start with a dash. */
  lemma DurationIsNoOption(token: string)
    requires ParseSecs(token).Some?
    ensures !HasPrefix(token, KILL_AFTER) && token != "-k" && !HasPrefix(token, "-k") && !HasPrefix(token, "-")
  {
    DashIsNoNumber(token);
    if token != "" {
      DashIsNoNumber(token[..|token| - 1]);
    }
    PrefixAt(token, "-", 0);
    NoDash(token);
  }

  lemma FourWords(w: string, x: string, y: string, z: string, args: string, a: string, b: string, c: string)
    requires IsWord(w) && IsWord(x) && IsWord(y) && IsWord(z)
    requires a == z + (" " + args) && b == y + (" " + a) && c == x + (" " + b)
    ensures Words(w + (" " + c), 0) == [w] + ([x] + ([y] + ([z] + Words(args, 0))))
  {
    FirstWord(z, args);
    FirstWord(y, a);
    FirstWord(x, b);
    FirstWord(w, c);
  }

  lemma Flat(w: string, x: string, y: string, z: string, rest: seq<string>)
    ensures [w] + ([x] + ([y] + ([z] + rest))) == [w, x, y, z] + rest
  {
  }

  lemma RenderedWords(e: Escalation, args: string)
    ensures Words(Render(e, args), 0)
         == ["timeout", "-k", Print(e.grace.secs), Print(e.limit.secs)] + Words(args, 0)
  {
    var g, l := Print(e.grace.secs), Print(e.limit.secs);
    PrintedIsWord(e.grace.secs);
    PrintedIsWord(e.limit.secs);
    var a := l + (" " + args);
    var b := g + (" " + a);
    FourWords("timeout", "-k", g, l, args, a, b, "-k" + (" " + b));
    Flat("timeout", "-k", g, l, Words(args, 0));
  }

  lemma ShortOption(st: Scan)
    requires st.limit.None? && !st.graceNext
    ensures Step(st, "-k") == st.(graceNext := true)
  {
    assert KILL_AFTER[1] == '-';
  }

  lemma OptionsThenLimit(g: string, l: string, rest: seq<string>)
    requires ParseSecs(l).Some?
    ensures Classify(["timeout", "-k", g, l] + rest)
         == if ParseSecs(g).Some? then Escalating(ParseSecs(l).value, ParseSecs(g).value) else Bare(ParseSecs(l).value)
  {
    var tokens := ["timeout", "-k", g, l] + rest;
    var after := tokens[1..];
    assert Wrapper(tokens, 0) == 0;
    ShortOption(Scan(None, None, false));
    assert ScanTo(after, 1) == Scan(None, None, true);
    assert ScanTo(after, 2) == Scan(None, ParseSecs(g), false);
    DurationIsNoOption(l);
    assert ScanTo(after, 3) == Scan(ParseSecs(l), ParseSecs(g), false);
    LimitEnds(after, 3, |after|);
  }

  /** Inspecting a rendered command finds its limit and grace, to the second. */
  lemma RenderedIsRecognised(e: Escalation, args: string)
    requires e.limit.Valid() && e.grace.Valid()
    ensures Classify(Words(Render(e, args), 0)) == Escalating(Duration(e.limit.secs, 0), Duration(e.grace.secs, 0))
  {
    RenderedWords(e, args);
    PrintedParses(e.grace.secs);
    PrintedParses(e.limit.secs);
    OptionsThenLimit(Print(e.grace.secs), Print(e.limit.secs), Words(args, 0));
  }

  /** It finds the escalation itself exactly when both durations are whole seconds. */
  lemma RoundTripIffWhole(e: Escalation, args: string)
    requires e.limit.Valid() && e.grace.Valid()
    ensures Classify(Words(Render(e, args), 0)) == Escalating(e.limit, e.grace)
       <==> e.limit.IsWhole() && e.grace.IsWhole()
  {
    RenderedIsRecognised(e, args);
  }

  // ----- the spellings of the option -----

  lemma JoinedPrefix(p: string, g: string)
    ensures HasPrefix(p + g, p) && (p + g)[|p|..] == g
  {
    assert (p + g)[..|p|] == p;
  }

  lemma NotLong(g: string)
    ensures !HasPrefix("-k" + g, KILL_AFTER)
  {
    PrefixAt("-k" + g, KILL_AFTER, 1);
  }

  /** `-k G`, `-kG` and `--kill-after=G` leave the scan in the same state. */
  lemma SpellingsAgree(st: Scan, g: string)
    requires st.limit.None? && !st.graceNext && g != ""
    ensures Step(st, "-k" + g) == Step(Step(st, "-k"), g)
    ensures Step(st, KILL_AFTER + g) == Step(Step(st, "-k"), g)
  {
    ShortOption(st);
    JoinedPrefix("-k", g);
    NotLong(g);
    assert ("-k" + g)[2..] == g;
    JoinedPrefix(KILL_AFTER, g);
  }

  lemma {:induction false} SameScan(a: seq<string>, b: seq<string>, rest: seq<string>, n: nat, x: seq<string>, y: seq<string>)
    requires ScanTo(a, |a|) == ScanTo(b, |b|) && n <= |rest| && x == a + rest && y == b + rest
    ensures ScanTo(x, |a| + n) == ScanTo(y, |b| + n)
  {
    if n == 0 {
      ScanPrefix(a, rest, |a|);
      ScanPrefix(b, rest, |b|);
    } else {
      SameScan(a, b, rest, n - 1, x, y);
      SameToken(a, b, rest, n - 1, x, y);
      NextScan(x, |a| + n - 1, ScanTo(x, |a| + n - 1));
      NextScan(y, |b| + n - 1, ScanTo(y, |b| + n - 1));
    }
  }

  lemma SameToken(a: seq<string>, b: seq<string>, rest: seq<string>, i: nat, x: seq<string>, y: seq<string>)
    requires i < |rest| && x == a + rest && y == b + rest
    ensures x[|a| + i] == rest[i] == y[|b| + i]
  {
  }

  lemma {:induction false} ScanPrefix(a: seq<string>, rest: seq<string>, n: nat)
    requires n <= |a|
    ensures ScanTo(a + rest, n) == ScanTo(a, n)
  {
    if n > 0 {
      ScanPrefix(a, rest, n - 1);
    }
  }

  lemma ScanSnoc(a: seq<string>, token: string)
    ensures ScanTo(a + [token], |a| + 1) == Step(ScanTo(a, |a|), token)
  {
    ScanPrefix(a, [token], |a|);
  }

  lemma SpelledScan(before: seq<string>, g: string, spelled: string)
    requires g != "" && !ScanTo(before, |before|).graceNext
    requires spelled == "-k" + g || spelled == KILL_AFTER + g
    ensures ScanTo(before + [spelled], |before| + 1) == ScanTo(before + ["-k"] + [g], |before| + 2)
  {
    var st := ScanTo(before, |before|);
    ScanSnoc(before, spelled);
    ScanSnoc(before, "-k");
    ScanSnoc(before + ["-k"], g);
    if st.limit.None? {
      SpellingsAgree(st, g);
    }
  }

  lemma ClassifyAfter(after: seq<string>)
    ensures Classify(["timeout"] + after) == Behind(after)
  {
    assert (["timeout"] + after)[1..] == after;
  }

  lemma SpelledBehind(before: seq<string>, g: string, rest: seq<string>, spelled: string, x: seq<string>, y: seq<string>)
    requires g != "" && !ScanTo(before, |before|).graceNext
    requires spelled == "-k" + g || spelled == KILL_AFTER + g
    requires x == before + [spelled] + rest && y == before + ["-k"] + [g] + rest
    ensures Behind(x) == Behind(y)
  {
    SpelledScan(before, g, spelled);
    SameScan(before + [spelled], before + ["-k"] + [g], rest, |rest|, x, y);
  }

  /** After any options that leave no value pending, the three spellings are classified alike. */
  lemma SpellingsClassifyAlike(before: seq<string>, g: string, rest: seq<string>, spelled: string,
                               x: seq<string>, y: seq<string>)
    requires g != "" && !ScanTo(before, |before|).graceNext
    requires spelled == "-k" + g || spelled == KILL_AFTER + g
    requires x == before + [spelled] + rest && y == before + ["-k"] + [g] + rest
    ensures Classify(["timeout"] + x) == Classify(["timeout"] + y)
  {
    SpelledBehind(before, g, rest, spelled, x, y);
    ClassifyAfter(x);
    ClassifyAfter(y);
  }

  // ----- the spaced long form -----

  /** The words read so far leave both the limit and the meaning of the next word open. */
  predicate IsOpen(st: Scan) {
    st.limit.None? && !st.graceNext
  }

  function StepThree(st: Scan, a: string, b: string, c: string): Scan {
    Step(Step(Step(st, a), b), c)
  }

  lemma LongOptionSkipped(st: Scan)
    requires IsOpen(st)
    ensures Step(st, "--kill-after") == st
  {
    var token := "--kill-after";
    assert token[..1] == "-";
    assert token[..2][1] == '-';
  }

  lemma PendingTakesEither(st: Scan)
    requires !IsOpen(st)
    ensures Step(st, "--kill-after") == Step(st, "-k")
  {
    assert ParseSecs("--kill-after").None? by {
      if ParseSecs("--kill-after").Some? {
        DurationIsNoOption("--kill-after");
        DashIsPrefix("--kill-after");
      }
    }
    assert ParseSecs("-k").None? by {
      if ParseSecs("-k").Some? {
        DurationIsNoOption("-k");
      }
    }
  }

  lemma ShortThree(st: Scan, g: string, l: string)
    requires IsOpen(st) && ParseSecs(l).Some?
    ensures StepThree(st, "-k", g, l) == Scan(ParseSecs(l), ParseSecs(g), false)
  {
    ShortOption(st);
    DurationIsNoOption(l);
  }

  lemma LongThree(st: Scan, g: string, l: string)
    requires IsOpen(st) && ParseSecs(l).Some? && g != "-k"
    ensures StepThree(st, "--kill-after", g, l)
         == if ParseSecs(g).Some? then Scan(ParseSecs(g), st.grace, false) else Scan(ParseSecs(l), Step(st, g).grace, false)
  {
    LongOptionSkipped(st);
    DurationIsNoOption(l);
    if ParseSecs(g).Some? {
      DurationIsNoOption(g);
    }
  }

  lemma ScanThree(before: seq<string>, a: string, b: string, c: string)
    ensures ScanTo(before + [a, b, c], |before| + 3) == StepThree(ScanTo(before, |before|), a, b, c)
  {
    ScanPrefix(before, [a, b, c], |before|);
    var t, n := before + [a, b, c], |before|;
    assert t[n] == a && t[n + 1] == b && t[n + 2] == c;
    assert ScanTo(t, n + 1) == Step(ScanTo(t, n), a);
    assert ScanTo(t, n + 2) == Step(ScanTo(t, n + 1), b);
  }

  lemma DecidedVerdict(a: seq<string>, rest: seq<string>, x: seq<string>)
    requires ScanTo(a, |a|).limit.Some? && x == a + rest
    ensures Behind(x) == Verdict(ScanTo(a, |a|))
  {
    ScanPrefix(a, rest, |a|);
    LimitEnds(x, |a|, |x|);
  }

  /** When `G` counts alike in both forms: `G` is a duration that was the grace already and equals
      the limit, or no duration and no grace is left. */
  predicate Coincide(st: Scan, g: string, l: string) {
    if ParseSecs(g).Some? then st.grace == ParseSecs(g) == ParseSecs(l) else Step(st, g).grace.None?
  }

  function LongEnd(st: Scan, g: string, l: string): Scan {
    if ParseSecs(g).Some? then Scan(ParseSecs(g), st.grace, false) else Scan(ParseSecs(l), Step(st, g).grace, false)
  }

  lemma VerdictsAgree(st: Scan, g: string, l: string)
    requires ParseSecs(l).Some?
    ensures Verdict(LongEnd(st, g, l)) == Verdict(Scan(ParseSecs(l), ParseSecs(g), false)) <==> Coincide(st, g, l)
  {
  }

  lemma ThreeMore(before: seq<string>, a: string, b: string, c: string, t: seq<string>, end: Scan)
    requires t == before + [a, b, c] && end == StepThree(ScanTo(before, |before|), a, b, c)
    ensures ScanTo(t, |t|) == end
  {
    ScanThree(before, a, b, c);
  }

  lemma BehindIs(x: seq<string>, n: nat, end: Scan)
    requires n == |x| && ScanTo(x, n) == end
    ensures Behind(x) == Verdict(end)
  {
  }

  lemma BehindSame(a: seq<string>, b: seq<string>, rest: seq<string>, x: seq<string>, y: seq<string>, m: nat, n: nat)
    requires ScanTo(a, |a|) == ScanTo(b, |b|) && x == a + rest && y == b + rest
    requires m == |a| + |rest| && n == |b| + |rest|
    ensures Behind(x) == Behind(y)
  {
    SameScan(a, b, rest, |rest|, x, y);
    BehindIs(x, m, ScanTo(x, m));
    BehindIs(y, n, ScanTo(x, m));
  }

  lemma OpenLong(before: seq<string>, g: string, l: string, rest: seq<string>, t: seq<string>, x: seq<string>, st: Scan)
    requires ParseSecs(l).Some? && g != "-k" && IsOpen(st) && st == ScanTo(before, |before|)
    requires t == before + ["--kill-after", g, l] && x == t + rest
    ensures Behind(x) == Verdict(LongEnd(st, g, l))
  {
    LongThree(st, g, l);
    ThreeMore(before, "--kill-after", g, l, t, LongEnd(st, g, l));
    DecidedVerdict(t, rest, x);
  }

  lemma OpenShort(before: seq<string>, g: string, l: string, rest: seq<string>, t: seq<string>, y: seq<string>, st: Scan)
    requires ParseSecs(l).Some? && IsOpen(st) && st == ScanTo(before, |before|)
    requires t == before + ["-k", g, l] && y == t + rest
    ensures Behind(y) == Verdict(Scan(ParseSecs(l), ParseSecs(g), false))
  {
    ShortThree(st, g, l);
    ThreeMore(before, "-k", g, l, t, Scan(ParseSecs(l), ParseSecs(g), false));
    DecidedVerdict(t, rest, y);
  }

  lemma ClosedAlike(before: seq<string>, g: string, l: string, rest: seq<string>, s: seq<string>, t: seq<string>,
                    x: seq<string>, y: seq<string>, end: Scan)
    requires !IsOpen(ScanTo(before, |before|)) && end == StepThree(ScanTo(before, |before|), "-k", g, l)
    requires s == before + ["--kill-after", g, l] && t == before + ["-k", g, l]
    requires x == s + rest && y == t + rest
    ensures Behind(x) == Behind(y)
  {
    PendingTakesEither(ScanTo(before, |before|));
    ThreeMore(before, "--kill-after", g, l, s, end);
    ThreeMore(before, "-k", g, l, t, end);
    BehindSame(s, t, rest, x, y, |s| + |rest|, |t| + |rest|);
  }

  /** With a limit `L` next, the spaced long form takes a duration `G` for the limit and drops `L`;
      it is classified like `-k G` exactly when the words before leave nothing open or `G` counts
      alike. */
  lemma SpacedLongForm(before: seq<string>, g: string, l: string, rest: seq<string>, x: seq<string>, y: seq<string>)
    requires ParseSecs(l).Some? && g != "-k"
    requires x == before + ["--kill-after", g, l] + rest && y == before + ["-k", g, l] + rest
    ensures var st := ScanTo(before, |before|);
            && (Classify(["timeout"] + x) == Classify(["timeout"] + y) <==> !IsOpen(st) || Coincide(st, g, l))
            && (IsOpen(st) && ParseSecs(g).Some? ==>
                  Classify(["timeout"] + x) == Verdict(Scan(ParseSecs(g), st.grace, false)))
  {
    var st := ScanTo(before, |before|);
    ClassifyAfter(x);
    ClassifyAfter(y);
    if IsOpen(st) {
      OpenLong(before, g, l, rest, before + ["--kill-after", g, l], x, st);
      OpenShort(before, g, l, rest, before + ["-k", g, l], y, st);
      VerdictsAgree(st, g, l);
    } else {
      ClosedAlike(before, g, l, rest, before + ["--kill-after", g, l], before + ["-k", g, l], x, y, StepThree(st, "-k", g, l));
    }
  }

  /** Directly behind `timeout` a duration `G` always becomes a limit without escalation. */
  lemma SpacedFormIsBare(g: string, l: string, rest: seq<string>, x: seq<string>)
    requires ParseSecs(g).Some? && ParseSecs(l).Some? && x == ["--kill-after", g, l] + rest
    ensures Classify(["timeout"] + x) == Bare(ParseSecs(g).value)
  {
    DurationIsNoOption(g);
    assert x == [] + ["--kill-after", g, l] + rest;
    SpacedLongForm([], g, l, rest, x, [] + ["-k", g, l] + rest);
  }

  // ----- what a word denotes -----

  /** A unit is worth `k` seconds; none means seconds. */
  predicate IsUnit(suffix: string, k: nat) {
    || (suffix == "" && k == 1) || (suffix == "s" && k == 1) || (suffix == "m" && k == 60)
    || (suffix == "h" && k == 3600) || (suffix == "d" && k == 86400)
  }

  /** A number, perhaps behind a plus sign, and perhaps a unit. */
  predicate IsSpan(token: string, sign: string, digits: string, suffix: string, k: nat) {
    && token == sign + digits + suffix && (sign == "" || sign == "+") && IsUnit(suffix, k)
    && digits != "" && AllDigits(digits, |digits|)
  }

  lemma NumberIs(number: string, sign: string, digits: string)
    requires number == sign + digits && (sign == "" || sign == "+") && digits != "" && AllDigits(digits, |digits|)
    ensures ParseU64(number) == if Value(digits, |digits|) <= U64_MAX then Some(Value(digits, |digits|)) else None
  {
    DigitAt(digits, |digits|, 0);
    if sign == "+" {
      assert number[1..] == digits;
    } else {
      assert number == digits;
    }
  }

  lemma LastIs(token: string, front: string, suffix: string, k: nat)
    requires token == front + suffix && front != "" && IsDigit(front[|front| - 1]) && IsUnit(suffix, k)
    ensures suffix == "" ==> token == front && Unit(token[|token| - 1]).None?
    ensures suffix != "" ==> token[..|token| - 1] == front && Unit(token[|token| - 1]) == Some(k)
  {
  }

  lemma ProductFits(n: nat, k: nat, suffix: string)
    requires IsUnit(suffix, k)
    ensures n * k <= U64_MAX ==> n <= U64_MAX
  {
  }

  lemma SpanOf(token: string, front: string, suffix: string, k: nat, n: nat, v: nat)
    requires token == front + suffix && front != "" && IsDigit(front[|front| - 1]) && IsUnit(suffix, k)
    requires ParseU64(front) == (if n <= U64_MAX then Some(n) else None)
    requires v == n * k && (v <= U64_MAX ==> n <= U64_MAX)
    ensures ParseSecs(token) == if v <= U64_MAX then Some(Duration(v, 0)) else None
  {
    LastIs(token, front, suffix, k);
  }

  lemma FrontEnds(sign: string, digits: string)
    requires digits != "" && AllDigits(digits, |digits|)
    ensures (sign + digits) != "" && IsDigit((sign + digits)[|sign + digits| - 1])
  {
    DigitAt(digits, |digits|, |digits| - 1);
    assert (sign + digits)[|sign + digits| - 1] == digits[|digits| - 1];
  }

  /** A number of units is read as that many seconds, unless they exceed 64 bits. */
  lemma SpanParses(token: string, sign: string, digits: string, suffix: string, k: nat, n: nat, v: nat)
    requires IsSpan(token, sign, digits, suffix, k) && n == Value(digits, |digits|) && v == n * k
    ensures ParseSecs(token) == if v <= U64_MAX then Some(Duration(v, 0)) else None
  {
    FrontEnds(sign, digits);
    NumberIs(sign + digits, sign, digits);
    ProductFits(n, k, suffix);
    SpanOf(token, sign + digits, suffix, k, n, v);
  }

  lemma NumberParses(number: string) returns (sign: string, digits: string)
    requires ParseU64(number).Some?
    ensures number == sign + digits && (sign == "" || sign == "+") && digits != "" && AllDigits(digits, |digits|)
    ensures ParseU64(number) == Some(Value(digits, |digits|))
  {
    if number[0] == '+' {
      sign, digits := "+", number[1..];
    } else {
      sign, digits := "", number;
    }
  }

  /** Nothing else is read as a duration. */
  lemma ParsedIsSpan(token: string) returns (sign: string, digits: string, suffix: string, k: nat)
    requires ParseSecs(token).Some?
    ensures IsSpan(token, sign, digits, suffix, k)
    ensures ParseSecs(token) == Some(Duration(Value(digits, |digits|) * k, 0))
  {
    var unit := if token == "" then None else Unit(token[|token| - 1]);
    if unit.Some? {
      sign, digits := NumberParses(token[..|token| - 1]);
      suffix, k := [token[|token| - 1]], unit.value;
    } else {
      sign, digits := NumberParses(token);
      suffix, k := "", 1;
    }
  }

  // ----- what decides the class -----

  /** Word `i` is taken as the value of a `-k` before it. */
  predicate IsValue(after: seq<string>, i: nat)
    requires i < |after|
  {
    i > 0 && after[i - 1] == "-k" && !IsValue(after, i - 1)
  }

  /** Word `i` is a duration that stands for the limit. */
  predicate IsLimit(after: seq<string>, i: nat)
    requires i < |after|
  {
    !IsValue(after, i) && ParseSecs(after[i]).Some?
  }

  /** Word `i` gives the grace as `g`. */
  ghost predicate Gives(after: seq<string>, i: nat, g: string)
    requires i < |after|
  {
    if IsValue(after, i) then after[i] == g
    else after[i] == "--kill-after=" + g || (after[i] == "-k" + g && g != "")
  }

  /** The last of the first `n` words that gives the grace gives `grace`, or none of them does. */
  ghost predicate IsGrace(after: seq<string>, n: nat, grace: Option<Duration>)
    requires n <= |after|
  {
    || (grace.None? && forall i, g :: 0 <= i < n ==> !Gives(after, i, g))
    || exists i, g :: 0 <= i < n && Gives(after, i, g) && grace == ParseSecs(g)
                      && forall j, h :: i < j < n ==> !Gives(after, j, h)
  }

  lemma GivenOnce(after: seq<string>, i: nat, g: string, h: string)
    requires i < |after| && Gives(after, i, g) && Gives(after, i, h)
    ensures g == h
  {
    NotLong(g);
    NotLong(h);
    JoinedPrefix(KILL_AFTER, g);
    JoinedPrefix(KILL_AFTER, h);
    JoinedPrefix("-k", g);
    JoinedPrefix("-k", h);
  }

  lemma StepGives(st: Scan, after: seq<string>, i: nat, g: string)
    requires i < |after| && st.limit.None? && (st.graceNext <==> IsValue(after, i)) && Gives(after, i, g)
    ensures Step(st, after[i]) == st.(grace := ParseSecs(g), graceNext := false)
  {
    if !IsValue(after, i) {
      NotLong(g);
      JoinedPrefix(KILL_AFTER, g);
      JoinedPrefix("-k", g);
    }
  }

  lemma PrefixSplits(s: string, p: string)
    requires HasPrefix(s, p)
    ensures s == p + s[|p|..]
  {
  }

  /** A word that gives no grace and is no limit changes nothing but what the next word means. */
  lemma StepPasses(st: Scan, after: seq<string>, i: nat)
    requires i < |after| && st.limit.None? && (st.graceNext <==> IsValue(after, i)) && !IsLimit(after, i)
    requires forall g :: !Gives(after, i, g)
    ensures Step(st, after[i]) == st.(graceNext := after[i] == "-k")
  {
    var token := after[i];
    assert !Gives(after, i, token);
    assert !Gives(after, i, if HasPrefix(token, KILL_AFTER) then token[|KILL_AFTER|..] else "");
    assert !Gives(after, i, if HasPrefix(token, "-k") then token[2..] else "");
    if HasPrefix(token, KILL_AFTER) {
      PrefixSplits(token, KILL_AFTER);
    }
    if HasPrefix(token, "-k") {
      PrefixSplits(token, "-k");
    }
    if token == "-k" {
      ShortOption(st);
    }
  }

  lemma GraceGiven(after: seq<string>, n: nat, g: string)
    requires n < |after| && Gives(after, n, g)
    ensures IsGrace(after, n + 1, ParseSecs(g))
  {
  }

  lemma GracePasses(after: seq<string>, n: nat, grace: Option<Duration>)
    requires n < |after| && IsGrace(after, n, grace) && forall g :: !Gives(after, n, g)
    ensures IsGrace(after, n + 1, grace)
  {
    if i, g :| 0 <= i < n && Gives(after, i, g) && grace == ParseSecs(g) && forall j, h :: i < j < n ==> !Gives(after, j, h) {
      assert forall j, h :: i < j < n + 1 ==> !Gives(after, j, h);
    }
  }

  lemma GivesNoOption(after: seq<string>, n: nat, g: string)
    requires n < |after| && Gives(after, n, g)
    ensures after[n] == "-k" ==> IsValue(after, n)
  {
    if after[n] == KILL_AFTER + g {
      assert |after[n]| >= 13;
    }
  }

  /** Before the limit the scan holds the last grace given, and whether a value is pending. */
  lemma {:induction false} ScanIs(after: seq<string>, n: nat)
    requires n <= |after| && forall i :: 0 <= i < n ==> !IsLimit(after, i)
    ensures ScanTo(after, n).limit.None? && IsGrace(after, n, ScanTo(after, n).grace)
    ensures ScanTo(after, n).graceNext <==> n > 0 && after[n - 1] == "-k" && !IsValue(after, n - 1)
  {
    if n > 0 {
      var k := n - 1;
      var st := ScanTo(after, k);
      ScanIs(after, k);
      NextScan(after, k, st);
      assert st.graceNext <==> IsValue(after, k);
      if g :| Gives(after, k, g) {
        StepGives(st, after, k, g);
        GraceGiven(after, k, g);
        GivesNoOption(after, k, g);
      } else {
        StepPasses(st, after, k);
        GracePasses(after, k, st.grace);
        assert !Gives(after, k, after[k]);
      }
    }
  }

  lemma GraceIsOne(after: seq<string>, n: nat, a: Option<Duration>, b: Option<Duration>)
    requires n <= |after| && IsGrace(after, n, a) && IsGrace(after, n, b)
    ensures a == b
  {
    if i, g :| 0 <= i < n && Gives(after, i, g) && a == ParseSecs(g) && forall j, h :: i < j < n ==> !Gives(after, j, h) {
      var k, h :| 0 <= k < n && Gives(after, k, h) && b == ParseSecs(h) && forall j, h :: k < j < n ==> !Gives(after, j, h);
      assert !(i < k) && !(k < i);
      GivenOnce(after, i, g, h);
    }
  }

  lemma StepLimit(st: Scan, after: seq<string>, i: nat)
    requires i < |after| && st.limit.None? && (st.graceNext <==> IsValue(after, i)) && IsLimit(after, i)
    ensures Step(st, after[i]) == Scan(ParseSecs(after[i]), st.grace, false)
  {
    DurationIsNoOption(after[i]);
  }

  lemma LimitDecides(after: seq<string>, i: nat, grace: Option<Duration>)
    requires i < |after| && IsLimit(after, i) && IsGrace(after, i, grace)
    requires forall j :: 0 <= j < i ==> !IsLimit(after, j)
    ensures Behind(after) == Verdict(Scan(ParseSecs(after[i]), grace, false))
  {
    var st := ScanTo(after, i);
    ScanIs(after, i);
    GraceIsOne(after, i, st.grace, grace);
    NextScan(after, i, st);
    StepLimit(st, after, i);
    LimitEnds(after, i + 1, |after|);
  }

  lemma {:induction false} WrapperIs(before: seq<string>, after: seq<string>, tokens: seq<string>, i: nat)
    requires i <= |before| && "timeout" !in before && tokens == before + ["timeout"] + after
    ensures Wrapper(tokens, i) == |before|
    decreases |before| - i
  {
    if i < |before| {
      assert tokens[i] == before[i];
      WrapperIs(before, after, tokens, i + 1);
    } else {
      assert tokens[i] == "timeout";
    }
  }

  lemma {:induction false} NoWrapper(tokens: seq<string>, i: nat)
    requires i <= |tokens| && "timeout" !in tokens
    ensures Wrapper(tokens, i) == |tokens|
    decreases |tokens| - i
  {
    if i < |tokens| {
      NoWrapper(tokens, i + 1);
    }
  }

  /** The first duration behind the first `timeout` that is no option's value is the limit, and the last grace
      given before it the grace; the call is bounded with escalation exactly when both are durations. */
  lemma ClassifiedByLimit(before: seq<string>, after: seq<string>, tokens: seq<string>, i: nat, grace: Option<Duration>)
    requires "timeout" !in before && tokens == before + ["timeout"] + after
    requires i < |after| && IsLimit(after, i) && IsGrace(after, i, grace)
    requires forall j :: 0 <= j < i ==> !IsLimit(after, j)
    ensures grace.Some? ==> Classify(tokens) == Escalating(ParseSecs(after[i]).value, grace.value)
    ensures grace.None? ==> Classify(tokens) == Bare(ParseSecs(after[i]).value)
  {
    WrapperIs(before, after, tokens, 0);
    assert tokens[|before| + 1..] == after;
    LimitDecides(after, i, grace);
  }

  /** Without a `timeout`, or a limit behind it, the call is unbounded. */
  lemma ClassifiedUnbounded(before: seq<string>, after: seq<string>, tokens: seq<string>)
    requires "timeout" !in before
    requires tokens == before || (tokens == before + ["timeout"] + after && forall i :: 0 <= i < |after| ==> !IsLimit(after, i))
    ensures Classify(tokens) == Unbounded
  {
    if tokens == before {
      NoWrapper(tokens, 0);
    } else {
      WrapperIs(before, after, tokens, 0);
      assert tokens[|before| + 1..] == after;
      ScanIs(after, |after|);
    }
  }
}
