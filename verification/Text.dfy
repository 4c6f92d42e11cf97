/** Python string primitives used by the ingest scripts: whitespace, line
    breaks, `strip`, `splitlines` and `"\n".join`. */
module Text {

  /** Membership of a code point in a table of inclusive ranges. */
  predicate InRanges(n: int, ranges: seq<(int, int)>) {
    ranges != [] && (ranges[0].0 <= n <= ranges[0].1 || InRanges(n, ranges[1..]))
  }

  const BREAKS: seq<(int, int)> := [(0x0A, 0x0D), (0x1C, 0x1E), (0x85, 0x85), (0x2028, 0x2029)]

  const OTHER_SPACES: seq<(int, int)> :=
    [(0x09, 0x09), (0x1F, 0x20), (0xA0, 0xA0), (0x1680, 0x1680), (0x2000, 0x200A), (0x202F, 0x202F),
     (0x205F, 0x205F), (0x3000, 0x3000)]

  /** Characters at which `str.splitlines` ends a line. */
  predicate IsBreak(c: char) {
    InRanges(c as int, BREAKS)
  }

  /** Characters removed by `str.strip` and matched by `\s`. */
  predicate IsSpace(c: char) {
    IsBreak(c) || InRanges(c as int, OTHER_SPACES)
  }

  lemma CharFacts()
    ensures IsBreak('\n') && IsBreak('\r') && IsSpace(' ') && !IsBreak(' ')
    ensures !IsSpace('#') && !IsSpace('`')
  {
    Visible('#');
    Visible('`');
    NotInRanges(0x20, BREAKS, 4);
    assert InRanges(0x20, OTHER_SPACES[1..]);
  }

  /** A printable ASCII character is neither whitespace nor a break. */
  lemma Visible(c: char)
    requires '!' <= c <= '~'
    ensures !IsSpace(c) && !IsBreak(c)
  {
    NotInRanges(c as int, BREAKS, 4);
    NotInRanges(c as int, OTHER_SPACES, 8);
  }

  lemma {:induction false} NotInRanges(n: int, ranges: seq<(int, int)>, size: nat)
    requires |ranges| == size
    requires forall i :: 0 <= i < |ranges| ==> !(ranges[i].0 <= n <= ranges[i].1)
    ensures !InRanges(n, ranges)
  {
    if ranges != [] {
      NotInRanges(n, ranges[1..], size - 1);
    }
  }

  predicate Blank(s: string) {
    forall i :: 0 <= i < |s| ==> IsSpace(s[i])
  }

  predicate BreakFree(s: string) {
    forall i :: 0 <= i < |s| ==> !IsBreak(s[i])
  }

  predicate AllBreakFree(lines: seq<string>) {
    forall i :: 0 <= i < |lines| ==> BreakFree(lines[i])
  }

  function SpacesEnd(s: string, i: nat): (n: nat)
    requires i <= |s|
    ensures i <= n <= |s|
    decreases |s| - i
  {
    if i < |s| && IsSpace(s[i]) then SpacesEnd(s, i + 1) else i
  }

  function ContentEnd(s: string, n: nat): (k: nat)
    requires n <= |s|
    ensures k <= n
  {
    if n > 0 && IsSpace(s[n - 1]) then ContentEnd(s, n - 1) else n
  }

  function LStrip(s: string): string {
    s[SpacesEnd(s, 0)..]
  }

  function RStrip(s: string): string {
    s[..ContentEnd(s, |s|)]
  }

  function Strip(s: string): string {
    RStrip(LStrip(s))
  }

  lemma {:induction false} SpacesEndIs(s: string, i: nat, k: nat)
    requires i <= k <= |s| && (k < |s| ==> !IsSpace(s[k]))
    requires forall j :: i <= j < k ==> IsSpace(s[j])
    ensures SpacesEnd(s, i) == k
    decreases k - i
  {
    if i < k {
      SpacesEndIs(s, i + 1, k);
    }
  }

  lemma {:induction false} SpacesEndFacts(s: string, i: nat)
    requires i <= |s|
    ensures var n := SpacesEnd(s, i);
            (n < |s| ==> !IsSpace(s[n])) && forall j :: i <= j < n ==> IsSpace(s[j])
    decreases |s| - i
  {
    if i < |s| && IsSpace(s[i]) {
      SpacesEndFacts(s, i + 1);
    }
  }

  lemma {:induction false} ContentEndIs(s: string, n: nat, k: nat)
    requires k <= n <= |s| && (k > 0 ==> !IsSpace(s[k - 1]))
    requires forall j :: k <= j < n ==> IsSpace(s[j])
    ensures ContentEnd(s, n) == k
  {
    if k < n {
      ContentEndIs(s, n - 1, k);
    }
  }

  lemma {:induction false} ContentEndFacts(s: string, n: nat)
    requires n <= |s|
    ensures var k := ContentEnd(s, n);
            (k > 0 ==> !IsSpace(s[k - 1])) && forall j :: k <= j < n ==> IsSpace(s[j])
  {
    if n > 0 && IsSpace(s[n - 1]) {
      ContentEndFacts(s, n - 1);
    }
  }

  lemma LStripFacts(s: string)
    ensures |LStrip(s)| <= |s| && LStrip(s) == s[|s| - |LStrip(s)|..]
    ensures LStrip(s) != "" ==> !IsSpace(LStrip(s)[0])
    ensures LStrip(s) == "" <==> Blank(s)
  {
    SpacesEndFacts(s, 0);
  }

  lemma RStripFacts(s: string)
    ensures |RStrip(s)| <= |s| && RStrip(s) == s[..|RStrip(s)|]
    ensures RStrip(s) != "" ==> !IsSpace(RStrip(s)[|RStrip(s)| - 1])
    ensures RStrip(s) == "" <==> Blank(s)
  {
    ContentEndFacts(s, |s|);
  }

  /** Whitespace at both ends is cut off, and nothing else. */
  lemma StripIs(s: string, a: nat, b: nat)
    requires a <= b <= |s| && (if a < b then !IsSpace(s[a]) && !IsSpace(s[b - 1]) else b == |s|)
    requires (forall i :: 0 <= i < a ==> IsSpace(s[i])) && forall i :: b <= i < |s| ==> IsSpace(s[i])
    ensures Strip(s) == s[a..b]
  {
    SpacesEndIs(s, 0, a);
    ContentEndIs(s[a..], |s| - a, b - a);
    assert s[a..][..b - a] == s[a..b];
  }

  lemma StripBlank(s: string)
    ensures Strip(s) == "" <==> Blank(s)
  {
    LStripFacts(s);
    RStripFacts(LStrip(s));
  }

  /** `"\n".join(lines)` */
  function Join(lines: seq<string>): string {
    if lines == [] then ""
    else if |lines| == 1 then lines[0]
    else lines[0] + "\n" + Join(lines[1..])
  }

  function PushChar(c: char, lines: seq<string>): seq<string> {
    if lines == [] then [[c]] else [[c] + lines[0]] + lines[1..]
  }

  /** Width of the line break a text starts with: `\r\n` counts as one. */
  function BreakWidth(s: string): (w: nat)
    requires s != ""
    ensures 0 < w <= |s|
  {
    if |s| >= 2 && s[0] == '\r' && s[1] == '\n' then 2 else 1
  }

  /** `str.splitlines()` */
  function SplitLines(s: string): seq<string>
    decreases |s|
  {
    if s == "" then []
    else if IsBreak(s[0]) then [""] + SplitLines(s[BreakWidth(s)..])
    else PushChar(s[0], SplitLines(s[1..]))
  }

  lemma {:induction false} SplitBreakFree(s: string)
    ensures AllBreakFree(SplitLines(s))
    ensures s != "" <==> SplitLines(s) != []
    decreases |s|
  {
    if s != "" {
      if IsBreak(s[0]) {
        SplitBreakFree(s[BreakWidth(s)..]);
      } else {
        SplitBreakFree(s[1..]);
      }
    }
  }

  // ----- strip over a concatenation -----

  lemma LStripConcat(a: string, b: string)
    ensures Blank(a) ==> LStrip(a + b) == LStrip(b)
    ensures !Blank(a) ==> LStrip(a + b) == LStrip(a) + b
  {
    var k, n := SpacesEnd(a, 0), SpacesEnd(b, 0);
    SpacesEndFacts(a, 0);
    SpacesEndFacts(b, 0);
    if Blank(a) {
      forall j | 0 <= j < |a| + n ensures IsSpace((a + b)[j]) {
        assert (a + b)[j] == if j < |a| then a[j] else b[j - |a|];
      }
      SpacesEndIs(a + b, 0, |a| + n);
      assert (a + b)[|a| + n..] == b[n..];
    } else {
      SpacesEndIs(a + b, 0, k);
      assert (a + b)[k..] == a[k..] + b;
    }
  }

  lemma RStripConcat(a: string, b: string)
    ensures Blank(b) ==> RStrip(a + b) == RStrip(a)
    ensures !Blank(b) ==> RStrip(a + b) == a + RStrip(b)
  {
    var k, n := ContentEnd(a, |a|), ContentEnd(b, |b|);
    ContentEndFacts(a, |a|);
    ContentEndFacts(b, |b|);
    if Blank(b) {
      forall j | k <= j < |a + b| ensures IsSpace((a + b)[j]) {
        assert (a + b)[j] == if j < |a| then a[j] else b[j - |a|];
      }
      ContentEndIs(a + b, |a + b|, k);
      assert (a + b)[..k] == a[..k];
    } else {
      forall j | |a| + n <= j < |a + b| ensures IsSpace((a + b)[j]) {
        assert (a + b)[j] == b[j - |a|];
      }
      assert n > 0;
      ContentEndIs(a + b, |a + b|, |a| + n);
      assert (a + b)[..|a| + n] == a + b[..n];
    }
  }

  lemma RStripTail(a: string, b: string)
    ensures RStrip(a + RStrip(b)) == RStrip(a + b)
  {
    RStripConcat(a, b);
    RStripFacts(b);
    if Blank(b) {
      assert a + RStrip(b) == a;
    } else {
      RStripConcat(a, RStrip(b));
      RStripIdempotent(b);
    }
  }

  lemma RStripIdempotent(s: string)
    ensures RStrip(RStrip(s)) == RStrip(s)
  {
    RStripFacts(s);
    ContentEndIs(RStrip(s), |RStrip(s)|, |RStrip(s)|);
  }

  lemma BlankConcat(a: string, b: string)
    ensures Blank(a + b) <==> Blank(a) && Blank(b)
  {
    assert forall i :: 0 <= i < |a| ==> (a + b)[i] == a[i];
    assert forall i :: 0 <= i < |b| ==> (a + b)[|a| + i] == b[i];
  }

  // ----- join -----

  lemma {:induction false} JoinConcat(a: seq<string>, b: seq<string>)
    requires a != [] && b != []
    ensures Join(a + b) == Join(a) + "\n" + Join(b)
  {
    if |a| == 1 {
      assert (a + b)[1..] == b;
    } else {
      assert (a + b)[1..] == a[1..] + b;
      JoinConcat(a[1..], b);
      assert a[0] + "\n" + (Join(a[1..]) + "\n" + Join(b)) == (a[0] + "\n" + Join(a[1..])) + "\n" + Join(b);
    }
  }

  lemma {:induction false} JoinBlank(lines: seq<string>)
    ensures Blank(Join(lines)) <==> forall i :: 0 <= i < |lines| ==> Blank(lines[i])
  {
    if |lines| > 1 {
      JoinBlank(lines[1..]);
      BlankConcat(lines[0] + "\n", Join(lines[1..]));
      BlankConcat(lines[0], "\n");
      assert forall i :: 0 < i < |lines| ==> lines[i] == lines[1..][i - 1];
    }
  }

  // ----- splitlines -----

  lemma {:induction false} SplitFirstLine(a: string, rest: string)
    requires BreakFree(a)
    ensures SplitLines(a + ("\n" + rest)) == [a] + SplitLines(rest)
  {
    CharFacts();
    if a == "" {
      assert a + ("\n" + rest) == "\n" + rest;
      assert ("\n" + rest)[1..] == rest;
    } else {
      var a' := a[1..];
      assert (a + ("\n" + rest))[1..] == a' + ("\n" + rest);
      SplitFirstLine(a', rest);
      assert [a[0]] + a' == a;
      assert ([a'] + SplitLines(rest))[1..] == SplitLines(rest);
    }
  }

  /** Splitting what was joined gives the lines back. */
  lemma {:induction false} SplitJoined(lines: seq<string>)
    requires lines != [] && AllBreakFree(lines)
    ensures SplitLines(Join(lines) + "\n") == lines
  {
    if |lines| == 1 {
      assert lines[0] + "\n" == lines[0] + ("\n" + "");
      SplitFirstLine(lines[0], "");
      assert SplitLines("") == [];
    } else {
      SplitJoined(lines[1..]);
      var rest := Join(lines[1..]) + "\n";
      assert Join(lines) + "\n" == lines[0] + ("\n" + rest);
      SplitFirstLine(lines[0], rest);
    }
  }

  /** How many lines of a list are not blank. */
  function NonblankCount(lines: seq<string>): nat {
    if lines == [] then 0 else (if Blank(lines[0]) then 0 else 1) + NonblankCount(lines[1..])
  }

  lemma PushCharCount(c: char, lines: seq<string>)
    ensures NonblankCount(PushChar(c, lines)) >= NonblankCount(lines)
    ensures PushChar(c, lines)[1..] == if lines == [] then [] else lines[1..]
    ensures !IsSpace(c) ==> NonblankCount(PushChar(c, lines)) == 1 + NonblankCount(PushChar(c, lines)[1..])
  {
    var pushed := PushChar(c, lines);
    assert pushed[0][0] == c;
    if lines != [] {
      BlankConcat([c], lines[0]);
    }
  }

  lemma {:induction false} NonblankText(s: string, i: nat)
    requires i < |s| && !IsSpace(s[i])
    ensures NonblankCount(SplitLines(s)) >= 1
    decreases |s|
  {
    CharFacts();
    if IsBreak(s[0]) {
      var w := BreakWidth(s);
      NonblankText(s[w..], i - w);
      assert ([""] + SplitLines(s[w..]))[1..] == SplitLines(s[w..]);
    } else {
      PushCharCount(s[0], SplitLines(s[1..]));
      if i > 0 {
        NonblankText(s[1..], i - 1);
      }
    }
  }

  /** A visible character after a line feed lies below the first line. */
  lemma {:induction false} NonblankBelow(s: string, j: nat, k: nat)
    requires j < k < |s| && s[j] == '\n' && !IsSpace(s[k])
    ensures SplitLines(s) != [] && NonblankCount(SplitLines(s)[1..]) >= 1
    decreases |s|
  {
    CharFacts();
    if IsBreak(s[0]) {
      var w := BreakWidth(s);
      NonblankText(s[w..], k - w);
      assert ([""] + SplitLines(s[w..]))[1..] == SplitLines(s[w..]);
    } else {
      PushCharCount(s[0], SplitLines(s[1..]));
      NonblankBelow(s[1..], j - 1, k - 1);
    }
  }

  /** Two visible characters with a line feed between them lie on two nonblank lines. */
  lemma {:induction false} NonblankTwice(s: string, i: nat, j: nat, k: nat)
    requires i < j < k < |s|
    requires !IsSpace(s[i]) && s[j] == '\n' && !IsSpace(s[k])
    ensures NonblankCount(SplitLines(s)) >= 2
    decreases |s|
  {
    CharFacts();
    if IsBreak(s[0]) {
      var w := BreakWidth(s);
      NonblankTwice(s[w..], i - w, j - w, k - w);
      assert ([""] + SplitLines(s[w..]))[1..] == SplitLines(s[w..]);
    } else {
      PushCharCount(s[0], SplitLines(s[1..]));
      if i > 0 {
        NonblankTwice(s[1..], i - 1, j - 1, k - 1);
      } else {
        NonblankBelow(s[1..], j - 1, k - 1);
      }
    }
  }

  // ----- strip of a joined list of lines, as lines -----

  /** The first line from `i` on that is not blank, or the last line. */
  function FirstKept(lines: seq<string>, i: nat): (d: nat)
    requires i < |lines|
    ensures i <= d < |lines|
    decreases |lines| - i
  {
    if i + 1 < |lines| && Blank(lines[i]) then FirstKept(lines, i + 1) else i
  }

  /** The last line up to `n` that is not blank, or the first line. */
  function LastKept(lines: seq<string>, n: nat): (k: nat)
    requires n < |lines|
    ensures k <= n
  {
    if n > 0 && Blank(lines[n]) then LastKept(lines, n - 1) else n
  }

  /** The lines left of `lines` after `strip` of their join: leading and trailing
      blank lines go, the first line loses its indent, the last its trailing space. */
  function TrimFront(lines: seq<string>): (r: seq<string>)
    requires lines != []
    ensures 0 < |r| == |lines| - FirstKept(lines, 0)
  {
    var d := FirstKept(lines, 0);
    [LStrip(lines[d])] + lines[d + 1..]
  }

  function TrimBack(lines: seq<string>): (r: seq<string>)
    requires lines != []
    ensures 0 < |r| == LastKept(lines, |lines| - 1) + 1
  {
    var n := LastKept(lines, |lines| - 1);
    lines[..n] + [RStrip(lines[n])]
  }

  function Trim(lines: seq<string>): (r: seq<string>)
    requires lines != []
    ensures r != []
  {
    TrimBack(TrimFront(lines))
  }

  lemma {:induction false} FirstKeptFacts(lines: seq<string>, i: nat)
    requires i < |lines|
    ensures var d := FirstKept(lines, i);
            (forall j :: i <= j < d ==> Blank(lines[j])) && (d < |lines| - 1 ==> !Blank(lines[d]))
    decreases |lines| - i
  {
    if i + 1 < |lines| && Blank(lines[i]) {
      FirstKeptFacts(lines, i + 1);
    }
  }

  lemma {:induction false} LastKeptFacts(lines: seq<string>, n: nat)
    requires n < |lines|
    ensures var k := LastKept(lines, n);
            (forall j :: k < j <= n ==> Blank(lines[j])) && (k > 0 ==> !Blank(lines[k]))
  {
    if n > 0 && Blank(lines[n]) {
      LastKeptFacts(lines, n - 1);
    }
  }

  lemma JoinCons(line: string, rest: seq<string>)
    requires rest != []
    ensures Join([line] + rest) == line + ("\n" + Join(rest))
  {
    assert ([line] + rest)[1..] == rest;
  }

  lemma {:induction false} LStripJoinFrom(lines: seq<string>, i: nat)
    requires i < |lines|
    ensures var d := FirstKept(lines, i);
            LStrip(Join(lines[i..])) == Join([LStrip(lines[d])] + lines[d + 1..])
    decreases |lines| - i
  {
    if i + 1 < |lines| {
      var rest := lines[i + 1..];
      assert lines[i..] == [lines[i]] + rest;
      JoinCons(lines[i], rest);
      LStripConcat(lines[i], "\n" + Join(rest));
      if Blank(lines[i]) {
        CharFacts();
        assert Blank("\n");
        LStripConcat("\n", Join(rest));
        LStripJoinFrom(lines, i + 1);
      } else {
        JoinCons(LStrip(lines[i]), rest);
      }
    } else {
      assert lines[i..] == [lines[i]];
    }
  }

  lemma LStripJoin(lines: seq<string>)
    requires lines != []
    ensures LStrip(Join(lines)) == Join(TrimFront(lines))
  {
    LStripJoinFrom(lines, 0);
    assert lines[0..] == lines;
  }

  lemma {:induction false} RStripJoinTo(lines: seq<string>, n: nat)
    requires n < |lines|
    ensures var k := LastKept(lines, n);
            RStrip(Join(lines[..n + 1])) == Join(lines[..k] + [RStrip(lines[k])])
  {
    assert lines[..n + 1] == lines[..n] + [lines[n]];
    if n > 0 {
      JoinConcat(lines[..n], [lines[n]]);
      var before := Join(lines[..n]) + "\n";
      RStripConcat(before, lines[n]);
      if Blank(lines[n]) {
        CharFacts();
        assert Blank("\n");
        RStripConcat(Join(lines[..n]), "\n");
        RStripJoinTo(lines, n - 1);
      } else {
        JoinConcat(lines[..n], [RStrip(lines[n])]);
      }
    }
  }

  lemma RStripJoin(lines: seq<string>)
    requires lines != []
    ensures RStrip(Join(lines)) == Join(TrimBack(lines))
  {
    RStripJoinTo(lines, |lines| - 1);
    assert lines[..|lines|] == lines;
  }

  lemma TrimBreakFree(lines: seq<string>)
    requires lines != [] && AllBreakFree(lines)
    ensures AllBreakFree(TrimFront(lines)) && AllBreakFree(TrimBack(lines))
  {
    LStripFacts(lines[FirstKept(lines, 0)]);
    RStripFacts(lines[LastKept(lines, |lines| - 1)]);
  }

  /** Re-reading a stripped, joined text line by line yields exactly the trimmed lines. */
  lemma SplitStripped(lines: seq<string>)
    requires lines != [] && AllBreakFree(lines)
    ensures SplitLines(Strip(Join(lines)) + "\n") == Trim(lines)
  {
    LStripJoin(lines);
    RStripJoin(TrimFront(lines));
    TrimBreakFree(lines);
    TrimBreakFree(TrimFront(lines));
    SplitJoined(Trim(lines));
  }
}
