/** `clean_extracted_text`: tidies the text extracted from a PDF before it is
    checked. Line breaks with only whitespace between them become one blank
    line (`re.sub(r'\n\s*\n', '\n\n', text)`), every run of spaces and tabs
    becomes one space (`re.sub(r'[ \t]+', ' ', text)`), and the whitespace
    around the text is stripped. */
module Cleanup {
  import opened Wrappers
  import opened Text

  // ---------------------------------------------------------------------
  // What survives a substitution
  // ---------------------------------------------------------------------

  /** `s` without the characters `drop` selects. */
  function Without(s: string, drop: char -> bool): string {
    if s == [] then [] else (if drop(s[0]) then [] else [s[0]]) + Without(s[1..], drop)
  }

  /** The text a reader sees: `s` without its whitespace. */
  function Visible(s: string): string {
    Without(s, IsSpace)
  }

  lemma {:induction false} WithoutAppend(a: string, b: string, drop: char -> bool)
    ensures Without(a + b, drop) == Without(a, drop) + Without(b, drop)
  {
    if a != [] {
      assert (a + b)[0] == a[0];
      assert (a + b)[1..] == a[1..] + b;
      WithoutAppend(a[1..], b, drop);
    } else {
      assert a + b == b;
    }
  }

  lemma {:induction false} WithoutDropped(s: string, drop: char -> bool)
    requires forall k :: 0 <= k < |s| ==> drop(s[k])
    ensures Without(s, drop) == []
  {
    if s != [] {
      WithoutDropped(s[1..], drop);
    }
  }

  /** Replacing a stretch of dropped characters by other dropped characters
      changes nothing that survives. */
  lemma ReplaceDropped(x: string, mid: string, rest: string, drop: char -> bool)
    requires forall k :: 0 <= k < |x| ==> drop(x[k])
    requires forall k :: 0 <= k < |mid| ==> drop(mid[k])
    ensures Without(x + rest, drop) == Without(mid + rest, drop)
  {
    WithoutAppend(x, rest, drop);
    WithoutAppend(mid, rest, drop);
    WithoutDropped(x, drop);
    WithoutDropped(mid, drop);
  }

  // ---------------------------------------------------------------------
  // Blank lines
  // ---------------------------------------------------------------------

  /** `s[i]` and `s[j]` are line breaks with only whitespace between them:
      what `\n\s*\n` can match. */
  predicate Gap(s: string, i: int, j: int) {
    0 <= i < j < |s| && s[i] == '\n' && s[j] == '\n' && forall k :: i < k < j ==> IsSpace(s[k])
  }

  /** Line breaks with only whitespace between them stand side by side: no
      blank line holds spaces and no three line breaks come in a row. */
  ghost predicate NoWideGaps(s: string) {
    forall i, j :: Gap(s, i, j) ==> j == i + 1
  }

  /** `y[..j]` is whitespace. */
  predicate Lead(y: string, j: int) {
    0 <= j < |y| && forall k :: 0 <= k < j ==> IsSpace(y[k])
  }

  /** No line break comes before the first visible character. */
  ghost predicate NoLeadingBreak(y: string) {
    forall j :: Lead(y, j) ==> y[j] != '\n'
  }

  /** Before the first visible character a line break can only come first. */
  ghost predicate AtMostFirstBreak(y: string) {
    forall j :: Lead(y, j) && y[j] == '\n' ==> j == 0
  }

  lemma LeadShift(c: char, y: string, j: int)
    requires 1 <= j
    ensures Lead([c] + y, j) <==> IsSpace(c) && Lead(y, j - 1)
  {
    var s := [c] + y;
    if IsSpace(c) && Lead(y, j - 1) {
      forall k | 0 <= k < j
        ensures IsSpace(s[k])
      {
        if k > 0 {
          assert s[k] == y[k - 1];
        }
      }
    }
    if Lead(s, j) {
      assert IsSpace(s[0]);
      forall k | 0 <= k < j - 1
        ensures IsSpace(y[k])
      {
        assert s[k + 1] == y[k];
      }
    }
  }

  /** A visible character, or whitespace before text without a leading
      line break, keeps line breaks out of the lead. */
  lemma NoLeadingBreakCons(c: char, y: string)
    requires c != '\n'
    requires IsSpace(c) ==> NoLeadingBreak(y)
    ensures NoLeadingBreak([c] + y)
  {
    forall j | Lead([c] + y, j)
      ensures ([c] + y)[j] != '\n'
    {
      if j >= 1 {
        LeadShift(c, y, j);
      }
    }
  }

  lemma AtMostFirstBreakCons(c: char, y: string)
    requires NoLeadingBreak(y)
    ensures AtMostFirstBreak([c] + y)
  {
    forall j | Lead([c] + y, j) && ([c] + y)[j] == '\n'
      ensures j == 0
    {
      if j >= 1 {
        LeadShift(c, y, j);
      }
    }
  }

  lemma GapsCons(c: char, y: string)
    requires NoWideGaps(y)
    requires c == '\n' ==> AtMostFirstBreak(y)
    ensures NoWideGaps([c] + y)
  {
    forall i, j | Gap([c] + y, i, j)
      ensures j == i + 1
    {
      GapShift(c, y, i, j);
    }
  }

  /** A gap of `[c] + y` is a gap of `y`, or runs from `c` to a line break
      in the lead of `y`. */
  lemma GapShift(c: char, y: string, i: int, j: int)
    requires Gap([c] + y, i, j)
    ensures i == 0 ==> c == '\n' && Lead(y, j - 1) && y[j - 1] == '\n'
    ensures i > 0 ==> Gap(y, i - 1, j - 1)
  {
    var s := [c] + y;
    forall k | 0 <= k < |y|
      ensures y[k] == s[k + 1]
    {
    }
  }

  /** `"\n\n"` before text without a leading line break has no wide gap. */
  lemma BlankLineCons(y: string)
    requires NoWideGaps(y) && NoLeadingBreak(y)
    ensures NoWideGaps("\n\n" + y)
  {
    GapsCons('\n', y);
    AtMostFirstBreakCons('\n', y);
    GapsCons('\n', ['\n'] + y);
    assert ['\n'] + (['\n'] + y) == "\n\n" + y;
  }

  /** The last line break in `t[a..b]`. */
  function LastBreak(t: string, a: nat, b: nat): (r: Option<nat>)
    requires a <= b <= |t|
    ensures r.Some? ==> a <= r.value < b && t[r.value] == '\n'
    ensures r.Some? ==> forall k :: r.value < k < b ==> t[k] != '\n'
    ensures r.None? ==> forall k :: a <= k < b ==> t[k] != '\n'
    decreases b - a
  {
    if a == b then None
    else if t[b - 1] == '\n' then Some(b - 1)
    else LastBreak(t, a, b - 1)
  }

  /** Where a match of `\n\s*\n` starting at `i` ends: greedy `\s*` takes the
      whole whitespace run after the line break and gives characters back
      until a line break follows, so the match takes the run's last one. */
  function GapEnd(t: string, i: nat): (r: Option<nat>)
    requires i < |t|
    ensures r.Some? ==> i < r.value < |t|
  {
    if t[i] == '\n' then LastBreak(t, i + 1, SpaceRunEnd(t, i + 1)) else None
  }

  /** The match at `i` is the longest gap starting there, and there is none
      exactly when no gap starts there. */
  lemma GapEndSpec(t: string, i: nat)
    requires i < |t|
    ensures GapEnd(t, i).Some? ==> Gap(t, i, GapEnd(t, i).value)
    ensures GapEnd(t, i).Some? ==> forall j :: Gap(t, i, j) ==> j <= GapEnd(t, i).value
    ensures GapEnd(t, i).None? ==> forall j :: !Gap(t, i, j)
  {
    if t[i] == '\n' {
      var e := SpaceRunEnd(t, i + 1);
      forall j | Gap(t, i, j)
        ensures i + 1 <= j < e
      {
      }
    }
  }

  /** `re.sub(r'\n\s*\n', '\n\n', t[i..])`, matches taken left to right. */
  function CollapseFrom(t: string, i: nat): string
    requires i <= |t|
    decreases |t| - i
  {
    if i == |t| then ""
    else match GapEnd(t, i)
      case Some(j) => "\n\n" + CollapseFrom(t, j + 1)
      case None => [t[i]] + CollapseFrom(t, i + 1)
  }

  function CollapseBlankLines(t: string): string {
    CollapseFrom(t, 0)
  }

  /** A character other than a line break is copied. */
  lemma CollapseKeeps(t: string, k: nat)
    requires k < |t| && t[k] != '\n'
    ensures CollapseFrom(t, k) == [t[k]] + CollapseFrom(t, k + 1)
  {
    assert GapEnd(t, k).None?;
  }

  lemma {:induction false} CollapseSkip(t: string, k: nat, e: nat)
    requires k <= e <= |t|
    requires forall p :: k <= p < e ==> t[p] != '\n'
    ensures CollapseFrom(t, k) == t[k..e] + CollapseFrom(t, e)
    decreases e - k
  {
    if k < e {
      CollapseKeeps(t, k);
      CollapseSkip(t, k + 1, e);
      ConcatAssoc([t[k]], t[k + 1..e], CollapseFrom(t, e));
      assert t[k..e] == [t[k]] + t[k + 1..e];
    }
  }

  /** Collapsing text whose leading whitespace holds no line break leaves
      no line break in its lead. */
  lemma CollapseNoLeadingBreak(t: string, k: nat)
    requires k <= |t|
    requires forall p :: k <= p < SpaceRunEnd(t, k) ==> t[p] != '\n'
    ensures NoLeadingBreak(CollapseFrom(t, k))
  {
    var e := SpaceRunEnd(t, k);
    CollapseSkip(t, k, e);
    var y := CollapseFrom(t, k);
    if e < |t| {
      assert GapEnd(t, e).None?;
      assert y[e - k] == t[e];
    }
    forall j | Lead(y, j)
      ensures y[j] != '\n'
    {
      if j < e - k {
        assert y[j] == t[k + j];
      }
    }
  }

  /** After the first substitution, line breaks with only whitespace between
      them are adjacent. */
  lemma {:induction false} CollapseNoWideGaps(t: string, i: nat)
    requires i <= |t|
    ensures NoWideGaps(CollapseFrom(t, i))
    decreases |t| - i
  {
    if i < |t| {
      match GapEnd(t, i)
      case Some(j) =>
        CollapseNoWideGaps(t, j + 1);
        var e := SpaceRunEnd(t, i + 1);
        SpaceRunEndUnique(t, j + 1, e);
        CollapseNoLeadingBreak(t, j + 1);
        BlankLineCons(CollapseFrom(t, j + 1));
      case None =>
        CollapseNoWideGaps(t, i + 1);
        if t[i] == '\n' {
          CollapseNoLeadingBreak(t, i + 1);
        }
        GapsCons(t[i], CollapseFrom(t, i + 1));
    }
  }

  /** The first substitution changes only whitespace. */
  lemma {:induction false} CollapseVisible(t: string, i: nat)
    requires i <= |t|
    ensures Visible(CollapseFrom(t, i)) == Visible(t[i..])
    decreases |t| - i
  {
    if i < |t| {
      match GapEnd(t, i)
      case Some(j) =>
        GapEndSpec(t, i);
        CollapseVisible(t, j + 1);
        GapVisible(t, i, j);
        BreaksInvisible(CollapseFrom(t, j + 1));
      case None =>
        CollapseVisible(t, i + 1);
        assert t[i..] == [t[i]] + t[i + 1..];
    }
  }

  lemma BreaksInvisible(u: string)
    ensures Visible("\n\n" + u) == Visible(u)
  {
    WithoutAppend("\n\n", u, IsSpace);
  }

  /** A gap holds only whitespace. */
  lemma GapVisible(t: string, i: nat, j: nat)
    requires Gap(t, i, j)
    ensures Visible(t[i..]) == Visible(t[j + 1..])
  {
    var gap := t[i..j + 1];
    forall k | 0 <= k < |gap|
      ensures IsSpace(gap[k])
    {
      assert gap[k] == t[i + k];
    }
    assert t[i..] == gap + t[j + 1..];
    WithoutAppend(gap, t[j + 1..], IsSpace);
    WithoutDropped(gap, IsSpace);
  }

  /** Text without wide gaps is left as it is. */
  lemma {:induction false} CollapseKeepsNarrowGaps(t: string, i: nat)
    requires i <= |t|
    requires NoWideGaps(t)
    ensures CollapseFrom(t, i) == t[i..]
    decreases |t| - i
  {
    if i < |t| {
      match GapEnd(t, i)
      case Some(j) =>
        GapEndSpec(t, i);
        CollapseKeepsNarrowGaps(t, j + 1);
        assert t[i..] == [t[i], t[i + 1]] + t[i + 2..];
      case None =>
        CollapseKeepsNarrowGaps(t, i + 1);
        assert t[i..] == [t[i]] + t[i + 1..];
    }
  }

  // ---------------------------------------------------------------------
  // Spaces and tabs
  // ---------------------------------------------------------------------

  predicate IsBlank(c: char) {
    c == ' ' || c == '\t'
  }

  /** Where the run of spaces and tabs starting at `i` ends. */
  function BlankRunEnd(t: string, i: nat): (e: nat)
    requires i <= |t|
    ensures i <= e <= |t|
    ensures forall k :: i <= k < e ==> IsBlank(t[k])
    ensures e == |t| || !IsBlank(t[e])
    decreases |t| - i
  {
    if i < |t| && IsBlank(t[i]) then BlankRunEnd(t, i + 1) else i
  }

  /** `re.sub(r'[ \t]+', ' ', t[i..])`: each run of spaces and tabs, taken
      whole, becomes one space. */
  function SquashFrom(t: string, i: nat): string
    requires i <= |t|
    decreases |t| - i
  {
    if i == |t| then ""
    else if IsBlank(t[i]) then " " + SquashFrom(t, BlankRunEnd(t, i))
    else [t[i]] + SquashFrom(t, i + 1)
  }

  function SquashBlanks(t: string): string {
    SquashFrom(t, 0)
  }

  /** No tab, and no two spaces side by side. */
  predicate Squashed(s: string) {
    && (forall k :: 0 <= k < |s| ==> s[k] != '\t')
    && (forall k :: 0 <= k < |s| - 1 ==> !(s[k] == ' ' && s[k + 1] == ' '))
  }

  lemma SquashedCons(c: char, y: string)
    requires Squashed(y)
    requires c != '\t'
    requires c == ' ' && |y| > 0 ==> y[0] != ' '
    ensures Squashed([c] + y)
  {
    var s := [c] + y;
    forall k | 1 <= k < |s|
      ensures s[k] == y[k - 1]
    {
    }
  }

  /** After the second substitution no tab is left and no two spaces stand
      side by side. */
  lemma {:induction false} SquashSquashes(t: string, i: nat)
    requires i <= |t|
    ensures Squashed(SquashFrom(t, i))
    decreases |t| - i
  {
    if i < |t| {
      if IsBlank(t[i]) {
        var e := BlankRunEnd(t, i);
        SquashSquashes(t, e);
        SquashedCons(' ', SquashFrom(t, e));
      } else {
        SquashSquashes(t, i + 1);
        SquashedCons(t[i], SquashFrom(t, i + 1));
      }
    }
  }

  /** The second substitution keeps every character other than spaces and
      tabs, in order. */
  lemma {:induction false} SquashKeepsOthers(t: string, i: nat)
    requires i <= |t|
    ensures Without(SquashFrom(t, i), IsBlank) == Without(t[i..], IsBlank)
    decreases |t| - i
  {
    if i < |t| {
      if IsBlank(t[i]) {
        var e := BlankRunEnd(t, i);
        SquashKeepsOthers(t, e);
        assert t[i..] == t[i..e] + t[e..];
        ReplaceDropped(t[i..e], " ", t[e..], IsBlank);
        WithoutAppend(" ", SquashFrom(t, e), IsBlank);
        WithoutAppend(" ", t[e..], IsBlank);
      } else {
        SquashKeepsOthers(t, i + 1);
        assert t[i..] == [t[i]] + t[i + 1..];
      }
    }
  }

  /** The second substitution changes only whitespace. */
  lemma {:induction false} SquashVisible(t: string, i: nat)
    requires i <= |t|
    ensures Visible(SquashFrom(t, i)) == Visible(t[i..])
    decreases |t| - i
  {
    if i < |t| {
      if IsBlank(t[i]) {
        var e := BlankRunEnd(t, i);
        SquashVisible(t, e);
        assert t[i..] == t[i..e] + t[e..];
        ReplaceDropped(t[i..e], " ", t[e..], IsSpace);
        WithoutAppend(" ", SquashFrom(t, e), IsSpace);
        WithoutAppend(" ", t[e..], IsSpace);
      } else {
        SquashVisible(t, i + 1);
        assert t[i..] == [t[i]] + t[i + 1..];
      }
    }
  }

  /** Text without tabs or double spaces is left as it is. */
  lemma {:induction false} SquashKeepsSquashed(t: string, i: nat)
    requires i <= |t|
    requires Squashed(t)
    ensures SquashFrom(t, i) == t[i..]
    decreases |t| - i
  {
    if i < |t| {
      if IsBlank(t[i]) {
        assert BlankRunEnd(t, i) == i + 1;
        SquashKeepsSquashed(t, i + 1);
      } else {
        SquashKeepsSquashed(t, i + 1);
      }
      assert t[i..] == [t[i]] + t[i + 1..];
    }
  }

  /** A whitespace run without line breaks stays without them. */
  lemma {:induction false} SquashNoLeadingBreak(t: string, k: nat)
    requires k <= |t|
    requires forall p :: k <= p < SpaceRunEnd(t, k) ==> t[p] != '\n'
    ensures NoLeadingBreak(SquashFrom(t, k))
    decreases |t| - k
  {
    if k < |t| {
      if IsBlank(t[k]) {
        var e := BlankRunEnd(t, k);
        SpaceRunEndUnique(t, e, SpaceRunEnd(t, k));
        SquashNoLeadingBreak(t, e);
        NoLeadingBreakCons(' ', SquashFrom(t, e));
      } else {
        if IsSpace(t[k]) {
          SpaceRunEndUnique(t, k + 1, SpaceRunEnd(t, k));
          SquashNoLeadingBreak(t, k + 1);
        }
        NoLeadingBreakCons(t[k], SquashFrom(t, k + 1));
      }
    }
  }

  lemma SquashAtMostFirstBreak(t: string, k: nat)
    requires k <= |t|
    requires forall p :: k < p < SpaceRunEnd(t, k) ==> t[p] != '\n'
    ensures AtMostFirstBreak(SquashFrom(t, k))
  {
    if k < |t| && t[k] == '\n' {
      SpaceRunEndUnique(t, k + 1, SpaceRunEnd(t, k));
      SquashNoLeadingBreak(t, k + 1);
      AtMostFirstBreakCons('\n', SquashFrom(t, k + 1));
    } else {
      SquashNoLeadingBreak(t, k);
    }
  }

  /** The second substitution keeps the blank lines the first one left. */
  lemma {:induction false} SquashKeepsNarrowGaps(t: string, i: nat)
    requires i <= |t|
    requires NoWideGaps(t)
    ensures NoWideGaps(SquashFrom(t, i))
    decreases |t| - i
  {
    if i < |t| {
      if IsBlank(t[i]) {
        var e := BlankRunEnd(t, i);
        SquashKeepsNarrowGaps(t, e);
        GapsCons(' ', SquashFrom(t, e));
      } else {
        SquashKeepsNarrowGaps(t, i + 1);
        if t[i] == '\n' {
          forall p | i + 1 < p < SpaceRunEnd(t, i + 1)
            ensures t[p] != '\n'
          {
            if t[p] == '\n' {
              assert Gap(t, i, p);
            }
          }
          SquashAtMostFirstBreak(t, i + 1);
        }
        GapsCons(t[i], SquashFrom(t, i + 1));
      }
    }
  }

  // ---------------------------------------------------------------------
  // Splitting laws: what each substitution makes of one match
  // ---------------------------------------------------------------------

  /** The run of spaces and tabs from `i` ends at the first other character
      and nowhere else. */
  lemma {:induction false} BlankRunEndUnique(t: string, i: nat, e: nat)
    requires i <= e <= |t|
    requires forall k :: i <= k < e ==> IsBlank(t[k])
    requires e == |t| || !IsBlank(t[e])
    ensures BlankRunEnd(t, i) == e
    decreases e - i
  {
    if i < e {
      BlankRunEndUnique(t, i + 1, e);
    }
  }

  /** The second substitution on `t[i..]` depends on nothing before `i`. */
  lemma {:induction false} SquashSuffix(t: string, i: nat, u: string, j: nat)
    requires i <= |t| && j <= |u|
    requires t[i..] == u[j..]
    ensures SquashFrom(t, i) == SquashFrom(u, j)
    decreases |t| - i
  {
    if i < |t| {
      forall k | i <= k < |t|
        ensures t[k] == u[k - i + j]
      {
        assert t[k] == t[i..][k - i];
      }
      if IsBlank(t[i]) {
        var e := BlankRunEnd(t, i);
        var f := e - i + j;
        BlankRunEndUnique(u, j, f);
        assert t[e..] == u[f..];
        SquashSuffix(t, e, u, f);
      } else {
        assert t[i + 1..] == u[j + 1..];
        SquashSuffix(t, i + 1, u, j + 1);
      }
    }
  }

  /** A text that does not end in a space or tab is squashed on its own:
      no run of spaces and tabs reaches across its end. */
  lemma {:induction false} SquashConcat(p: string, q: string, i: nat)
    requires i <= |p|
    requires p == [] || !IsBlank(p[|p| - 1])
    ensures SquashFrom(p + q, i) == SquashFrom(p, i) + SquashBlanks(q)
    decreases |p| - i
  {
    var t := p + q;
    if i == |p| {
      assert t[|p|..] == q[0..];
      SquashSuffix(t, |p|, q, 0);
    } else if IsBlank(p[i]) {
      var e := BlankRunEnd(p, i);
      assert e < |p|;
      BlankRunEndUnique(t, i, e);
      SquashConcat(p, q, e);
    } else {
      SquashConcat(p, q, i + 1);
    }
  }

  /** A text that starts with a run of spaces and tabs has it replaced by
      one space. */
  lemma {:induction false} SquashRun(r: string, q: string)
    requires r != [] && forall k :: 0 <= k < |r| ==> IsBlank(r[k])
    requires q == [] || !IsBlank(q[0])
    ensures SquashBlanks(r + q) == " " + SquashBlanks(q)
  {
    var t := r + q;
    BlankRunEndUnique(t, 0, |r|);
    assert t[|r|..] == q[0..];
    SquashSuffix(t, |r|, q, 0);
  }

  /** A whole run of spaces and tabs becomes exactly one space, and the text
      on either side of it is squashed on its own. */
  lemma {:induction false} SquashSplit(p: string, r: string, q: string)
    requires p == [] || !IsBlank(p[|p| - 1])
    requires r != [] && forall k :: 0 <= k < |r| ==> IsBlank(r[k])
    requires q == [] || !IsBlank(q[0])
    ensures SquashBlanks(p + r + q) == SquashBlanks(p) + " " + SquashBlanks(q)
  {
    SquashConcat(p, r + q, 0);
    SquashRun(r, q);
    assert p + r + q == p + (r + q);
  }

  /** The match found at `i` depends only on the gaps that start there. */
  lemma {:induction false} GapEndSame(t: string, i: nat, u: string, j: nat)
    requires i < |t| && j < |u|
    requires forall x :: Gap(t, i, x) ==> Gap(u, j, x - i + j)
    requires forall y :: Gap(u, j, y) ==> Gap(t, i, y - j + i)
    ensures GapEnd(t, i).Some? <==> GapEnd(u, j).Some?
    ensures GapEnd(t, i).Some? ==> GapEnd(u, j).value == GapEnd(t, i).value - i + j
  {
    GapEndSpec(t, i);
    GapEndSpec(u, j);
  }

  /** The first substitution on `t[i..]` depends on nothing before `i`. */
  lemma {:induction false} CollapseSuffix(t: string, i: nat, u: string, j: nat)
    requires i <= |t| && j <= |u|
    requires t[i..] == u[j..]
    ensures CollapseFrom(t, i) == CollapseFrom(u, j)
    decreases |t| - i
  {
    if i < |t| {
      forall k | i <= k < |t|
        ensures t[k] == u[k - i + j]
      {
        assert t[k] == t[i..][k - i];
      }
      forall k | j <= k < |u|
        ensures u[k] == t[k - j + i]
      {
        assert u[k] == u[j..][k - j];
      }
      GapEndSame(t, i, u, j);
      match GapEnd(t, i)
      case Some(e) =>
        var f := e - i + j;
        assert t[e + 1..] == u[f + 1..];
        CollapseSuffix(t, e + 1, u, f + 1);
        CollapseAtGap(t, i, e);
        CollapseAtGap(u, j, f);
      case None =>
        assert t[i + 1..] == u[j + 1..];
        CollapseSuffix(t, i + 1, u, j + 1);
        CollapseAtOther(t, i);
        CollapseAtOther(u, j);
    }
  }

  /** `y[j..]` is whitespace after `y[j]`. */
  predicate Trail(y: string, j: int) {
    0 <= j < |y| && forall k :: j < k < |y| ==> IsSpace(y[k])
  }

  /** No line break comes after the last visible character. */
  ghost predicate NoTrailingBreak(y: string) {
    forall j {:trigger Trail(y, j)} :: Trail(y, j) ==> y[j] != '\n'
  }

  /** Before the trailing whitespace of `p`, if that holds no line break,
      the match found in `p + q` is the one found in `p`. */
  lemma {:induction false} GapEndPrefix(p: string, q: string, i: nat)
    requires i < |p|
    requires NoTrailingBreak(p)
    ensures GapEnd(p + q, i) == GapEnd(p, i)
  {
    var t := p + q;
    forall x | Gap(t, i, x)
      ensures Gap(p, i, x - i + i)
    {
      GapInPrefix(p, q, i, x);
    }
    forall y | Gap(p, i, y)
      ensures Gap(t, i, y - i + i)
    {
      GapOfPrefix(p, q, i, y);
    }
    GapEndSame(t, i, p, i);
  }

  lemma GapOfPrefix(p: string, q: string, i: nat, y: nat)
    requires Gap(p, i, y)
    ensures Gap(p + q, i, y)
  {
  }

  /** A gap of `p + q` that starts before the trailing whitespace of `p`
      ends inside `p`, if that whitespace holds no line break. */
  lemma {:induction false} GapInPrefix(p: string, q: string, i: nat, x: nat)
    requires i < |p|
    requires NoTrailingBreak(p)
    requires Gap(p + q, i, x)
    ensures Gap(p, i, x)
  {
    var t := p + q;
    if x >= |p| {
      forall k | i < k < |p|
        ensures IsSpace(p[k])
      {
        assert p[k] == t[k];
      }
      assert Trail(p, i);
    }
    forall k | i < k < x
      ensures IsSpace(p[k])
    {
      assert p[k] == t[k];
    }
  }

  /** One step of the first substitution at a match. */
  lemma CollapseAtGap(t: string, i: nat, e: nat)
    requires i < |t| && GapEnd(t, i) == Some(e)
    ensures CollapseFrom(t, i) == "\n\n" + CollapseFrom(t, e + 1)
  {
  }

  /** One step of the first substitution where no match starts. */
  lemma CollapseAtOther(t: string, i: nat)
    requires i < |t| && GapEnd(t, i).None?
    ensures CollapseFrom(t, i) == [t[i]] + CollapseFrom(t, i + 1)
  {
  }

  lemma ConcatAssoc<T>(a: seq<T>, b: seq<T>, c: seq<T>)
    ensures a + (b + c) == (a + b) + c
  {
  }

  /** A text whose trailing whitespace holds no line break has its blank
      lines collapsed on its own: no match reaches across its end. */
  lemma {:induction false} CollapseConcat(p: string, q: string, i: nat)
    requires i <= |p|
    requires NoTrailingBreak(p)
    ensures CollapseFrom(p + q, i) == CollapseFrom(p, i) + CollapseBlankLines(q)
    decreases |p| - i
  {
    var t := p + q;
    if i == |p| {
      assert t[|p|..] == q[0..];
      CollapseSuffix(t, |p|, q, 0);
    } else {
      GapEndPrefix(p, q, i);
      var rest := CollapseBlankLines(q);
      if GapEnd(p, i).Some? {
        var e := GapEnd(p, i).value;
        CollapseConcat(p, q, e + 1);
        assert GapEnd(t, i) == Some(e);
        assert CollapseFrom(t, e + 1) == CollapseFrom(p, e + 1) + rest;
        CollapseBothAtGap(t, p, rest, i, e);
      } else {
        CollapseConcat(p, q, i + 1);
        CollapseBothAtOther(t, p, rest, i);
      }
    }
  }

  /** A match at the same place in `t` and in `p` keeps `t`'s collapsed
      form equal to `p`'s followed by `rest`. */
  lemma CollapseBothAtGap(t: string, p: string, rest: string, i: nat, e: nat)
    requires i < |t| && i < |p|
    requires GapEnd(t, i) == Some(e) && GapEnd(p, i) == Some(e)
    requires CollapseFrom(t, e + 1) == CollapseFrom(p, e + 1) + rest
    ensures CollapseFrom(t, i) == CollapseFrom(p, i) + rest
  {
    CollapseAtGap(t, i, e);
    CollapseAtGap(p, i, e);
    ConcatAssoc("\n\n", CollapseFrom(p, e + 1), rest);
  }

  /** The same character copied in `t` and in `p` keeps `t`'s collapsed
      form equal to `p`'s followed by `rest`. */
  lemma CollapseBothAtOther(t: string, p: string, rest: string, i: nat)
    requires i < |t| && i < |p| && t[i] == p[i]
    requires GapEnd(t, i).None? && GapEnd(p, i).None?
    requires CollapseFrom(t, i + 1) == CollapseFrom(p, i + 1) + rest
    ensures CollapseFrom(t, i) == CollapseFrom(p, i) + rest
  {
    CollapseAtOther(t, i);
    CollapseAtOther(p, i);
    ConcatAssoc([p[i]], CollapseFrom(p, i + 1), rest);
  }

  /** A text that starts with a whole gap has it replaced by one blank line. */
  lemma {:induction false} CollapseGap(g: string, q: string)
    requires |g| >= 2 && g[0] == '\n' && g[|g| - 1] == '\n' && AllSpace(g)
    requires NoLeadingBreak(q)
    ensures CollapseBlankLines(g + q) == "\n\n" + CollapseBlankLines(q)
  {
    var t := g + q;
    assert Gap(t, 0, |g| - 1);
    forall x | Gap(t, 0, x)
      ensures x < |g|
    {
      if x >= |g| {
        GapPastEnd(g, q, x);
      }
    }
    GapEndSpec(t, 0);
    assert t[|g|..] == q[0..];
    CollapseSuffix(t, |g|, q, 0);
  }

  /** A gap from the start of `g + q` that ends past `g` ends on a line
      break in the leading whitespace of `q`. */
  lemma {:induction false} GapPastEnd(g: string, q: string, x: nat)
    requires Gap(g + q, 0, x) && x >= |g|
    ensures Lead(q, x - |g|) && q[x - |g|] == '\n'
  {
    var t := g + q;
    forall k | 0 <= k < x - |g|
      ensures IsSpace(q[k])
    {
      assert q[k] == t[|g| + k];
    }
  }

  /** A whole gap, from the first to the last line break of a run of
      whitespace, becomes exactly one blank line, and the text on either
      side of it is collapsed on its own. */
  lemma {:induction false} CollapseSplit(p: string, g: string, q: string)
    requires NoTrailingBreak(p)
    requires |g| >= 2 && g[0] == '\n' && g[|g| - 1] == '\n' && AllSpace(g)
    requires NoLeadingBreak(q)
    ensures CollapseBlankLines(p + g + q) == CollapseBlankLines(p) + "\n\n" + CollapseBlankLines(q)
  {
    CollapseConcat(p, g + q, 0);
    CollapseGap(g, q);
    assert p + g + q == p + (g + q);
  }

  // ---------------------------------------------------------------------
  // Stripping
  // ---------------------------------------------------------------------

  /** Where the text of `s[a..b]` ends once trailing whitespace is dropped. */
  function TrimEnd(s: string, a: nat, b: nat): (e: nat)
    requires a <= b <= |s|
    ensures a <= e <= b
    ensures forall k :: e <= k < b ==> IsSpace(s[k])
    ensures e == a || !IsSpace(s[e - 1])
    decreases b
  {
    if b == a || !IsSpace(s[b - 1]) then b else TrimEnd(s, a, b - 1)
  }

  /** `str.strip()`: `s` without its leading and trailing whitespace. */
  function Strip(s: string): (r: string)
    ensures r == [] || (!IsSpace(r[0]) && !IsSpace(r[|r| - 1]))
  {
    var a := SpaceRunEnd(s, 0);
    s[a..TrimEnd(s, a, |s|)]
  }

  /** What stripping removes is whitespace, and only that. */
  lemma StripSpec(s: string)
    ensures var a := SpaceRunEnd(s, 0);
      var e := TrimEnd(s, a, |s|);
      && Strip(s) == s[a..e]
      && (forall k :: 0 <= k < a ==> IsSpace(s[k]))
      && (forall k :: e <= k < |s| ==> IsSpace(s[k]))
  {
  }

  /** Stripping changes only whitespace. */
  lemma StripVisible(s: string)
    ensures Visible(Strip(s)) == Visible(s)
  {
    var a := SpaceRunEnd(s, 0);
    var e := TrimEnd(s, a, |s|);
    var lead, mid, tail := s[..a], s[a..e], s[e..];
    forall k | 0 <= k < |lead|
      ensures IsSpace(lead[k])
    {
      assert lead[k] == s[k];
    }
    forall k | 0 <= k < |tail|
      ensures IsSpace(tail[k])
    {
      assert tail[k] == s[e + k];
    }
    assert s == lead + mid + tail;
    VisibleMiddle(lead, mid, tail);
  }

  /** Whitespace around a text does not show. */
  lemma VisibleMiddle(lead: string, mid: string, tail: string)
    requires forall k :: 0 <= k < |lead| ==> IsSpace(lead[k])
    requires forall k :: 0 <= k < |tail| ==> IsSpace(tail[k])
    ensures Visible(lead + mid + tail) == Visible(mid)
  {
    WithoutAppend(lead + mid, tail, IsSpace);
    WithoutAppend(lead, mid, IsSpace);
    WithoutDropped(lead, IsSpace);
    WithoutDropped(tail, IsSpace);
  }

  /** Text that neither starts nor ends with whitespace is left as it is. */
  lemma StripKeepsStripped(s: string)
    requires s == [] || (!IsSpace(s[0]) && !IsSpace(s[|s| - 1]))
    ensures Strip(s) == s
  {
    if s != [] {
      assert SpaceRunEnd(s, 0) == 0;
      assert TrimEnd(s, 0, |s|) == |s|;
    }
  }

  lemma SliceKeeps(s: string, a: nat, b: nat)
    requires a <= b <= |s|
    ensures NoWideGaps(s) ==> NoWideGaps(s[a..b])
    ensures Squashed(s) ==> Squashed(s[a..b])
  {
    var r := s[a..b];
    if NoWideGaps(s) {
      forall i, j | Gap(r, i, j)
        ensures j == i + 1
      {
        assert Gap(s, a + i, a + j);
      }
    }
  }

  // ---------------------------------------------------------------------
  // Words
  // ---------------------------------------------------------------------

  /** `s` begins with a visible character. */
  predicate StartsVisible(s: string) {
    s != [] && !IsSpace(s[0])
  }

  /** The words of `s`: its maximal runs of visible characters, in order. */
  function Words(s: string): (r: seq<string>)
    ensures StartsVisible(s) ==> r != []
  {
    if s == [] then []
    else if IsSpace(s[0]) then Words(s[1..])
    else
      var rest := Words(s[1..]);
      if StartsVisible(s[1..]) then [[s[0]] + rest[0]] + rest[1..] else [[s[0]]] + rest
  }

  /** Whitespace in front of a text adds no word. */
  lemma {:induction false} WordsSkipSpace(w: string, y: string)
    requires AllSpace(w)
    ensures Words(w + y) == Words(y)
    decreases |w|
  {
    if w != [] {
      assert (w + y)[1..] == w[1..] + y;
      WordsSkipSpace(w[1..], y);
    } else {
      assert w + y == y;
    }
  }

  /** Whitespace after a text adds no word and ends none. */
  lemma {:induction false} WordsDropSpace(x: string, w: string)
    requires AllSpace(w)
    ensures Words(x + w) == Words(x)
    decreases |x|
  {
    if x == [] {
      assert x + w == w + [];
      WordsSkipSpace(w, []);
    } else {
      assert (x + w)[1..] == x[1..] + w;
      WordsDropSpace(x[1..], w);
      if x[1..] == [] {
        assert x[1..] + w == w;
      }
    }
  }

  /** Whitespace separates: the words on either side of it stay apart. */
  lemma {:induction false} WordsSplit(p: string, w: string, q: string)
    requires w != [] && AllSpace(w)
    ensures Words(p + w + q) == Words(p) + Words(q)
    decreases |p|
  {
    if p == [] {
      assert p + w + q == w + q;
      WordsSkipSpace(w, q);
    } else {
      var y := p[1..] + w + q;
      assert p + w + q == [p[0]] + y;
      assert p == [p[0]] + p[1..];
      WordsSplit(p[1..], w, q);
      if p[1..] == [] {
        assert y == w + q;
      } else {
        assert y[0] == p[1];
      }
      WordsConsSplit(p[0], p[1..], y, Words(q));
    }
  }

  /** Putting a character in front of two texts that agree on their words
      up to a tail `ws`, and on whether they begin with a visible
      character, keeps them agreeing. */
  lemma WordsConsSplit(c: char, x: string, y: string, ws: seq<string>)
    requires Words(y) == Words(x) + ws
    requires StartsVisible(y) == StartsVisible(x)
    ensures Words([c] + y) == Words([c] + x) + ws
  {
    if IsSpace(c) {
      WordsConsSpace(c, x);
      WordsConsSpace(c, y);
    } else if StartsVisible(x) {
      WordsConsJoin(c, x);
      WordsConsJoin(c, y);
      JoinFirst([c], Words(x), Words(y), ws);
    } else {
      WordsConsNew(c, x);
      WordsConsNew(c, y);
      ConcatAssoc([[c]], Words(x), ws);
    }
  }

  /** Prefixing the first word commutes with appending more words. */
  lemma JoinFirst(h: string, wx: seq<string>, wy: seq<string>, ws: seq<string>)
    requires wx != [] && wy == wx + ws
    ensures [h + wy[0]] + wy[1..] == [h + wx[0]] + wx[1..] + ws
  {
    assert wy[0] == wx[0];
    assert wy[1..] == wx[1..] + ws;
  }

  /** Whitespace in front adds no word. */
  lemma WordsConsSpace(c: char, x: string)
    requires IsSpace(c)
    ensures Words([c] + x) == Words(x)
  {
    assert ([c] + x)[1..] == x;
  }

  /** A visible character in front of a word joins it. */
  lemma WordsConsJoin(c: char, x: string)
    requires !IsSpace(c) && StartsVisible(x)
    ensures Words([c] + x) == [[c] + Words(x)[0]] + Words(x)[1..]
  {
    assert ([c] + x)[1..] == x;
  }

  /** A visible character in front of whitespace, or of nothing, is a word
      of its own. */
  lemma WordsConsNew(c: char, x: string)
    requires !IsSpace(c) && !StartsVisible(x)
    ensures Words([c] + x) == [[c]] + Words(x)
  {
    assert ([c] + x)[1..] == x;
  }

  /** The words of `[c] + y` depend on `y` only through its words and
      whether it begins with a visible character. */
  lemma WordsCons(c: char, x: string, y: string)
    requires Words(x) == Words(y) && StartsVisible(x) == StartsVisible(y)
    ensures Words([c] + x) == Words([c] + y)
  {
    assert ([c] + x)[1..] == x;
    assert ([c] + y)[1..] == y;
  }

  /** A blank line in front of a text adds no word. */
  lemma BreaksNoWords(u: string)
    ensures Words("\n\n" + u) == Words(u)
    ensures !StartsVisible("\n\n" + u)
  {
    WordsSkipSpace("\n\n", u);
  }

  /** A gap adds no word. */
  lemma GapNoWords(t: string, i: nat, j: nat)
    requires Gap(t, i, j)
    ensures Words(t[i..]) == Words(t[j + 1..])
  {
    var gap := t[i..j + 1];
    forall k | 0 <= k < |gap|
      ensures IsSpace(gap[k])
    {
      assert gap[k] == t[i + k];
    }
    assert t[i..] == gap + t[j + 1..];
    WordsSkipSpace(gap, t[j + 1..]);
  }

  /** The first substitution keeps the words of the text. */
  lemma {:induction false} CollapseKeepsWords(t: string, i: nat)
    requires i <= |t|
    ensures Words(CollapseFrom(t, i)) == Words(t[i..])
    ensures StartsVisible(CollapseFrom(t, i)) == StartsVisible(t[i..])
    decreases |t| - i
  {
    if i < |t| {
      match GapEnd(t, i)
      case Some(j) =>
        CollapseKeepsWords(t, j + 1);
        CollapseWordsAtGap(t, i, j);
      case None =>
        CollapseKeepsWords(t, i + 1);
        CollapseAtOther(t, i);
        assert t[i..] == [t[i]] + t[i + 1..];
        WordsCons(t[i], CollapseFrom(t, i + 1), t[i + 1..]);
    }
  }

  /** A match of the first substitution keeps the words around it. */
  lemma CollapseWordsAtGap(t: string, i: nat, j: nat)
    requires i < |t| && GapEnd(t, i) == Some(j)
    requires Words(CollapseFrom(t, j + 1)) == Words(t[j + 1..])
    ensures Words(CollapseFrom(t, i)) == Words(t[i..])
    ensures !StartsVisible(CollapseFrom(t, i)) && !StartsVisible(t[i..])
  {
    GapEndSpec(t, i);
    CollapseAtGap(t, i, j);
    BreaksNoWords(CollapseFrom(t, j + 1));
    GapNoWords(t, i, j);
    assert t[i..][0] == t[i];
  }

  /** The second substitution keeps the words of the text. */
  lemma {:induction false} SquashKeepsWords(t: string, i: nat)
    requires i <= |t|
    ensures Words(SquashFrom(t, i)) == Words(t[i..])
    ensures StartsVisible(SquashFrom(t, i)) == StartsVisible(t[i..])
    decreases |t| - i
  {
    if i < |t| {
      if IsBlank(t[i]) {
        var e := BlankRunEnd(t, i);
        SquashKeepsWords(t, e);
        SquashWordsAtRun(t, i, e);
      } else {
        SquashKeepsWords(t, i + 1);
        assert t[i..] == [t[i]] + t[i + 1..];
        WordsCons(t[i], SquashFrom(t, i + 1), t[i + 1..]);
      }
    }
  }

  /** A run of spaces and tabs replaced by one space keeps the words
      around it. */
  lemma SquashWordsAtRun(t: string, i: nat, e: nat)
    requires i < |t| && IsBlank(t[i]) && e == BlankRunEnd(t, i)
    requires Words(SquashFrom(t, e)) == Words(t[e..])
    ensures Words(SquashFrom(t, i)) == Words(t[i..])
    ensures !StartsVisible(SquashFrom(t, i)) && !StartsVisible(t[i..])
  {
    WordsSkipSpace(" ", SquashFrom(t, e));
    var run := t[i..e];
    forall k | 0 <= k < |run|
      ensures IsSpace(run[k])
    {
      assert run[k] == t[i + k];
    }
    assert t[i..] == run + t[e..];
    WordsSkipSpace(run, t[e..]);
    assert t[i..][0] == t[i];
  }

  /** Stripping keeps the words of the text. */
  lemma StripKeepsWords(s: string)
    ensures Words(Strip(s)) == Words(s)
  {
    var a := SpaceRunEnd(s, 0);
    var e := TrimEnd(s, a, |s|);
    var lead, mid, tail := s[..a], s[a..e], s[e..];
    forall k | 0 <= k < |lead|
      ensures IsSpace(lead[k])
    {
      assert lead[k] == s[k];
    }
    forall k | 0 <= k < |tail|
      ensures IsSpace(tail[k])
    {
      assert tail[k] == s[e + k];
    }
    assert s == lead + (mid + tail);
    WordsSkipSpace(lead, mid + tail);
    WordsDropSpace(mid, tail);
  }

  // ---------------------------------------------------------------------
  // The whole clean-up
  // ---------------------------------------------------------------------

  /** Lines 135-145: `None` and the empty string give the empty string;
      any other text goes through both substitutions and the strip. */
  function CleanExtractedText(text: Option<string>): string {
    match text
    case None => ""
    case Some(s) => if s == "" then "" else Strip(SquashBlanks(CollapseBlankLines(s)))
  }

  /** The cleaned text reads the same as the extracted one, has no blank
      line with spaces on it and never three line breaks in a row, has no
      tab and no double space, and starts and ends with visible text. */
  lemma CleanSpec(text: Option<string>)
    ensures text.None? || text == Some("") ==> CleanExtractedText(text) == ""
    ensures text.Some? ==> Visible(CleanExtractedText(text)) == Visible(text.value)
    ensures text.Some? ==> Words(CleanExtractedText(text)) == Words(text.value)
    ensures var r := CleanExtractedText(text);
      && NoWideGaps(r)
      && Squashed(r)
      && (r == [] || (!IsSpace(r[0]) && !IsSpace(r[|r| - 1])))
  {
    if text.Some? && text.value != "" {
      var s := text.value;
      var c := CollapseBlankLines(s);
      var q := SquashBlanks(c);
      CollapseVisible(s, 0);
      CollapseNoWideGaps(s, 0);
      SquashVisible(c, 0);
      SquashSquashes(c, 0);
      SquashKeepsNarrowGaps(c, 0);
      CleanKeepsWords(s);
      StripSpec(q);
      StripVisible(q);
      SliceKeeps(q, SpaceRunEnd(q, 0), TrimEnd(q, SpaceRunEnd(q, 0), |q|));
      assert s[0..] == s;
      assert c[0..] == c;
    }
  }

  /** Each stage keeps the words of the extracted text. */
  lemma CleanKeepsWords(s: string)
    requires s != ""
    ensures Words(Strip(SquashBlanks(CollapseBlankLines(s)))) == Words(s)
  {
    var c := CollapseBlankLines(s);
    CollapseKeepsWords(s, 0);
    SquashKeepsWords(c, 0);
    StripKeepsWords(SquashBlanks(c));
    assert s[0..] == s;
    assert c[0..] == c;
  }

  /** `s` holds no whitespace at all. */
  predicate NoSpace(s: string) {
    forall k :: 0 <= k < |s| ==> !IsSpace(s[k])
  }

  /** Text without whitespace is left as it is by both substitutions. */
  lemma {:induction false} CleanKeepsSolid(s: string)
    requires NoSpace(s)
    ensures CollapseBlankLines(s) == s && SquashBlanks(s) == s
  {
    CollapseKeepsNarrowGaps(s, 0);
    SquashKeepsSquashed(s, 0);
    assert s[0..] == s;
  }

  lemma NoBreakNoGaps(s: string)
    requires forall k :: 0 <= k < |s| ==> s[k] != '\n'
    ensures NoWideGaps(s)
  {
  }

  /** Two words with spaces and tabs between them come out one space apart. */
  lemma {:induction false} CleanBlankRun(p: string, r: string, q: string)
    requires p != [] && NoSpace(p) && q != [] && NoSpace(q)
    requires r != [] && forall k :: 0 <= k < |r| ==> IsBlank(r[k])
    ensures CleanExtractedText(Some(p + r + q)) == p + " " + q
  {
    var s := p + r + q;
    forall k | 0 <= k < |s|
      ensures s[k] != '\n'
    {
      if k < |p| {
        assert s[k] == p[k];
      } else if k < |p| + |r| {
        assert s[k] == r[k - |p|];
      } else {
        assert s[k] == q[k - |p| - |r|];
      }
    }
    NoBreakNoGaps(s);
    CollapseKeepsNarrowGaps(s, 0);
    assert s[0..] == s;
    CleanKeepsSolid(p);
    CleanKeepsSolid(q);
    SquashSplit(p, r, q);
    StripKeepsStripped(p + " " + q);
  }

  /** Two words with a blank line between them, however many line breaks
      and spaces it holds, come out one blank line apart. */
  lemma {:induction false} CleanGap(p: string, g: string, q: string)
    requires p != [] && NoSpace(p) && q != [] && NoSpace(q)
    requires |g| >= 2 && g[0] == '\n' && g[|g| - 1] == '\n' && AllSpace(g)
    ensures CleanExtractedText(Some(p + g + q)) == p + "\n\n" + q
  {
    CleanKeepsSolid(p);
    CleanKeepsSolid(q);
    CollapseSplit(p, g, q);
    var c := p + "\n\n" + q;
    assert Squashed(c) by {
      forall k | 0 <= k < |c|
        ensures c[k] == '\n' || !IsSpace(c[k])
      {
      }
    }
    SquashKeepsSquashed(c, 0);
    assert c[0..] == c;
    StripKeepsStripped(c);
  }

  /** Cleaning cleaned text changes nothing. */
  lemma CleanIdempotent(text: Option<string>)
    ensures CleanExtractedText(Some(CleanExtractedText(text))) == CleanExtractedText(text)
  {
    var r := CleanExtractedText(text);
    CleanSpec(text);
    if r != "" {
      CollapseKeepsNarrowGaps(r, 0);
      SquashKeepsSquashed(r, 0);
      StripKeepsStripped(r);
      assert r[0..] == r;
    }
  }
}
