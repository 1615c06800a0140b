/** The reading of a model reply after a check: the overall score found by
    `(\d+)/100点`, its band, and the approval verdict found by
    `承認可否[：:]\s*([○△×])`, together with the summary fields kept for the
    download (`score`, `approval`, "N/A" when absent).

    The two regular expressions are modelled as scans whose results are proved
    to be the leftmost match Python's `re.search` returns. */
module Interpreter {
  import opened Wrappers
  import opened Text

  const ScoreMarker: string := "評価点数"
  const RatingMarker: string := "評価:"
  const OutOf100: string := "/100点"
  const ApprovalLabel: string := "承認可否"
  const Emphasis: string := "**"
  const NotAvailable: string := "N/A"

  /** The guard `"評価点数" in result or "評価:" in result`. */
  predicate HasScoreMarker(reply: string) {
    Contains(reply, ScoreMarker) || Contains(reply, RatingMarker)
  }

  // ---------------------------------------------------------------------
  // The score: (\d+)/100点
  // ---------------------------------------------------------------------

  /** Where the run of digits starting at `i` ends. */
  function DigitRunEnd(t: string, i: nat): (e: nat)
    requires i <= |t|
    ensures i <= e <= |t|
    ensures forall k :: i <= k < e ==> IsDigit(t[k])
    ensures e == |t| || !IsDigit(t[e])
    decreases |t| - i
  {
    if i < |t| && IsDigit(t[i]) then DigitRunEnd(t, i + 1) else i
  }

  /** A run of digits ends at the first non-digit and nowhere else. */
  lemma DigitRunEndUnique(t: string, i: nat, e: nat)
    requires i <= e <= |t|
    requires forall k :: i <= k < e ==> IsDigit(t[k])
    requires e == |t| || !IsDigit(t[e])
    ensures DigitRunEnd(t, i) == e
  {
  }

  /** `(\d+)/100点` matches at `i`, its group spanning `t[i..e]`. */
  predicate ScoreMatchAt(t: string, i: nat, e: nat) {
    i < e && StartsAt(t, e, OutOf100) && forall k :: i <= k < e ==> IsDigit(t[k])
  }

  lemma SlashAt(t: string, e: nat)
    requires StartsAt(t, e, OutOf100)
    ensures e < |t| && t[e] == '/' && !IsDigit(t[e])
  {
    assert t[e] == t[e..e + |OutOf100|][0];
  }

  /** Backtracking cannot end the group anywhere but at the end of the digit run. */
  lemma ScoreMatchEnd(t: string, i: nat, e: nat)
    requires ScoreMatchAt(t, i, e)
    ensures e == DigitRunEnd(t, i)
  {
    SlashAt(t, e);
    DigitRunEndUnique(t, i, e);
  }

  /** The scan `re.search(r'(\d+)/100点', t[i..])` performs: a run of digits
      that is not followed by `/100点` is skipped as a whole. */
  function ScoreSearchFrom(t: string, i: nat): (m: Option<(nat, nat)>)
    requires i <= |t|
    ensures m.Some? ==> i <= m.value.0 && ScoreMatchAt(t, m.value.0, m.value.1)
    decreases |t| - i
  {
    if i == |t| then None
    else if !IsDigit(t[i]) then ScoreSearchFrom(t, i + 1)
    else
      var e := DigitRunEnd(t, i);
      if StartsAt(t, e, OutOf100) then Some((i, e)) else ScoreSearchFrom(t, e)
  }

  /** The scan finds the leftmost match from `i` on, with the only group that
      match can have, and finds none exactly when there is none. */
  lemma {:induction false} ScoreSearchSpec(t: string, i: nat)
    requires i <= |t|
    ensures ScoreSearchFrom(t, i).None? ==> forall j, e :: i <= j ==> !ScoreMatchAt(t, j, e)
    ensures ScoreSearchFrom(t, i).Some? ==>
      var (s, g) := ScoreSearchFrom(t, i).value;
      && (forall j, e :: i <= j < s ==> !ScoreMatchAt(t, j, e))
      && (forall e :: ScoreMatchAt(t, s, e) ==> e == g)
    decreases |t| - i
  {
    if i == |t| {
    } else if !IsDigit(t[i]) {
      ScoreSearchSpec(t, i + 1);
    } else {
      var e := DigitRunEnd(t, i);
      forall e' | ScoreMatchAt(t, i, e')
        ensures e' == e
      {
        ScoreMatchEnd(t, i, e');
      }
      if !StartsAt(t, e, OutOf100) {
        ScoreSearchSpec(t, e);
        forall j, e' | i <= j < e
          ensures !ScoreMatchAt(t, j, e')
        {
          if ScoreMatchAt(t, j, e') {
            ScoreMatchEnd(t, j, e');
            DigitRunEndUnique(t, j, e);
          }
        }
      }
    }
  }

  /** `int(score_match.group(1))`. */
  function GroupValue(t: string, i: nat, e: nat): nat
    requires ScoreMatchAt(t, i, e)
  {
    assert AllDigits(t[i..e]) by {
      forall k | 0 <= k < e - i
        ensures IsDigit(t[i..e][k])
      {
        assert t[i..e][k] == t[i + k];
      }
    }
    DigitsValue(t[i..e])
  }

  // ---------------------------------------------------------------------
  // The band of a score
  // ---------------------------------------------------------------------

  datatype Band = Excellent | Good | NeedsImprovement | NeedsMajorImprovement

  /** The status shown for a score. */
  function ScoreBand(score: nat): Band {
    if score >= 80 then Excellent
    else if score >= 60 then Good
    else if score >= 40 then NeedsImprovement
    else NeedsMajorImprovement
  }

  function Status(b: Band): string {
    match b
    case Excellent => "優秀"
    case Good => "良好"
    case NeedsImprovement => "要改善"
    case NeedsMajorImprovement => "要大幅改善"
  }

  function Light(b: Band): string {
    match b
    case Excellent => "🟢"
    case Good => "🟡"
    case NeedsImprovement => "🟠"
    case NeedsMajorImprovement => "🔴"
  }

  /** Better bands rank higher. */
  function Rank(b: Band): nat {
    match b
    case Excellent => 3
    case Good => 2
    case NeedsImprovement => 1
    case NeedsMajorImprovement => 0
  }

  /** The banner shown for a score: `{color} **総合評価: {score}/100点 ({status})**`. */
  function ScoreBanner(score: nat): string {
    Light(ScoreBand(score)) + " **総合評価: " + NatToString(score) + OutOf100 + " (" + Status(ScoreBand(score)) + ")**"
  }

  /** The four bands partition the scores at 40, 60 and 80. */
  lemma BandThresholds(score: nat)
    ensures ScoreBand(score) == Excellent <==> 80 <= score
    ensures ScoreBand(score) == Good <==> 60 <= score < 80
    ensures ScoreBand(score) == NeedsImprovement <==> 40 <= score < 60
    ensures ScoreBand(score) == NeedsMajorImprovement <==> score < 40
  {
  }

  /** A higher score never falls into a worse band. */
  lemma BandMonotone(lo: nat, hi: nat)
    requires lo <= hi
    ensures Rank(ScoreBand(lo)) <= Rank(ScoreBand(hi))
  {
  }

  // ---------------------------------------------------------------------
  // The approval: 承認可否[：:]\s*([○△×])
  // ---------------------------------------------------------------------

  predicate IsColon(c: char) {
    c == '：' || c == ':'
  }

  predicate IsApprovalSymbol(c: char) {
    c == '○' || c == '△' || c == '×'
  }

  /** The label, then `**` when `emphasis`, then a colon, whitespace and a
      symbol at `g`. */
  predicate ApprovalMatchAt(t: string, i: nat, g: nat, emphasis: bool) {
    var colon := i + |ApprovalLabel| + (if emphasis then |Emphasis| else 0);
    && StartsAt(t, i, ApprovalLabel)
    && (emphasis ==> StartsAt(t, i + |ApprovalLabel|, Emphasis))
    && colon < g < |t|
    && IsColon(t[colon])
    && (forall k :: colon < k < g ==> IsSpace(t[k]))
    && IsApprovalSymbol(t[g])
  }

  /** `承認可否[：:]\s*([○△×])` matches at `i` with its group at `g`; with
      `allowEmphasis`, so does `承認可否(?:\*\*)?[：:]\s*([○△×])`. */
  predicate ApprovalPatternAt(t: string, i: nat, g: nat, allowEmphasis: bool) {
    ApprovalMatchAt(t, i, g, false) || (allowEmphasis && ApprovalMatchAt(t, i, g, true))
  }

  /** The attempt of the pattern at position `i`: the position of the group. */
  function ApprovalAt(t: string, i: nat, allowEmphasis: bool): Option<nat>
    requires i <= |t|
  {
    if !StartsAt(t, i, ApprovalLabel) then None
    else
      var colon := if allowEmphasis && StartsAt(t, i + |ApprovalLabel|, Emphasis)
        then i + |ApprovalLabel| + |Emphasis| else i + |ApprovalLabel|;
      if colon < |t| && IsColon(t[colon]) then
        var g := SpaceRunEnd(t, colon + 1);
        if g < |t| && IsApprovalSymbol(t[g]) then Some(g) else None
      else None
  }

  lemma EmphasisAt(t: string, i: nat)
    requires StartsAt(t, i, Emphasis)
    ensures t[i] == '*' && !IsColon(t[i])
  {
    assert t[i] == t[i..i + |Emphasis|][0];
  }

  /** The attempt at `i` succeeds exactly when the pattern matches there, and
      then with the group the match has. */
  lemma ApprovalAtSpec(t: string, i: nat, g: nat, allowEmphasis: bool)
    requires i <= |t|
    ensures ApprovalAt(t, i, allowEmphasis) == Some(g) <==> ApprovalPatternAt(t, i, g, allowEmphasis)
  {
    if StartsAt(t, i, ApprovalLabel) {
      var n := i + |ApprovalLabel|;
      if StartsAt(t, n, Emphasis) {
        EmphasisAt(t, n);
      }
      if ApprovalMatchAt(t, i, g, false) {
        SpaceRunEndUnique(t, n + 1, g);
      }
      if allowEmphasis && ApprovalMatchAt(t, i, g, true) {
        SpaceRunEndUnique(t, n + |Emphasis| + 1, g);
      }
    }
  }

  /** The scan `re.search` performs for the approval pattern from `i` on:
      the start of the match and the position of its group. */
  function ApprovalSearchFrom(t: string, i: nat, allowEmphasis: bool): (m: Option<(nat, nat)>)
    requires i <= |t|
    ensures m.Some? ==> i <= m.value.0 < m.value.1 < |t|
    decreases |t| - i
  {
    if i == |t| then None
    else match ApprovalAt(t, i, allowEmphasis)
      case Some(g) => Some((i, g))
      case None => ApprovalSearchFrom(t, i + 1, allowEmphasis)
  }

  /** The scan finds the leftmost match, with its group, and none exactly when
      there is none; its group is always one of ○, △ and ×. */
  lemma {:induction false} ApprovalSearchSpec(t: string, i: nat, allowEmphasis: bool)
    requires i <= |t|
    ensures ApprovalSearchFrom(t, i, allowEmphasis).None? ==>
      forall j, g :: i <= j <= |t| ==> !ApprovalPatternAt(t, j, g, allowEmphasis)
    ensures ApprovalSearchFrom(t, i, allowEmphasis).Some? ==>
      var (s, g) := ApprovalSearchFrom(t, i, allowEmphasis).value;
      && ApprovalPatternAt(t, s, g, allowEmphasis)
      && IsApprovalSymbol(t[g])
      && (forall j, g' :: i <= j < s ==> !ApprovalPatternAt(t, j, g', allowEmphasis))
    decreases |t| - i
  {
    forall g: nat
      ensures ApprovalAt(t, i, allowEmphasis) == Some(g) <==> ApprovalPatternAt(t, i, g, allowEmphasis)
    {
      ApprovalAtSpec(t, i, g, allowEmphasis);
    }
    if i < |t| {
      match ApprovalAt(t, i, allowEmphasis)
      case Some(g) =>
        assert ApprovalSearchFrom(t, i, allowEmphasis) == Some((i, g));
      case None =>
        ApprovalSearchSpec(t, i + 1, allowEmphasis);
        assert ApprovalSearchFrom(t, i, allowEmphasis) == ApprovalSearchFrom(t, i + 1, allowEmphasis);
    }
  }

  // ---------------------------------------------------------------------
  // The verdict and the summary
  // ---------------------------------------------------------------------

  datatype Verdict = Approvable | Conditional | NotApprovable

  /** ○ is approvable, △ approvable once corrected, anything else not. */
  function VerdictOf(symbol: char): Verdict {
    if symbol == '○' then Approvable
    else if symbol == '△' then Conditional
    else NotApprovable
  }

  /** The notice shown for a verdict. */
  function VerdictNotice(v: Verdict): string {
    match v
    case Approvable => "✅ **承認可**: この稟議書は承認可能です"
    case Conditional => "⚠️ **条件付き承認**: 修正後に承認可能です"
    case NotApprovable => "❌ **承認不可**: 大幅な修正が必要です"
  }

  /** What the script keeps and shows about a reply: the `score` and
      `approval` fields of the saved result ("N/A" when absent), the band of
      the score banner and the verdict of the approval notice, if shown. */
  datatype Summary = Summary(score: string, approval: string, band: Option<Band>, verdict: Option<Verdict>)

  /** `score_match` read before it was ever assigned, with the approval
      notice the script had already shown when it stopped. */
  datatype ScriptError = UnboundLocal(variable: string, notice: Option<Verdict>)

  /** The summary of a reply, searching for the score only when `searchScore`
      and reading the approval with or without the emphasis extension. */
  function Reading(reply: string, searchScore: bool, allowEmphasis: bool): Summary {
    var sm := if searchScore then ScoreSearchFrom(reply, 0) else None;
    var am := ApprovalSearchFrom(reply, 0, allowEmphasis);
    Summary(
      if sm.Some? then reply[sm.value.0..sm.value.1] else NotAvailable,
      if am.Some? then [reply[am.value.1]] else NotAvailable,
      if sm.Some? then Some(ScoreBand(GroupValue(reply, sm.value.0, sm.value.1))) else None,
      if am.Some? then Some(VerdictOf(reply[am.value.1])) else None)
  }

  /** Lines 603-645 as written, reached only for a non-empty reply (the
      `if result:` of line 598): without a score marker `score_match` is
      never assigned, and building the saved result fails after the
      approval notice has been shown. */
  function SummarizeAsWritten(reply: string): Result<Summary, ScriptError>
    requires reply != ""
  {
    if HasScoreMarker(reply) then Success(Reading(reply, true, false))
    else Failure(UnboundLocal("score_match", Reading(reply, false, false).verdict))
  }

  /** Lines 603-645 as intended: no score without a marker, and the approval
      also read after the emphasised label the prompt template asks for. */
  function Summarize(reply: string): Summary {
    Reading(reply, HasScoreMarker(reply), true)
  }

  // ---------------------------------------------------------------------
  // Properties of the reading
  // ---------------------------------------------------------------------

  /** Wherever the script as written stops on the unbound `score_match`, the
      corrected reading reports no score and no band, and reports a verdict
      exactly when the reply holds an approval line. */
  lemma RecoveredWhereAsWrittenFails(reply: string)
    requires reply != "" && SummarizeAsWritten(reply).Failure?
    ensures SummarizeAsWritten(reply).error.variable == "score_match"
    ensures SummarizeAsWritten(reply).error.notice.Some?
        <==> exists s: nat, g: nat :: ApprovalPatternAt(reply, s, g, false)
    ensures Summarize(reply).score == NotAvailable && Summarize(reply).band == None
    ensures Summarize(reply).verdict.Some? <==> exists s: nat, g: nat :: ApprovalPatternAt(reply, s, g, true)
  {
    VerdictFound(reply, false);
    VerdictFound(reply, true);
  }

  /** The approval reading finds a verdict exactly when the reply holds a
      match of the approval pattern somewhere. */
  lemma VerdictFound(reply: string, allowEmphasis: bool)
    ensures ApprovalSearchFrom(reply, 0, allowEmphasis).Some?
        <==> exists s: nat, g: nat :: ApprovalPatternAt(reply, s, g, allowEmphasis)
  {
    ApprovalSearchSpec(reply, 0, allowEmphasis);
    if ApprovalSearchFrom(reply, 0, allowEmphasis).None? {
      forall s: nat, g: nat
        ensures !ApprovalPatternAt(reply, s, g, allowEmphasis)
      {
        if s > |reply| {
          assert !StartsAt(reply, s, ApprovalLabel);
        }
      }
    }
  }

  /** A pattern whose first character is not in `t` is not in `t`. */
  lemma NotContained(t: string, pat: string)
    requires |pat| >= 1 && pat[0] !in t
    ensures !Contains(t, pat)
  {
  }

  /** A reply carrying a verdict but no score marker: as written the script
      fails, as intended it reports the verdict and no score. */
  lemma UnboundScoreExample()
    ensures SummarizeAsWritten("承認可否: ○") == Failure(UnboundLocal("score_match", Some(Approvable)))
    ensures Summarize("承認可否: ○") == Summary(NotAvailable, "○", None, Some(Approvable))
  {
    var t := "承認可否: ○";
    NotContained(t, ScoreMarker);
    NotContained(t, RatingMarker);
    assert StartsAt(t, 0, ApprovalLabel);
    assert t[|ApprovalLabel|..|ApprovalLabel| + |Emphasis|][0] == ':';
    assert SpaceRunEnd(t, 5) == 6;
  }

  /** When the reply has a score marker and never puts `**` after the label,
      the intended reading is the reading as written. */
  lemma AgreeWithoutEmphasis(reply: string)
    requires HasScoreMarker(reply)
    requires !Contains(reply, ApprovalLabel + Emphasis)
    ensures SummarizeAsWritten(reply) == Success(Summarize(reply))
  {
    SearchIgnoresEmphasis(reply, 0);
  }

  lemma {:induction false} SearchIgnoresEmphasis(t: string, i: nat)
    requires i <= |t|
    requires !Contains(t, ApprovalLabel + Emphasis)
    ensures ApprovalSearchFrom(t, i, true) == ApprovalSearchFrom(t, i, false)
    decreases |t| - i
  {
    if i < |t| {
      if StartsAt(t, i, ApprovalLabel) && StartsAt(t, i + |ApprovalLabel|, Emphasis) {
        var n := i + |ApprovalLabel|;
        assert t[i..n + |Emphasis|] == t[i..n] + t[n..n + |Emphasis|];
        assert StartsAt(t, i, ApprovalLabel + Emphasis);
        assert false;
      }
      assert ApprovalAt(t, i, true) == ApprovalAt(t, i, false);
      SearchIgnoresEmphasis(t, i + 1);
    }
  }

  /** A score scan over digit-free text goes on past it. */
  lemma {:induction false} ScoreSkipsText(t: string, i: nat, j: nat)
    requires i <= j <= |t|
    requires forall k :: i <= k < j ==> !IsDigit(t[k])
    ensures ScoreSearchFrom(t, i) == ScoreSearchFrom(t, j)
    decreases j - i
  {
    if i < j {
      ScoreSkipsText(t, i + 1, j);
    }
  }

  /** A score printed as `str(n)` and followed by `/100点` after digit-free
      text is the score read back, with the value `n`. */
  lemma {:induction false} ScoreReadBack(p: string, n: nat, rest: string)
    requires forall k :: 0 <= k < |p| ==> !IsDigit(p[k])
    ensures var t := p + NatToString(n) + OutOf100 + rest;
      && ScoreSearchFrom(t, 0) == Some((|p|, |p| + |NatToString(n)|))
      && t[|p|..|p| + |NatToString(n)|] == NatToString(n)
      && GroupValue(t, |p|, |p| + |NatToString(n)|) == n
  {
    NatToStringRoundTrip(n);
    DigitsReadBack(p, NatToString(n), rest);
  }

  /** The same for any numeral `s` followed by `/100点`: its value is read back. */
  lemma {:induction false} DigitsReadBack(p: string, s: string, rest: string)
    requires forall k :: 0 <= k < |p| ==> !IsDigit(p[k])
    requires |s| >= 1 && AllDigits(s)
    ensures var t := p + s + OutOf100 + rest;
      && ScoreSearchFrom(t, 0) == Some((|p|, |p| + |s|))
      && t[|p|..|p| + |s|] == s
      && GroupValue(t, |p|, |p| + |s|) == DigitsValue(s)
  {
    var t := p + s + OutOf100 + rest;
    var e := |p| + |s|;
    forall k | 0 <= k < |p|
      ensures !IsDigit(t[k])
    {
      assert t[k] == p[k];
    }
    forall k | |p| <= k < e
      ensures IsDigit(t[k])
    {
      assert t[k] == s[k - |p|];
    }
    assert t[|p|..e] == s;
    assert t[e..e + |OutOf100|] == OutOf100;
    ScoreFoundAt(t, |p|, e);
  }

  /** Digits from `i` to `e` directly followed by `/100点`, with no digit
      before them, are the first score. */
  lemma ScoreFoundAt(t: string, i: nat, e: nat)
    requires i < e <= |t|
    requires forall k :: 0 <= k < i ==> !IsDigit(t[k])
    requires forall k :: i <= k < e ==> IsDigit(t[k])
    requires StartsAt(t, e, OutOf100)
    ensures ScoreSearchFrom(t, 0) == Some((i, e))
  {
    ScoreSkipsText(t, 0, i);
    SlashAt(t, e);
    DigitRunEndUnique(t, i, e);
  }

  /** An approval scan goes on past text without the label's first character. */
  lemma {:induction false} ApprovalSkipsText(t: string, i: nat, j: nat, allowEmphasis: bool)
    requires i <= j <= |t|
    requires forall k :: i <= k < j ==> t[k] != ApprovalLabel[0]
    ensures ApprovalSearchFrom(t, i, allowEmphasis) == ApprovalSearchFrom(t, j, allowEmphasis)
    decreases j - i
  {
    if i < j {
      ApprovalSkipsText(t, i + 1, j, allowEmphasis);
    }
  }

  /** Where the pieces of `p + w + rest` sit. */
  lemma ConcatLayout(p: string, w: string, rest: string)
    ensures var t := p + w + rest;
      && |t| == |p| + |w| + |rest|
      && (forall k :: 0 <= k < |p| ==> t[k] == p[k])
      && (forall k :: 0 <= k < |w| ==> t[|p| + k] == w[k])
      && (forall k :: 0 <= k < |rest| ==> t[|p| + |w| + k] == rest[k])
  {
  }

  /** The characters of a reply holding the template's approval line. */
  lemma TemplateLineLayout(p: string, symbol: char, rest: string)
    requires IsApprovalSymbol(symbol)
    requires ApprovalLabel[0] !in p && ApprovalLabel[0] !in rest
    ensures var t := p + (ApprovalLabel + "**: " + [symbol]) + rest;
      && |t| == |p| + 9 + |rest|
      && (forall k :: 0 <= k < |t| && k != |p| ==> t[k] != ApprovalLabel[0])
      && StartsAt(t, |p|, ApprovalLabel)
      && StartsAt(t, |p| + 4, Emphasis)
      && t[|p| + 6] == ':' && t[|p| + 7] == ' ' && t[|p| + 8] == symbol
  {
    var w := ApprovalLabel + "**: " + [symbol];
    var t := p + w + rest;
    ConcatLayout(p, w, rest);
    forall k | 0 <= k < |t| && k != |p|
      ensures t[k] != ApprovalLabel[0]
    {
      if k < |p| {
        assert t[k] in p;
      } else if k < |p| + 9 {
        assert t[k] == w[k - |p|];
      } else {
        assert t[k] in rest;
      }
    }
    assert t[|p|..|p| + 4] == w[..4];
    assert t[|p| + 4..|p| + 6] == w[4..6];
  }

  /** The approval line of the prompt template, `承認可否**: ` and a symbol:
      the pattern as written misses it, the intended one reads the symbol. */
  lemma TemplateApprovalLine(p: string, symbol: char, rest: string)
    requires IsApprovalSymbol(symbol)
    requires ApprovalLabel[0] !in p && ApprovalLabel[0] !in rest
    ensures var t := p + (ApprovalLabel + "**: " + [symbol]) + rest;
      && ApprovalSearchFrom(t, 0, false).None?
      && ApprovalSearchFrom(t, 0, true) == Some((|p|, |p| + 8))
      && t[|p| + 8] == symbol
  {
    var t := p + (ApprovalLabel + "**: " + [symbol]) + rest;
    TemplateLineLayout(p, symbol, rest);
    assert ApprovalSearchFrom(t, 0, false).None? by {
      ApprovalSkipsText(t, 0, |p|, false);
      EmphasisAt(t, |p| + 4);
      assert ApprovalAt(t, |p|, false).None?;
      ApprovalSkipsText(t, |p| + 1, |t|, false);
    }
    assert ApprovalSearchFrom(t, 0, true) == Some((|p|, |p| + 8)) by {
      ApprovalSkipsText(t, 0, |p|, true);
      SpaceRunEndUnique(t, |p| + 7, |p| + 8);
    }
  }

  /** The banner of a score carries that score back: reading the banner as a
      reply finds `str(score)` and its value. */
  lemma BannerReadBack(score: nat)
    ensures var t := ScoreBanner(score);
      var p := Light(ScoreBand(score)) + " **総合評価: ";
      && ScoreSearchFrom(t, 0) == Some((|p|, |p| + |NatToString(score)|))
      && GroupValue(t, |p|, |p| + |NatToString(score)|) == score
  {
    var b := ScoreBand(score);
    var p := Light(b) + " **総合評価: ";
    var rest := " (" + Status(b) + ")**";
    assert ScoreBanner(score) == p + NatToString(score) + OutOf100 + rest;
    ScoreReadBack(p, score, rest);
  }

  /** A reply that fills in the template's score and approval lines,
      `- **評価点数**: {n}/100点` and `- **承認可否**: {symbol}`. */
  function TemplateReply(n: nat, symbol: char): string {
    "- **評価点数**: " + NatToString(n) + "/100点\n- **" + (ApprovalLabel + "**: " + [symbol]) + "\n"
  }

  lemma TemplateReplyScore(n: nat, symbol: char)
    ensures var reply := TemplateReply(n, symbol);
      var p := "- **評価点数**: ";
      && HasScoreMarker(reply)
      && ScoreSearchFrom(reply, 0) == Some((|p|, |p| + |NatToString(n)|))
      && reply[|p|..|p| + |NatToString(n)|] == NatToString(n)
      && GroupValue(reply, |p|, |p| + |NatToString(n)|) == n
  {
    var p := "- **評価点数**: ";
    var rest := "\n- **" + (ApprovalLabel + "**: " + [symbol]) + "\n";
    var reply := TemplateReply(n, symbol);
    assert reply == p + NatToString(n) + OutOf100 + rest;
    assert HasScoreMarker(reply) by {
      assert reply[4..8] == ScoreMarker;
      assert StartsAt(reply, 4, ScoreMarker);
    }
    ScoreReadBack(p, n, rest);
  }

  lemma TemplateReplyApproval(n: nat, symbol: char)
    requires IsApprovalSymbol(symbol)
    ensures var reply := TemplateReply(n, symbol);
      var p := "- **評価点数**: " + NatToString(n) + "/100点\n- **";
      && ApprovalSearchFrom(reply, 0, false).None?
      && ApprovalSearchFrom(reply, 0, true) == Some((|p|, |p| + 8))
      && reply[|p| + 8] == symbol
  {
    var s := NatToString(n);
    var p := "- **評価点数**: " + s + "/100点\n- **";
    assert TemplateReply(n, symbol) == p + (ApprovalLabel + "**: " + [symbol]) + "\n";
    assert ApprovalLabel[0] !in p by {
      assert ApprovalLabel[0] !in s;
    }
    TemplateApprovalLine(p, symbol, "\n");
  }

  /** A reply that follows the template is read back as its score, the
      score's band and the verdict; the reading as written recovers the
      score but reports the approval as "N/A". */
  lemma TemplateReplyRead(n: nat, symbol: char)
    requires IsApprovalSymbol(symbol)
    ensures var reply := TemplateReply(n, symbol);
      && Summarize(reply) == Summary(NatToString(n), [symbol], Some(ScoreBand(n)), Some(VerdictOf(symbol)))
      && SummarizeAsWritten(reply) == Success(Summary(NatToString(n), NotAvailable, Some(ScoreBand(n)), None))
  {
    TemplateReplyScore(n, symbol);
    TemplateReplyApproval(n, symbol);
  }
}
