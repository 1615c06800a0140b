/** `create_check_prompt`: renders the ringi document text and the checklist
    into one evaluation prompt, with one 5-level rating line per category and
    a detailed section per category carrying its share of 100 points. */
module PromptBuilder {
  import opened Wrappers
  import opened Text
  import opened Checklist

  /** `100 // 0` raises ZeroDivisionError: a checklist with no category has no prompt. */
  datatype PromptError = ZeroCategories

  /** The fixed parts of the prompt, character for character. */
  const Intro: string := "\n以下の稟議書を詳細にチェックし、改善提案を行ってください。\n\n【稟議書内容】\n"
  const ViewpointsHeading: string := "\n\n【チェック観点】\n"
  const OutputFormat: string := "\n\n【出力形式】\n## 📊 総合評価・最終判定\n- **評価点数**: X/100点\n- **承認可否**: ○（承認可）/ △（条件付き承認）/ ×（承認不可）\n- **判定理由**: [承認可否の根拠]\n- **総合コメント**: [全体的な評価と印象]\n\n### 📈 カテゴリ別評価（5段階）\n"
  const Findings: string := "\n## ✅ 良い点\n- [具体的な良い点を列挙]\n\n## ⚠️ 改善が必要な点\n- [具体的な問題点を列挙]\n\n## 💡 具体的な改善提案\n- [実行可能な改善案を提示]\n\n## 📋 チェック項目別詳細評価\n\n"
  const RatingComment: string := "**: ⭐⭐⭐⭐⭐ (X/5) - [簡潔な評価コメント]"
  const DetailTail: string := "点)\n**該当部分の抜粋**:\n```\n[稟議書から該当する部分を抜粋]\n```\n\n**評価根拠**:\n- [なぜこの点数なのかの理由]\n\n**推奨修正案**:\n- [具体的な修正提案]\n\n"
  const Closing: string := "## 🚨 重要な指摘事項\n- [承認に影響する重要な問題点]\n\n## 📝 修正版サンプル（重要部分のみ）\n```\n[最も重要な修正箇所について、修正後のサンプルテキストを提示]\n```\n\n必ず最初の総合評価で承認可否と各カテゴリの5段階評価（⭐で表現）を含めてください。\n"

  /** The pieces rendered once per element, joined in order. */
  function Join<T>(render: T -> string, s: seq<T>): string {
    if s == [] then "" else Join(render, s[..|s| - 1]) + render(s[|s| - 1])
  }

  /** One check item: `- {item}` on its own line. */
  function Bullet(item: string): string {
    "- " + item + "\n"
  }

  /** One category of the check-items listing: a header line, then its items. */
  function CategoryBlock(c: Category): string {
    "\n" + c.name + ":\n" + Join(Bullet, c.items)
  }

  /** `check_items_text`: every category's block, in iteration order. */
  function Listing(cats: seq<Category>): string {
    Join(CategoryBlock, cats)
  }

  /** One line of the 5-level rating section. */
  function RatingLine(c: Category): string {
    "- **" + c.name + RatingComment + "\n"
  }

  function RatingLines(cats: seq<Category>): string {
    Join(RatingLine, cats)
  }

  /** The points of the category at position `i` of `n`: `100 // n`, and the
      last category also gets `100 % n`. */
  function Quota(n: nat, i: nat): nat
    requires i < n
  {
    100 / n + (if i == n - 1 then 100 % n else 0)
  }

  /** The detailed evaluation section of one category. */
  function DetailSection(name: string, points: nat): string {
    "### " + name + " (X/" + NatToString(points) + DetailTail
  }

  /** The sections of the first `k` categories, each rendered from the
      category's name and its quota. */
  function Sections(section: (string, nat) -> string, cats: seq<Category>, k: nat): string
    requires k <= |cats|
  {
    if k == 0 then "" else Sections(section, cats, k - 1) + section(cats[k - 1].name, Quota(|cats|, k - 1))
  }

  /** The sections of the categories from position `k` on. */
  function SectionsFrom(section: (string, nat) -> string, cats: seq<Category>, k: nat): string
    requires k <= |cats|
    decreases |cats| - k
  {
    if k == |cats| then "" else section(cats[k].name, Quota(|cats|, k)) + SectionsFrom(section, cats, k + 1)
  }

  /** The detailed sections of the first `k` categories, each with its quota. */
  function Details(cats: seq<Category>, k: nat): string
    requires k <= |cats|
  {
    Sections(DetailSection, cats, k)
  }

  /** The detailed sections of the categories from position `k` on. */
  function DetailsFrom(cats: seq<Category>, k: nat): string
    requires k <= |cats|
  {
    SectionsFrom(DetailSection, cats, k)
  }

  /** The preamble: instructions, the document text, the listing and the
      output template up to the rating lines. */
  function Preamble(ringiText: string, listing: string): string {
    Intro + ringiText + ViewpointsHeading + listing + OutputFormat
  }

  /** The prompt `create_check_prompt(ringi_text, check_items)` returns. */
  function CheckPrompt(ringiText: string, cats: seq<Category>): string
    requires |cats| >= 1
  {
    Preamble(ringiText, Listing(cats)) + RatingLines(cats) + Findings + Details(cats, |cats|) + Closing
  }

  /** Lines 238-242: `check_items_text`, built category by category and item by item. */
  method RenderListing(checkItems: seq<Category>) returns (listing: string)
    ensures listing == Listing(checkItems)
  {
    listing := "";
    for i := 0 to |checkItems|
      invariant listing == Listing(checkItems[..i])
    {
      var c := checkItems[i];
      listing := listing + "\n" + c.name + ":\n";
      for j := 0 to |c.items|
        invariant listing == Listing(checkItems[..i]) + "\n" + c.name + ":\n" + Join(Bullet, c.items[..j])
      {
        assert c.items[..j + 1][..j] == c.items[..j];
        listing := listing + "- " + c.items[j] + "\n";
      }
      assert c.items[..|c.items|] == c.items;
      assert checkItems[..i + 1][..i] == checkItems[..i];
    }
    assert checkItems[..|checkItems|] == checkItems;
  }

  /** Lines 264-265: one rating line per key of `check_items`, appended to `prompt`. */
  method AppendRatingLines(prompt: string, checkItems: seq<Category>) returns (out: string)
    ensures out == prompt + RatingLines(checkItems)
  {
    out := prompt;
    for i := 0 to |checkItems|
      invariant out == prompt + RatingLines(checkItems[..i])
    {
      assert checkItems[..i + 1][..i] == checkItems[..i];
      out := out + "- **" + checkItems[i].name + RatingComment + "\n";
    }
    assert checkItems[..|checkItems|] == checkItems;
  }

  /** Lines 282-302: the detailed section of every category with its quota,
      appended to `prompt`; `100 // total_categories` needs a category. */
  method AppendDetails(prompt: string, checkItems: seq<Category>) returns (out: string)
    requires |checkItems| >= 1
    ensures out == prompt + Details(checkItems, |checkItems|)
  {
    var totalCategories := |checkItems|;
    var pointsPerCategory := 100 / totalCategories;
    var remainingPoints := 100 % totalCategories;
    out := prompt;
    for i := 0 to totalCategories
      invariant out == prompt + Details(checkItems, i)
    {
      var categoryPoints := pointsPerCategory + (if i == totalCategories - 1 then remainingPoints else 0);
      assert categoryPoints == Quota(totalCategories, i);
      var section := DetailSection(checkItems[i].name, categoryPoints);
      AppendAssoc(prompt, Details(checkItems, i), section);
      out := out + section;
    }
  }

  lemma AppendAssoc(a: string, b: string, c: string)
    ensures a + b + c == a + (b + c)
  {
  }

  /** Lines 234-315: the whole prompt. With no category the quota division
      raises before a prompt is returned. */
  method CreateCheckPrompt(ringiText: string, checkItems: seq<Category>) returns (r: Result<string, PromptError>)
    ensures r.Failure? <==> |checkItems| == 0
    ensures r.Success? ==> r.value == CheckPrompt(ringiText, checkItems)
  {
    var checkItemsText := RenderListing(checkItems);
    var prompt := Intro + ringiText + ViewpointsHeading + checkItemsText + OutputFormat;
    prompt := AppendRatingLines(prompt, checkItems);
    prompt := prompt + Findings;
    if |checkItems| == 0 {
      return Failure(ZeroCategories);
    }
    prompt := AppendDetails(prompt, checkItems);
    prompt := prompt + Closing;
    return Success(prompt);
  }

  /** Rendering a concatenation renders each part in turn. */
  lemma {:induction false} JoinAppend<T>(render: T -> string, a: seq<T>, b: seq<T>)
    ensures Join(render, a + b) == Join(render, a) + Join(render, b)
    decreases |b|
  {
    if b == [] {
      assert a + b == a;
    } else {
      var b' := b[..|b| - 1];
      assert (a + b)[..|a + b| - 1] == a + b';
      JoinAppend(render, a, b');
    }
  }

  /** The element at position `k` is rendered after every earlier element and
      before every later one. */
  lemma JoinAt<T>(render: T -> string, s: seq<T>, k: nat)
    requires k < |s|
    ensures Join(render, s) == Join(render, s[..k]) + render(s[k]) + Join(render, s[k + 1..])
  {
    var before, after := s[..k], s[k + 1..];
    assert s == before + [s[k]] + after;
    JoinAppend(render, before + [s[k]], after);
    JoinAppend(render, before, [s[k]]);
    JoinOne(render, s[k]);
  }

  lemma JoinOne<T>(render: T -> string, x: T)
    ensures Join(render, [x]) == render(x)
  {
    assert [x][..0] == [];
  }

  /** The listing follows the checklist's iteration order: category `k`'s
      header and items come after those of every earlier category and before
      those of every later one, so reordering the input reorders the output. */
  lemma ListingOrder(cats: seq<Category>, k: nat)
    requires k < |cats|
    ensures Listing(cats) == Listing(cats[..k]) + "\n" + cats[k].name + ":\n" + Join(Bullet, cats[k].items) + Listing(cats[k + 1..])
  {
    JoinAt(CategoryBlock, cats, k);
  }

  /** The listing of two checklists one after the other is the two listings
      one after the other. */
  lemma ListingAppend(a: seq<Category>, b: seq<Category>)
    ensures Listing(a + b) == Listing(a) + Listing(b)
  {
    JoinAppend(CategoryBlock, a, b);
  }

  /** Newlines in a string. */
  function NewlineCount(s: string): nat {
    multiset(s)['\n']
  }

  lemma NewlineCountAppend(a: string, b: string)
    ensures NewlineCount(a + b) == NewlineCount(a) + NewlineCount(b)
  {
  }

  lemma NoNewline(s: string)
    requires '\n' !in s
    ensures NewlineCount(s) == 0
  {
  }

  lemma RatingLineNewlines(c: Category)
    requires '\n' !in c.name
    ensures NewlineCount(RatingLine(c)) == 1
  {
    NoNewline("- **");
    NoNewline(RatingComment);
    NoNewline(c.name);
    NewlineCountAppend("- **", c.name);
    NewlineCountAppend("- **" + c.name, RatingComment);
    NewlineCountAppend("- **" + c.name + RatingComment, "\n");
  }

  /** A join of pieces that each hold one line break holds one per piece. */
  lemma {:induction false} JoinNewlines<T>(render: T -> string, s: seq<T>)
    requires forall k :: 0 <= k < |s| ==> NewlineCount(render(s[k])) == 1
    ensures NewlineCount(Join(render, s)) == |s|
  {
    if s != [] {
      JoinNewlines(render, s[..|s| - 1]);
      NewlineCountAppend(Join(render, s[..|s| - 1]), render(s[|s| - 1]));
    }
  }

  /** The rating section has exactly one line per category (when no category
      name itself holds a line break), and the line of category `k` comes
      after those of every earlier category and before those of every later one. */
  lemma RatingLinePerCategory(cats: seq<Category>, k: nat)
    requires forall c :: c in cats ==> '\n' !in c.name
    requires k < |cats|
    ensures NewlineCount(RatingLines(cats)) == |cats|
    ensures RatingLines(cats) == RatingLines(cats[..k]) + RatingLine(cats[k]) + RatingLines(cats[k + 1..])
  {
    forall i | 0 <= i < |cats|
      ensures NewlineCount(RatingLine(cats[i])) == 1
    {
      RatingLineNewlines(cats[i]);
    }
    JoinNewlines(RatingLine, cats);
    JoinAt(RatingLine, cats, k);
  }

  /** The total of the quotas of the first `k` categories. */
  function QuotaSum(n: nat, k: nat): nat
    requires k <= n
  {
    if k == 0 then 0 else QuotaSum(n, k - 1) + Quota(n, k - 1)
  }

  lemma {:induction false} QuotaSumBeforeLast(n: nat, k: nat)
    requires k < n
    ensures QuotaSum(n, k) == k * (100 / n)
  {
    if k > 0 {
      QuotaSumBeforeLast(n, k - 1);
    }
  }

  /** For any checklist of n >= 1 categories, the quotas add up to exactly 100. */
  lemma {:induction false} QuotasSumTo100(n: nat)
    requires n >= 1
    ensures QuotaSum(n, n) == 100
  {
    QuotaSumBeforeLast(n, n - 1);
    var q, r := 100 / n, 100 % n;
    assert QuotaSum(n, n) == QuotaSum(n, n - 1) + q + r;
    assert (n - 1) * q + q == n * q;
    assert n * q + r == 100;
  }

  /** Every category but the last gets the same quota, the last gets at least
      as much, and with at most 100 categories every quota is positive. */
  lemma {:induction false} QuotaShape(n: nat, i: nat)
    requires i < n
    ensures i < n - 1 ==> Quota(n, i) == Quota(n, 0)
    ensures Quota(n, i) <= Quota(n, n - 1)
    ensures n <= 100 ==> Quota(n, i) >= 1
    ensures n > 100 ==> Quota(n, n - 1) == 100 && (i < n - 1 ==> Quota(n, i) == 0)
  {
    if n > 100 {
      assert 100 / n == 0 && 100 % n == 100;
    } else {
      assert 100 / n >= 1;
    }
  }

  /** The sections split at any position into those before it and those
      from it on. */
  lemma {:induction false} SectionsSplit(section: (string, nat) -> string, cats: seq<Category>, k: nat)
    requires k <= |cats|
    ensures Sections(section, cats, |cats|) == Sections(section, cats, k) + SectionsFrom(section, cats, k)
    decreases |cats| - k
  {
    if k < |cats| {
      SectionsSplit(section, cats, k + 1);
      AppendAssoc(Sections(section, cats, k), section(cats[k].name, Quota(|cats|, k)), SectionsFrom(section, cats, k + 1));
    } else {
      var whole := Sections(section, cats, k);
      assert whole + "" == whole;
    }
  }

  /** The detailed sections split at any position into those before it and
      those from it on. */
  lemma DetailsSplit(cats: seq<Category>, k: nat)
    requires k <= |cats|
    ensures Details(cats, |cats|) == Details(cats, k) + DetailsFrom(cats, k)
  {
    SectionsSplit(DetailSection, cats, k);
  }

  /** The detailed sections follow the iteration order: the section of
      category `k`, carrying its name and quota, comes after the sections of
      every earlier category and before those of every later one. */
  lemma DetailsOrder(cats: seq<Category>, k: nat)
    requires k < |cats|
    ensures Details(cats, |cats|)
         == Details(cats, k) + DetailSection(cats[k].name, Quota(|cats|, k)) + DetailsFrom(cats, k + 1)
  {
    DetailsSplit(cats, k);
    assert DetailsFrom(cats, k) == DetailSection(cats[k].name, Quota(|cats|, k)) + DetailsFrom(cats, k + 1);
    AppendAssoc(Details(cats, k), DetailSection(cats[k].name, Quota(|cats|, k)), DetailsFrom(cats, k + 1));
  }

  /** The prompt opens with the instructions, then the document text as
      given, then the heading of the check viewpoints and the listing. */
  lemma PromptCarriesDocument(ringiText: string, cats: seq<Category>)
    requires |cats| >= 1
    ensures var p := CheckPrompt(ringiText, cats);
      var n := |Intro| + |ringiText|;
      && n + |ViewpointsHeading| + |Listing(cats)| <= |p|
      && p[..|Intro|] == Intro
      && p[|Intro|..n] == ringiText
      && p[n..n + |ViewpointsHeading| + |Listing(cats)|] == ViewpointsHeading + Listing(cats)
  {
    PrefixLayout(Intro, ringiText, ViewpointsHeading, Listing(cats),
                 OutputFormat, RatingLines(cats), Findings, Details(cats, |cats|), Closing);
  }

  lemma TakeAppend(x: string, y: string, n: nat)
    requires n <= |x|
    ensures (x + y)[..n] == x[..n]
  {
  }

  /** Where the first four of nine concatenated parts lie in the whole. */
  lemma PrefixLayout(a: string, b: string, c: string, d: string,
                     e: string, f: string, g: string, h: string, i: string)
    ensures var p := a + b + c + d + e + f + g + h + i;
      && |a| + |b| + |c| + |d| <= |p|
      && p[..|a|] == a
      && p[|a|..|a| + |b|] == b
      && p[|a| + |b|..|a| + |b| + |c| + |d|] == c + d
  {
    var q := a + b + c + d;
    var p := q + e + f + g + h + i;
    TakeAppend(q + e + f + g + h, i, |q|);
    TakeAppend(q + e + f + g, h, |q|);
    TakeAppend(q + e + f, g, |q|);
    TakeAppend(q + e, f, |q|);
    TakeAppend(q, e, |q|);
    assert p[..|q|] == q;
    assert q == a + (b + (c + d));
  }
}
