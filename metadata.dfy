/**
 * The three metadata readers: the `.chapterconf` of a chapter folder, the
 * YAML front matter of a Markdown file and the field list at the top of a
 * reStructuredText file. Each regular expression of the generator is
 * written out as the deterministic scan it amounts to.
 */
module Metadata {
  import opened Wrappers
  import opened Text
  import opened FileTree

  /** The order every reader falls back to, so that unordered entries sort last. */
  const DefaultOrder: nat := 9999

  /** What a line-anchored field pattern captures after its key. */
  datatype Capture = DigitRun | RestOfLine

  /**
   * `^key\s*=\s*(\d+)`, `^key\s*=\s*(.*)`, `^key\s*(\d+)` or `^key\s*(.*)`
   * under `re.MULTILINE`: `assign` says whether an `=` follows the key.
   */
  datatype FieldPattern = FieldPattern(key: string, assign: bool, capture: Capture)

  const ConfigOrder := FieldPattern("order", true, DigitRun)
  const ConfigTitle := FieldPattern("title", true, RestOfLine)
  const RstOrder := FieldPattern(":content_order:", false, DigitRun)
  const RstTitle := FieldPattern(":content_title:", false, RestOfLine)

  /** Where `^` matches under `re.MULTILINE`: the start, or just after a line feed. */
  predicate LineStart(s: string, p: nat) {
    p == 0 || (0 < p <= |s| && s[p - 1] == '\n')
  }

  /**
   * The group the pattern captures when matched at position `p`. Each `\s*`
   * is greedy and may run past line feeds; backtracking never helps, since a
   * whitespace character is neither `=` nor a digit.
   */
  function MatchAt(s: string, p: nat, pat: FieldPattern): (r: Option<string>)
    requires p <= |s|
    ensures r.Some? ==> Occurs(s, p, pat.key)
    ensures r.Some? && pat.capture == DigitRun ==> r.value != [] && AllDigits(r.value)
    ensures r.Some? && pat.capture == RestOfLine ==> NoNewline(r.value)
  {
    if !Occurs(s, p, pat.key) then None
    else
      match ValueStart(s, p + |pat.key|, pat.assign)
      case None => None
      case Some(b) => CaptureFrom(s, b, pat.capture)
  }

  /** Where the value starts after a key ending at `k`: past `\s*`, and past `=\s*` when `assign`. */
  function ValueStart(s: string, k: nat, assign: bool): (r: Option<nat>)
    requires k <= |s|
    ensures r.Some? ==> k <= r.value <= |s|
  {
    var q := SkipWhile(s, k, IsSpace);
    if !assign then Some(q)
    else if q < |s| && s[q] == '=' then Some(SkipWhile(s, q + 1, IsSpace))
    else None
  }

  /** The group `(\d+)` or `(.*)` matched at `b`. */
  function CaptureFrom(s: string, b: nat, capture: Capture): (r: Option<string>)
    requires b <= |s|
    ensures r.Some? && capture == DigitRun ==> r.value != [] && AllDigits(r.value)
    ensures r.Some? && capture == RestOfLine ==> NoNewline(r.value)
  {
    match capture
    case DigitRun =>
      var e := SkipWhile(s, b, IsDigit);
      if e == b then None else Some(s[b..e])
    case RestOfLine =>
      Some(s[b..SkipWhile(s, b, NotNewline)])
  }

  /** `s[i..j]` is the longest run of characters satisfying `P` from `i` on: what a greedy `P*` consumes. */
  predicate LongestRun(s: string, i: nat, j: nat, P: char -> bool) {
    i <= j <= |s| && (forall k :: i <= k < j ==> P(s[k])) && (j == |s| || !P(s[j]))
  }

  /** `s[k..b]` is `\s*`, or `\s*=\s*` when `assign`, each run the longest; the `=` is at `e`. */
  predicate SeparatorLayout(s: string, k: nat, assign: bool, e: nat, b: nat) {
    LongestRun(s, k, e, IsSpace)
    && if assign then e < |s| && s[e] == '=' && LongestRun(s, e + 1, b, IsSpace) else b == e
  }

  /** `s[b..j]` is the longest run of digits (at least one), or of characters other than a line feed. */
  predicate GroupLayout(s: string, b: nat, capture: Capture, j: nat) {
    match capture
    case DigitRun => b < j && LongestRun(s, b, j, IsDigit)
    case RestOfLine => LongestRun(s, b, j, NotNewline)
  }

  /**
   * The layout of a match of `pat` at `p`: the key, the separator after it,
   * then the group `s[b..j]`.
   */
  predicate FieldLayout(s: string, p: nat, pat: FieldPattern, e: nat, b: nat, j: nat) {
    Occurs(s, p, pat.key)
    && SeparatorLayout(s, p + |pat.key|, pat.assign, e, b)
    && GroupLayout(s, b, pat.capture, j)
  }

  /** No line start in `[lo, hi)` matches the pattern. */
  predicate NoMatchBetween(s: string, pat: FieldPattern, lo: nat, hi: nat) {
    forall q {:trigger MatchAt(s, q, pat)} :: lo <= q < hi && q <= |s| && LineStart(s, q) ==> MatchAt(s, q, pat).None?
  }

  /** `pat` matches at line start `q`, and at no earlier line start from `lo` on. */
  predicate FirstMatchAt(s: string, pat: FieldPattern, lo: nat, q: nat, g: string) {
    lo <= q <= |s| && LineStart(s, q) && MatchAt(s, q, pat) == Some(g) && NoMatchBetween(s, pat, lo, q)
  }

  /**
   * `pattern.search(s)` from position `p` on: the pattern is tried at each
   * position in turn, and `^` lets it match only at a line start.
   */
  function SearchFrom(s: string, pat: FieldPattern, p: nat): (r: Option<string>)
    requires p <= |s| + 1
    ensures r.Some? && pat.capture == DigitRun ==> r.value != [] && AllDigits(r.value)
    ensures r.Some? && pat.capture == RestOfLine ==> NoNewline(r.value)
    decreases |s| + 1 - p
  {
    if p > |s| then None
    else if LineStart(s, p) && MatchAt(s, p, pat).Some? then MatchAt(s, p, pat)
    else SearchFrom(s, pat, p + 1)
  }

  /** `SearchFrom` finds the first line start from `p` on where the pattern matches, and nothing when there is none. */
  lemma {:induction false} SearchFromSpec(s: string, pat: FieldPattern, p: nat)
    requires p <= |s| + 1
    ensures SearchFrom(s, pat, p).Some? ==> exists q: nat :: FirstMatchAt(s, pat, p, q, SearchFrom(s, pat, p).value)
    ensures SearchFrom(s, pat, p).None? ==> NoMatchBetween(s, pat, p, |s| + 1)
    decreases |s| + 1 - p
  {
    if p <= |s| {
      SearchFromSpec(s, pat, p + 1);
      SearchStep(s, pat, p, p + 1);
    }
  }

  /** What `SearchFromSpec` states of the search from `p + 1` on carries over to the search from `p` on. */
  lemma SearchStep(s: string, pat: FieldPattern, p: nat, n: nat)
    requires p <= |s| && n == p + 1
    requires SearchFrom(s, pat, n).Some? ==> exists q: nat :: FirstMatchAt(s, pat, n, q, SearchFrom(s, pat, n).value)
    requires SearchFrom(s, pat, n).None? ==> NoMatchBetween(s, pat, n, |s| + 1)
    ensures SearchFrom(s, pat, p).Some? ==> exists q: nat :: FirstMatchAt(s, pat, p, q, SearchFrom(s, pat, p).value)
    ensures SearchFrom(s, pat, p).None? ==> NoMatchBetween(s, pat, p, |s| + 1)
  {
    if LineStart(s, p) && MatchAt(s, p, pat).Some? {
      SearchHit(s, pat, p);
    } else {
      SearchMiss(s, pat, p, n);
    }
  }

  /** A match at line start `p` is the first one from `p` on. */
  lemma SearchHit(s: string, pat: FieldPattern, p: nat)
    requires p <= |s| && LineStart(s, p) && MatchAt(s, p, pat).Some?
    ensures SearchFrom(s, pat, p).Some? && FirstMatchAt(s, pat, p, p, SearchFrom(s, pat, p).value)
  {
  }

  /** When `p` is not a matching line start, the first match from `p` on is the first from `p + 1` on. */
  lemma SearchMiss(s: string, pat: FieldPattern, p: nat, n: nat)
    requires p <= |s| && n == p + 1 && !(LineStart(s, p) && MatchAt(s, p, pat).Some?)
    requires SearchFrom(s, pat, n).Some? ==> exists q: nat :: FirstMatchAt(s, pat, n, q, SearchFrom(s, pat, n).value)
    requires SearchFrom(s, pat, n).None? ==> NoMatchBetween(s, pat, n, |s| + 1)
    ensures SearchFrom(s, pat, p).Some? ==> exists q: nat :: FirstMatchAt(s, pat, p, q, SearchFrom(s, pat, p).value)
    ensures SearchFrom(s, pat, p).None? ==> NoMatchBetween(s, pat, p, |s| + 1)
  {
    var r := SearchFrom(s, pat, n);
    assert SearchFrom(s, pat, p) == r;
    if r.Some? {
      var q := FirstMatchWitness(s, pat, n, r.value);
      NoMatchBefore(s, pat, p, q);
      assert FirstMatchAt(s, pat, p, q, r.value);
    } else {
      NoMatchBefore(s, pat, p, |s| + 1);
    }
  }

  /** A position that is not a matching line start widens a match-free range by one. */
  lemma NoMatchBefore(s: string, pat: FieldPattern, p: nat, hi: nat)
    requires p <= |s| && !(LineStart(s, p) && MatchAt(s, p, pat).Some?)
    requires NoMatchBetween(s, pat, p + 1, hi)
    ensures NoMatchBetween(s, pat, p, hi)
  {
    forall q | p <= q < hi && q <= |s| && LineStart(s, q) ensures MatchAt(s, q, pat).None? {
      if q == p {
        assert !MatchAt(s, p, pat).Some?;
      }
    }
  }

  /** A position at which `FirstMatchAt` holds. */
  lemma FirstMatchWitness(s: string, pat: FieldPattern, lo: nat, g: string) returns (q: nat)
    requires exists q: nat :: FirstMatchAt(s, pat, lo, q, g)
    ensures FirstMatchAt(s, pat, lo, q, g)
  {
    q :| FirstMatchAt(s, pat, lo, q, g);
  }

  /** `pattern.search(s)` for a `^`-anchored multiline pattern. */
  function Search(s: string, pat: FieldPattern): (r: Option<string>)
    ensures r.Some? && pat.capture == DigitRun ==> r.value != [] && AllDigits(r.value)
    ensures r.Some? && pat.capture == RestOfLine ==> NoNewline(r.value)
  {
    SearchFrom(s, pat, 0)
  }

  /** `Search` returns the group of the first matching line start, and nothing when no line start matches. */
  lemma SearchSpec(s: string, pat: FieldPattern)
    ensures Search(s, pat).Some? ==> exists q: nat :: FirstMatchAt(s, pat, 0, q, Search(s, pat).value)
    ensures Search(s, pat).None? ==> NoMatchBetween(s, pat, 0, |s| + 1)
  {
    SearchFromSpec(s, pat, 0);
  }

  /** `{'order': ..., 'title': ...}` as `read_chapter_config` returns it. */
  datatype ChapterConfig = ChapterConfig(order: nat, title: Option<string>)

  /** Both fields of a `.chapterconf` text, each falling back to its default. */
  function ParseChapterConfig(text: string): (r: ChapterConfig)
    ensures NoMatchBetween(text, ConfigOrder, 0, |text| + 1) ==> r.order == DefaultOrder
    ensures r.title.Some? <==> !NoMatchBetween(text, ConfigTitle, 0, |text| + 1)
    ensures r.title.Some? ==> NoNewline(r.title.value)
  {
    SearchSpec(text, ConfigOrder);
    SearchSpec(text, ConfigTitle);
    var order := match Search(text, ConfigOrder)
      case Some(d) => DigitsValue(d)
      case None => DefaultOrder;
    var title := match Search(text, ConfigTitle)
      case Some(t) => Some(Strip(t))
      case None => None;
    if title.Some? then
      StripKeepsOneLine(Search(text, ConfigTitle).value);
      ChapterConfig(order, title)
    else
      ChapterConfig(order, title)
  }

  const ConfigName := ".chapterconf"

  /**
   * `read_chapter_config(dir)`: nothing when `.chapterconf` is absent or
   * cannot be read (a directory of that name included), otherwise its parse.
   */
  function ReadChapterConfig(entries: map<string, Node>): (r: Option<ChapterConfig>)
    ensures r.Some? <==> ConfigName in entries && entries[ConfigName].File? && entries[ConfigName].content.Text?
    ensures r.Some? ==> r.value == ParseChapterConfig(entries[ConfigName].content.text)
  {
    if ConfigName in entries && entries[ConfigName].File? && entries[ConfigName].content.Text? then
      Some(ParseChapterConfig(entries[ConfigName].content.text))
    else
      None
  }

  /** `{'order': ..., 'title': ..., 'valid': ...}` as the two content-file readers return it. */
  datatype ContentMetadata = ContentMetadata(order: int, title: Option<string>, valid: bool)

  const Invalid := ContentMetadata(DefaultOrder, None, false)

  /** How many characters `f.read(1000)` returns. */
  const HeadLength: nat := 1000

  function Head(text: string): (h: string)
    ensures |h| <= HeadLength && |h| <= |text| && h == text[..|h|]
    ensures |text| <= HeadLength ==> h == text
    ensures |text| > HeadLength ==> |h| == HeadLength
  {
    if |text| <= HeadLength then text else text[..HeadLength]
  }

  /** `extract_rst_metadata`: the `:content_order:` and `:content_title:` fields of the first 1000 characters. */
  function ExtractRst(c: Content): (r: ContentMetadata)
    ensures c.Unreadable? ==> r == Invalid
    ensures !r.valid ==> r.order == DefaultOrder
    ensures r.order >= 0
  {
    match c
    case Unreadable => Invalid
    case Text(text) =>
      var head := Head(text);
      var order := Search(head, RstOrder);
      var title := Search(head, RstTitle);
      ContentMetadata(
        if order.Some? then DigitsValue(order.value) else DefaultOrder,
        if title.Some? then Some(Strip(title.value)) else None,
        order.Some?)
  }

  /** A reStructuredText file is valid exactly when an order field starts a line of its head; a title is only taken from a title field there. */
  lemma ExtractRstSpec(text: string)
    ensures ExtractRst(Text(text)).valid <==> !NoMatchBetween(Head(text), RstOrder, 0, |Head(text)| + 1)
    ensures ExtractRst(Text(text)).title.Some? ==> !NoMatchBetween(Head(text), RstTitle, 0, |Head(text)| + 1)
  {
    SearchSpec(Head(text), RstOrder);
    SearchSpec(Head(text), RstTitle);
  }

  /**
   * `re.match(r'---\s*\n(.*?)\n---', c, re.DOTALL)` with group `g`: the text
   * starts with `---`, whitespace up to a line feed at `p`, then `g` and the
   * first `\n---` after that line feed.
   */
  predicate FrontMatterAt(c: string, p: nat, g: string) {
    Occurs(c, 0, "---") && 3 <= p < |c| && c[p] == '\n'
    && (forall k :: 3 <= k < p ==> IsSpace(c[k]))
    && p + 1 + |g| <= |c| && c[p + 1..p + 1 + |g|] == g
    && Occurs(c, p + 1 + |g|, "\n---")
    && forall j :: p + 1 <= j < p + 1 + |g| ==> !Occurs(c, j, "\n---")
  }

  /** No front-matter match has its line feed in `[lo, hi)`. */
  ghost predicate NoBlockBetween(c: string, lo: nat, hi: nat) {
    forall p: nat, g: string :: lo <= p < hi ==> !FrontMatterAt(c, p, g)
  }

  /**
   * The greedy `\s*` tries the latest line feed of the whitespace run first,
   * and the lazy `(.*?)` stops at the first `\n---` after it.
   */
  function FrontMatterFrom(c: string, k: nat): (r: Option<string>)
    requires Occurs(c, 0, "---") && 3 <= k <= |c|
    requires forall i :: 3 <= i < k ==> IsSpace(c[i])
    ensures r.Some? ==> exists p: nat :: p < k && FrontMatterAt(c, p, r.value) && NoBlockBetween(c, p + 1, k)
    ensures r.None? ==> NoBlockBetween(c, 0, k)
    decreases k
  {
    if k == 3 then None
    else if c[k - 1] == '\n' && IndexOf(c, "\n---", k).Some? then
      var j := IndexOf(c, "\n---", k).value;
      BlockAtLine(c, k, j);
      Some(c[k..j])
    else
      NoBlockAt(c, k - 1);
      var r := FrontMatterFrom(c, k - 1);
      WidenNoBlock(c, k, r);
      r
  }

  /** A line feed just below `k` opens the block that ends at the first `\n---` from `k` on. */
  lemma BlockAtLine(c: string, k: nat, j: nat)
    requires Occurs(c, 0, "---") && 3 < k <= |c| && c[k - 1] == '\n'
    requires forall i :: 3 <= i < k ==> IsSpace(c[i])
    requires IndexOf(c, "\n---", k) == Some(j)
    ensures k <= j <= |c|
    ensures exists p: nat :: p < k && FrontMatterAt(c, p, c[k..j]) && NoBlockBetween(c, p + 1, k)
  {
    assert FrontMatterAt(c, k - 1, c[k..j]);
  }

  /** A position that is not a line feed, or one with no `\n---` after it, opens no block. */
  lemma NoBlockAt(c: string, p: nat)
    requires p < |c| && (c[p] != '\n' || IndexOf(c, "\n---", p + 1).None?)
    ensures NoBlockBetween(c, p, p + 1)
  {
    forall g: string ensures !FrontMatterAt(c, p, g) {
      if c[p] == '\n' {
        assert !Occurs(c, p + 1 + |g|, "\n---");
      }
    }
  }

  /** What holds of a search below `k - 1` holds below `k` when `k - 1` opens no block. */
  lemma WidenNoBlock(c: string, k: nat, r: Option<string>)
    requires 0 < k && NoBlockBetween(c, k - 1, k)
    requires r.Some? ==> exists p: nat :: p < k - 1 && FrontMatterAt(c, p, r.value) && NoBlockBetween(c, p + 1, k - 1)
    requires r.None? ==> NoBlockBetween(c, 0, k - 1)
    ensures r.Some? ==> exists p: nat :: p < k && FrontMatterAt(c, p, r.value) && NoBlockBetween(c, p + 1, k)
    ensures r.None? ==> NoBlockBetween(c, 0, k)
  {
    if r.Some? {
      var p: nat :| p < k - 1 && FrontMatterAt(c, p, r.value) && NoBlockBetween(c, p + 1, k - 1);
      assert NoBlockBetween(c, p + 1, k);
    }
  }

  /** Every block's line feed lies inside the whitespace run after `---`, which ends at `k`. */
  lemma BlocksInRun(c: string, k: nat)
    requires 3 <= k <= |c| && forall i :: 3 <= i < k ==> IsSpace(c[i])
    requires k < |c| ==> !IsSpace(c[k])
    ensures NoBlockBetween(c, k, |c|)
  {
    forall p: nat, g: string | k <= p < |c| ensures !FrontMatterAt(c, p, g) {
      assert IsSpace('\n') && !IsSpace(c[k]);
    }
  }

  /**
   * The YAML front matter block at the start of a Markdown text: the match of
   * `re.match` when there is one, and nothing exactly when no block matches.
   */
  function FrontMatter(c: string): (r: Option<string>)
    ensures r.Some? ==> exists p: nat :: FrontMatterAt(c, p, r.value) && NoBlockBetween(c, p + 1, |c|)
    ensures r.None? <==> NoBlockBetween(c, 0, |c|)
    ensures !Occurs(c, 0, "---") ==> r.None?
  {
    if Occurs(c, 0, "---") then
      var k := SkipWhile(c, 3, IsSpace);
      BlocksInRun(c, k);
      FrontMatterFrom(c, k)
    else None
  }

  /** Of two blocks with the same line feed, neither is shorter: the lazy group is unique. */
  lemma BlockAtLineUnique(c: string, p: nat, g: string, g': string)
    requires FrontMatterAt(c, p, g) && FrontMatterAt(c, p, g')
    ensures g == g'
  {
    assert Occurs(c, p + 1 + |g|, "\n---") && Occurs(c, p + 1 + |g'|, "\n---");
    assert |g| == |g'|;
  }

  /** The block with the latest line feed is the one `FrontMatter` returns. */
  lemma FrontMatterIs(c: string, p: nat, g: string)
    requires FrontMatterAt(c, p, g) && NoBlockBetween(c, p + 1, |c|)
    ensures FrontMatter(c) == Some(g)
  {
    var r := FrontMatter(c);
    assert !NoBlockBetween(c, 0, |c|);
    var p': nat :| FrontMatterAt(c, p', r.value) && NoBlockBetween(c, p' + 1, |c|);
    assert p' == p by {
      assert !(p < p') && !(p' < p);
    }
    BlockAtLineUnique(c, p, g, r.value);
  }

  /** A scalar of the loaded YAML: `isinstance(v, int)` holds of both integers and booleans. */
  datatype YamlValue = YInt(i: int) | YBool(b: bool) | YStr(s: string) | YOther

  /**
   * What `yaml.safe_load(g) or {}` yields: a mapping, a falsy document
   * (replaced by `{}`), a truthy non-mapping (its `.get` raises), or a
   * parse error.
   */
  datatype YamlDoc = Mapping(fields: map<string, YamlValue>) | FalsyDoc | NonMapping | YamlError

  /** `data.get(key)` when it is an `int` (a `bool` counts as 0 or 1). */
  function IntField(fields: map<string, YamlValue>, key: string): Option<int>
  {
    if key !in fields then None
    else match fields[key]
      case YInt(i) => Some(i)
      case YBool(b) => Some(if b then 1 else 0)
      case _ => None
  }

  /** `data.get(key)` when it is a `str`. */
  function StrField(fields: map<string, YamlValue>, key: string): Option<string>
  {
    if key in fields && fields[key].YStr? then Some(fields[key].s) else None
  }

  /** The fields of the loaded front matter, `{}` for a falsy document. */
  function LoadedFields(doc: YamlDoc): Option<map<string, YamlValue>>
  {
    match doc
    case Mapping(m) => Some(m)
    case FalsyDoc => Some(map[])
    case _ => None
  }

  /**
   * `yaml.safe_load(g) or {}` of the front matter block `g`, when the text
   * is readable, has a block, and the block loads as a mapping.
   */
  function FrontFields(c: Content, load: string -> YamlDoc): Option<map<string, YamlValue>> {
    if c.Text? && FrontMatter(c.text).Some? then LoadedFields(load(FrontMatter(c.text).value)) else None
  }

  /**
   * `extract_md_metadata`: `content_order` and `content_title` of the YAML
   * front matter, parsed by `load` (the foreign `yaml.safe_load`).
   */
  function ExtractMd(c: Content, load: string -> YamlDoc): (r: ContentMetadata)
    ensures c.Unreadable? || FrontMatter(c.text).None? ==> r == Invalid
    ensures FrontFields(c, load).None? ==> r == Invalid
    ensures r.valid <==> FrontFields(c, load).Some? && IntField(FrontFields(c, load).value, "content_order").Some?
    ensures r.valid ==> r.order == IntField(FrontFields(c, load).value, "content_order").value
    ensures !r.valid ==> r.order == DefaultOrder
    ensures r.title.Some? <==> FrontFields(c, load).Some? && StrField(FrontFields(c, load).value, "content_title").Some?
    ensures r.title.Some? ==> r.title.value == Strip(StrField(FrontFields(c, load).value, "content_title").value)
  {
    match c
    case Unreadable => Invalid
    case Text(text) =>
      match FrontMatter(text)
      case None => Invalid
      case Some(g) =>
        match LoadedFields(load(g))
        case None => Invalid
        case Some(fields) =>
          var order := IntField(fields, "content_order");
          var title := StrField(fields, "content_title");
          ContentMetadata(
            if order.Some? then order.value else DefaultOrder,
            if title.Some? then Some(Strip(title.value)) else None,
            order.Some?)
  }
}

/** What the metadata readers promise, proved about the scans above. */
module MetadataFacts {
  import opened Wrappers
  import opened Text
  import opened FileTree
  import opened Metadata

  /** `search` returns the group of the first line start where the pattern matches. */
  lemma SearchFindsFirst(s: string, pat: FieldPattern, q: nat, g: string)
    requires FirstMatchAt(s, pat, 0, q, g)
    ensures Search(s, pat) == Some(g)
  {
    assert !NoMatchBetween(s, pat, 0, |s| + 1) by {
      assert LineStart(s, q) && MatchAt(s, q, pat).Some?;
    }
    var r := Search(s, pat);
    SearchSpec(s, pat);
    var q': nat :| FirstMatchAt(s, pat, 0, q', r.value);
    FirstMatchUnique(s, pat, q, g, q', r.value);
  }

  /** There is only one first match. */
  lemma FirstMatchUnique(s: string, pat: FieldPattern, q: nat, g: string, q': nat, g': string)
    requires FirstMatchAt(s, pat, 0, q, g) && FirstMatchAt(s, pat, 0, q', g')
    ensures q == q' && g == g'
  {
    assert q <= q' by {
      assert LineStart(s, q') && MatchAt(s, q', pat).Some?;
    }
    assert q' <= q by {
      assert LineStart(s, q) && MatchAt(s, q, pat).Some?;
    }
  }

  /** The config order is the number written at the first line-anchored `order =` field. */
  lemma ConfigOrderFirstMatch(text: string, q: nat, d: string)
    requires FirstMatchAt(text, ConfigOrder, 0, q, d)
    ensures AllDigits(d) && ParseChapterConfig(text).order == DigitsValue(d)
  {
    SearchFindsFirst(text, ConfigOrder, q, d);
  }

  /** The config title is the stripped rest of the line after the first line-anchored `title =` field. */
  lemma ConfigTitleFirstMatch(text: string, q: nat, t: string)
    requires FirstMatchAt(text, ConfigTitle, 0, q, t)
    ensures ParseChapterConfig(text).title == Some(Strip(t))
  {
    SearchFindsFirst(text, ConfigTitle, q, t);
  }

  /** The order of a reStructuredText file is the number of the first `:content_order:` field of its head. */
  lemma RstOrderFirstMatch(text: string, q: nat, d: string)
    requires FirstMatchAt(Head(text), RstOrder, 0, q, d)
    ensures AllDigits(d) && ExtractRst(Text(text)).order == DigitsValue(d) && ExtractRst(Text(text)).valid
  {
    SearchFindsFirst(Head(text), RstOrder, q, d);
  }

  /** The title of a reStructuredText file is the stripped rest of the line of the first `:content_title:` field of its head. */
  lemma RstTitleFirstMatch(text: string, q: nat, t: string)
    requires FirstMatchAt(Head(text), RstTitle, 0, q, t)
    ensures ExtractRst(Text(text)).title == Some(Strip(t))
  {
    SearchFindsFirst(Head(text), RstTitle, q, t);
  }

  /** What separates a field's key from its value when the field is written out. */
  function Separator(pat: FieldPattern): string {
    if pat.assign then "=" else " "
  }

  /** A written field lays out its key, its separator and its value at consecutive positions. */
  lemma WrittenFieldLayout(s: string, p: nat, pat: FieldPattern, v: string)
    requires Occurs(s, p, pat.key + Separator(pat) + v)
    ensures Occurs(s, p, pat.key)
    ensures s[p + |pat.key|] == Separator(pat)[0]
    ensures s[p + |pat.key| + 1..p + |pat.key| + 1 + |v|] == v
  {
    var K := p + |pat.key|;
    var w := pat.key + Separator(pat) + v;
    assert s[p..K + 1 + |v|] == w;
    assert s[p..K] == w[..|pat.key|];
    assert s[K] == w[|pat.key|];
    assert s[K + 1..K + 1 + |v|] == w[|pat.key| + 1..];
  }

  /** Skipping over a run that stops at `e` ends at `e`. */
  lemma {:induction false} SkipRun(s: string, i: nat, e: nat, p: char -> bool)
    requires i <= e <= |s|
    requires forall k :: i <= k < e ==> p(s[k])
    requires e < |s| ==> !p(s[e])
    ensures SkipWhile(s, i, p) == e
    decreases e - i
  {
    if i < e {
      SkipRun(s, i + 1, e, p);
    }
  }

  /** After the key of a written field, the separator leads straight to the value. */
  lemma SeparatorSkipped(s: string, p: nat, pat: FieldPattern, v: string)
    requires p + |pat.key| + 1 + |v| <= |s|
    requires s[p + |pat.key|] == Separator(pat)[0]
    requires v != [] && s[p + |pat.key| + 1] == v[0] && !IsSpace(v[0])
    ensures ValueStart(s, p + |pat.key|, pat.assign) == Some(p + |pat.key| + 1)
  {
    var K := p + |pat.key|;
    if pat.assign {
      SkipRun(s, K, K, IsSpace);
      SkipRun(s, K + 1, K + 1, IsSpace);
    } else {
      SkipRun(s, K, K + 1, IsSpace);
    }
  }

  /** A value ending its line is captured whole. */
  lemma CapturesValue(s: string, V: nat, capture: Capture, v: string)
    requires V + |v| <= |s| && s[V..V + |v|] == v && v != []
    requires capture == DigitRun ==> AllDigits(v)
    requires capture == RestOfLine ==> NoNewline(v)
    requires V + |v| < |s| ==> s[V + |v|] == '\n'
    ensures CaptureFrom(s, V, capture) == Some(v)
  {
    var E := V + |v|;
    assert forall k :: V <= k < E ==> s[k] == v[k - V] by {
      forall k | V <= k < E ensures s[k] == v[k - V] {
        assert s[V..E][k - V] == s[k];
      }
    }
    match capture
    case DigitRun =>
      assert forall k :: V <= k < E ==> IsDigit(s[k]) by {
        forall k | V <= k < E ensures IsDigit(s[k]) {
          assert IsDigit(v[k - V]);
        }
      }
      SkipRun(s, V, E, IsDigit);
    case RestOfLine =>
      assert forall k :: V <= k < E ==> NotNewline(s[k]) by {
        forall k | V <= k < E ensures NotNewline(s[k]) {
          assert v[k - V] != '\n';
        }
      }
      SkipRun(s, V, E, NotNewline);
  }

  /** The longest run of `P` from `i` on ends exactly where `SkipWhile` stops. */
  lemma LongestRunIsSkip(s: string, i: nat, j: nat, P: char -> bool)
    requires i <= |s|
    ensures LongestRun(s, i, j, P) <==> j == SkipWhile(s, i, P)
  {
    var r := SkipWhile(s, i, P);
    if LongestRun(s, i, j, P) {
      assert j <= r by {
        assert j < |s| ==> !P(s[j]);
      }
      assert r <= j by {
        assert r < |s| ==> !P(s[r]);
      }
    }
  }

  /**
   * A position laid out as `FieldLayout` says is a match, whose group is
   * `s[b..j]`: the greedy `\s*` and group backtrack nowhere.
   */
  lemma MatchAtLayout(s: string, p: nat, pat: FieldPattern, e: nat, b: nat, j: nat)
    requires p <= |s| && FieldLayout(s, p, pat, e, b, j)
    ensures MatchAt(s, p, pat) == Some(s[b..j])
  {
    SeparatorIs(s, p + |pat.key|, pat.assign, e, b);
    GroupIs(s, b, pat.capture, j);
  }

  /** Every match is laid out as `FieldLayout` says, with the group it returns. */
  lemma MatchAtFound(s: string, p: nat, pat: FieldPattern) returns (e: nat, b: nat, j: nat)
    requires p <= |s| && MatchAt(s, p, pat).Some?
    ensures FieldLayout(s, p, pat, e, b, j) && MatchAt(s, p, pat) == Some(s[b..j])
  {
    var k := p + |pat.key|;
    b := ValueStart(s, k, pat.assign).value;
    e := SeparatorFound(s, k, pat.assign);
    j := GroupFound(s, b, pat.capture);
  }

  lemma SeparatorIs(s: string, k: nat, assign: bool, e: nat, b: nat)
    requires k <= |s| && SeparatorLayout(s, k, assign, e, b)
    ensures ValueStart(s, k, assign) == Some(b)
  {
    LongestRunIsSkip(s, k, e, IsSpace);
    if assign {
      LongestRunIsSkip(s, e + 1, b, IsSpace);
    }
  }

  lemma SeparatorFound(s: string, k: nat, assign: bool) returns (e: nat)
    requires k <= |s| && ValueStart(s, k, assign).Some?
    ensures SeparatorLayout(s, k, assign, e, ValueStart(s, k, assign).value)
  {
    e := SkipWhile(s, k, IsSpace);
    LongestRunIsSkip(s, k, e, IsSpace);
    if assign {
      LongestRunIsSkip(s, e + 1, ValueStart(s, k, assign).value, IsSpace);
    }
  }

  lemma GroupIs(s: string, b: nat, capture: Capture, j: nat)
    requires b <= |s| && GroupLayout(s, b, capture, j)
    ensures CaptureFrom(s, b, capture) == Some(s[b..j])
  {
    match capture
    case DigitRun => LongestRunIsSkip(s, b, j, IsDigit);
    case RestOfLine => LongestRunIsSkip(s, b, j, NotNewline);
  }

  lemma GroupFound(s: string, b: nat, capture: Capture) returns (j: nat)
    requires b <= |s| && CaptureFrom(s, b, capture).Some?
    ensures GroupLayout(s, b, capture, j) && CaptureFrom(s, b, capture) == Some(s[b..j])
  {
    match capture
    case DigitRun =>
      j := SkipWhile(s, b, IsDigit);
      LongestRunIsSkip(s, b, j, IsDigit);
    case RestOfLine =>
      j := SkipWhile(s, b, NotNewline);
      LongestRunIsSkip(s, b, j, NotNewline);
  }

  /** A field written as key, separator and value, ending its line, matches with that value. */
  lemma MatchesWrittenField(s: string, p: nat, pat: FieldPattern, v: string)
    requires Occurs(s, p, pat.key + Separator(pat) + v)
    requires v != [] && !IsSpace(v[0])
    requires pat.capture == DigitRun ==> AllDigits(v)
    requires pat.capture == RestOfLine ==> NoNewline(v)
    requires p + |pat.key| + 1 + |v| < |s| ==> s[p + |pat.key| + 1 + |v|] == '\n'
    ensures MatchAt(s, p, pat) == Some(v)
  {
    var V := p + |pat.key| + 1;
    WrittenFieldLayout(s, p, pat, v);
    assert s[V] == v[0] by {
      assert s[V..V + |v|][0] == v[0];
    }
    SeparatorSkipped(s, p, pat, v);
    CapturesValue(s, V, pat.capture, v);
  }

  /** A field written out on the first line is what `search` finds. */
  lemma FieldOnFirstLine(s: string, pat: FieldPattern, v: string)
    requires Occurs(s, 0, pat.key + Separator(pat) + v)
    requires v != [] && !IsSpace(v[0])
    requires pat.capture == DigitRun ==> AllDigits(v)
    requires pat.capture == RestOfLine ==> NoNewline(v)
    requires |pat.key| + 1 + |v| < |s| ==> s[|pat.key| + 1 + |v|] == '\n'
    ensures Search(s, pat) == Some(v)
  {
    MatchesWrittenField(s, 0, pat, v);
    assert FirstMatchAt(s, pat, 0, 0, v);
    SearchFindsFirst(s, pat, 0, v);
  }

  /** Before the first line feed at `L`, only position 0 is a line start. */
  lemma OnlyFirstLineBefore(s: string, L: nat, pat: FieldPattern)
    requires L < |s| && s[L] == '\n' && forall k :: 0 <= k < L ==> s[k] != '\n'
    requires MatchAt(s, 0, pat).None?
    ensures NoMatchBetween(s, pat, 0, L + 1)
  {
  }

  /** An `order=<n>` first line is found by the order pattern. */
  lemma OrderFirstLine(n: nat, rest: string)
    ensures Search("order=" + ShowNat(n) + "\n" + rest, ConfigOrder) == Some(ShowNat(n))
  {
    var d := ShowNat(n);
    var s := "order=" + d + "\n" + rest;
    assert s[..6 + |d|] == "order=" + d;
    assert s[6 + |d|] == '\n';
    MatchesWrittenField(s, 0, ConfigOrder, d);
    assert FirstMatchAt(s, ConfigOrder, 0, 0, d);
    SearchFindsFirst(s, ConfigOrder, 0, d);
  }

  /** A key without line feeds that does not start the first line does not start the text. */
  lemma KeyNotOnFirstLine(s: string, L: nat, key: string)
    requires L < |s| && s[L] == '\n' && !Occurs(s[..L], 0, key) && NoNewline(key)
    ensures !Occurs(s, 0, key)
  {
    if |key| <= L {
      assert s[0..|key|] == s[..L][0..|key|];
    } else if |key| <= |s| {
      assert s[0..|key|][L] == '\n';
    }
  }

  /** The second line of `first + "\n" + w + tail` holds `w`, ended by the line feed of `tail` if any. */
  lemma SecondLineLayout(first: string, w: string, tail: string)
    requires NoNewline(first)
    requires tail == [] || tail[0] == '\n'
    ensures var s := first + "\n" + w + tail;
      && |first| < |s| && s[|first|] == '\n'
      && s[..|first|] == first
      && (forall k :: 0 <= k < |first| ==> s[k] != '\n')
      && Occurs(s, |first| + 1, w)
      && (|first| + 1 + |w| < |s| ==> s[|first| + 1 + |w|] == '\n')
  {
    var s := first + "\n" + w + tail;
    var T := |first| + 1;
    assert s[T..T + |w|] == w;
    forall k | 0 <= k < |first| ensures s[k] != '\n' {
      assert s[k] == first[k];
    }
    if T + |w| < |s| {
      assert s[T + |w|] == tail[0];
    }
  }

  /** A line that matches nowhere, then a line holding the written field: `search` finds the field. */
  lemma FieldOnSecondLine(first: string, pat: FieldPattern, v: string, tail: string)
    requires NoNewline(first) && !Occurs(first, 0, pat.key) && NoNewline(pat.key)
    requires v != [] && !IsSpace(v[0])
    requires pat.capture == DigitRun ==> AllDigits(v)
    requires pat.capture == RestOfLine ==> NoNewline(v)
    requires tail == [] || tail[0] == '\n'
    ensures Search(first + "\n" + (pat.key + Separator(pat) + v) + tail, pat) == Some(v)
  {
    var w := pat.key + Separator(pat) + v;
    SecondLineLayout(first, w, tail);
    FieldAfterFirstLine(first + "\n" + w + tail, |first|, pat, v);
  }

  /** The field written right after the first line feed is what `search` finds when the first line does not match. */
  lemma FieldAfterFirstLine(s: string, L: nat, pat: FieldPattern, v: string)
    requires L < |s| && s[L] == '\n' && forall k :: 0 <= k < L ==> s[k] != '\n'
    requires !Occurs(s[..L], 0, pat.key) && NoNewline(pat.key)
    requires Occurs(s, L + 1, pat.key + Separator(pat) + v)
    requires v != [] && !IsSpace(v[0])
    requires pat.capture == DigitRun ==> AllDigits(v)
    requires pat.capture == RestOfLine ==> NoNewline(v)
    requires L + 1 + |pat.key| + 1 + |v| < |s| ==> s[L + 1 + |pat.key| + 1 + |v|] == '\n'
    ensures Search(s, pat) == Some(v)
  {
    MatchesWrittenField(s, L + 1, pat, v);
    KeyNotOnFirstLine(s, L, pat.key);
    OnlyFirstLineBefore(s, L, pat);
    assert FirstMatchAt(s, pat, 0, L + 1, v);
    SearchFindsFirst(s, pat, L + 1, v);
  }

  lemma OrderLineIsOneLine(d: string)
    requires AllDigits(d)
    ensures NoNewline("order=" + d) && !Occurs("order=" + d, 0, "title")
  {
    var first := "order=" + d;
    forall k | 0 <= k < |first| ensures first[k] != '\n' {
      if k >= 6 { assert first[k] == d[k - 6]; }
    }
    assert first[0..5] == "order";
  }

  /** The two ways the config text of the round trip is grouped. */
  lemma ConfigLines(d: string, t: string, tail: string)
    ensures "order=" + d + "\ntitle=" + t + tail == "order=" + d + "\n" + ("title=" + t + tail)
    ensures "order=" + d + "\ntitle=" + t + tail == "order=" + d + "\n" + ("title" + "=" + t) + tail
  {
    assert "\ntitle=" == "\n" + "title" + "=";
    assert "title=" == "title" + "=";
  }

  lemma TitleKeyOneLine()
    ensures NoNewline(ConfigTitle.key) && Separator(ConfigTitle) == "="
  {
    assert ConfigTitle.key == ['t', 'i', 't', 'l', 'e'];
  }

  /** A `.chapterconf` written as `order=<n>` then `title=<t>` reads back as `n` and `t`. */
  lemma ChapterConfigRoundTrip(n: nat, t: string, tail: string)
    requires t != [] && !IsSpace(t[0]) && !IsSpace(t[|t| - 1]) && NoNewline(t)
    requires tail == [] || tail[0] == '\n'
    ensures ParseChapterConfig("order=" + ShowNat(n) + "\ntitle=" + t + tail) == ChapterConfig(n, Some(t))
  {
    var d := ShowNat(n);
    var first := "order=" + d;
    ConfigLines(d, t, tail);
    OrderFirstLine(n, "title=" + t + tail);
    DigitsValueOfShowNat(n);
    OrderLineIsOneLine(d);
    TitleKeyOneLine();
    FieldOnSecondLine(first, ConfigTitle, t, tail);
    StripOfTrimmed(t);
  }

  /** The `\s*` after `title=` runs past an empty value: the title is taken from the next line. */
  lemma BlankConfigTitleReadsNextLine(next: string)
    requires next != [] && !IsSpace(next[0]) && !IsSpace(next[|next| - 1]) && NoNewline(next)
    ensures ParseChapterConfig("title=\n" + next).title == Some(next)
  {
    var s := "title=\n" + next;
    assert s[..5] == "title" && s[5] == '=' && s[6] == '\n';
    assert forall k :: 7 <= k < |s| ==> s[k] == next[k - 7];
    assert SkipWhile(s, 5, IsSpace) == 5;
    assert SkipWhile(s, 6, IsSpace) == 7;
    assert SkipWhile(s, 7, NotNewline) == |s|;
    assert s[7..|s|] == next;
    assert Occurs(s, 0, "title");
    assert MatchAt(s, 0, ConfigTitle) == Some(next);
    assert FirstMatchAt(s, ConfigTitle, 0, 0, next);
    SearchFindsFirst(s, ConfigTitle, 0, next);
    StripOfTrimmed(next);
  }

  /** A reStructuredText file opening with `:content_order: <n>` is valid with order `n`. */
  lemma {:induction false} RstOrderRoundTrip(n: nat, tail: string)
    requires 16 + |ShowNat(n)| <= HeadLength
    requires tail == [] || tail[0] == '\n'
    ensures ExtractRst(Text(":content_order: " + ShowNat(n) + tail)).order == n
    ensures ExtractRst(Text(":content_order: " + ShowNat(n) + tail)).valid
  {
    RstOrderFirstLine(n, tail);
    DigitsValueOfShowNat(n);
  }

  lemma RstOrderFirstLine(n: nat, tail: string)
    requires 16 + |ShowNat(n)| <= HeadLength
    requires tail == [] || tail[0] == '\n'
    ensures Search(Head(":content_order: " + ShowNat(n) + tail), RstOrder) == Some(ShowNat(n))
  {
    var d := ShowNat(n);
    var w := RstOrder.key + Separator(RstOrder) + d;
    RstOrderLine(d);
    HeadKeepsFirstLine(w, tail);
    FieldOnFirstLine(Head(w + tail), RstOrder, d);
  }

  lemma RstOrderLine(d: string)
    ensures ":content_order: " + d == RstOrder.key + Separator(RstOrder) + d
    ensures |RstOrder.key + Separator(RstOrder) + d| == 16 + |d|
  {
    assert ":content_order: " == RstOrder.key + " ";
  }

  /** A first line that fits in the head is kept whole, with the line feed after it. */
  lemma HeadKeepsFirstLine(w: string, tail: string)
    requires |w| <= HeadLength
    requires tail == [] || tail[0] == '\n'
    ensures Occurs(Head(w + tail), 0, w)
    ensures |w| < |Head(w + tail)| ==> Head(w + tail)[|w|] == '\n'
  {
    var s := w + tail;
    var h := Head(s);
    assert |w| <= |h|;
    assert h[0..|w|] == s[..|w|] == w;
    if |w| < |h| {
      assert h[|w|] == s[|w|] == tail[0];
    }
  }

  /** Only the first 1000 characters of a reStructuredText file are ever looked at. */
  lemma RstReadsOnlyHead(text: string, more: string)
    requires |text| >= HeadLength
    ensures ExtractRst(Text(text + more)) == ExtractRst(Text(text))
  {
    assert Head(text + more) == Head(text);
  }

  /**
   * A Markdown text opening with `---`, a line feed, a block `g` and a line
   * starting with `---` has `g` as its front matter.
   */
  lemma FrontMatterOf(g: string, rest: string)
    requires g != [] && !IsSpace(g[0]) && !Contains(g, "\n---")
    ensures FrontMatter("---\n" + g + "\n---" + rest) == Some(g)
  {
    var c := "---\n" + g + "\n---" + rest;
    var E := 4 + |g|;
    assert c[..3] == "---" && c[3] == '\n' && c[4] == g[0];
    assert SkipWhile(c, 3, IsSpace) == 4;
    assert c[E..E + 4] == "\n---";
    forall j | 4 <= j < E ensures !Occurs(c, j, "\n---") {
      if j + 4 <= E {
        assert c[j..j + 4] == g[j - 4..j];
        assert !Occurs(g, j - 4, "\n---");
      } else {
        assert c[j..j + 4][E - j] == c[E] == '\n';
        assert "\n---"[E - j] == '-';
      }
    }
    IndexOfFinds(c, "\n---", 4, E);
    assert c[4..E] == g;
  }

  /** A front matter block whose YAML holds an integer `content_order: n` gives a valid order `n`. */
  lemma MarkdownOrderRoundTrip(g: string, rest: string, load: string -> YamlDoc, n: int)
    requires g != [] && !IsSpace(g[0]) && !Contains(g, "\n---")
    requires load(g).Mapping? && "content_order" in load(g).fields && load(g).fields["content_order"] == YInt(n)
    ensures ExtractMd(Text("---\n" + g + "\n---" + rest), load).order == n
    ensures ExtractMd(Text("---\n" + g + "\n---" + rest), load).valid
  {
    FrontMatterOf(g, rest);
  }

  /**
   * With the block `g` that `re.match` finds, the record is read from the
   * YAML of `g`: valid exactly when it maps `content_order` to an integer,
   * which is then the order, and titled by its stripped `content_title` string.
   */
  lemma ExtractMdOfBlock(text: string, p: nat, g: string, load: string -> YamlDoc)
    requires FrontMatterAt(text, p, g) && NoBlockBetween(text, p + 1, |text|)
    ensures FrontFields(Text(text), load) == LoadedFields(load(g))
    ensures ExtractMd(Text(text), load).valid
            <==> LoadedFields(load(g)).Some? && IntField(LoadedFields(load(g)).value, "content_order").Some?
    ensures ExtractMd(Text(text), load).valid
            ==> ExtractMd(Text(text), load).order == IntField(LoadedFields(load(g)).value, "content_order").value
    ensures ExtractMd(Text(text), load).title.Some?
            <==> LoadedFields(load(g)).Some? && StrField(LoadedFields(load(g)).value, "content_title").Some?
    ensures ExtractMd(Text(text), load).title.Some?
            ==> ExtractMd(Text(text), load).title.value == Strip(StrField(LoadedFields(load(g)).value, "content_title").value)
  {
    FrontMatterIs(text, p, g);
  }

  /** A Markdown text in which no front matter block matches is read with the defaults and flagged invalid. */
  lemma ExtractMdNoBlock(text: string, load: string -> YamlDoc)
    requires NoBlockBetween(text, 0, |text|)
    ensures ExtractMd(Text(text), load) == Invalid
  {
  }

  /** A Markdown file not opening with `---` is read with the defaults and flagged invalid. */
  lemma MarkdownWithoutFrontMatter(text: string, load: string -> YamlDoc)
    requires text == [] || text[0] != '-'
    ensures ExtractMd(Text(text), load) == Invalid
  {
    assert !Occurs(text, 0, "---") by {
      if |text| >= 3 { assert text[0..3][0] == text[0]; }
    }
  }
}
