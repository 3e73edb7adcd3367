/**
  The document side of the obfuscator, without the HTML parser.

  A parsed document is seen through what these operations read from it: the text of its
  `<style>` elements, and the `class` and `id` attributes of its elements in document
  order. Class and id collection fills the shared mapping first-write-wins from the inline
  style sheets, the whitespace-separated class tokens and the whole id values. The
  attribute rewrite replaces each class token and each id that the mapping renames. The
  minimal mode rewrites only the bodies of inline scripts, on the raw text. Two lookups
  complete the module: the structure-intensity presets and the analytics-script test.
*/
module HtmlObfuscation {
  import opened JsString
  import opened RandomUtils
  import opened Protection
  import opened SymbolTable
  import opened CssObfuscation
  import opened Wrappers

  // ---------------------------------------------------------------- collection

  /** `collectCssClassNames`: the style-sheet scans, judged by the document's own
      protection rules. */
  method CollectCssClassNames(css: string, m: Mapping, protect: bool, g: Rng) returns (g': Rng)
    requires m.Valid()
    modifies m
    ensures m.Valid()
    ensures Filled(old(m.classes), m.classes, SelectorNames(css, '.', 0), Accept(HtmlRules, ClassKind, protect))
    ensures Filled(old(m.ids), m.ids, SelectorNames(css, '#', 0), Accept(HtmlRules, IdKind, protect))
    ensures g'.stream == g.stream
  {
    g' := CollectSelectorNames(css, m, HtmlRules, protect, g);
  }

  /** The `class` and `id` attributes of one element; `None` when the attribute is absent. */
  datatype Attrs = Attrs(classAttr: Option<string>, idAttr: Option<string>)

  /** The names the inline style sheets contribute, sheet by sheet. */
  function StyleNames(styles: seq<string>, sigil: char): seq<string>
  {
    if styles == [] then []
    else StyleNames(styles[..|styles| - 1], sigil) + SelectorNames(styles[|styles| - 1], sigil, 0)
  }

  /** The tokens of a `class` attribute: `attr.split(/\s+/)`. */
  function ClassTokensOf(e: Attrs): seq<string>
  {
    match e.classAttr
    case None => []
    case Some(c) => SplitOnSpaces(c)
  }

  /** The id of an element, used whole. */
  function IdOf(e: Attrs): seq<string>
  {
    match e.idAttr
    case None => []
    case Some(v) => [v]
  }

  /** The class tokens of the elements carrying a `class` attribute, in document order. */
  function ClassTokens(els: seq<Attrs>): seq<string>
  {
    if els == [] then [] else ClassTokens(els[..|els| - 1]) + ClassTokensOf(els[|els| - 1])
  }

  /** The ids of the elements carrying an `id` attribute, in document order. */
  function IdValues(els: seq<Attrs>): seq<string>
  {
    if els == [] then [] else IdValues(els[..|els| - 1]) + IdOf(els[|els| - 1])
  }

  /** First loop of `collectMappings`: every inline style sheet, in document order. */
  method CollectStyles(styles: seq<string>, m: Mapping, protect: bool, g: Rng) returns (g': Rng)
    requires m.Valid()
    modifies m
    ensures m.Valid()
    ensures Filled(old(m.classes), m.classes, StyleNames(styles, '.'), Accept(HtmlRules, ClassKind, protect))
    ensures Filled(old(m.ids), m.ids, StyleNames(styles, '#'), Accept(HtmlRules, IdKind, protect))
    ensures g'.stream == g.stream
  {
    g' := g;
    ghost var c0, i0 := m.classes, m.ids;
    ghost var ac, ai := Accept(HtmlRules, ClassKind, protect), Accept(HtmlRules, IdKind, protect);
    FilledNothing(c0, ac);
    FilledNothing(i0, ai);
    for i := 0 to |styles|
      invariant m.Valid()
      invariant Filled(c0, m.classes, StyleNames(styles[..i], '.'), ac)
      invariant Filled(i0, m.ids, StyleNames(styles[..i], '#'), ai)
      invariant g'.stream == g.stream
    {
      ghost var c1, i1 := m.classes, m.ids;
      g' := CollectCssClassNames(styles[i], m, protect, g');
      FilledTrans(c0, c1, m.classes, StyleNames(styles[..i], '.'), SelectorNames(styles[i], '.', 0), ac);
      FilledTrans(i0, i1, m.ids, StyleNames(styles[..i], '#'), SelectorNames(styles[i], '#', 0), ai);
      assert styles[..i + 1][..i] == styles[..i];
    }
    assert styles[..|styles|] == styles;
  }

  /** Second loop of `collectMappings`: every token of every `class` attribute. Empty
      tokens are never entered. */
  method CollectClassAttrs(els: seq<Attrs>, m: Mapping, protect: bool, g: Rng) returns (g': Rng)
    requires m.Valid()
    modifies m
    ensures m.Valid()
    ensures Filled(old(m.classes), m.classes, ClassTokens(els), Accept(HtmlRules, ClassKind, protect))
    ensures m.ids == old(m.ids) && m.idSelectors == old(m.idSelectors)
    ensures g'.stream == g.stream
  {
    g' := g;
    ghost var c0 := m.classes;
    ghost var ac := Accept(HtmlRules, ClassKind, protect);
    FilledNothing(c0, ac);
    for i := 0 to |els|
      invariant m.Valid()
      invariant Filled(c0, m.classes, ClassTokens(els[..i]), ac)
      invariant m.ids == old(m.ids) && m.idSelectors == old(m.idSelectors)
      invariant g'.stream == g.stream
    {
      ghost var c1 := m.classes;
      g' := m.Collect(ClassKind, ClassTokensOf(els[i]), HtmlRules, protect, g');
      FilledTrans(c0, c1, m.classes, ClassTokens(els[..i]), ClassTokensOf(els[i]), ac);
      assert els[..i + 1][..i] == els[..i];
    }
    assert els[..|els|] == els;
  }

  /** Third loop of `collectMappings`: every `id` attribute, as one name. */
  method CollectIdAttrs(els: seq<Attrs>, m: Mapping, protect: bool, g: Rng) returns (g': Rng)
    requires m.Valid()
    modifies m
    ensures m.Valid()
    ensures Filled(old(m.ids), m.ids, IdValues(els), Accept(HtmlRules, IdKind, protect))
    ensures m.classes == old(m.classes) && m.classSelectors == old(m.classSelectors)
    ensures g'.stream == g.stream
  {
    g' := g;
    ghost var i0 := m.ids;
    ghost var ai := Accept(HtmlRules, IdKind, protect);
    FilledNothing(i0, ai);
    for i := 0 to |els|
      invariant m.Valid()
      invariant Filled(i0, m.ids, IdValues(els[..i]), ai)
      invariant m.classes == old(m.classes) && m.classSelectors == old(m.classSelectors)
      invariant g'.stream == g.stream
    {
      ghost var i1 := m.ids;
      g' := m.Collect(IdKind, IdOf(els[i]), HtmlRules, protect, g');
      FilledTrans(i0, i1, m.ids, IdValues(els[..i]), IdOf(els[i]), ai);
      assert els[..i + 1][..i] == els[..i];
    }
    assert els[..|els|] == els;
  }

  /** The three loops of `collectMappings`: inline style sheets, then class attributes, then
      id attributes. Each table is filled first-write-wins from the names in that order. */
  method CollectMappings(styles: seq<string>, els: seq<Attrs>, m: Mapping, protect: bool, g: Rng)
    returns (g': Rng)
    requires m.Valid()
    modifies m
    ensures m.Valid()
    ensures Filled(old(m.classes), m.classes, StyleNames(styles, '.') + ClassTokens(els),
                   Accept(HtmlRules, ClassKind, protect))
    ensures Filled(old(m.ids), m.ids, StyleNames(styles, '#') + IdValues(els),
                   Accept(HtmlRules, IdKind, protect))
    ensures g'.stream == g.stream
  {
    ghost var c0, i0 := m.classes, m.ids;
    g' := CollectStyles(styles, m, protect, g);
    ghost var c1, i1 := m.classes, m.ids;
    g' := CollectClassAttrs(els, m, protect, g');
    FilledTrans(c0, c1, m.classes, StyleNames(styles, '.'), ClassTokens(els), Accept(HtmlRules, ClassKind, protect));
    g' := CollectIdAttrs(els, m, protect, g');
    FilledTrans(i0, i1, m.ids, StyleNames(styles, '#'), IdValues(els), Accept(HtmlRules, IdKind, protect));
  }

  // ---------------------------------------------------------------- attribute rewrite

  /** What reading a table the mapping does not have throws. */
  const NoTable := "TypeError: Cannot read properties of undefined"

  /** One class token: an empty token stays; otherwise its replacement, or the token itself
      when it has none or an empty one. */
  function RenameToken(tok: string, classes: Option<Table>): (r: Result<string>)
    ensures r.Failure? <==> tok != [] && classes.None?
    ensures r.Success? ==> r.value == tok || (classes.Some? && classes.value.Get(tok) == Some(r.value))
    ensures r.Success? ==> (r.value == [] <==> tok == [])
    ensures r.Success? && classes.Some? && tok != [] && classes.value.Has(tok) && classes.value.vals[tok] != []
            ==> r.value == classes.value.vals[tok]
  {
    if tok == [] then Success(tok)
    else match classes
      case None => Failure(NoTable)
      case Some(t) =>
        match t.Get(tok)
        case Some(v) => Success(if v != [] then v else tok)
        case None => Success(tok)
  }

  /** Every token renamed, position by position; the first failure is the result. */
  function RenameTokens(toks: seq<string>, classes: Option<Table>): (r: Result<seq<string>>)
    ensures r.Success? ==> |r.value| == |toks|
    ensures r.Success? ==> forall j :: 0 <= j < |toks| ==> RenameToken(toks[j], classes) == Success(r.value[j])
    ensures r.Failure? <==> exists j :: 0 <= j < |toks| && RenameToken(toks[j], classes).Failure?
  {
    if toks == [] then Success([])
    else
      match RenameToken(toks[0], classes)
      case Failure(e) => Failure(e)
      case Success(t) =>
        match RenameTokens(toks[1..], classes)
        case Failure(e) => Failure(e)
        case Success(ts) => Success([t] + ts)
  }

  /** The new value of a `class` attribute: its tokens renamed and joined with one space. */
  function RewriteClassAttr(c: string, classes: Option<Table>): Result<string>
  {
    match RenameTokens(SplitOnSpaces(c), classes)
    case Failure(e) => Failure(e)
    case Success(ts) => Success(Join(ts, " "))
  }

  /** The new value of an `id` attribute: an empty id stays, a mapped id becomes its
      replacement, any other id stays. */
  function RewriteIdAttr(v: string, ids: Option<Table>): (r: Result<string>)
    ensures r.Failure? <==> v != [] && ids.None?
    ensures r.Success? && r.value != v ==> ids.Some? && ids.value.Get(v) == Some(r.value)
    ensures ids.Some? && v != [] && ids.value.Has(v) ==> r == Success(ids.value.vals[v])
  {
    if v == [] then Success(v)
    else match ids
      case None => Failure(NoTable)
      case Some(t) => Success(if t.Has(v) then t.vals[v] else v)
  }

  /** Every replacement is free of white space, as generated identifiers are. */
  ghost predicate SpaceFreeValues(t: Table) {
    forall k :: k in t.vals ==> NoSpace(t.vals[k])
  }

  /** With a class table whose replacements have no white space, the rewrite succeeds and
      splitting the new attribute gives back exactly the renamed tokens: one token out for
      each token in, in the same order. */
  lemma {:induction false} ClassTokensPreserved(c: string, t: Table)
    requires SpaceFreeValues(t)
    ensures RewriteClassAttr(c, Some(t)).Success?
    ensures SplitOnSpaces(RewriteClassAttr(c, Some(t)).value) == RenameTokens(SplitOnSpaces(c), Some(t)).value
    ensures |SplitOnSpaces(RewriteClassAttr(c, Some(t)).value)| == |SplitOnSpaces(c)|
  {
    var toks := SplitOnSpaces(c);
    var r := RenameTokens(toks, Some(t));
    assert r.Success?;
    SplitMiddleNonEmpty(c);
    SplitPiecesNoSpace(c);
    forall j | 0 <= j < |toks|
      ensures NoSpace(r.value[j])
      ensures toks[j] != [] ==> r.value[j] != []
    {
      assert RenameToken(toks[j], Some(t)) == Success(r.value[j]);
    }
    SplitJoin(r.value);
  }

  /** Without a class table, a `class` attribute with a non-empty token cannot be rewritten. */
  lemma {:induction false} ClassAttrNeedsTable(c: string)
    requires exists j :: 0 <= j < |SplitOnSpaces(c)| && SplitOnSpaces(c)[j] != []
    ensures RewriteClassAttr(c, None).Failure?
  {
    var j :| 0 <= j < |SplitOnSpaces(c)| && SplitOnSpaces(c)[j] != [];
    assert RenameToken(SplitOnSpaces(c)[j], None).Failure?;
  }

  /** Which attribute a rewrite loop visits. */
  datatype Pass = ClassPass | IdPass

  /** One element after one loop: its attribute rewritten if it has that attribute. */
  function RenameAttr(pass: Pass, e: Attrs, view: MappingView): (r: Result<Attrs>)
    ensures r.Success? && pass.ClassPass? ==> r.value.idAttr == e.idAttr
    ensures r.Success? && pass.IdPass? ==> r.value.classAttr == e.classAttr
    ensures pass.ClassPass? && e.classAttr.None? ==> r == Success(e)
    ensures pass.IdPass? && e.idAttr.None? ==> r == Success(e)
  {
    match pass
    case ClassPass =>
      (match e.classAttr
       case None => Success(e)
       case Some(c) =>
         match RewriteClassAttr(c, view.classes)
         case Failure(err) => Failure(err)
         case Success(c') => Success(e.(classAttr := Some(c'))))
    case IdPass =>
      (match e.idAttr
       case None => Success(e)
       case Some(v) =>
         match RewriteIdAttr(v, view.ids)
         case Failure(err) => Failure(err)
         case Success(v') => Success(e.(idAttr := Some(v'))))
  }

  /** After a loop that threw at element `k`: the elements before it rewritten, the rest as
      they were. */
  ghost predicate StoppedAt(pass: Pass, before: seq<Attrs>, after: seq<Attrs>, view: MappingView, k: int) {
    |after| == |before| && 0 <= k < |before| &&
    RenameAttr(pass, before[k], view).Failure? &&
    (forall j :: 0 <= j < k ==> RenameAttr(pass, before[j], view) == Success(after[j])) &&
    (forall j :: k <= j < |before| ==> after[j] == before[j])
  }

  /** One `$('[class]').each` or `$('[id]').each` loop over the elements in document order.
      An exception leaves the elements already visited rewritten. */
  method RenameAttrs(els: array<Attrs>, pass: Pass, view: MappingView) returns (ok: bool)
    modifies els
    ensures ok <==> forall j :: 0 <= j < els.Length ==> RenameAttr(pass, old(els[j]), view).Success?
    ensures ok ==> forall j :: 0 <= j < els.Length ==> RenameAttr(pass, old(els[j]), view) == Success(els[j])
    ensures !ok ==> exists k :: StoppedAt(pass, old(els[..]), els[..], view, k)
  {
    ok := true;
    var i := 0;
    while i < els.Length
      invariant 0 <= i <= els.Length
      invariant forall j :: 0 <= j < i ==> RenameAttr(pass, old(els[j]), view) == Success(els[j])
      invariant forall j :: i <= j < els.Length ==> els[j] == old(els[j])
    {
      var r := RenameAttr(pass, els[i], view);
      if r.Failure? {
        ok := false;
        assert StoppedAt(pass, old(els[..]), els[..], view, i);
        return;
      }
      els[i] := r.value;
      i := i + 1;
    }
  }

  /** `obfuscateClassesAndIds`: the class loop over every element, then the id loop. It
      returns false when a loop threw (the mapping lacks the table it needs). */
  method ObfuscateClassesAndIds(els: array<Attrs>, view: MappingView) returns (ok: bool)
    modifies els
    ensures ok <==> forall j :: 0 <= j < els.Length ==>
      RenameAttr(ClassPass, old(els[j]), view).Success? &&
      RenameAttr(IdPass, RenameAttr(ClassPass, old(els[j]), view).value, view).Success?
    ensures ok ==> forall j :: 0 <= j < els.Length ==>
      els[j] == RenameAttr(IdPass, RenameAttr(ClassPass, old(els[j]), view).value, view).value
  {
    ok := RenameAttrs(els, ClassPass, view);
    if ok {
      ghost var mid := els[..];
      ok := RenameAttrs(els, IdPass, view);
      assert forall j :: 0 <= j < els.Length ==> mid[j] == RenameAttr(ClassPass, old(els[j]), view).value;
    }
  }

  // ---------------------------------------------------------------- structure intensity

  /** The named levels of structure obfuscation, weakest first. */
  datatype Intensity = Low | Medium | High | Extreme
  {
    function Rank(): nat {
      match this
      case Low => 0
      case Medium => 1
      case High => 2
      case Extreme => 3
    }
  }

  /** The probabilities of each structural mutation and the largest nesting depth. */
  datatype StructureConfig = StructureConfig(
    nestedWrappers: real, hiddenElements: real, semanticObfuscation: real, complexLayout: real,
    structuralNoise: real, textNodeWrappers: real, containerWrappers: real, maxDepth: nat)

  /** Every probability lies strictly between 0 and 1. */
  predicate ProbabilitiesInRange(c: StructureConfig) {
    0.0 < c.nestedWrappers < 1.0 && 0.0 < c.hiddenElements < 1.0 &&
    0.0 < c.semanticObfuscation < 1.0 && 0.0 < c.complexLayout < 1.0 &&
    0.0 < c.structuralNoise < 1.0 && 0.0 < c.textNodeWrappers < 1.0 &&
    0.0 < c.containerWrappers < 1.0
  }

  /** No field of `a` exceeds the same field of `b`. */
  predicate AtMost(a: StructureConfig, b: StructureConfig) {
    a.nestedWrappers <= b.nestedWrappers && a.hiddenElements <= b.hiddenElements &&
    a.semanticObfuscation <= b.semanticObfuscation && a.complexLayout <= b.complexLayout &&
    a.structuralNoise <= b.structuralNoise && a.textNodeWrappers <= b.textNodeWrappers &&
    a.containerWrappers <= b.containerWrappers && a.maxDepth <= b.maxDepth
  }

  /** The preset of each level. */
  function Preset(level: Intensity): (c: StructureConfig)
    ensures ProbabilitiesInRange(c)
    ensures c.maxDepth == 2 * (level.Rank() + 1)
  {
    match level
    case Low => StructureConfig(0.1, 0.1, 0.05, 0.05, 0.03, 0.05, 0.1, 2)
    case Medium => StructureConfig(0.3, 0.25, 0.2, 0.15, 0.1, 0.15, 0.25, 4)
    case High => StructureConfig(0.5, 0.4, 0.35, 0.3, 0.2, 0.3, 0.4, 6)
    case Extreme => StructureConfig(0.7, 0.6, 0.5, 0.45, 0.35, 0.5, 0.6, 8)
  }

  /** The level a configuration key names, if any. */
  function ParseIntensity(level: string): (r: Option<Intensity>)
    ensures r.Some? <==> level in {"low", "medium", "high", "extreme"}
  {
    if level == "low" then Some(Low)
    else if level == "medium" then Some(Medium)
    else if level == "high" then Some(High)
    else if level == "extreme" then Some(Extreme)
    else None
  }

  /** `getStructureIntensityConfig`: the preset of the named level, the medium preset for
      any other name. */
  function GetStructureIntensityConfig(level: string): (c: StructureConfig)
    ensures ParseIntensity(level).None? ==> c == Preset(Medium)
    ensures ParseIntensity(level).Some? ==> c == Preset(ParseIntensity(level).value)
    ensures ProbabilitiesInRange(c) && 2 <= c.maxDepth <= 8
  {
    match ParseIntensity(level)
    case None => Preset(Medium)
    case Some(l) => Preset(l)
  }

  /** A stronger level never lowers any probability or the depth. */
  lemma {:induction false} PresetsMonotone(a: Intensity, b: Intensity)
    requires a.Rank() <= b.Rank()
    ensures AtMost(Preset(a), Preset(b))
  {
  }

  // ---------------------------------------------------------------- analytics scripts

  /** Script addresses that mark a third-party analytics script. */
  const AnalyticsDomains: seq<string> := [
    "google-analytics.com", "googletagmanager.com", "gtag", "ga.js", "analytics.js", "gtm.js",
    "facebook.net", "connect.facebook.net", "mixpanel.com", "amplitude.com", "baidu.com",
    "hm.baidu.com", "mc.yandex.ru", "matomo.org", "piwik.org"]

  /** Script text that marks a third-party analytics script. */
  const AnalyticsKeywords: seq<string> := [
    "gtag(", "ga(", "GoogleAnalyticsObject", "dataLayer",
    "google-analytics.com", "googletagmanager.com",
    "_gaq", "_gat", "goog_report_conversion",
    "fbq(", "_fbq", "facebook.net",
    "mixpanel.", "amplitude.", "_hmt", "yaCounter", "_paq",
    "UA-", "GTM-", "G-", "AW-",
    "track(", "pageview", "event", "conversion"]

  /** `words.some(w => s.includes(w))`. */
  function AnyIncluded(s: string, words: seq<string>): (b: bool)
    ensures b <==> exists j :: 0 <= j < |words| && Contains(s, words[j])
  {
    if words == [] then false
    else if Contains(s, words[0]) then true
    else
      var b := AnyIncluded(s, words[1..]);
      assert forall j :: 1 <= j < |words| ==> words[j] == words[1..][j - 1];
      b
  }

  /** `isAnalyticsScript(content, src)`, with an absent address as `None`: a listed domain
      in the address or a listed keyword in the text. The emptiness tests change nothing,
      since the empty string contains no listed word. */
  function IsAnalyticsScript(content: string, src: Option<string>): (b: bool)
    ensures b <==>
      (src.Some? && exists j :: 0 <= j < |AnalyticsDomains| && Contains(src.value, AnalyticsDomains[j])) ||
      (exists j :: 0 <= j < |AnalyticsKeywords| && Contains(content, AnalyticsKeywords[j]))
    ensures content == [] && (src.None? || src.value == []) ==> !b
  {
    AnalyticsWordsNonEmpty();
    EmptyIncludesNone(AnalyticsDomains);
    EmptyIncludesNone(AnalyticsKeywords);
    (src.Some? && src.value != [] && AnyIncluded(src.value, AnalyticsDomains)) ||
    (content != [] && AnyIncluded(content, AnalyticsKeywords))
  }

  predicate NoEmptyWord(words: seq<string>) {
    forall j :: 0 <= j < |words| ==> words[j] != []
  }

  lemma {:induction false} AnalyticsWordsNonEmpty()
    ensures NoEmptyWord(AnalyticsDomains) && NoEmptyWord(AnalyticsKeywords)
  {
  }

  /** The empty text includes no word of a list without the empty word. */
  lemma {:induction false} EmptyIncludesNone(words: seq<string>)
    requires NoEmptyWord(words)
    ensures !exists j :: 0 <= j < |words| && Contains([], words[j])
  {
  }

  /** An address naming the tag manager marks the script as analytics. */
  lemma {:induction false} TagManagerSourceIsAnalytics(pre: string, post: string)
    ensures IsAnalyticsScript("", Some(pre + "googletagmanager.com" + post))
  {
    ContainsInContext(pre, "googletagmanager.com", post);
    assert AnalyticsDomains[1] == "googletagmanager.com";
  }

  /** Any text containing `event` counts as analytics and is never obfuscated: a handler
      calling `e.preventDefault()` is one (`pre` = `e.prev`, `post` = `Default()`). */
  lemma {:induction false} EventKeywordIsAnalytics(pre: string, post: string)
    ensures IsAnalyticsScript(pre + "event" + post, None)
  {
    ContainsInContext(pre, "event", post);
    assert AnalyticsKeywords[23] == "event";
  }

  // ---------------------------------------------------------------- minimal mode

  /** `<script` in any case, not followed by a word character: where the script pattern
      can start. */
  predicate ScriptOpenAt(s: string, i: nat) {
    i + 7 <= |s| && SameIgnoringCase(s[i..i + 7], "<script") && (i + 7 == |s| || !IsWordChar(s[i + 7]))
  }

  /** `</script>` in any case at `p`. */
  predicate ScriptCloseAt(s: string, p: nat) {
    p + 9 <= |s| && SameIgnoringCase(s[p..p + 9], "</script>")
  }

  /** The first closing tag at or after `from`, or -1: where the lazy body ends. */
  function FindClose(s: string, from: nat): (p: int)
    decreases |s| - from
    ensures p == -1 || (from <= p && p + 9 <= |s| && ScriptCloseAt(s, p))
    ensures p == -1 ==> forall q :: from <= q < |s| ==> !ScriptCloseAt(s, q)
    ensures p != -1 ==> forall q :: from <= q < p ==> !ScriptCloseAt(s, q)
  {
    if from + 9 > |s| then -1
    else if ScriptCloseAt(s, from) then from
    else FindClose(s, from + 1)
  }

  /** One match of the script pattern: the start tag is `[start, tagEnd)`, the body
      `[tagEnd, closeStart)` and the closing tag the nine characters after it. */
  datatype ScriptMatch = ScriptMatch(start: nat, tagEnd: nat, closeStart: nat)
  {
    function End(): nat { closeStart + 9 }
  }

  /** The match lies inside `s` and its parts are in order. */
  predicate WithinText(s: string, m: ScriptMatch) {
    m.start + 8 <= m.tagEnd <= m.closeStart && m.End() <= |s|
  }

  /** The pattern `<script\b[^>]*?>([\s\S]*?)<\/script>` with the `i` flag, tried at `i`:
      the start tag ends at the first `>`, the body at the first closing tag after it. */
  function MatchAt(s: string, i: nat): (r: Option<ScriptMatch>)
    ensures r.Some? ==> r.value.start == i && WithinText(s, r.value)
  {
    if !ScriptOpenAt(s, i) then None
    else
      var gt := IndexOf(s, '>', i + 7);
      if gt == -1 then None
      else
        var c := FindClose(s, gt + 1);
        if c == -1 then None else Some(ScriptMatch(i, gt + 1, c))
  }

  /** A match is `<script` and a word boundary, a start tag with no `>` before its end,
      a body, and the first closing tag after the start tag; and the pattern matches at `i`
      exactly when such a start tag and closing tag exist there. */
  lemma {:induction false} MatchAtShape(s: string, i: nat)
    ensures MatchAt(s, i).Some? ==>
      var m := MatchAt(s, i).value;
      ScriptOpenAt(s, i) && s[m.tagEnd - 1] == '>' && ScriptCloseAt(s, m.closeStart) &&
      (forall q :: i + 7 <= q < m.tagEnd - 1 ==> s[q] != '>') &&
      (forall q :: m.tagEnd <= q < m.closeStart ==> !ScriptCloseAt(s, q))
    ensures MatchAt(s, i).None? ==>
      !ScriptOpenAt(s, i) ||
      (forall q :: i + 7 <= q < |s| ==> s[q] != '>') ||
      (forall q :: IndexOf(s, '>', i + 7) < q < |s| ==> !ScriptCloseAt(s, q))
  {
  }

  /** The first match at or after `from`: what `exec` finds from `lastIndex`. */
  function FindScript(s: string, from: nat): (r: Option<ScriptMatch>)
    decreases |s| - from
    ensures r.Some? ==> from <= r.value.start && MatchAt(s, r.value.start) == r
  {
    if from >= |s| then None
    else match MatchAt(s, from)
      case Some(m) => Some(m)
      case None => FindScript(s, from + 1)
  }

  /** No match starts between `from` and the one found, and none at all when nothing is
      found. */
  lemma {:induction false} FindScriptFirst(s: string, from: nat)
    decreases |s| - from
    ensures FindScript(s, from).Some? ==> forall i :: from <= i < FindScript(s, from).value.start ==> MatchAt(s, i).None?
    ensures FindScript(s, from).None? ==> forall i :: from <= i <= |s| ==> MatchAt(s, i).None?
  {
    if from < |s| {
      if MatchAt(s, from).None? {
        FindScriptFirst(s, from + 1);
        var r := FindScript(s, from + 1);
        assert FindScript(s, from) == r;
        var bound := if r.Some? then r.value.start else |s| + 1;
        forall i | from < i < bound
          ensures MatchAt(s, i).None?
        {
          assert from + 1 <= i;
        }
      } else {
        assert FindScript(s, from) == MatchAt(s, from);
      }
    } else if from == |s| {
      assert !ScriptOpenAt(s, from);
    }
  }

  /** The matches are inside `s` and follow one another without overlap. */
  predicate Ordered(s: string, ms: seq<ScriptMatch>) {
    (forall j :: 0 <= j < |ms| ==> WithinText(s, ms[j])) &&
    (forall j, k :: 0 <= j < k < |ms| ==> ms[j].End() <= ms[k].start)
  }

  /** Putting a match in front of ordered matches that start after it keeps them ordered. */
  lemma {:induction false} OrderedCons(s: string, m: ScriptMatch, rest: seq<ScriptMatch>)
    requires WithinText(s, m) && Ordered(s, rest)
    requires forall j :: 0 <= j < |rest| ==> m.End() <= rest[j].start
    ensures Ordered(s, [m] + rest)
  {
  }

  /** Every match of the global pattern from `from` on, in order. */
  function ScriptsFrom(s: string, from: nat): (r: seq<ScriptMatch>)
    decreases |s| - from
    ensures Ordered(s, r)
    ensures forall j :: 0 <= j < |r| ==> from <= r[j].start && MatchAt(s, r[j].start) == Some(r[j])
  {
    match FindScript(s, from)
    case None => []
    case Some(m) =>
      var rest := ScriptsFrom(s, m.End());
      OrderedCons(s, m, rest);
      [m] + rest
  }

  /** The body of a matched script. */
  function Body(s: string, m: ScriptMatch): string
    requires WithinText(s, m)
  {
    s[m.tagEnd..m.closeStart]
  }

  /** `\bsrc\s*=\s*["']([^"']+)["']` with the `i` flag, tried at `i`. */
  predicate SrcAt(t: string, i: nat) {
    (i == 0 || (i <= |t| && !IsWordChar(t[i - 1]))) &&
    i + 3 <= |t| && SameIgnoringCase(t[i..i + 3], "src") &&
    var e := i + 3 + LeadingSpaceCount(t[i + 3..]);
    e < |t| && t[e] == '=' &&
    var q := e + 1 + LeadingSpaceCount(t[e + 1..]);
    q < |t| && (t[q] == '"' || t[q] == '\'') &&
    var v := q + 1 + QuoteFreeCount(t[q + 1..]);
    q + 1 < v < |t|
  }

  /** Length of the leading run without a quote: what the greedy `[^"']+` takes. */
  function QuoteFreeCount(s: string): (n: nat)
    ensures n <= |s|
    ensures forall k :: 0 <= k < n ==> s[k] != '"' && s[k] != '\''
    ensures n < |s| ==> s[n] == '"' || s[n] == '\''
  {
    if s == [] || s[0] == '"' || s[0] == '\'' then 0 else 1 + QuoteFreeCount(s[1..])
  }

  /** The source-attribute test, searched in the whole matched element. */
  predicate HasSrcAttr(t: string) {
    exists i :: 0 <= i < |t| && SrcAt(t, i)
  }

  /** The reasons a matched script is left alone: a `src` attribute, a blank body, or
      analytics code in the body. */
  predicate Skipped(s: string, m: ScriptMatch)
    requires WithinText(s, m)
  {
    HasSrcAttr(s[m.start..m.End()]) || IsBlank(Body(s, m)) || IsAnalyticsScript(Body(s, m), None)
  }

  /** The tail of ordered matches is ordered, and whatever is drawn from the tail starts
      after the first match ends. */
  lemma {:induction false} AfterFirst(s: string, ms: seq<ScriptMatch>, rest: seq<ScriptMatch>)
    requires Ordered(s, ms) && |ms| > 0
    requires forall j :: 0 <= j < |rest| ==> rest[j] in ms[1..]
    ensures Ordered(s, ms[1..])
    ensures forall j :: 0 <= j < |rest| ==> rest[j] in ms && ms[0].End() <= rest[j].start
  {
    forall j | 0 <= j < |rest|
      ensures rest[j] in ms && ms[0].End() <= rest[j].start
    {
      var k :| 0 <= k < |ms| - 1 && ms[1..][k] == rest[j];
      assert ms[k + 1] == rest[j];
    }
  }

  /** The test `minimalObfuscate` applies to each match of `s`: not left alone. */
  function Kept(s: string): ScriptMatch -> bool {
    m => WithinText(s, m) && !Skipped(s, m)
  }

  /** The matches `keep` accepts, in order. */
  function Selected(s: string, ms: seq<ScriptMatch>, keep: ScriptMatch -> bool): (r: seq<ScriptMatch>)
    requires Ordered(s, ms)
    ensures Ordered(s, r)
    ensures forall j :: 0 <= j < |r| ==> r[j] in ms
  {
    if ms == [] then []
    else
      assert Ordered(s, ms[1..]);
      var rest := Selected(s, ms[1..], keep);
      AfterFirst(s, ms, rest);
      if !keep(ms[0]) then rest
      else
        OrderedCons(s, ms[0], rest);
        [ms[0]] + rest
  }

  /** Exactly the matches `keep` accepts are selected. */
  lemma {:induction false} SelectedExactly(s: string, ms: seq<ScriptMatch>, keep: ScriptMatch -> bool)
    requires Ordered(s, ms)
    ensures forall j :: 0 <= j < |Selected(s, ms, keep)| ==> keep(Selected(s, ms, keep)[j])
    ensures forall j :: 0 <= j < |ms| && keep(ms[j]) ==> ms[j] in Selected(s, ms, keep)
  {
    if ms != [] {
      assert Ordered(s, ms[1..]);
      SelectedExactly(s, ms[1..], keep);
      forall j | 1 <= j < |ms| ensures ms[j] == ms[1..][j - 1] { }
    }
  }

  /** Selecting from a list of matches is selecting its first one or not, then selecting
      from the rest. */
  lemma {:induction false} SelectedStep(html: string, ms: seq<ScriptMatch>, j: nat, keep: ScriptMatch -> bool)
    requires Ordered(html, ms) && j < |ms|
    ensures Ordered(html, ms[j..]) && Ordered(html, ms[j + 1..])
    ensures Selected(html, ms[j..], keep)
         == (if keep(ms[j]) then [ms[j]] else []) + Selected(html, ms[j + 1..], keep)
  {
    assert ms[j..][1..] == ms[j + 1..];
  }

  /** The `while (exec)` loop of `minimalObfuscate`: the matches in order, each found
      from the end of the previous one, keeping those `keep` accepts. */
  method CollectScripts(html: string, keep: ScriptMatch -> bool) returns (ms: seq<ScriptMatch>)
    ensures ms == Selected(html, ScriptsFrom(html, 0), keep)
  {
    var all := ScriptsFrom(html, 0);
    ms := [];
    assert all[0..] == all;
    for j := 0 to |all|
      invariant Ordered(html, all[j..])
      invariant Selected(html, all, keep) == ms + Selected(html, all[j..], keep)
    {
      SelectedStep(html, all, j, keep);
      ghost var later := Selected(html, all[j + 1..], keep);
      if keep(all[j]) {
        assert ms + ([all[j]] + later) == (ms + [all[j]]) + later;
        ms := ms + [all[j]];
      } else {
        assert ms + ([] + later) == ms + later;
      }
    }
  }

  /** What takes the place of a selected script: the original start tag, the obfuscated
      body and a lower-case closing tag, or the original element when the script obfuscator
      fails. `obfuscateJs` is the script obfuscator with its random draws fixed: the one
      outcome, for each body, of the run in question (`None` when it throws). */
  function Replacement(s: string, m: ScriptMatch, obfuscateJs: string -> Option<string>): string
    requires WithinText(s, m)
  {
    match obfuscateJs(Body(s, m))
    case None => s[m.start..m.End()]
    case Some(js) => s[m.start..m.tagEnd] + js + "</script>"
  }

  /** The replacement of a script the obfuscator accepts. */
  lemma {:induction false} ReplacementWith(s: string, m: ScriptMatch, obfuscateJs: string -> Option<string>, js: string)
    requires WithinText(s, m) && obfuscateJs(Body(s, m)) == Some(js)
    ensures Replacement(s, m, obfuscateJs) == s[m.start..m.tagEnd] + js + "</script>"
  {
  }

  /** Where match `i` starts, or the end of the text after the last match. */
  function StartOf(s: string, ms: seq<ScriptMatch>, i: nat): (p: nat)
    requires Ordered(s, ms) && i <= |ms|
    ensures p <= |s|
  {
    if i < |ms| then ms[i].start else |s|
  }

  /** The text from the start of match `i` on, with matches `i` onwards replaced. */
  function Rebuilt(s: string, ms: seq<ScriptMatch>, i: nat, obfuscateJs: string -> Option<string>): string
    requires Ordered(s, ms) && i <= |ms|
    decreases |ms| - i
  {
    if i == |ms| then []
    else Replacement(s, ms[i], obfuscateJs) + s[ms[i].End()..StartOf(s, ms, i + 1)] + Rebuilt(s, ms, i + 1, obfuscateJs)
  }

  /** The whole text with the matches `ms` replaced, read left to right: the text before
      the first match, then each replacement followed by the untouched text up to the
      next match. */
  function Spliced(s: string, ms: seq<ScriptMatch>, obfuscateJs: string -> Option<string>): string
    requires Ordered(s, ms)
  {
    s[..StartOf(s, ms, 0)] + Rebuilt(s, ms, 0, obfuscateJs)
  }

  /** Replacing `[start, end)` of a text whose first `next` characters are the original's
      touches neither the original text before `start` nor the original text between `end`
      and `next`. */
  lemma {:induction false} SpliceOne(s: string, start: nat, end: nat, next: nat, tail: string, repl: string, result: string)
    requires start <= end <= next <= |s|
    requires result == s[..next] + tail
    ensures end <= |result|
    ensures result[..start] == s[..start] && result[start..end] == s[start..end]
    ensures result[..start] + repl + result[end..] == s[..start] + (repl + s[end..next] + tail)
  {
    var a := s[..next];
    assert result[..next] == a;
    assert result[..start] == a[..start];
    assert result[start..end] == a[start..end];
    assert result[end..] == a[end..] + tail;
    assert a[end..] == s[end..next];
  }

  /** The reverse loop of `minimalObfuscate`: the matches are spliced from the last to the
      first, each replaced in the current text at its original offsets, which the splices
      to its right have not moved. The outcome is the text rebuilt left to right. */
  method SpliceScripts(html: string, ms: seq<ScriptMatch>, obfuscateJs: string -> Option<string>)
    returns (result: string)
    requires Ordered(html, ms)
    ensures result == Spliced(html, ms, obfuscateJs)
  {
    result := html;
    var i := |ms|;
    assert html[..|html|] + [] == html;
    while i > 0
      invariant 0 <= i <= |ms|
      invariant result == html[..StartOf(html, ms, i)] + Rebuilt(html, ms, i, obfuscateJs)
    {
      i := i - 1;
      var m := ms[i];
      var next := StartOf(html, ms, i + 1);
      var repl := Replacement(html, m, obfuscateJs);
      var tail := Rebuilt(html, ms, i + 1, obfuscateJs);
      SpliceOne(html, m.start, m.End(), next, tail, repl, result);
      assert Rebuilt(html, ms, i, obfuscateJs) == repl + html[m.End()..next] + tail;
      match obfuscateJs(Body(html, m)) {
        case Some(js) =>
          var newTag := html[m.start..m.tagEnd] + js + "</script>";
          ReplacementWith(html, m, obfuscateJs, js);
          result := result[..m.start] + newTag + result[m.End()..];
        case None =>
          SliceThree(result, m.start, m.End());
      }
    }
  }

  /** `minimalObfuscate`: everything outside the selected scripts unchanged, each selected
      script replaced by its original start tag, its obfuscated body and `</script>`, or
      kept whole when the script obfuscator fails on it. */
  method MinimalObfuscate(html: string, obfuscateJs: string -> Option<string>) returns (result: string)
    ensures result == Spliced(html, Selected(html, ScriptsFrom(html, 0), Kept(html)), obfuscateJs)
  {
    var ms := CollectScripts(html, Kept(html));
    result := SpliceScripts(html, ms, obfuscateJs);
  }

  /** When the script obfuscator fails on every selected body, the rebuilt text from a
      match on is the original text from there. */
  lemma {:induction false} RebuiltWhenAllFail(s: string, ms: seq<ScriptMatch>, i: nat, obfuscateJs: string -> Option<string>)
    requires Ordered(s, ms) && i <= |ms|
    requires forall j :: i <= j < |ms| ==> obfuscateJs(Body(s, ms[j])).None?
    ensures Rebuilt(s, ms, i, obfuscateJs) == s[StartOf(s, ms, i)..]
    decreases |ms| - i
  {
    if i < |ms| {
      RebuiltWhenAllFail(s, ms, i + 1, obfuscateJs);
      var m, next := ms[i], StartOf(s, ms, i + 1);
      assert WithinText(s, m) && m.End() <= next;
      assert Replacement(s, m, obfuscateJs) == s[m.start..m.End()];
      SuffixThree(s, m.start, m.End(), next);
    }
  }

  /** Every failure of the script obfuscator keeps the original script: when it fails on
      all of them, the page comes back unchanged. */
  lemma {:induction false} SplicedWhenAllFail(s: string, ms: seq<ScriptMatch>, obfuscateJs: string -> Option<string>)
    requires Ordered(s, ms)
    requires forall j :: 0 <= j < |ms| ==> obfuscateJs(Body(s, ms[j])).None?
    ensures Spliced(s, ms, obfuscateJs) == s
  {
    RebuiltWhenAllFail(s, ms, 0, obfuscateJs);
    var p := StartOf(s, ms, 0);
    assert Spliced(s, ms, obfuscateJs) == s[..p] + s[p..];
    assert s[..p] + s[p..] == s;
  }

  /** A quote-free run followed by a quote is taken whole by `[^"']+`. */
  lemma {:induction false} QuoteFreeRun(v: string, rest: string)
    requires forall k :: 0 <= k < |v| ==> v[k] != '"' && v[k] != '\''
    requires rest != [] && (rest[0] == '"' || rest[0] == '\'')
    ensures QuoteFreeCount(v + rest) == |v|
  {
    if v != [] {
      assert (v + rest)[1..] == v[1..] + rest;
      QuoteFreeRun(v[1..], rest);
    }
  }

  /** The pieces of `src='v'` at position `i`, read off index by index. */
  lemma {:induction false} SrcAtShape(t: string, i: nat, n: nat)
    requires i + 5 + n < |t| && 0 < n
    requires i == 0 || !IsWordChar(t[i - 1])
    requires t[i..i + 3] == "src" && t[i + 3] == '=' && t[i + 4] == '\'' && t[i + 5 + n] == '\''
    requires QuoteFreeCount(t[i + 5..]) == n
    ensures SrcAt(t, i)
  {
    assert LeadingSpaceCount(t[i + 3..]) == 0 by { assert t[i + 3..][0] == '='; }
    assert LeadingSpaceCount(t[i + 4..]) == 0 by { assert t[i + 4..][0] == '\''; }
  }

  /** `src='v'` after a non-word character is found anywhere in the element, body included:
      an external script (`<script src='a.js'>`) and an inline one that assigns a quoted
      address to a property (`<script>img.src='a.png'`) are both left alone. */
  lemma {:induction false} SrcAssignmentFound(pre: string, v: string, post: string)
    requires pre == [] || !IsWordChar(pre[|pre| - 1])
    requires v != [] && forall k :: 0 <= k < |v| ==> v[k] != '"' && v[k] != '\''
    ensures HasSrcAttr(pre + "src='" + v + "'" + post)
  {
    var rest := v + ("'" + post);
    var t := pre + ("src='" + rest);
    assert t == pre + "src='" + v + "'" + post;
    var i := |pre|;
    assert t[i..i + 3] == "src" && t[i + 3] == '=' && t[i + 4] == '\'';
    assert t[i + 5..] == rest;
    assert t[i + 5 + |v|] == rest[|v|] == '\'';
    QuoteFreeRun(v, "'" + post);
    SrcAtShape(t, i, |v|);
  }
}
