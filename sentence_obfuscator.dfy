/**
  The sentence pass of lib/core/sentence-obfuscator.js: zero-width entities are
  scattered between the code points of every long enough text node that is not
  already marked as obfuscated.

  The parsed document is given as a list of element views in document order. Each
  view holds what the pass reads of an element when it is visited: its lower-case
  tag name, its inner HTML, its text content, whether it contains a marked span,
  and its direct text nodes. The pass only rewrites an element's own direct text
  nodes, and parents are visited before their children, so views taken when the
  document is loaded are the ones the pass sees.
 */
module SentenceObfuscation {
  import opened JsString
  import opened Insertion
  import opened RandomUtils
  import opened Wrappers

  // ---------------------------------------------------------------- the "already obfuscated" checks

  /** U+200B, U+200C, U+200D, U+2060, U+FEFF and U+00A0. */
  const InvisibleCodePoints: seq<char> := ['\U{200B}', '\U{200C}', '\U{200D}', '\U{2060}', '\U{FEFF}', '\U{00A0}']

  predicate HasInvisibleCodePoint(text: string) {
    exists i :: 0 <= i < |text| && text[i] in InvisibleCodePoints
  }

  /** `isAlreadyObfuscated(text)`: `text.includes(c)` for each listed code point in turn. */
  method IsAlreadyObfuscated(text: string) returns (b: bool)
    ensures b <==> HasInvisibleCodePoint(text)
  {
    for k := 0 to |InvisibleCodePoints|
      invariant forall j :: 0 <= j < k ==> IndexOf(text, InvisibleCodePoints[j], 0) == -1
    {
      if IndexOf(text, InvisibleCodePoints[k], 0) != -1 {
        return true;
      }
    }
    return false;
  }

  /** The pattern `&#(8203|8204|8205|8288|65279);` occurs in the text. */
  predicate ContainsEntityRef(html: string) {
    exists k :: 0 <= k < |InvisibleEntities| && Contains(html, InvisibleEntities[k])
  }

  /** What the pass reads of an element. */
  datatype Element = Element(
    tagName: string,
    html: string,
    text: string,
    /** The element contains a `span` with a `data-key`, `data-value`, `data-item`, `data-elem`
        or `data-obf` attribute. */
    hasMarkedSpan: bool,
    textNodes: seq<string>)

  /** `isElementAlreadyObfuscated($elem)`: an element with empty inner HTML is never marked;
      otherwise a marked span, an invisible-character entity in the HTML, or an invisible
      code point in the text marks it. */
  predicate IsElementAlreadyObfuscated(e: Element) {
    e.html != [] && (e.hasMarkedSpan || ContainsEntityRef(e.html) || HasInvisibleCodePoint(e.text))
  }

  lemma {:induction false} NoInvisibleCodePointInConcat(a: string, b: string)
    ensures HasInvisibleCodePoint(a + b) <==> HasInvisibleCodePoint(a) || HasInvisibleCodePoint(b)
  {
    var s := a + b;
    if HasInvisibleCodePoint(s) {
      var i :| 0 <= i < |s| && s[i] in InvisibleCodePoints;
      if i < |a| {
        assert a[i] == s[i];
      } else {
        assert b[i - |a|] == s[i];
      }
    }
    if HasInvisibleCodePoint(a) {
      var i :| 0 <= i < |a| && a[i] in InvisibleCodePoints;
      assert s[i] == a[i];
    }
    if HasInvisibleCodePoint(b) {
      var i :| 0 <= i < |b| && b[i] in InvisibleCodePoints;
      assert s[|a| + i] == b[i];
    }
  }

  /** The entities are plain ASCII text: none of them holds an invisible code point. */
  lemma {:induction false} EntitiesHaveNoInvisibleCodePoint(ents: seq<string>)
    requires AllEntities(ents)
    ensures !HasInvisibleCodePoint(Concat(ents))
    decreases |ents|
  {
    if ents != [] {
      EntitiesHaveNoInvisibleCodePoint(ents[1..]);
      NoInvisibleCodePointInConcat(ents[0], Concat(ents[1..]));
      var e := ents[0];
      assert e == "&#8203;" || e == "&#8204;" || e == "&#8205;" || e == "&#8288;" || e == "&#65279;";
    }
  }

  /** Text the keyword pass wraps in entities (lib/core/keyword-obfuscator.js:335-354) keeps
      exactly the invisible code points it had, so the text-level check cannot see the
      wrapping. */
  lemma {:induction false} WrappingInvisibleToTextCheck(pre: seq<string>, t: string, post: seq<string>)
    requires AllEntities(pre) && AllEntities(post)
    ensures HasInvisibleCodePoint(Concat(pre) + t + Concat(post)) <==> HasInvisibleCodePoint(t)
  {
    EntitiesHaveNoInvisibleCodePoint(pre);
    EntitiesHaveNoInvisibleCodePoint(post);
    NoInvisibleCodePointInConcat(Concat(pre), t);
    NoInvisibleCodePointInConcat(Concat(pre) + t, Concat(post));
  }

  /** The HTML-level entity check does see the wrapping. */
  lemma {:induction false} WrappingSeenByEntityCheck(pre: seq<string>, t: string, post: seq<string>)
    requires AllEntities(pre) && pre != []
    ensures ContainsEntityRef(Concat(pre) + t + Concat(post))
  {
    var k :| 0 <= k < |InvisibleEntities| && InvisibleEntities[k] == pre[0];
    var html := Concat(pre) + t + Concat(post);
    assert Concat(pre) == pre[0] + Concat(pre[1..]);
    assert html[..|pre[0]|] == pre[0];
    assert OccursAt(html, InvisibleEntities[k], 0);
  }

  /** An element whose HTML holds output of the keyword pass is skipped as a whole. */
  lemma {:induction false} ElementWithEntityIsSkipped(e: Element, k: nat)
    requires k < |InvisibleEntities| && Contains(e.html, InvisibleEntities[k])
    ensures IsElementAlreadyObfuscated(e)
  {
    ContainsIffOccurs(e.html, InvisibleEntities[k]);
  }

  // ---------------------------------------------------------------- rewriting a text node

  /** The text with the separators `seps` woven after the code points of its trimmed middle;
      the leading and trailing whitespace stay as they are. */
  function InvisibleRewrite(t: string, seps: seq<string>): (r: string)
    requires |seps| == |Trim(t)|
  {
    t[..LeadingSpaceCount(t)] + Weave(CodePoints(Trim(t)), seps) + t[|t| - TrailingSpaceCount(t)..]
  }

  /** `t'` is what `insertInvisibleChars` can make of the non-blank text `t`: `seps` holds one
      entity or nothing after each code point of the trimmed text, nothing after the last. */
  ghost predicate IsInvisibleRewrite(t: string, t': string, seps: seq<string>) {
    !IsBlank(t) && |seps| == |Trim(t)| && EntitySeparators(seps) && t' == InvisibleRewrite(t, seps)
  }

  /** Deleting the separators of a rewrite gives back the text. */
  lemma {:induction false} RewriteIsInsertion(t: string, seps: seq<string>)
    requires !IsBlank(t) && |seps| == |Trim(t)|
    ensures IsInsertion(t, InvisibleRewrite(t, seps),
      Falses(LeadingSpaceCount(t)) + WeaveMask(CodePoints(Trim(t)), seps) + Falses(TrailingSpaceCount(t)))
  {
    TrimFacts(t);
    var chars := CodePoints(Trim(t));
    WeaveIsInsertion(chars, seps);
    var lead, trail := t[..LeadingSpaceCount(t)], t[|t| - TrailingSpaceCount(t)..];
    InsertionBetween(lead, Trim(t), Weave(chars, seps), WeaveMask(chars, seps), trail);
  }

  /** `insertInvisibleChars(text)`, which `obfuscateTextNode(text)` returns: blank text is
      returned as it is without a draw; otherwise after each code point of the trimmed text
      but the last a `randomBool(0.8)` decides whether an entity follows. Deleting the
      entities gives back the text. */
  method InsertInvisibleChars(text: string, g: Rng) returns (r: string, g': Rng, ghost seps: seq<string>, ghost mask: seq<bool>)
    ensures IsBlank(text) ==> r == text && g' == g
    ensures !IsBlank(text) ==> IsInvisibleRewrite(text, r, seps)
    ensures IsInsertion(text, r, mask)
    ensures g'.stream == g.stream
  {
    var trimmedText := Trim(text);
    TrimFacts(text);
    if trimmedText == [] {
      InsertionRefl(text);
      return text, g, [], Falses(|text|);
    }
    var leadingSpace := text[..LeadingSpaceCount(text)];
    var trailingSpace := text[|text| - TrailingSpaceCount(text)..];
    var chars := CodePoints(trimmedText);
    var result;
    result, g', seps := WeaveInvisible(chars, g);
    r := leadingSpace + result + trailingSpace;
    ghost var wm := WeaveMask(chars, seps);
    WeaveIsInsertion(chars, seps);
    InsertionBetween(leadingSpace, trimmedText, result, wm, trailingSpace);
    mask := Falses(|leadingSpace|) + wm + Falses(|trailingSpace|);
  }

  /** The loop of `insertInvisibleChars` over the code points of the trimmed text. */
  method WeaveInvisible(chars: seq<string>, g: Rng) returns (result: string, g': Rng, ghost seps: seq<string>)
    requires chars != []
    ensures |seps| == |chars| && EntitySeparators(seps) && result == Weave(chars, seps)
    ensures g'.stream == g.stream
  {
    result, g', seps := [], g, [];
    for i := 0 to |chars|
      invariant |seps| == i && result == Weave(chars[..i], seps)
      invariant forall j :: 0 <= j < i ==> seps[j] == [] || seps[j] in InvisibleEntities
      invariant forall j :: 0 <= j < i && j == |chars| - 1 ==> seps[j] == []
      invariant g'.stream == g.stream
    {
      var sep: string := [];
      if i < |chars| - 1 {
        var insert := RandomBool(g'.Head(), 0.8);
        g' := g'.Skip(1);
        if insert {
          sep := RandomInvisibleChar(g'.Head());
          g' := g'.Skip(1);
        }
      }
      WeaveSnoc(chars[..i], seps, chars[i], sep);
      assert chars[..i + 1] == chars[..i] + [chars[i]];
      result := result + chars[i] + sep;
      seps := seps + [sep];
    }
    assert chars[..|chars|] == chars;
  }

  // ---------------------------------------------------------------- the pass

  /** Elements whose text is never touched. */
  const ExemptTags: seq<string> := ["script", "style", "code", "pre", "textarea"]

  /** The element-level tests of the pass: an exempt tag, or a mark of an earlier pass. */
  predicate ElementSkipped(e: Element) {
    e.tagName in ExemptTags || IsElementAlreadyObfuscated(e)
  }

  /** The sentence length limits, in code points of the trimmed text, both inclusive. */
  datatype LengthWindow = LengthWindow(min: int, max: int)

  /** A text node the window and the text-level check let through. */
  predicate TextEligible(t: string, w: LengthWindow) {
    Trim(t) != [] && w.min <= |Trim(t)| <= w.max && !HasInvisibleCodePoint(t)
  }

  /** A direct text node `t` of `e` is rewritten: the element is not skipped, the node's
      trimmed text is non-empty and within the window, and the text has no invisible code
      point. */
  predicate NodeEligible(e: Element, t: string, w: LengthWindow) {
    !ElementSkipped(e) && TextEligible(t, w)
  }

  function EligibleTexts(nodes: seq<string>, w: LengthWindow): (n: nat)
    ensures n <= |nodes|
  {
    if nodes == [] then 0
    else (if TextEligible(nodes[0], w) then 1 else 0) + EligibleTexts(nodes[1..], w)
  }

  function EligibleNodes(e: Element, w: LengthWindow): (n: nat)
    ensures n <= |e.textNodes|
  {
    if ElementSkipped(e) then 0 else EligibleTexts(e.textNodes, w)
  }

  /** How many direct text nodes of the elements are eligible. */
  function EligibleCount(elements: seq<Element>, w: LengthWindow): nat {
    if elements == [] then 0
    else EligibleNodes(elements[0], w) + EligibleCount(elements[1..], w)
  }

  lemma {:induction false} EligibleTextsSnoc(nodes: seq<string>, t: string, w: LengthWindow)
    ensures EligibleTexts(nodes + [t], w) == EligibleTexts(nodes, w) + (if TextEligible(t, w) then 1 else 0)
    decreases |nodes|
  {
    if nodes != [] {
      assert (nodes + [t])[1..] == nodes[1..] + [t];
      EligibleTextsSnoc(nodes[1..], t, w);
    } else {
      assert [] + [t] == [t];
    }
  }

  /** What the pass does to a text node that passes the element-level checks: an eligible
      one is rewritten with the separators `seps`, any other one kept. */
  ghost predicate TextRewritten(t: string, t': string, seps: seq<string>, w: LengthWindow) {
    (TextEligible(t, w) ==> IsInvisibleRewrite(t, t', seps)) && (!TextEligible(t, w) ==> t' == t)
  }

  /** What the pass does to the direct text nodes of `e`: every eligible one is rewritten,
      every other one kept. */
  ghost predicate ElementRewritten(e: Element, nodes: seq<string>, seps: seq<seq<string>>, w: LengthWindow) {
    |nodes| == |e.textNodes| && |seps| == |nodes| &&
    forall j :: 0 <= j < |nodes| ==>
      (NodeEligible(e, e.textNodes[j], w) ==> IsInvisibleRewrite(e.textNodes[j], nodes[j], seps[j])) &&
      (!NodeEligible(e, e.textNodes[j], w) ==> nodes[j] == e.textNodes[j])
  }

  /** One turn of the `directTextNodes.each` loop. */
  method ObfuscateText(text: string, w: LengthWindow, g: Rng) returns (rewritten: string, changed: bool, g': Rng, ghost seps: seq<string>)
    ensures TextRewritten(text, rewritten, seps, w)
    ensures changed <==> TextEligible(text, w)
    ensures g'.stream == g.stream
  {
    rewritten, changed, g', seps := text, false, g, [];
    var trimmedText := Trim(text);
    TrimFacts(text);
    if trimmedText != [] && w.min <= |trimmedText| <= w.max {
      var already := IsAlreadyObfuscated(text);
      if !already {
        ghost var m;
        rewritten, g', seps, m := InsertInvisibleChars(text, g);
        changed := true;
      }
    }
  }

  function CountTrue(flags: seq<bool>): (n: nat)
    ensures n <= |flags|
  {
    if flags == [] then 0 else CountTrue(flags[..|flags| - 1]) + (if flags[|flags| - 1] then 1 else 0)
  }

  /** Counting the eligible texts one flag at a time. */
  lemma {:induction false} CountTrueIsEligibleTexts(texts: seq<string>, flags: seq<bool>, w: LengthWindow)
    requires |flags| == |texts| && forall k :: 0 <= k < |texts| ==> flags[k] == TextEligible(texts[k], w)
    ensures CountTrue(flags) == EligibleTexts(texts, w)
    decreases |texts|
  {
    if texts != [] {
      var n := |texts| - 1;
      CountTrueIsEligibleTexts(texts[..n], flags[..n], w);
      EligibleTextsSnoc(texts[..n], texts[n], w);
      assert texts[..n] + [texts[n]] == texts;
    }
  }

  /** The first `j` texts are rewritten as the pass does, and `flags` says which were eligible. */
  ghost predicate PrefixRewritten(texts: seq<string>, nodes: seq<string>, seps: seq<seq<string>>, flags: seq<bool>, w: LengthWindow)
  {
    |nodes| == |seps| == |flags| <= |texts| &&
    forall k :: 0 <= k < |nodes| ==>
      TextRewritten(texts[k], nodes[k], seps[k], w) && (flags[k] <==> TextEligible(texts[k], w))
  }

  lemma {:induction false} PrefixRewrittenStep(texts: seq<string>, nodes: seq<string>, seps: seq<seq<string>>, flags: seq<bool>,
                            n: string, s: seq<string>, f: bool, w: LengthWindow)
    requires PrefixRewritten(texts, nodes, seps, flags, w) && |nodes| < |texts|
    requires TextRewritten(texts[|nodes|], n, s, w) && (f <==> TextEligible(texts[|nodes|], w))
    ensures PrefixRewritten(texts, nodes + [n], seps + [s], flags + [f], w)
  {
  }

  /** The `directTextNodes.each` loop. */
  method ObfuscateTexts(texts: seq<string>, w: LengthWindow, g: Rng)
    returns (nodes: seq<string>, count: nat, g': Rng, ghost seps: seq<seq<string>>)
    ensures |nodes| == |texts| && |seps| == |texts|
    ensures forall k :: 0 <= k < |texts| ==> TextRewritten(texts[k], nodes[k], seps[k], w)
    ensures count == EligibleTexts(texts, w)
    ensures g'.stream == g.stream
  {
    nodes, count, g', seps := [], 0, g, [];
    ghost var flags: seq<bool> := [];
    for j := 0 to |texts|
      invariant |nodes| == j && PrefixRewritten(texts, nodes, seps, flags, w)
      invariant count == CountTrue(flags)
      invariant g'.stream == g.stream
    {
      var rewritten, changed;
      ghost var s;
      rewritten, changed, g', s := ObfuscateText(texts[j], w, g');
      if changed {
        count := count + 1;
      }
      PrefixRewrittenStep(texts, nodes, seps, flags, rewritten, s, changed, w);
      nodes := nodes + [rewritten];
      seps := seps + [s];
      flags := flags + [changed];
      assert flags[..j] == flags[..j + 1][..j];
    }
    CountTrueIsEligibleTexts(texts, flags, w);
  }

  /** The visit of one element: an exempt or already marked element is left whole;
      otherwise its direct text nodes go through the loop. */
  method ObfuscateElement(e: Element, w: LengthWindow, g: Rng)
    returns (nodes: seq<string>, count: nat, g': Rng, ghost seps: seq<seq<string>>)
    ensures ElementRewritten(e, nodes, seps, w)
    ensures count == EligibleNodes(e, w)
    ensures g'.stream == g.stream
  {
    if e.tagName in ExemptTags || IsElementAlreadyObfuscated(e) {
      return e.textNodes, 0, g, seq(|e.textNodes|, _ => []);
    }
    nodes, count, g', seps := ObfuscateTexts(e.textNodes, w, g);
  }

  /** The result of `obfuscateSentences`: the input as it was, or the new direct text nodes of
      every element (to be written back by the HTML serialiser) and the number rewritten. */
  datatype SentenceOutcome = Unchanged | Rewritten(textNodes: seq<seq<string>>, count: nat)

  /** The `$('*').each` loop over the elements in document order. */
  method ObfuscateElements(elements: seq<Element>, w: LengthWindow, g: Rng)
    returns (all: seq<seq<string>>, count: nat, g': Rng, ghost seps: seq<seq<seq<string>>>)
    ensures |all| == |elements| && |seps| == |elements|
    ensures forall i :: 0 <= i < |elements| ==> ElementRewritten(elements[i], all[i], seps[i], w)
    ensures count == EligibleCount(elements, w)
    ensures g'.stream == g.stream
  {
    all, count, g', seps := [], 0, g, [];
    for i := 0 to |elements|
      invariant |all| == i && |seps| == i
      invariant count + EligibleCount(elements[i..], w) == EligibleCount(elements, w)
      invariant forall k :: 0 <= k < i ==> ElementRewritten(elements[k], all[k], seps[k], w)
      invariant g'.stream == g.stream
    {
      assert elements[i..][1..] == elements[i + 1..];
      var nodes, n;
      ghost var s;
      nodes, n, g', s := ObfuscateElement(elements[i], w, g');
      all := all + [nodes];
      seps := seps + [s];
      count := count + n;
    }
    assert elements[|elements|..] == [];
  }

  class SentenceObfuscator {
    /** Stored by the setter; the pass rewrites every eligible node whatever its value. */
    var obfuscationRate: real
    var sentenceMinLength: int
    var sentenceMaxLength: int

    constructor()
      ensures obfuscationRate == 0.99 && sentenceMinLength == 11 && sentenceMaxLength == 2000
    {
      obfuscationRate := 0.99;
      sentenceMinLength := 11;
      sentenceMaxLength := 2000;
    }

    method SetObfuscationRate(rate: real)
      modifies this
      ensures obfuscationRate == rate
      ensures sentenceMinLength == old(sentenceMinLength) && sentenceMaxLength == old(sentenceMaxLength)
    {
      obfuscationRate := rate;
    }

    method SetSentenceLengthLimits(minLength: int, maxLength: int)
      modifies this
      ensures sentenceMinLength == minLength && sentenceMaxLength == maxLength
      ensures obfuscationRate == old(obfuscationRate)
    {
      sentenceMinLength := minLength;
      sentenceMaxLength := maxLength;
    }

    /** `obfuscateSentences(htmlContent)` with the document as parsed: `None` when parsing
        threw. Empty input and a failed parse give the input back unchanged; otherwise every
        eligible direct text node is rewritten and every other one kept. */
    method ObfuscateSentences(htmlContent: string, parsed: Option<seq<Element>>, g: Rng)
      returns (out: SentenceOutcome, g': Rng, ghost seps: seq<seq<seq<string>>>)
      ensures htmlContent == [] || parsed.None? ==> out == Unchanged && g' == g
      ensures htmlContent != [] && parsed.Some? ==>
        var w := LengthWindow(sentenceMinLength, sentenceMaxLength);
        out.Rewritten? && |out.textNodes| == |parsed.value| == |seps| &&
        out.count == EligibleCount(parsed.value, w) &&
        forall i :: 0 <= i < |parsed.value| ==> ElementRewritten(parsed.value[i], out.textNodes[i], seps[i], w)
      ensures g'.stream == g.stream
    {
      if htmlContent == [] || parsed.None? {
        return Unchanged, g, [];
      }
      var all, count;
      all, count, g', seps := ObfuscateElements(parsed.value, LengthWindow(sentenceMinLength, sentenceMaxLength), g);
      out := Rewritten(all, count);
    }
  }

  // ---------------------------------------------------------------- isTextObfuscatable

  /** The pattern `^[{[(].*[}\])]$` on trimmed text: an opening bracket first, a closing one
      last, and no line terminator between them. */
  predicate IsBracketWrapped(t: string) {
    2 <= |t| && (t[0] == '{' || t[0] == '[' || t[0] == '(') &&
    (t[|t| - 1] == '}' || t[|t| - 1] == ']' || t[|t| - 1] == ')') &&
    forall i :: 1 <= i < |t| - 1 ==> !IsLineTerminator(t[i])
  }

  /** The end of the maximal run of `\s` starting at `i`. */
  function SpaceRunEnd(s: string, i: nat): (j: nat)
    requires i <= |s|
    ensures i <= j <= |s| && (j < |s| ==> !IsSpace(s[j]))
    decreases |s| - i
  {
    if i < |s| && IsSpace(s[i]) then SpaceRunEnd(s, i + 1) else i
  }

  /** The end of the maximal run of `\w` starting at `i`. */
  function WordRunEnd(s: string, i: nat): (j: nat)
    requires i <= |s|
    ensures i <= j <= |s|
    decreases |s| - i
  {
    if i < |s| && IsWordChar(s[i]) then WordRunEnd(s, i + 1) else i
  }

  /** The pattern `function\s*\(` matches at `i`. Whitespace cannot be `(`, so the run of
      `\s` is taken whole. */
  predicate FunctionCallAt(s: string, i: nat) {
    OccursAt(s, "function", i) &&
    var j := SpaceRunEnd(s, i + 8); j < |s| && s[j] == '('
  }

  /** The pattern `var\s+\w+\s*=` matches at `i`; each run is taken whole, since the next part
      of the pattern cannot start with a character of the run. */
  predicate VarDeclarationAt(s: string, i: nat) {
    OccursAt(s, "var", i) &&
    var a := SpaceRunEnd(s, i + 3);
    var b := WordRunEnd(s, a);
    var c := SpaceRunEnd(s, b);
    i + 3 < a < b && c < |s| && s[c] == '='
  }

  predicate LooksLikeCode(text: string) {
    IsBracketWrapped(Trim(text)) ||
    (exists i :: 0 <= i <= |text| && FunctionCallAt(text, i)) ||
    (exists i :: 0 <= i <= |text| && VarDeclarationAt(text, i))
  }

  /** `isTextObfuscatable(text, parent)`, with the parent's lower-case tag name or `None`. */
  function IsTextObfuscatable(text: string, parentTag: Option<string>): (b: bool)
    ensures IsBlank(text) ==> !b
    ensures parentTag.Some? && parentTag.value in ExemptTags ==> !b
    ensures LooksLikeCode(text) ==> !b
    ensures !IsBlank(text) && !(parentTag.Some? && parentTag.value in ExemptTags) && !LooksLikeCode(text) ==> b
  {
    TrimFacts(text);
    if text == [] || Trim(text) == [] then false
    else if parentTag.Some? && parentTag.value in ExemptTags then false
    else if LooksLikeCode(text) then false
    else true
  }

  lemma {:induction false} BracketedTextIsCode()
    ensures !IsTextObfuscatable("[1,2]", None)
  {
    var t := "[1,2]";
    TrimUntouched(t);
    assert IsBracketWrapped(t);
  }

  lemma {:induction false} FunctionTextIsCode()
    ensures !IsTextObfuscatable("x = function (y) {}", None)
  {
    assert FunctionCallAt("x = function (y) {}", 4);
  }

  lemma {:induction false} VarTextIsCode()
    ensures !IsTextObfuscatable("var x=1", None)
  {
    var t := "var x=1";
    assert OccursAt(t, "var", 0);
    assert SpaceRunEnd(t, 3) == 4 && WordRunEnd(t, 4) == 5 && SpaceRunEnd(t, 5) == 5;
    assert VarDeclarationAt(t, 0);
  }

  /** Neither code pattern can match text without a lower-case `f` or `v`. */
  lemma {:induction false} NoCodeWithoutFOrV(t: string)
    requires forall i :: 0 <= i < |t| ==> t[i] != 'f' && t[i] != 'v'
    ensures forall i :: 0 <= i <= |t| ==> !FunctionCallAt(t, i) && !VarDeclarationAt(t, i)
  {
    forall i | 0 <= i <= |t| ensures !FunctionCallAt(t, i) && !VarDeclarationAt(t, i) {
      if i + 3 <= |t| {
        assert t[i..i + 3][0] == t[i];
      }
      if i + 8 <= |t| {
        assert t[i..i + 8][0] == t[i];
      }
    }
  }

  /** Prose with neither code pattern is obfuscatable in a paragraph, not in a text area. */
  lemma {:induction false} ProseIsObfuscatable()
    ensures IsTextObfuscatable("Good bread", Some("p"))
    ensures !IsTextObfuscatable("Good bread", Some("textarea"))
  {
    var t := "Good bread";
    TrimUntouched(t);
    NoCodeWithoutFOrV(t);
    assert !IsBlank(t) by { assert !IsSpace(t[0]); }
  }
}
