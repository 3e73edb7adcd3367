/**
  The keyword pass of lib/core/keyword-obfuscator.js: every case-insensitive
  occurrence of a dictionary keyword in the HTML text, outside tags and quoted
  attribute values, is wrapped in (and possibly split by) zero-width entities.
 */
module KeywordObfuscation {
  import opened JsString
  import opened Insertion
  import opened RandomUtils

  // ---------------------------------------------------------------- ordering the dictionary

  predicate SortedByLengthDesc(ks: seq<string>) {
    forall i, j :: 0 <= i < j < |ks| ==> |ks[j]| <= |ks[i]|
  }

  /** Places `k` after every keyword at least as long, before the first shorter one. */
  function InsertByLength(k: string, ks: seq<string>): (r: seq<string>)
    requires SortedByLengthDesc(ks)
    ensures |r| == |ks| + 1 && (r[0] == k || (ks != [] && r[0] == ks[0]))
    ensures SortedByLengthDesc(r)
    ensures multiset(r) == multiset(ks) + multiset{k}
  {
    if ks == [] || |ks[0]| < |k| then [k] + ks
    else
      var rest := InsertByLength(k, ks[1..]);
      assert ks == [ks[0]] + ks[1..];
      [ks[0]] + rest
  }

  /** `[...keywords].sort((a, b) => b.length - a.length)`: a stable sort, longest first. */
  function SortByLengthDesc(ks: seq<string>): (r: seq<string>)
    ensures SortedByLengthDesc(r)
    ensures multiset(r) == multiset(ks)
  {
    if ks == [] then []
    else
      assert ks == ks[..|ks| - 1] + [ks[|ks| - 1]];
      InsertByLength(ks[|ks| - 1], SortByLengthDesc(ks[..|ks| - 1]))
  }

  // ---------------------------------------------------------------- matching

  /** The pattern `new RegExp(escapeRegExp(kw), 'gi')` matches at `i`: the escaped pattern is
      the keyword taken literally, compared under case folding. */
  predicate MatchAt(s: string, kw: string, i: int) {
    0 <= i && i + |kw| <= |s| && SameIgnoringCase(s[i..i + |kw|], kw)
  }

  /** `sub` occurs somewhere in `s`, ignoring case. */
  predicate ContainsIgnoringCase(s: string, sub: string) {
    exists i :: 0 <= i <= |s| && MatchAt(s, sub, i)
  }

  /** `regex.exec(s)` with `regex.lastIndex == from`: the leftmost match at or after `from`. */
  function FindFrom(s: string, kw: string, from: nat): (r: int)
    decreases |s| - from
    ensures r == -1 || (from <= r && MatchAt(s, kw, r))
    ensures forall p :: from <= p && (r == -1 || p < r) ==> !MatchAt(s, kw, p)
  {
    if |s| < from + |kw| then -1
    else if MatchAt(s, kw, from) then from
    else FindFrom(s, kw, from + 1)
  }

  /** Position `p` is recorded, or lies strictly inside a recorded match of length `len`. */
  predicate Covered(offsets: seq<nat>, len: nat, p: int) {
    p in offsets || exists i :: 0 <= i < |offsets| && offsets[i] < p < offsets[i] + len
  }

  lemma {:induction false} CoveredGrow(offsets: seq<nat>, m: nat, len: nat, p: int)
    requires Covered(offsets, len, p)
    ensures Covered(offsets + [m], len, p)
  {
    if p !in offsets {
      var i :| 0 <= i < |offsets| && offsets[i] < p < offsets[i] + len;
      assert (offsets + [m])[i] == offsets[i];
    }
  }

  /** Recorded matches in increasing order, none overlapping the next. */
  predicate Spaced(offsets: seq<nat>, len: nat) {
    forall i, j :: 0 <= i < j < |offsets| ==> offsets[i] + len <= offsets[j] && offsets[i] < offsets[j]
  }

  /** What the scan knows after resuming at `lastIndex`: the matches it recorded, all before
      `lastIndex`, and every match starting before `lastIndex` covered by one of them. */
  predicate ScannedUpTo(s: string, kw: string, offsets: seq<nat>, lastIndex: nat) {
    (forall i :: 0 <= i < |offsets| ==> MatchAt(s, kw, offsets[i])) &&
    Spaced(offsets, |kw|) &&
    (forall i :: 0 <= i < |offsets| ==> offsets[i] + |kw| <= lastIndex && offsets[i] < lastIndex) &&
    (forall p :: 0 <= p < lastIndex && MatchAt(s, kw, p) ==> Covered(offsets, |kw|, p))
  }

  /** Recording the leftmost match at or after `lastIndex` and resuming after it. */
  lemma {:induction false} ScanStep(s: string, kw: string, offsets: seq<nat>, lastIndex: nat, m: nat)
    requires ScannedUpTo(s, kw, offsets, lastIndex)
    requires lastIndex <= m && MatchAt(s, kw, m)
    requires forall p :: lastIndex <= p < m ==> !MatchAt(s, kw, p)
    ensures ScannedUpTo(s, kw, offsets + [m], if |kw| == 0 then m + 1 else m + |kw|)
  {
    var next := if |kw| == 0 then m + 1 else m + |kw|;
    var o := offsets + [m];
    assert o[|offsets|] == m;
    forall p | 0 <= p < next && MatchAt(s, kw, p)
      ensures Covered(o, |kw|, p)
    {
      if p < lastIndex {
        CoveredGrow(offsets, m, |kw|, p);
      }
    }
  }

  /** The `while (regex.exec(result))` loop: all matches, scanning left to right and resuming
      after each match (one past it for an empty match). */
  method CollectMatches(s: string, kw: string) returns (offsets: seq<nat>)
    ensures forall i :: 0 <= i < |offsets| ==> MatchAt(s, kw, offsets[i])
    ensures Spaced(offsets, |kw|)
    ensures forall p :: MatchAt(s, kw, p) ==> Covered(offsets, |kw|, p)
  {
    offsets := [];
    var lastIndex: nat := 0;
    while true
      invariant ScannedUpTo(s, kw, offsets, lastIndex)
      decreases |s| + 1 - lastIndex
    {
      var m := FindFrom(s, kw, lastIndex);
      if m == -1 {
        return;
      }
      var next := m + |kw|;
      if next == m {
        next := next + 1;
      }
      ScanStep(s, kw, offsets, lastIndex, m);
      offsets := offsets + [m];
      lastIndex := next;
    }
  }

  // ---------------------------------------------------------------- rejecting a match

  /** A recorded range `{start, end}` of the keyword pass. */
  datatype Range = Range(start: int, end: int)

  /** The three-clause test against one recorded range. */
  predicate OverlapsRange(offset: int, length: int, r: Range) {
    (offset >= r.start && offset < r.end) ||
    (offset + length > r.start && offset + length <= r.end) ||
    (offset < r.start && offset + length > r.end)
  }

  /** `processedRanges.some(...)`. For a match of positive length against ranges that are not
      reversed, it is the intersection of half-open intervals. */
  function Overlaps(offset: int, length: int, ranges: seq<Range>): (b: bool)
    ensures b <==> exists k :: 0 <= k < |ranges| && OverlapsRange(offset, length, ranges[k])
    ensures 0 < length && (forall k :: 0 <= k < |ranges| ==> ranges[k].start <= ranges[k].end) ==>
      (b <==> exists k :: 0 <= k < |ranges| && offset < ranges[k].end && ranges[k].start < offset + length)
  {
    if ranges == [] then false
    else OverlapsRange(offset, length, ranges[0]) || Overlaps(offset, length, ranges[1..])
  }

  /** `isInsideHtmlTag(content, offset, length)`. */
  function IsInsideHtmlTag(content: string, offset: nat, length: nat): (r: bool)
    ensures LastIndexOf(content, '<', offset) == -1 ==> !r
    ensures LastIndexOf(content, '<', offset) <= LastIndexOf(content, '>', offset) ==> !r
    ensures IndexOf(content, '>', offset + length) == -1 ==> !r
    ensures r ==> (offset < |content| &&
      exists o :: 0 <= o <= offset && content[o] == '<' &&
        (forall k :: o < k <= offset ==> content[k] != '<' && content[k] != '>') &&
        exists e :: offset + length <= e < |content| && content[e] == '>')
    ensures var o := LastIndexOf(content, '<', offset);
      (o > LastIndexOf(content, '>', offset) && IndexOf(content, '>', offset + length) != -1 &&
       offset <= |content| &&
       (CountChar(content[o..offset], '"') % 2 == 1 || CountChar(content[o..offset], '\'') % 2 == 1)) ==> r
    ensures var o := LastIndexOf(content, '<', offset);
      var e := IndexOf(content, '>', offset + length);
      (o > LastIndexOf(content, '>', offset) && e != -1 &&
       CountChar(content[o..offset], '"') % 2 == 0 && CountChar(content[o..offset], '\'') % 2 == 0) ==>
        (r <==> !(ContainsIgnoringCase(content[o..e + 1], "<script") || ContainsIgnoringCase(content[o..e + 1], "<style")))
  {
    var openTag := LastIndexOf(content, '<', offset);
    var closeTag := LastIndexOf(content, '>', offset);
    if openTag > closeTag && openTag != -1 then
      var tagEnd := IndexOf(content, '>', offset + length);
      if tagEnd != -1 then
        var tagContent := content[openTag..tagEnd + 1];
        var beforeMatch := content[openTag..offset];
        if CountChar(beforeMatch, '"') % 2 == 1 || CountChar(beforeMatch, '\'') % 2 == 1 then true
        else if ContainsIgnoringCase(tagContent, "<script") || ContainsIgnoringCase(tagContent, "<style") then false
        else true
      else false
    else false
  }

  // ---------------------------------------------------------------- splitting a keyword

  /** `[a-zA-ZÀ-ÿ]`: ASCII letters and U+00C0 to U+00FF. */
  predicate IsLatinChar(c: char) { IsAsciiLetter(c) || '\U{00C0}' <= c <= '\U{00FF}' }

  /** CJK unified ideographs, hiragana, katakana and hangul syllables. */
  predicate IsAsianChar(c: char) {
    ('\U{4E00}' <= c <= '\U{9FFF}') || ('\U{3040}' <= c <= '\U{309F}') ||
    ('\U{30A0}' <= c <= '\U{30FF}') || ('\U{AC00}' <= c <= '\U{D7AF}')
  }

  predicate HasLatin(s: string) { exists i :: 0 <= i < |s| && IsLatinChar(s[i]) }
  predicate HasAsian(s: string) { exists i :: 0 <= i < |s| && IsAsianChar(s[i]) }

  /** `s.split(/(\s+)/).filter(w => w.length > 0)`: the maximal runs of `\s` and of other
      characters, in order. */
  function SpaceRuns(s: string): (r: seq<string>)
    decreases |s|
    ensures Concat(r) == s
    ensures s != [] ==> r != [] && r[0] != [] && r[0][0] == s[0]
    ensures forall i :: 0 <= i < |r| ==> r[i] != [] && (IsBlank(r[i]) || NoSpace(r[i]))
    ensures forall i :: 0 <= i < |r| - 1 ==> (IsSpace(r[i][0]) <==> !IsSpace(r[i + 1][0]))
  {
    if s == [] then []
    else
      var k := FirstRunEnd(s);
      var rest := SpaceRuns(s[k..]);
      RunsCons(s, k, rest);
      [s[..k]] + rest
  }

  /** Where the first run ends: the leading run of `\s`, or the characters before the first `\s`. */
  function FirstRunEnd(s: string): (k: nat)
    requires s != []
    ensures 0 < k <= |s|
    ensures IsBlank(s[..k]) || NoSpace(s[..k])
    ensures IsSpace(s[0]) ==> IsBlank(s[..k])
    ensures !IsSpace(s[0]) ==> NoSpace(s[..k])
    ensures k < |s| ==> (IsSpace(s[k]) <==> !IsSpace(s[0]))
  {
    LeadingRun(s);
    var k := if IsSpace(s[0]) then LeadingSpaceCount(s) else FirstSpace(s);
    assert forall i :: 0 <= i < k ==> s[..k][i] == s[i];
    k
  }

  /** A first run in front of the runs of the rest, when the two differ in kind at the seam. */
  lemma {:induction false} RunsCons(s: string, k: nat, rest: seq<string>)
    requires 0 < k <= |s|
    requires IsSpace(s[0]) ==> IsBlank(s[..k])
    requires !IsSpace(s[0]) ==> NoSpace(s[..k])
    requires k < |s| ==> (IsSpace(s[k]) <==> !IsSpace(s[0]))
    requires Concat(rest) == s[k..]
    requires s[k..] != [] ==> rest != [] && rest[0] != [] && rest[0][0] == s[k]
    requires forall i :: 0 <= i < |rest| ==> rest[i] != [] && (IsBlank(rest[i]) || NoSpace(rest[i]))
    requires forall i :: 0 <= i < |rest| - 1 ==> (IsSpace(rest[i][0]) <==> !IsSpace(rest[i + 1][0]))
    ensures var r := [s[..k]] + rest;
      Concat(r) == s && r[0] != [] && r[0][0] == s[0] &&
      (forall i :: 0 <= i < |r| ==> r[i] != [] && (IsBlank(r[i]) || NoSpace(r[i]))) &&
      (forall i :: 0 <= i < |r| - 1 ==> (IsSpace(r[i][0]) <==> !IsSpace(r[i + 1][0])))
  {
    var r := [s[..k]] + rest;
    assert r[1..] == rest;
    assert s == s[..k] + s[k..];
    forall i | 0 <= i < |r| - 1
      ensures IsSpace(r[i][0]) <==> !IsSpace(r[i + 1][0])
    {
      if i == 0 {
        assert r[1] == rest[0];
        assert s[k..] != [];
      } else {
        assert r[i] == rest[i - 1] && r[i + 1] == rest[i];
      }
    }
    forall i | 0 <= i < |r|
      ensures r[i] != [] && (IsBlank(r[i]) || NoSpace(r[i]))
    {
      if i > 0 {
        assert r[i] == rest[i - 1];
      }
    }
  }

  /** `splitKeywordByLanguage(keyword)`: Latin text without Asian characters is split into
      word and whitespace runs, anything else into single code points. */
  function SplitKeywordByLanguage(keyword: string): (words: seq<string>)
    ensures Concat(words) == keyword
    ensures forall i :: 0 <= i < |words| ==> words[i] != []
    ensures keyword != [] ==> words != []
    ensures HasLatin(keyword) && !HasAsian(keyword) ==>
      (forall i :: 0 <= i < |words| ==> IsBlank(words[i]) || NoSpace(words[i])) &&
      (forall i :: 0 <= i < |words| - 1 ==> (IsSpace(words[i][0]) <==> !IsSpace(words[i + 1][0])))
    ensures !(HasLatin(keyword) && !HasAsian(keyword)) ==> forall i :: 0 <= i < |words| ==> |words[i]| == 1
  {
    if HasLatin(keyword) && !HasAsian(keyword) then SpaceRuns(keyword)
    else CodePoints(keyword)
  }

  // ---------------------------------------------------------------- building the replacement

  /** `createInvisibleChars()`, which `createObfuscationElement()` returns: draws a count from 1
      to 3, then one entity per count. */
  method CreateInvisibleChars(g: Rng) returns (s: string, g': Rng, ghost ents: seq<string>)
    ensures |ents| == RandomInt(g.Head(), 1, 3) && 1 <= |ents| <= 3
    ensures AllEntities(ents) && s == Concat(ents)
    ensures g' == g.Skip(1 + |ents|)
  {
    var count := RandomInt(g.Head(), 1, 3);
    g' := g.Skip(1);
    s := [];
    ents := [];
    var i := 0;
    while i < count
      invariant 0 <= i <= count && |ents| == i
      invariant AllEntities(ents) && s == Concat(ents)
      invariant g' == g.Skip(1 + i)
    {
      var e := RandomInvisibleChar(g'.Head());
      ConcatSnoc(ents, e);
      s := s + e;
      ents := ents + [e];
      g' := g'.Skip(1);
      i := i + 1;
    }
  }

  /** Appending the entities of one more obfuscation element. */
  lemma {:induction false} AppendEntities(acc: string, ents: seq<string>, e: seq<string>)
    requires AllEntities(ents) && AllEntities(e)
    ensures AllEntities(ents + e)
    ensures acc + Concat(ents) + Concat(e) == acc + Concat(ents + e)
  {
    ConcatAppend(ents, e);
    AllEntitiesAppend(ents, e);
    ConcatAssoc(acc, Concat(ents), Concat(e));
  }

  lemma {:induction false} ConcatAssoc<T>(a: seq<T>, b: seq<T>, c: seq<T>)
    ensures a + b + c == a + (b + c)
  {
  }

  /** The `for` loops of `addAroundObfuscation`: draws a count from 1 to 3 and appends that many
      obfuscation elements to `acc`. */
  method AppendElements(acc: string, g: Rng) returns (s: string, g': Rng, ghost ents: seq<string>)
    ensures 1 <= |ents| <= 9 && AllEntities(ents) && s == acc + Concat(ents)
    ensures g'.stream == g.stream && g.pos < g'.pos
  {
    var count := RandomInt(g.Head(), 1, 3);
    g' := g.Skip(1);
    s := acc;
    ents := [];
    for i := 0 to count
      invariant i <= |ents| <= 3 * i
      invariant AllEntities(ents) && s == acc + Concat(ents)
      invariant g'.stream == g.stream && g.pos < g'.pos
    {
      var element;
      ghost var e;
      element, g', e := CreateInvisibleChars(g');
      AppendEntities(acc, ents, e);
      s := s + element;
      ents := ents + e;
    }
  }

  /** `addAroundObfuscation(k)`: 1 to 3 elements before the keyword and 1 to 3 after, so 1 to 9
      entities on each side. */
  method AddAroundObfuscation(k: string, g: Rng) returns (r: string, g': Rng, ghost pre: seq<string>, ghost post: seq<string>)
    ensures r == Concat(pre) + k + Concat(post)
    ensures 1 <= |pre| <= 9 && 1 <= |post| <= 9 && AllEntities(pre) && AllEntities(post)
    ensures g'.stream == g.stream && g.pos < g'.pos
  {
    var g1;
    r, g1, pre := AppendElements([], g);
    r, g', post := AppendElements(r + k, g1);
  }

  /** `obfuscateWithInvisibleChars(k)`, which `obfuscateKeyword(k)` returns. A single piece gets
      one entity after it; otherwise entities go only between pieces, at least one of them. */
  method ObfuscateWithInvisibleChars(k: string, g: Rng) returns (r: string, g': Rng, ghost seps: seq<string>)
    ensures SplitKeywordByLanguage(k) == [] ==>
      |seps| == 1 && seps[0] in InvisibleEntities && r == "undefined" + seps[0]
    ensures |SplitKeywordByLanguage(k)| == 1 ==>
      |seps| == 1 && seps[0] in InvisibleEntities && r == Weave(SplitKeywordByLanguage(k), seps)
    ensures |SplitKeywordByLanguage(k)| >= 2 ==>
      |seps| == |SplitKeywordByLanguage(k)| && EntitySeparators(seps) && r == Weave(SplitKeywordByLanguage(k), seps) &&
      exists i :: 0 <= i < |seps| && seps[i] != []
    ensures g'.stream == g.stream
  {
    var words := SplitKeywordByLanguage(k);
    if |words| <= 1 {
      var e := RandomInvisibleChar(g.Head());
      g' := g.Skip(1);
      seps := [e];
      r := (if |words| == 0 then "undefined" else words[0]) + e;
      if |words| == 1 {
        assert Weave(words[1..], seps[1..]) == [];
      }
    } else {
      r, g', seps := InsertBetweenWords(words, g);
    }
  }

  /** The loop of `obfuscateWithInvisibleChars` over two or more pieces. Entity `i` is drawn
      only where the condition needs it: a `randomBool(0.5)` while `i < insertCount`, and the
      entity itself when the piece is not the last and the condition holds. */
  method InsertBetweenWords(words: seq<string>, g: Rng) returns (r: string, g': Rng, ghost seps: seq<string>)
    requires |words| >= 2
    ensures |seps| == |words| && EntitySeparators(seps) && r == Weave(words, seps)
    ensures exists i :: 0 <= i < |seps| && seps[i] != []
    ensures g'.stream == g.stream
  {
    var n := |words|;
    var insertCount := RandomInt(g.Head(), 1, if 1 < n - 1 then n - 1 else 1);
    g' := g.Skip(1);
    r := [];
    seps := [];
    var hasInvisible := false;
    ghost var wit := 0;
    var i := 0;
    while i < n
      invariant 0 <= i <= n && |seps| == i
      invariant r == Weave(words[..i], seps)
      invariant forall j :: 0 <= j < i ==> seps[j] == [] || seps[j] in InvisibleEntities
      invariant i == n ==> seps[n - 1] == []
      invariant hasInvisible ==> 0 <= wit < i && seps[wit] != []
      invariant i >= n - 1 ==> hasInvisible
      invariant g'.stream == g.stream
    {
      var shouldInsert := false;
      if i < n - 1 && i < insertCount {
        shouldInsert := RandomBool(g'.Head(), 0.5);
        g' := g'.Skip(1);
      }
      shouldInsert := shouldInsert || (!hasInvisible && i == n - 2);
      var sep: string := [];
      if i < n - 1 && shouldInsert {
        sep := RandomInvisibleChar(g'.Head());
        g' := g'.Skip(1);
        hasInvisible := true;
        wit := i;
      }
      WeaveSnoc(words[..i], seps, words[i], sep);
      assert words[..i + 1] == words[..i] + [words[i]];
      r := r + words[i] + sep;
      seps := seps + [sep];
      i := i + 1;
    }
    assert words[..n] == words;
    assert seps[wit] != [];
  }

  // ---------------------------------------------------------------- the pass

  /** `obfuscateKeyword(matchText)` as `ObfuscateWithInvisibleChars` leaves it: the pieces of
      the split keyword woven with the separators `seps`. A keyword of one piece gets one
      entity after it; a keyword of several pieces gets an entity or nothing between them,
      and at least one entity. */
  ghost predicate KeywordSplitBy(matchText: string, kt: string, seps: seq<string>) {
    var words := SplitKeywordByLanguage(matchText);
    |words| >= 1 && |seps| == |words| && kt == Weave(words, seps) &&
    (|words| == 1 ==> seps[0] in InvisibleEntities) &&
    (|words| >= 2 ==> EntitySeparators(seps) && exists i :: 0 <= i < |seps| && seps[i] != [])
  }

  /** What takes the place of a match: 1 to 9 entities, the keyword text `kt` and 1 to 9
      entities, where `kt` is the match itself or, when the keyword itself is obfuscated,
      the match split by entity separators. */
  ghost predicate ReplacementOf(matchText: string, obf: string, pre: seq<string>, kt: string, post: seq<string>, seps: seq<string>) {
    obf == Concat(pre) + kt + Concat(post) &&
    1 <= |pre| <= 9 && 1 <= |post| <= 9 && AllEntities(pre) && AllEntities(post) &&
    (kt == matchText || KeywordSplitBy(matchText, kt, seps))
  }

  /** `obf` is a replacement of the match of the shape `ReplacementOf` states. */
  ghost predicate IsReplacement(matchText: string, obf: string) {
    exists pre, kt, post, seps :: ReplacementOf(matchText, obf, pre, kt, post, seps)
  }

  /** The replacement of one match: `addAroundObfuscation` of the match itself or, when the
      `randomBool(rate)` draw says so, of `obfuscateKeyword` of it. Deleting the inserted
      entities gives back the match in the document's own casing. */
  method ObfuscateMatch(matchText: string, rate: real, g: Rng)
    returns (obf: string, g': Rng, ghost pre: seq<string>, ghost kt: string, ghost post: seq<string>,
             ghost seps: seq<string>, ghost mask: seq<bool>)
    requires matchText != []
    ensures ReplacementOf(matchText, obf, pre, kt, post, seps)
    ensures !RandomBool(g.Head(), rate) ==> kt == matchText
    ensures RandomBool(g.Head(), rate) ==> KeywordSplitBy(matchText, kt, seps)
    ensures IsInsertion(matchText, obf, mask)
    ensures g'.stream == g.stream
  {
    var shouldObfuscateKeyword := RandomBool(g.Head(), rate);
    var g1 := g.Skip(1);
    var keywordText: string;
    ghost var keywordMask: seq<bool>;
    if shouldObfuscateKeyword {
      keywordText, g1, seps := ObfuscateWithInvisibleChars(matchText, g1);
      ghost var words := SplitKeywordByLanguage(matchText);
      WeaveIsInsertion(words, seps);
      keywordMask := WeaveMask(words, seps);
    } else {
      keywordText := matchText;
      keywordMask := Falses(|matchText|);
      seps := [];
      InsertionRefl(matchText);
    }
    kt := keywordText;
    obf, g', pre, post := AddAroundObfuscation(keywordText, g1);
    InsertionWrap(Concat(pre), matchText, keywordText, keywordMask, Concat(post));
    mask := Trues(|Concat(pre)|) + keywordMask + Trues(|Concat(post)|);
  }

  /** `result'` is `result` with the match at `offset` replaced by `obf`, a replacement of
      the entity-wrapped shape that only inserts characters around and into the match. */
  ghost predicate SplicedAt(result: string, offset: nat, matchText: string, obf: string, result': string)
    requires offset + |matchText| <= |result|
  {
    result' == result[..offset] + obf + result[offset + |matchText|..] &&
    IsReplacement(matchText, obf) && exists m :: IsInsertion(matchText, obf, m)
  }

  /** Splicing the replacement of the match at `offset` into the current text. */
  method SpliceMatch(result: string, offset: nat, matchText: string, rate: real, g: Rng)
    returns (result': string, g': Rng, obf: string, ghost mask: seq<bool>)
    requires matchText != [] && offset + |matchText| <= |result|
    requires result[offset..offset + |matchText|] == matchText
    ensures IsInsertion(result, result', mask)
    ensures SplicedAt(result, offset, matchText, obf, result')
    ensures |result'| >= offset && result'[..offset] == result[..offset]
    ensures g'.stream == g.stream
  {
    ghost var obfMask, pre, kt, post, seps;
    obf, g', pre, kt, post, seps, obfMask := ObfuscateMatch(matchText, rate, g);
    result' := result[..offset] + obf + result[offset + |matchText|..];
    InsertionSplice(result, offset, offset + |matchText|, obf, obfMask);
    mask := Falses(offset) + obfMask + Falses(|result| - (offset + |matchText|));
    PrefixKept(result[..offset], obf + result[offset + |matchText|..]);
    assert result' == result[..offset] + (obf + result[offset + |matchText|..]);
  }

  /** The two tests that make the pass skip a match: it overlaps a recorded range, or it
      lies inside a tag. */
  predicate Rejected(result: string, offset: nat, length: nat, ranges: seq<Range>) {
    Overlaps(offset, length, ranges) || IsInsideHtmlTag(result, offset, length)
  }

  /** One turn of the reverse loop over the matches of a keyword: a match overlapping a
      recorded range or inside a tag is skipped; otherwise its replacement is spliced in at
      `offset` of the current text and the range it now occupies is recorded. */
  method ProcessMatch(result: string, offset: nat, matchText: string, ranges: seq<Range>, rate: real, g: Rng)
    returns (result': string, ranges': seq<Range>, g': Rng, ghost obf: string, ghost mask: seq<bool>)
    requires matchText != [] && offset + |matchText| <= |result|
    requires result[offset..offset + |matchText|] == matchText
    ensures IsInsertion(result, result', mask)
    ensures |result'| >= offset && result'[..offset] == result[..offset]
    ensures g'.stream == g.stream
    ensures |ranges| <= |ranges'| && ranges'[..|ranges|] == ranges
    ensures Rejected(result, offset, |matchText|, ranges) ==>
      result' == result && ranges' == ranges && g' == g
    ensures !Rejected(result, offset, |matchText|, ranges) ==>
      SplicedAt(result, offset, matchText, obf, result') &&
      ranges' == ranges + [Range(offset, offset + |obf|)]
  {
    if Rejected(result, offset, |matchText|, ranges) {
      result', ranges', g', obf := result, ranges, g, [];
      mask := Falses(|result|);
      InsertionRefl(result);
      return;
    }
    var obfuscatedText;
    result', g', obfuscatedText, mask := SpliceMatch(result, offset, matchText, rate, g);
    obf := obfuscatedText;
    ranges' := ranges + [Range(offset, offset + |obfuscatedText|)];
    assert ranges'[..|ranges|] == ranges;
  }

  /** The first `|a|` elements of `a + b` are `a`. */
  lemma {:induction false} PrefixKept(a: string, b: string)
    ensures |a + b| >= |a| && (a + b)[..|a|] == a
  {
  }

  /** Two texts that agree up to `e` agree up to any `k <= e`. */
  lemma {:induction false} SamePrefixShorter<T>(a: seq<T>, b: seq<T>, e: nat, k: nat)
    requires k <= e <= |a| && e <= |b| && a[..e] == b[..e]
    ensures a[..k] == b[..k]
  {
    assert a[..k] == a[..e][..k];
    assert b[..k] == b[..e][..k];
  }

  lemma {:induction false} SameSliceInSamePrefix(a: string, b: string, e: nat, lo: nat, hi: nat)
    requires lo <= hi <= e <= |a| && e <= |b| && a[..e] == b[..e]
    ensures a[lo..hi] == b[lo..hi]
  {
    forall k | 0 <= k < hi - lo
      ensures a[lo..hi][k] == b[lo..hi][k]
    {
      assert a[lo + k] == a[..e][lo + k];
      assert b[lo + k] == b[..e][lo + k];
    }
  }

  /** The reverse `for` loop over the matches of one keyword, highest offset first. Each
      match is still in place when its turn comes: the splices already made all lie to its
      right. */
  method SpliceMatches(s: string, kw: string, offsets: seq<nat>, ranges: seq<Range>, rate: real, g: Rng)
    returns (r: string, ranges': seq<Range>, g': Rng, ghost mask: seq<bool>)
    requires kw != []
    requires forall i :: 0 <= i < |offsets| ==> offsets[i] + |kw| <= |s|
    requires Spaced(offsets, |kw|)
    ensures IsInsertion(s, r, mask)
    ensures |ranges| <= |ranges'| && ranges'[..|ranges|] == ranges
    ensures g'.stream == g.stream
  {
    r, ranges', g' := s, ranges, g;
    mask := Falses(|s|);
    InsertionRefl(s);
    var i := |offsets|;
    while i > 0
      invariant 0 <= i <= |offsets|
      invariant IsInsertion(s, r, mask)
      invariant |ranges| <= |ranges'| && ranges'[..|ranges|] == ranges
      invariant g'.stream == g.stream
      invariant var e := if i == |offsets| then |s| else offsets[i];
        e <= |r| && e <= |s| && r[..e] == s[..e]
    {
      ghost var e := if i == |offsets| then |s| else offsets[i];
      i := i - 1;
      var offset := offsets[i];
      var matchText := s[offset..offset + |kw|];
      assert offset + |kw| <= e;
      SameSliceInSamePrefix(r, s, e, offset, offset + |kw|);
      var r2, ranges2, g2;
      ghost var obf, m2;
      r2, ranges2, g2, obf, m2 := ProcessMatch(r, offset, matchText, ranges', rate, g');
      InsertionTrans(s, r, r2, mask, m2);
      mask := Compose(m2, mask);
      SamePrefixShorter(r, s, e, offset);
      r, g' := r2, g2;
      SamePrefixShorter(ranges2, ranges', |ranges'|, |ranges|);
      ranges' := ranges2;
    }
  }

  // ---------------------------------------------------------------- the dictionary file

  /** `content.split('\n')`: the pieces between line feeds, empty ones included. */
  function SplitLines(s: string): (r: seq<string>)
    ensures |r| >= 1
    decreases |s|
  {
    var k := IndexOf(s, '\n', 0);
    if k == -1 then [s] else [s[..k]] + SplitLines(s[k + 1..])
  }

  /** `.map(line => line.trim()).filter(line => line.length > 0)`. */
  function TrimmedNonEmpty(lines: seq<string>): (r: seq<string>)
    ensures |r| <= |lines|
  {
    if lines == [] then []
    else (if Trim(lines[0]) == [] then [] else [Trim(lines[0])]) + TrimmedNonEmpty(lines[1..])
  }

  /** The dictionary a file holds: one keyword per line, trimmed, blank lines dropped. */
  function KeywordLines(content: string): seq<string> {
    TrimmedNonEmpty(SplitLines(content))
  }

  /** What a dictionary entry looks like: non-empty, with no white space at either end. */
  predicate IsKeyword(k: string) {
    k != [] && Trim(k) == k
  }

  predicate NoLineFeed(k: string) {
    forall i :: 0 <= i < |k| ==> k[i] != '\n'
  }

  lemma {:induction false} TrimTwice(s: string)
    ensures Trim(Trim(s)) == Trim(s)
  {
    TrimFacts(s);
    if !IsBlank(s) {
      TrimEnds(s);
      TrimUntouched(Trim(s));
    }
  }

  /** Every loaded keyword is non-empty and already trimmed. */
  lemma {:induction false} TrimmedNonEmptyAreKeywords(lines: seq<string>)
    ensures forall j :: 0 <= j < |TrimmedNonEmpty(lines)| ==> IsKeyword(TrimmedNonEmpty(lines)[j])
  {
    if lines != [] {
      var t, rest := Trim(lines[0]), TrimmedNonEmpty(lines[1..]);
      TrimmedNonEmptyAreKeywords(lines[1..]);
      TrimTwice(lines[0]);
      if t == [] {
        assert TrimmedNonEmpty(lines) == rest;
      } else {
        var r := [t] + rest;
        assert TrimmedNonEmpty(lines) == r;
        forall j | 0 <= j < |r| ensures IsKeyword(r[j]) {
          if j > 0 {
            assert r[j] == rest[j - 1];
          }
        }
      }
    }
  }

  /** Keywords are kept as they are, in order. */
  lemma {:induction false} TrimmedNonEmptyOfKeywords(ks: seq<string>)
    requires forall j :: 0 <= j < |ks| ==> IsKeyword(ks[j])
    ensures TrimmedNonEmpty(ks) == ks
  {
    if ks != [] {
      assert IsKeyword(ks[0]);
      TrimmedNonEmptyOfKeywords(ks[1..]);
      HeadTail(ks);
    }
  }

  /** Splitting lines joined by line feeds gives the lines back. */
  lemma {:induction false} SplitLinesJoin(ks: seq<string>)
    requires |ks| >= 1 && forall j :: 0 <= j < |ks| ==> NoLineFeed(ks[j])
    ensures SplitLines(Join(ks, "\n")) == ks
  {
    HeadTail(ks);
    var head := ks[0];
    assert NoLineFeed(head);
    if |ks| == 1 {
      assert IndexOf(head, '\n', 0) == -1;
    } else {
      var rest := Join(ks[1..], "\n");
      var s := Join(ks, "\n");
      assert s == head + "\n" + rest;
      assert s[|head|] == '\n';
      assert forall i :: 0 <= i < |head| ==> s[i] == head[i];
      assert IndexOf(s, '\n', 0) == |head|;
      assert s[..|head|] == head;
      assert s[|head| + 1..] == rest;
      SplitLinesJoin(ks[1..]);
    }
  }

  /** Loading a file written one keyword per line gives those keywords, in order. */
  lemma {:induction false} KeywordLinesOfJoin(ks: seq<string>)
    requires forall j :: 0 <= j < |ks| ==> IsKeyword(ks[j]) && NoLineFeed(ks[j])
    ensures KeywordLines(Join(ks, "\n")) == ks
  {
    if ks == [] {
      assert SplitLines([]) == [[]];
      assert Trim([]) == [];
    } else {
      SplitLinesJoin(ks);
      TrimmedNonEmptyOfKeywords(ks);
    }
  }

  /** What looking for and reading `key.txt` gives: no such file, an error, or its text. */
  datatype KeywordFile = Missing | Unreadable | Text(content: string)

  /** The keyword pass: the object's dictionary, loading flag and rate. */
  class KeywordObfuscator {
    var keywords: seq<string>
    var keywordsLoaded: bool
    /** The probability with which a match is itself split by entities. */
    var obfuscationRate: real

    constructor()
      ensures keywords == [] && !keywordsLoaded && obfuscationRate == 0.4
    {
      keywords := [];
      keywordsLoaded := false;
      obfuscationRate := 0.4;
    }

    method SetObfuscationRate(rate: real)
      modifies this
      ensures obfuscationRate == rate
      ensures keywords == old(keywords) && keywordsLoaded == old(keywordsLoaded)
    {
      obfuscationRate := rate;
    }

    /** `loadKeywords()` with the outcome of reading the file: once loaded, nothing happens;
        a missing file changes nothing; an error marks the dictionary loaded and leaves it
        as it was; a file read replaces it with its lines. */
    method LoadKeywords(file: KeywordFile)
      modifies this
      ensures old(keywordsLoaded) ==> keywords == old(keywords) && keywordsLoaded
      ensures !old(keywordsLoaded) && file.Missing? ==> keywords == old(keywords) && !keywordsLoaded
      ensures !old(keywordsLoaded) && file.Unreadable? ==> keywords == old(keywords) && keywordsLoaded
      ensures !old(keywordsLoaded) && file.Text? ==> keywords == KeywordLines(file.content) && keywordsLoaded
      ensures obfuscationRate == old(obfuscationRate)
    {
      if keywordsLoaded {
        return;
      }
      match file
      case Missing =>
      case Unreadable => keywordsLoaded := true;
      case Text(content) =>
        keywords := KeywordLines(content);
        keywordsLoaded := true;
    }

    /** `obfuscateKeywords(html)`: keywords longest first, empty ones skipped; for each, all
        its matches in the current text are collected and spliced from the right. The result
        is the input with text inserted and nothing removed; an empty dictionary leaves it
        alone and draws nothing. */
    method ObfuscateKeywords(html: string, g: Rng) returns (result: string, g': Rng, ghost mask: seq<bool>)
      ensures keywords == [] ==> result == html && g' == g
      ensures IsInsertion(html, result, mask)
      ensures g'.stream == g.stream
    {
      if |keywords| == 0 {
        InsertionRefl(html);
        return html, g, Falses(|html|);
      }
      result, g' := html, g;
      mask := Falses(|html|);
      InsertionRefl(html);
      var sortedKeywords := SortByLengthDesc(keywords);
      var processedRanges: seq<Range> := [];
      for k := 0 to |sortedKeywords|
        invariant IsInsertion(html, result, mask)
        invariant g'.stream == g.stream
      {
        var keyword := sortedKeywords[k];
        if |keyword| == 0 {
          continue;
        }
        var matches := CollectMatches(result, keyword);
        var r2;
        ghost var m2;
        r2, processedRanges, g', m2 := SpliceMatches(result, keyword, matches, processedRanges, obfuscationRate, g');
        InsertionTrans(html, result, r2, mask, m2);
        mask := Compose(m2, mask);
        result := r2;
      }
    }
  }
}
