/**
  The style-sheet side of class and id renaming.

  Collection scans a style sheet for `.name` and `#name` selectors, with names matching
  `[a-zA-Z_][\w-]*`, and fills the mapping first-write-wins. The selector rewrite visits every
  rule and replaces, entry by entry in the tables' insertion order, each `.name` by
  `.replacement` (then each `#name` by `#replacement`) with a global regular expression
  replace. The whole pass falls back to its input when processing fails.
*/
module CssObfuscation {
  import opened JsString
  import opened RandomUtils
  import opened Protection
  import opened SymbolTable
  import opened Wrappers

  // ---------------------------------------------------------------- selector names

  /** `[a-zA-Z_]`: a character that may start a name. */
  predicate IsNameStart(c: char) { IsAsciiLetter(c) || c == '_' }

  /** `[\w-]`: a character that may continue a name. */
  predicate IsNameChar(c: char) { IsWordChar(c) || c == '-' }

  /** A name the scan can capture. */
  predicate IsName(n: string) {
    |n| > 0 && IsNameStart(n[0]) && forall i :: 0 <= i < |n| ==> IsNameChar(n[i])
  }

  /** The end of the run of name characters starting at `i`: where the greedy `[\w-]*` stops. */
  function NameRunEnd(s: string, i: nat): (j: nat)
    requires i <= |s|
    decreases |s| - i
    ensures i <= j <= |s|
    ensures forall k :: i <= k < j ==> IsNameChar(s[k])
    ensures j < |s| ==> !IsNameChar(s[j])
  {
    if i == |s| || !IsNameChar(s[i]) then i else NameRunEnd(s, i + 1)
  }

  /** The captured names of `/\.([a-zA-Z_][\w-]*)/g` (sigil `.`) or `/#([a-zA-Z_][\w-]*)/g`
      (sigil `#`), scanning `s` from `from` the way repeated `exec` calls do: a match
      resumes the search at its end, a failed position at the next character. */
  function SelectorNames(s: string, sigil: char, from: nat): (r: seq<string>)
    requires from <= |s|
    decreases |s| - from
    ensures forall j :: 0 <= j < |r| ==> IsName(r[j])
  {
    if from + 1 >= |s| then []
    else if s[from] == sigil && IsNameStart(s[from + 1]) then
      var e := NameRunEnd(s, from + 1);
      [s[from + 1..e]] + SelectorNames(s, sigil, e)
    else SelectorNames(s, sigil, from + 1)
  }

  /** `n` appears at `p` right after the sigil and the name characters stop there. */
  predicate CapturedAt(s: string, sigil: char, n: string, p: nat) {
    OccursAt(s, [sigil] + n, p) && (p + 1 + |n| == |s| || !IsNameChar(s[p + 1 + |n|]))
  }

  /** Every captured name appears in the text right after the sigil, and cannot be extended. */
  lemma {:induction false} SelectorNamesOccur(s: string, sigil: char, from: nat)
    requires from <= |s|
    ensures forall n :: n in SelectorNames(s, sigil, from) ==> exists p :: from <= p && CapturedAt(s, sigil, n, p)
    decreases |s| - from
  {
    if from + 1 < |s| {
      if s[from] == sigil && IsNameStart(s[from + 1]) {
        var e := NameRunEnd(s, from + 1);
        SelectorNamesOccur(s, sigil, e);
        var n := s[from + 1..e];
        var rest := SelectorNames(s, sigil, e);
        assert SelectorNames(s, sigil, from) == [n] + rest;
        CapturedAtStart(s, sigil, from);
        forall n' | n' in [n] + rest
          ensures exists p :: from <= p && CapturedAt(s, sigil, n', p)
        {
          if n' != n {
            assert n' in rest;
          }
        }
      } else {
        SelectorNamesOccur(s, sigil, from + 1);
        assert SelectorNames(s, sigil, from) == SelectorNames(s, sigil, from + 1);
      }
    }
  }

  /** The name the scan captures at a sigil is captured there. */
  lemma {:induction false} CapturedAtStart(s: string, sigil: char, from: nat)
    requires from + 1 < |s| && s[from] == sigil
    ensures CapturedAt(s, sigil, s[from + 1..NameRunEnd(s, from + 1)], from)
  {
    var e := NameRunEnd(s, from + 1);
    var n := s[from + 1..e];
    assert s[from..from + |[sigil] + n|] == [sigil] + n;
  }

  /** The scan picks up class and id selectors and skips what is not a name. */
  lemma {:induction false} SelectorNamesExample()
    ensures SelectorNames("a.b-c .9", '.', 0) == ["b-c"]
  {
    var s := "a.b-c .9";
    assert SelectorNames(s, '.', 6) == [];
    assert SelectorNames(s, '.', 5) == [];
    assert NameRunEnd(s, 2) == 5;
    assert s[2..5] == "b-c";
    assert SelectorNames(s, '.', 1) == ["b-c"] + SelectorNames(s, '.', 5);
    assert SelectorNames(s, '.', 0) == SelectorNames(s, '.', 1);
  }

  // ---------------------------------------------------------------- collection

  /** The two scans shared by the style-sheet collector and the document's inline-style
      collector: first every `.name`, then every `#name`, each entered first-write-wins. */
  method CollectSelectorNames(css: string, m: Mapping, rules: Rules, protect: bool, g: Rng) returns (g': Rng)
    requires m.Valid()
    modifies m
    ensures m.Valid()
    ensures Filled(old(m.classes), m.classes, SelectorNames(css, '.', 0), Accept(rules, ClassKind, protect))
    ensures Filled(old(m.ids), m.ids, SelectorNames(css, '#', 0), Accept(rules, IdKind, protect))
    ensures g'.stream == g.stream
  {
    g' := m.Collect(ClassKind, SelectorNames(css, '.', 0), rules, protect, g);
    g' := m.Collect(IdKind, SelectorNames(css, '#', 0), rules, protect, g');
  }

  /** `collectMappings` of the style-sheet pass, on the file's text. */
  method CollectMappings(css: string, m: Mapping, protect: bool, g: Rng) returns (g': Rng)
    requires m.Valid()
    modifies m
    ensures m.Valid()
    ensures Filled(old(m.classes), m.classes, SelectorNames(css, '.', 0), Accept(CssRules, ClassKind, protect))
    ensures Filled(old(m.ids), m.ids, SelectorNames(css, '#', 0), Accept(CssRules, IdKind, protect))
    ensures g'.stream == g.stream
  {
    g' := CollectSelectorNames(css, m, CssRules, protect, g);
  }

  // ---------------------------------------------------------------- replacing one selector

  /** How a match of `.name` must end. `WordBoundary` is the `\b` the rewrite writes:
      the last matched character and the next one differ in being `\w`. `NameEnd` is what
      the rewrite means: the next character cannot continue a name. */
  datatype Boundary = WordBoundary | NameEnd

  predicate EndsHere(b: Boundary, last: char, rest: string) {
    match b
    case WordBoundary => IsWordChar(last) != (rest != [] && IsWordChar(rest[0]))
    case NameEnd => rest == [] || !IsNameChar(rest[0])
  }

  /** The pattern matches at `i`. */
  predicate MatchesAt(s: string, pat: string, b: Boundary, i: nat)
    requires |pat| > 0
  {
    OccursAt(s, pat, i) && EndsHere(b, pat[|pat| - 1], s[i + |pat|..])
  }

  /** `s.replace(new RegExp(escapeRegExp(pat) + end, 'g'), rep)` for a pattern that is literal
      text `pat` followed by the end condition `b`: matches are taken left to right without
      overlapping, and each is replaced by `rep`. */
  function ReplaceAll(s: string, pat: string, rep: string, b: Boundary): string
    requires |pat| > 0
    decreases |s|
  {
    if s == [] then []
    else if MatchesAt(s, pat, b, 0) then rep + ReplaceAll(s[|pat|..], pat, rep, b)
    else [s[0]] + ReplaceAll(s[1..], pat, rep, b)
  }

  /** Where the pattern matches nowhere, the replace changes nothing: the rewrite's
      `regex.test` guard is then false. */
  lemma {:induction false} ReplaceAllWithoutMatch(s: string, pat: string, rep: string, b: Boundary)
    requires |pat| > 0
    requires forall i :: 0 <= i <= |s| ==> !MatchesAt(s, pat, b, i)
    ensures ReplaceAll(s, pat, rep, b) == s
    decreases |s|
  {
    if s != [] {
      forall i | 0 <= i <= |s[1..]| ensures !MatchesAt(s[1..], pat, b, i) {
        assert !MatchesAt(s, pat, b, i + 1);
        if OccursAt(s[1..], pat, i) {
          assert s[1..][i..i + |pat|] == s[i + 1..i + 1 + |pat|];
          assert s[1..][i + |pat|..] == s[i + 1 + |pat|..];
        }
      }
      ReplaceAllWithoutMatch(s[1..], pat, rep, b);
    }
  }

  /** A text without the pattern's first character is left alone. */
  lemma {:induction false} ReplaceAllWithoutSigil(s: string, pat: string, rep: string, b: Boundary)
    requires |pat| > 0 && forall i :: 0 <= i < |s| ==> s[i] != pat[0]
    ensures ReplaceAll(s, pat, rep, b) == s
  {
    forall i | 0 <= i <= |s| ensures !MatchesAt(s, pat, b, i) {
      if i + |pat| <= |s| {
        assert s[i..i + |pat|][0] == s[i];
      }
    }
    ReplaceAllWithoutMatch(s, pat, rep, b);
  }

  /** As written, `\b` also fires between a name and a following `-`: the entry for class
      `text` rewrites the selector of the different class `text-muted`. */
  lemma {:induction false} TextMutedRewrittenAsWritten()
    ensures ReplaceAll(".text-muted", ".text", ".x9Q", WordBoundary) == ".x9Q-muted"
  {
    var s := ".text-muted";
    assert MatchesAt(s, ".text", WordBoundary, 0);
    ReplaceAllWithoutSigil("-muted", ".text", ".x9Q", WordBoundary);
  }

  /** As written, `.foo` is not rewritten inside `.foobar`: `\b` does hold against a
      following letter or digit. */
  lemma {:induction false} FoobarKeptAsWritten()
    ensures ReplaceAll(".foobar", ".foo", ".k", WordBoundary) == ".foobar"
  {
    var s := ".foobar";
    assert !MatchesAt(s, ".foo", WordBoundary, 0);
    ReplaceAllWithoutSigil("foobar", ".foo", ".k", WordBoundary);
  }

  /** With the intended end condition a selector naming one class is rewritten exactly
      when that class is the entry's: `.t` becomes the replacement if `t == k` and stays
      `.t` for every other name, `text-muted` and `foo-bar` included. */
  lemma {:induction false} ReplaceNameWholeOnly(t: string, k: string, rep: string, sigil: char)
    requires IsName(t) && IsName(k) && !IsNameChar(sigil)
    ensures ReplaceAll([sigil] + t, [sigil] + k, rep, NameEnd) == if t == k then rep else [sigil] + t
  {
    var s := [sigil] + t;
    var pat := [sigil] + k;
    if t == k {
      assert MatchesAt(s, pat, NameEnd, 0);
      assert s[|pat|..] == [];
    } else {
      if |pat| <= |s| {
        assert s[..|pat|][1..] == t[..|k|];
      }
      if |k| < |t| {
        assert s[|pat|..][0] == t[|k|];
      }
      assert s[1..] == t;
      forall i | 0 <= i < |t| ensures t[i] != pat[0] {
        assert IsNameChar(t[i]);
      }
      ReplaceAllWithoutSigil(t, pat, rep, NameEnd);
    }
  }

  // ---------------------------------------------------------------- the rule handler

  /** The selector after applying the entries `keys` of a name table in order, each match
      ending as `b` says. */
  function RewriteEntries(s: string, keys: seq<string>, vals: map<string, string>, sigil: char, b: Boundary): string
    decreases |keys|
  {
    if keys == [] then s
    else
      var before := RewriteEntries(s, keys[..|keys| - 1], vals, sigil, b);
      var k := keys[|keys| - 1];
      if k in vals then ReplaceAll(before, [sigil] + k, [sigil] + vals[k], b) else before
  }

  /** No entry matching means no change. */
  lemma {:induction false} RewriteEntriesWithoutMatch(s: string, keys: seq<string>, vals: map<string, string>, sigil: char, b: Boundary)
    requires forall j, i :: 0 <= j < |keys| && 0 <= i <= |s| ==> !MatchesAt(s, [sigil] + keys[j], b, i)
    ensures RewriteEntries(s, keys, vals, sigil, b) == s
    decreases |keys|
  {
    if keys != [] {
      var init := keys[..|keys| - 1];
      RewriteEntriesWithoutMatch(s, init, vals, sigil, b);
      var k := keys[|keys| - 1];
      if k in vals {
        ReplaceAllWithoutMatch(s, [sigil] + k, [sigil] + vals[k], b);
      }
    }
  }

  /** The selector the `Rule` handler leaves: unchanged when the mapping lacks either
      table, otherwise rewritten by every class entry and then by every id entry. The
      handler as written ends each match with `WordBoundary`; `NameEnd` gives the
      intended handler. */
  function RuleSelector(selector: string, view: MappingView, b: Boundary): string
  {
    match view
    case MappingView(Some(classes), Some(ids)) =>
      RewriteEntries(RewriteEntries(selector, classes.keys, classes.vals, '.', b), ids.keys, ids.vals, '#', b)
    case _ => selector
  }

  /** A mapping without `classes` or `ids`, such as the one the engine passes, leaves
      every selector as it is. */
  lemma {:induction false} RuleWithoutTables(selector: string, view: MappingView, b: Boundary)
    requires view.classes.None? || view.ids.None?
    ensures RuleSelector(selector, view, b) == selector
  {
  }

  /** When no class entry and no id entry matches, the selector is unchanged. */
  lemma {:induction false} RuleWithoutMatch(selector: string, classes: Table, ids: Table, b: Boundary)
    requires forall j, i :: 0 <= j < |classes.keys| && 0 <= i <= |selector| ==> !MatchesAt(selector, "." + classes.keys[j], b, i)
    requires forall j, i :: 0 <= j < |ids.keys| && 0 <= i <= |selector| ==> !MatchesAt(selector, "#" + ids.keys[j], b, i)
    ensures RuleSelector(selector, MappingView(Some(classes), Some(ids)), b) == selector
  {
    RewriteEntriesWithoutMatch(selector, classes.keys, classes.vals, '.', b);
    RewriteEntriesWithoutMatch(selector, ids.keys, ids.vals, '#', b);
  }

  /** The handler with a single class entry and no id entries: the selector is that
      entry's `ReplaceAll`. */
  lemma {:induction false} RuleOneEntry(selector: string, k: string, v: string, b: Boundary)
    ensures RuleSelector(selector, MappingView(Some(Table([k], map[k := v])), Some(Table([], map[]))), b)
         == ReplaceAll(selector, "." + k, "." + v, b)
  {
    var keys := [k];
    assert keys[..0] == [];
    assert RewriteEntries(selector, keys[..0], map[k := v], '.', b) == selector;
    assert ['.'] + k == "." + k;
    var once := RewriteEntries(selector, keys, map[k := v], '.', b);
    assert once == ReplaceAll(selector, "." + k, "." + v, b);
    assert RewriteEntries(once, [], map[], '#', b) == once;
  }

  /** As written, the handler with the single entry `text -> x9Q` turns the selector of
      the protected class `text-muted` into `.x9Q-muted`. */
  lemma {:induction false} RuleTextMutedAsWritten()
    ensures RuleSelector(".text-muted", MappingView(Some(Table(["text"], map["text" := "x9Q"])), Some(Table([], map[]))), WordBoundary)
         == ".x9Q-muted"
  {
    RuleOneEntry(".text-muted", "text", "x9Q", WordBoundary);
    assert "." + "text" == ".text" && "." + "x9Q" == ".x9Q";
    TextMutedRewrittenAsWritten();
  }

  /** The intended handler with a single class entry `k -> v` renames the selector `.t`
      of one class exactly when `t` is `k`. */
  lemma {:induction false} RuleWholeNameOnly(t: string, k: string, v: string)
    requires IsName(t) && IsName(k)
    ensures RuleSelector("." + t, MappingView(Some(Table([k], map[k := v])), Some(Table([], map[]))), NameEnd)
         == if t == k then "." + v else "." + t
  {
    RuleOneEntry("." + t, k, v, NameEnd);
    ReplaceNameWholeOnly(t, k, "." + v, '.');
  }

  /** The `Rule` handler of the selector plugin: the class entries in order, then the id
      entries, each match ending as `b` says (`WordBoundary` for the handler as written).
      The `test` calls, the `size > 0` tests and the `modified` flag do not change the
      outcome. */
  method RewriteRule(selector: string, view: MappingView, b: Boundary) returns (result: string)
    ensures result == RuleSelector(selector, view, b)
  {
    if view.classes.None? || view.ids.None? {
      return selector;
    }
    var classes, ids := view.classes.value, view.ids.value;
    result := selector;
    for i := 0 to |classes.keys|
      invariant result == RewriteEntries(selector, classes.keys[..i], classes.vals, '.', b)
    {
      var k := classes.keys[i];
      if k in classes.vals {
        result := ReplaceAll(result, "." + k, "." + classes.vals[k], b);
      }
      assert classes.keys[..i + 1][..i] == classes.keys[..i];
    }
    assert classes.keys[..|classes.keys|] == classes.keys;
    ghost var afterClasses := result;
    for i := 0 to |ids.keys|
      invariant result == RewriteEntries(afterClasses, ids.keys[..i], ids.vals, '#', b)
    {
      var k := ids.keys[i];
      if k in ids.vals {
        result := ReplaceAll(result, "#" + k, "#" + ids.vals[k], b);
      }
      assert ids.keys[..i + 1][..i] == ids.keys[..i];
    }
    assert ids.keys[..|ids.keys|] == ids.keys;
  }

  // ---------------------------------------------------------------- the whole pass

  predicate IsLineBreak(c: char) { c == '\r' || c == '\n' }

  /** `css.replace(/[\r\n]+/g, ' ')`: every run of carriage returns and line feeds becomes
      one space. */
  function CollapseNewlines(s: string): (r: string)
    decreases |s|
    ensures |r| <= |s|
    ensures forall i :: 0 <= i < |r| ==> !IsLineBreak(r[i])
    ensures (forall i :: 0 <= i < |s| ==> !IsLineBreak(s[i])) ==> r == s
  {
    if s == [] then []
    else if IsLineBreak(s[0]) then
      var run := LineBreakRun(s);
      [' '] + CollapseNewlines(s[run..])
    else [s[0]] + CollapseNewlines(s[1..])
  }

  /** The length of the run of line breaks `s` starts with. */
  function LineBreakRun(s: string): (n: nat)
    requires s != [] && IsLineBreak(s[0])
    decreases |s|
    ensures 1 <= n <= |s|
    ensures forall i :: 0 <= i < n ==> IsLineBreak(s[i])
    ensures n < |s| ==> !IsLineBreak(s[n])
  {
    if |s| == 1 || !IsLineBreak(s[1]) then 1 else 1 + LineBreakRun(s[1..])
  }

  /** `obfuscate(css, mapping)`. Minification, the dead-code rule and the selector plugin
      run inside PostCSS, which is not part of this model: `process` stands for that
      pipeline applied to the text with its line breaks collapsed, and `None` for a
      pipeline that throws. On failure the input comes back unchanged. */
  function Obfuscate(css: string, process: string -> Option<string>): (r: string)
    ensures process(CollapseNewlines(css)).None? ==> r == css
    ensures process(CollapseNewlines(css)).Some? ==> r == process(CollapseNewlines(css)).value
  {
    match process(CollapseNewlines(css))
    case Some(out) => out
    case None => css
  }
}
