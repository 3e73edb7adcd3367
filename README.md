# A verified model of the website obfuscator

This project models, in Dafny, the core of a Node.js tool that obfuscates a static
website before it is published. The tool copies a site into one or more work
directories and rewrites every `.html`, `.htm`, `.css` and `.js` file in them. Each
written file gets a random marker comment on its first line, so that a second run
leaves it alone. The model covers these parts of the tool:

- **Keyword pass.** Every case-insensitive occurrence of a dictionary keyword in a
  document, outside tags and quoted attribute values, is surrounded by zero-width
  character entities (`&#8203;` and its four siblings). With some probability the
  keyword is also split by them.
- **Sentence pass.** Such entities are scattered between the code points of every long
  enough text node that is not already marked as obfuscated.
- **Renaming of classes and ids.**
  - Selector names are collected from style sheets and attributes into first-write-wins
    renaming tables. Names that belong to third-party frameworks are left out.
  - The tables are applied to class and id attributes and to CSS rule selectors.
- **Minimal document mode.** Only the bodies of inline scripts are replaced, and the
  rest of the text is kept byte for byte.
- **Random generators.** These make identifiers, class names, markers and entities.
- **Engine.** It decides which files are rewritten, runs the passes in order, recognises
  the markers and loops over the work directories.

Modules, one per source file, plus shared ones:

| module | file | models |
|---|---|---|
| `JsString` | js_string.dfy | The JavaScript string operations the core relies on: `trim`, `indexOf`, `lastIndexOf`, `includes`, `split(/\s+/)`, `join`, `toString(36)`, the regular-expression escape. |
| `Wrappers` | wrappers.dfy | `Option` and `Result`. |
| `Insertion` | insertion.dfy | "The output is the input with text inserted and nothing removed", stated with a deletion mask. |
| `RandomUtils` | random_utils.dfy | lib/utils/random-utils.js |
| `Protection` | protection.dfy | The third-party whitelists of lib/core/html-obfuscator.js and lib/core/css-obfuscator.js. |
| `SymbolTable` | symbol_table.dfy | The `mapping` object: `Map`s in insertion order and the collectors that fill them. |
| `CssObfuscation` | css_obfuscator.dfy | lib/core/css-obfuscator.js |
| `HtmlObfuscation` | html_obfuscator.dfy | lib/core/html-obfuscator.js: the collectors, the attribute rewriter, the intensity presets, the analytics test and the minimal mode. |
| `KeywordObfuscation` | keyword_obfuscator.dfy | lib/core/keyword-obfuscator.js |
| `SentenceObfuscation` | sentence_obfuscator.dfy | lib/core/sentence-obfuscator.js |
| `Engine` | obfuscation_engine.dfy | lib/obfuscation-engine.js |

How the model represents what the source does:

- **Randomness.** `Math.random()` is an explicit stream.
  - A draw `u < 2^53` stands for the fraction `u / 2^53`.
  - An `Rng` is the whole stream plus the position of the next draw.
  - Every generator returns the advanced stream and states which draws it used.
- **Clock.** `Date.now()` is a parameter.
- **Parsed documents.** What cheerio would give is handed in as values:
  - the sentence pass gets a list of element views in document order;
  - the collectors get the style texts and the attribute values;
  - the attribute rewriter gets an array of attribute pairs.
- **Classes with state.** The pass objects (`KeywordObfuscator`, `SentenceObfuscator`),
  the `mapping` object and `ObfuscationEngine` are classes whose methods update their
  fields.
- **Scanning loops and in-place work.** These are methods with loop invariants. Each is
  proved against a specification function:
  - the regular-expression scans;
  - the reverse splice loops;
  - the in-place attribute rewrite.

The engine's mapping object has no `classes` or `ids` members, which has two
consequences for how the engine uses the passes:

- **Documents.** The class and id step of `HtmlObfuscator.obfuscate` throws a `TypeError` at
  the first class attribute that holds a non-empty token. An empty or blank class
  attribute passes. A document with no such class attribute throws at its first non-empty
  id instead. The model shows these failures in `HtmlObfuscation.RenameToken` and
  `HtmlObfuscation.RewriteIdAttr`.
- **Style sheets.** The selector rewriter of `CssObfuscator` returns without changing
  anything (`CssObfuscation.RuleWithoutTables`).

## Model

| member | source | states |
|---|---|---|
| JsString.TrimFacts | lib/core/sentence-obfuscator.js:135-136 | `trim()` is empty exactly for blank text; otherwise it is the text between the leading and trailing white-space runs |
| JsString.TrimEnds | lib/core/sentence-obfuscator.js:135-139 | text that is not blank is its leading white space, its trim and its trailing white space, and its trim neither starts nor ends with white space |
| JsString.CodePoints | lib/core/sentence-obfuscator.js:141 | `[...s]` has one single-character piece per code point, and the pieces concatenate back to `s` |
| JsString.IndexOf | lib/core/keyword-obfuscator.js:153 | `indexOf(c, from)` is the first position at or after `from` holding `c`, or -1 exactly when there is none |
| JsString.LastIndexOf | lib/core/keyword-obfuscator.js:147-148 | `lastIndexOf(c, from)` is the last position at or before `from` holding `c`, or -1 exactly when there is none |
| JsString.ContainsIffOccurs | lib/core/html-obfuscator.js:1027 | `includes` holds exactly when the substring occurs at some position |
| JsString.CountChar | lib/core/keyword-obfuscator.js:160-161 | the number of quote characters is at most the length, and is zero exactly when there is no such character |
| JsString.SplitPiecesNoSpace | lib/core/html-obfuscator.js:481 | no piece of `split(/\s+/)` contains white space |
| JsString.SplitMiddleNonEmpty | lib/core/html-obfuscator.js:481 | only the first and the last piece of `split(/\s+/)` can be empty |
| JsString.SplitJoin | lib/core/html-obfuscator.js:481-484 | joining space-free tokens with single spaces and splitting again gives the tokens back |
| JsString.Canonicalize | lib/core/keyword-obfuscator.js:63 | the case folding of the `i` flag maps ASCII letters to upper case and leaves other ASCII characters alone |
| JsString.ToRadix | lib/utils/random-utils.js:44 | `toString(radix)` uses only the digits of the radix and has no leading zero |
| JsString.RadixRoundTrip | lib/utils/random-utils.js:44 | reading back the digits of `toString(radix)` gives the number |
| JsString.ToDecimal | lib/utils/random-utils.js:43-46 | the marker number in decimal: digits only, reading back to the number |
| JsString.ToBase36 | lib/utils/random-utils.js:44 | the time stamp in base 36: lower-case letters and digits, reading back to the number |
| JsString.EscapeRegExp | lib/core/keyword-obfuscator.js:390-392 | escaping at most doubles the length and leaves text without syntax characters unchanged |
| JsString.EscapeRegExpRoundTrip | lib/core/css-obfuscator.js:247-249 | removing the escapes gives back the text, so the escaped pattern matches the keyword literally |
| RandomUtils.Scaled | lib/utils/random-utils.js:97 | `Math.floor(Math.random() * n)` is an index in `[0, n)` for positive `n` |
| RandomUtils.RandomInt | lib/utils/random-utils.js:22-24 | `randomInt(min, max)` lies in `[min, max]` when `min <= max` |
| RandomUtils.RandomBool | lib/utils/random-utils.js:18-20 | `randomBool(p)` is true exactly when the drawn fraction is below `p`; never for `p <= 0`, always for `p >= 1` |
| RandomUtils.RandomInvisibleChar | lib/utils/random-utils.js:88-98 | the result is one of the five zero-width entities |
| RandomUtils.PoolChar | lib/utils/random-utils.js:3-12 | the first 52 characters of the pool are letters and the rest are digits |
| RandomUtils.RandomIdentifier | lib/utils/random-utils.js:2-16 | 4 to 8 characters, a letter first, letters and digits after, each character taken from its own draw; the stream advances by length + 1 |
| RandomUtils.RandomString | lib/utils/random-utils.js:107-114 | exactly `length` alphanumeric characters (none for a negative length), one draw each |
| RandomUtils.MarkerPrefixesAreUpper | lib/utils/random-utils.js:28-33 | every marker prefix is a non-empty upper-case word |
| RandomUtils.MarkerSuffixesAreUpper | lib/utils/random-utils.js:35-39 | every marker suffix is a non-empty upper-case word |
| RandomUtils.RandomObfuscationMarker | lib/utils/random-utils.js:27-47 | a listed prefix, a listed suffix, a number from 1000 to 9999 and a base-36 time stamp, joined by underscores |
| RandomUtils.RandomHtmlComment | lib/utils/random-utils.js:50-53 | `<!-- ` + a marker + ` -->` |
| RandomUtils.RandomCodeComment | lib/utils/random-utils.js:56-59 | `/* ` + a marker + ` */` |
| RandomUtils.RandomClassName | lib/utils/random-utils.js:62-67 | a listed prefix chosen by the first draw, a hyphen, then a random identifier |
| Protection.ShouldObfuscateClass | lib/core/html-obfuscator.js:91-181 | without protection every class is renamed; with it, exactly the classes that are not whitelisted and match no framework pattern are renamed |
| Protection.ShouldObfuscateId | lib/core/html-obfuscator.js:184-252 | the same for ids, with the id whitelist and patterns |
| Protection.CssClassProtectionWithinHtml | lib/core/css-obfuscator.js:45-92 | every class the style-sheet rules protect is also protected by the document rules |
| Protection.CssIdProtectionWithinHtml | lib/core/css-obfuscator.js:94-121 | every id the style-sheet rules protect is also protected by the document rules |
| Protection.BtnWarningProtectedInHtml | lib/core/html-obfuscator.js:100 | the document rules keep `btn-warning` |
| Protection.BtnWarningRenamedInCss | lib/core/css-obfuscator.js:52-92 | the style-sheet rules rename `btn-warning`, because their list stops at `btn-danger` |
| Protection.AddToCartProtectedInHtml | lib/core/html-obfuscator.js:206 | the document rules keep the id `add-to-cart` |
| Protection.AddToCartRenamedInCss | lib/core/css-obfuscator.js:94-121 | the style-sheet rules rename the id `add-to-cart` |
| Protection.ScreenReaderClassProtected | lib/core/html-obfuscator.js:137 | `sr-only` is kept |
| Protection.ColumnClassProtected | lib/core/html-obfuscator.js:145 | `col-md-6` is kept by the `^col-\w+` pattern |
| Protection.VisualComposerClassProtected | lib/core/html-obfuscator.js:158 | `vc_row` is kept by the `^vc_` pattern |
| Protection.YoutubeIdProtected | lib/core/html-obfuscator.js:222 | the id `youtube-player` is kept by the `^youtube-` pattern |
| Protection.OwnClassRenamed | lib/core/html-obfuscator.js:91-181 | a site's own class such as `hero-title` is renamed |
| SymbolTable.Table.Get | lib/core/html-obfuscator.js:483 | `Map.get` gives a value exactly for a present key, and that key's value |
| SymbolTable.SetSpec | lib/core/css-obfuscator.js:25-26 | `Map.set` stores the value, leaves other keys alone, appends a new key at the end and keeps the key order |
| SymbolTable.ExtendSound | lib/core/css-obfuscator.js:19-28 | a fill keeps the old keys first and in order; every added key is a new, wanted name from the scanned list, and no key appears twice |
| SymbolTable.ExtendComplete | lib/core/css-obfuscator.js:19-28 | after a fill, every wanted scanned name is a key |
| SymbolTable.ExtendAppend | lib/core/html-obfuscator.js:29-56 | filling from one list and then another is filling from both in order |
| SymbolTable.FilledTrans | lib/core/html-obfuscator.js:29-56 | two fills in a row are one fill with both name lists |
| SymbolTable.AddInStep | lib/core/css-obfuscator.js:25-26 | entering a name in its table and `.name`/`#name` in the selector table keeps the two tables in step |
| SymbolTable.Mapping.Add | lib/core/css-obfuscator.js:24-26 | a new name is entered with its replacement in its table, and its selector in the matching selector table; the other kind is untouched |
| SymbolTable.Mapping.CollectOne | lib/core/css-obfuscator.js:20-27 | one turn of a collecting loop: an absent, wanted name gets a fresh random identifier; anything else changes nothing |
| SymbolTable.Mapping.Collect | lib/core/css-obfuscator.js:19-28 | the loop over the scanned names fills the table first-write-wins and leaves the other kind untouched |
| CssObfuscation.NameRunEnd | lib/core/css-obfuscator.js:16 | the greedy `[\w-]*` run: name characters up to a character that is not one |
| CssObfuscation.SelectorNames | lib/core/css-obfuscator.js:16-21 | every captured name starts with a letter or `_` and continues with `[\w-]` |
| CssObfuscation.SelectorNamesOccur | lib/core/css-obfuscator.js:16-21 | every captured name occurs right after the sigil, as a maximal run |
| CssObfuscation.CapturedAtStart | lib/core/css-obfuscator.js:16 | a sigil followed by a name start captures the whole following run |
| CssObfuscation.SelectorNamesExample | lib/core/css-obfuscator.js:16-21 | `a.b-c .9` yields only `b-c`: a name cannot start with a digit |
| CssObfuscation.CollectSelectorNames | lib/core/html-obfuscator.js:60-88 | the class scan and then the id scan fill the mapping first-write-wins with the wanted names, in text order |
| CssObfuscation.CollectMappings | lib/core/css-obfuscator.js:8-42 | the same two scans over a style sheet, with the style-sheet protection rules |
| CssObfuscation.ReplaceAllWithoutMatch | lib/core/css-obfuscator.js:219-223 | a selector in which the pattern never matches is left unchanged |
| CssObfuscation.ReplaceAllWithoutSigil | lib/core/css-obfuscator.js:219-223 | a selector without the sigil is left unchanged |
| CssObfuscation.TextMutedRewrittenAsWritten | lib/core/css-obfuscator.js:219 | as written, renaming `text` also rewrites `.text-muted` to `.x9Q-muted` |
| CssObfuscation.FoobarKeptAsWritten | lib/core/css-obfuscator.js:219 | as written, `.foo` does not touch `.foobar` |
| CssObfuscation.ReplaceNameWholeOnly | lib/core/css-obfuscator.js:219 | with the boundary at the end of the name, a selector name is replaced exactly when it equals the renamed name |
| CssObfuscation.RewriteEntriesWithoutMatch | lib/core/css-obfuscator.js:217-224 | for either end condition, a selector in which no table key matches is left unchanged by the loop over the table |
| CssObfuscation.RuleWithoutTables | lib/core/css-obfuscator.js:208-210 | when the mapping lacks `classes` or `ids`, the selector is left as it is, whatever the end condition |
| CssObfuscation.RuleWithoutMatch | lib/core/css-obfuscator.js:216-237 | for either end condition, a selector in which no class entry and no id entry matches is left as it is |
| CssObfuscation.RewriteRule | lib/core/css-obfuscator.js:204-244 | with `WordBoundary` (the `\b` of lines 219 and 231), the `Rule` visitor's two loops rewrite the selector by every class entry and then every id entry, in table order, each a global `replace`; a mapping without both tables leaves it alone |
| CssObfuscation.RuleOneEntry | lib/core/css-obfuscator.js:216-224 | with one class entry and no id entries, the visitor is that entry's global `replace` |
| CssObfuscation.RuleTextMutedAsWritten | lib/core/css-obfuscator.js:216-224 | as written, the visitor with the entry `text -> x9Q` turns `.text-muted` into `.x9Q-muted` |
| CssObfuscation.RuleWholeNameOnly | lib/core/css-obfuscator.js:216-224 | with the name-end condition, the visitor with one entry `k -> v` renames the selector `.t` exactly when `t` is `k` |
| CssObfuscation.CollapseNewlines | lib/core/css-obfuscator.js:138 | no line break is left, the text does not grow, and text without line breaks is unchanged |
| CssObfuscation.Obfuscate | lib/core/css-obfuscator.js:123-132 | the pipeline's result on the text with its line breaks collapsed, or the original style sheet when the pipeline throws |
| HtmlObfuscation.CollectCssClassNames | lib/core/html-obfuscator.js:60-88 | an inline style text fills the tables with its wanted class names and then its wanted id names |
| HtmlObfuscation.CollectStyles | lib/core/html-obfuscator.js:31-34 | the `<style>` elements fill the tables in document order |
| HtmlObfuscation.CollectClassAttrs | lib/core/html-obfuscator.js:38-46 | the tokens of every class attribute fill the class table; the id tables are untouched |
| HtmlObfuscation.CollectIdAttrs | lib/core/html-obfuscator.js:48-55 | every id attribute fills the id table; the class tables are untouched |
| HtmlObfuscation.CollectMappings | lib/core/html-obfuscator.js:22-57 | styles, then class attributes, then ids: one first-write-wins fill over the names in that order |
| HtmlObfuscation.RenameToken | lib/core/html-obfuscator.js:482-484 | an empty token stays; a token with a non-empty entry takes it; any other token is kept; without a class table a non-empty token throws |
| HtmlObfuscation.RenameTokens | lib/core/html-obfuscator.js:482-483 | the `map` renames each token in place and fails exactly when one token fails |
| HtmlObfuscation.ClassTokensPreserved | lib/core/html-obfuscator.js:479-486 | with space-free replacements, the rewritten attribute splits into exactly the renamed tokens |
| HtmlObfuscation.ClassAttrNeedsTable | lib/core/html-obfuscator.js:483 | a class attribute with a non-empty token throws when the mapping has no class table |
| HtmlObfuscation.RewriteIdAttr | lib/core/html-obfuscator.js:489-494 | a present id takes its entry and an absent one stays; without an id table a non-empty id throws |
| HtmlObfuscation.RenameAttr | lib/core/html-obfuscator.js:477-495 | each pass touches only its own attribute and leaves an element without that attribute alone |
| HtmlObfuscation.RenameAttrs | lib/core/html-obfuscator.js:479-486 | the in-place loop rewrites every element when none throws; otherwise the elements before the first failure are rewritten and the rest are untouched |
| HtmlObfuscation.ObfuscateClassesAndIds | lib/core/html-obfuscator.js:477-495 | succeeds exactly when every element passes the class pass and then the id pass, and then each element holds both renamings |
| HtmlObfuscation.Preset | lib/core/html-obfuscator.js:531-572 | each preset's probabilities lie in `[0, 1]`, and its depth is 2, 4, 6 or 8 by level |
| HtmlObfuscation.ParseIntensity | lib/core/html-obfuscator.js:574 | exactly the four level names are recognised |
| HtmlObfuscation.GetStructureIntensityConfig | lib/core/html-obfuscator.js:530-575 | a known level gives its preset and any other string gives `medium` |
| HtmlObfuscation.PresetsMonotone | lib/core/html-obfuscator.js:531-572 | a higher level is at least as strong in every setting |
| HtmlObfuscation.AnyIncluded | lib/core/html-obfuscator.js:1052-1054 | `some(w => s.includes(w))` is true exactly when some listed word occurs in the text |
| HtmlObfuscation.IsAnalyticsScript | lib/core/html-obfuscator.js:1006-1062 | true exactly when the source names a listed domain or the content holds a listed keyword; empty content without a source is not analytics |
| HtmlObfuscation.AnalyticsWordsNonEmpty | lib/core/html-obfuscator.js:1009-1049 | no listed domain or keyword is empty, so empty text matches none |
| HtmlObfuscation.TagManagerSourceIsAnalytics | lib/core/html-obfuscator.js:1008-1029 | a script loaded from `googletagmanager.com` is analytics |
| HtmlObfuscation.EventKeywordIsAnalytics | lib/core/html-obfuscator.js:1032-1058 | any script mentioning `event` counts as analytics |
| HtmlObfuscation.FindClose | lib/core/html-obfuscator.js:407 | the lazy body ends at the first case-insensitive `</script>` after the tag |
| HtmlObfuscation.MatchAt | lib/core/html-obfuscator.js:407 | a match at `i` is an opening tag, its body and the first closing tag after it, all within the text |
| HtmlObfuscation.MatchAtShape | lib/core/html-obfuscator.js:407 | `<script` followed by a non-word character, the first `>` after it, then the first closing tag; no match when any piece is missing |
| HtmlObfuscation.FindScript | lib/core/html-obfuscator.js:416 | the next match at or after `from` |
| HtmlObfuscation.FindScriptFirst | lib/core/html-obfuscator.js:416 | no match starts between `from` and the one found, and none at all when none is found |
| HtmlObfuscation.ScriptsFrom | lib/core/html-obfuscator.js:416-444 | the `exec` loop's matches are ordered, disjoint and each is a match at its start |
| HtmlObfuscation.QuoteFreeCount | lib/core/html-obfuscator.js:421 | the `[^"']+` run: no quote before it, a quote right after it |
| HtmlObfuscation.SrcAtShape | lib/core/html-obfuscator.js:421 | `src='…'` with a quote-free value, after a non-word character, matches the `src` test |
| HtmlObfuscation.SrcAssignmentFound | lib/core/html-obfuscator.js:421-425 | a tag with such a `src` assignment is an external script and is skipped |
| HtmlObfuscation.Selected | lib/core/html-obfuscator.js:416-444 | the kept matches are ordered and come from the scan |
| HtmlObfuscation.SelectedExactly | lib/core/html-obfuscator.js:420-436 | a match is kept exactly when it passes the three tests (no `src`, non-blank body, not analytics) |
| HtmlObfuscation.CollectScripts | lib/core/html-obfuscator.js:416-444 | the collecting loop returns exactly the kept matches, in order |
| HtmlObfuscation.ReplacementWith | lib/core/html-obfuscator.js:458-463 | a script that obfuscates becomes its opening tag, the new body and `</script>` |
| HtmlObfuscation.SpliceOne | lib/core/html-obfuscator.js:454-464 | splicing at a match keeps the text before it and after it |
| HtmlObfuscation.SpliceScripts | lib/core/html-obfuscator.js:447-470 | the reverse loop builds the text with every kept script replaced, or kept where obfuscating it throws |
| HtmlObfuscation.MinimalObfuscate | lib/core/html-obfuscator.js:402-474 | minimal mode: every kept inline script is replaced, and everything else is the original text |
| HtmlObfuscation.RebuiltWhenAllFail | lib/core/html-obfuscator.js:466-469 | when every script's obfuscation throws, the rebuilt tail is the original tail |
| HtmlObfuscation.SplicedWhenAllFail | lib/core/html-obfuscator.js:466-469 | when every script's obfuscation throws, the document is returned unchanged |
| KeywordObfuscation.SortByLengthDesc | lib/core/keyword-obfuscator.js:53 | the keywords, longest first, as a permutation of the dictionary |
| KeywordObfuscation.FindFrom | lib/core/keyword-obfuscator.js:68 | the first case-insensitive match at or after `from`, or -1 when there is none |
| KeywordObfuscation.CollectMatches | lib/core/keyword-obfuscator.js:68-79 | the `exec` loop finds only matches; they do not overlap; every match of the keyword lies within one found match |
| KeywordObfuscation.Overlaps | lib/core/keyword-obfuscator.js:87-91 | true exactly when a recorded range meets the match by one of the three tests; for a non-empty match and proper ranges this is interval intersection |
| KeywordObfuscation.IsInsideHtmlTag | lib/core/keyword-obfuscator.js:145-179 | false without an unclosed `<` before the match or a `>` after it; otherwise true inside a quoted value, false when the tag is `<script` or `<style`, and true otherwise |
| KeywordObfuscation.SpaceRuns | lib/core/keyword-obfuscator.js:403-404 | `split(/(\s+)/)` without its empty pieces: runs that alternate between white space and other text and concatenate back to the keyword |
| KeywordObfuscation.SplitKeywordByLanguage | lib/core/keyword-obfuscator.js:395-412 | the pieces concatenate back to the keyword and none is empty; Latin-only text splits at white-space runs, and anything else splits into single code points |
| KeywordObfuscation.CreateInvisibleChars | lib/core/keyword-obfuscator.js:369-378 | 1 to 3 entities, the count taken from the first draw |
| KeywordObfuscation.AppendElements | lib/core/keyword-obfuscator.js:339-342 | 1 to 3 calls of `createObfuscationElement` append 1 to 9 entities |
| KeywordObfuscation.AddAroundObfuscation | lib/core/keyword-obfuscator.js:335-354 | the keyword with 1 to 9 entities in front and 1 to 9 behind |
| KeywordObfuscation.ObfuscateWithInvisibleChars | lib/core/keyword-obfuscator.js:215-240 | a single piece gets one entity after it; several pieces get entities only between them, at least one; no pieces gives `undefined` and an entity |
| KeywordObfuscation.InsertBetweenWords | lib/core/keyword-obfuscator.js:222-237 | the loop puts an entity or nothing after each piece but the last, and at least one entity |
| KeywordObfuscation.ObfuscateMatch | lib/core/keyword-obfuscator.js:103-115 | the replacement of a match is 1 to 9 entities, the keyword text and 1 to 9 entities; the keyword text is the match when the draw is not below the rate, and otherwise the match's pieces woven with entity separators (one entity after a single piece, at least one between several); deleting the entities gives back the match |
| KeywordObfuscation.SpliceMatch | lib/core/keyword-obfuscator.js:118 | the document with one match replaced by its replacement is an insertion into the document; the replacement has the entity-wrapped shape of `ObfuscateMatch` |
| KeywordObfuscation.ProcessMatch | lib/core/keyword-obfuscator.js:86-131 | an overlapping match or one inside a tag is skipped without a draw; otherwise it is spliced in and its new range is recorded; a spliced replacement has the entity-wrapped shape of `ObfuscateMatch` |
| KeywordObfuscation.SpliceMatches | lib/core/keyword-obfuscator.js:82-134 | the reverse loop over a keyword's matches only inserts text, and keeps the recorded ranges as a prefix |
| KeywordObfuscation.TrimmedNonEmptyAreKeywords | lib/core/keyword-obfuscator.js:31-33 | every loaded keyword is non-empty and trimmed |
| KeywordObfuscation.SplitLinesJoin | lib/core/keyword-obfuscator.js:31 | `split('\n')` of lines joined by line feeds gives the lines back |
| KeywordObfuscation.KeywordLinesOfJoin | lib/core/keyword-obfuscator.js:31-33 | a file holding one trimmed keyword per line loads exactly those keywords, in order |
| KeywordObfuscation.KeywordObfuscator.constructor | lib/core/keyword-obfuscator.js:6-11 | an empty, unloaded dictionary and a rate of 0.4 |
| KeywordObfuscation.KeywordObfuscator.SetObfuscationRate | lib/core/keyword-obfuscator.js:14-19 | only the rate changes |
| KeywordObfuscation.KeywordObfuscator.LoadKeywords | lib/core/keyword-obfuscator.js:22-41 | a second call does nothing; a missing file changes nothing; an error only sets the flag; a read file becomes the dictionary |
| KeywordObfuscation.KeywordObfuscator.ObfuscateKeywords | lib/core/keyword-obfuscator.js:44-142 | an empty dictionary returns the document without a draw; otherwise the result is the document with text inserted and nothing removed |
| SentenceObfuscation.IsAlreadyObfuscated | lib/core/sentence-obfuscator.js:235-254 | true exactly when the text holds one of the six invisible code points |
| SentenceObfuscation.EntitiesHaveNoInvisibleCodePoint | lib/core/sentence-obfuscator.js:237-244 | entity references are plain ASCII, so the text check cannot see them |
| SentenceObfuscation.WrappingInvisibleToTextCheck | lib/core/sentence-obfuscator.js:235-254 | wrapping text in keyword-pass entities does not change what the text check says |
| SentenceObfuscation.WrappingSeenByEntityCheck | lib/core/sentence-obfuscator.js:224 | the entity test does see text wrapped by the keyword pass |
| SentenceObfuscation.ElementWithEntityIsSkipped | lib/core/sentence-obfuscator.js:215-232 | an element whose inner HTML holds a zero-width entity is treated as already obfuscated |
| SentenceObfuscation.RewriteIsInsertion | lib/core/sentence-obfuscator.js:134-155 | deleting the woven entities from a rewrite gives back the text |
| SentenceObfuscation.WeaveInvisible | lib/core/sentence-obfuscator.js:145-152 | an entity or nothing after each code point, and nothing after the last |
| SentenceObfuscation.InsertInvisibleChars | lib/core/sentence-obfuscator.js:134-155 | blank text is returned without a draw; otherwise its white space is kept and entities are woven into its trimmed middle; either way the result only inserts |
| SentenceObfuscation.ObfuscateText | lib/core/sentence-obfuscator.js:64-85 | a node is rewritten exactly when its trimmed length is within the limits and it has no invisible code point; otherwise it is kept |
| SentenceObfuscation.CountTrueIsEligibleTexts | lib/core/sentence-obfuscator.js:83 | the counter counts exactly the eligible nodes |
| SentenceObfuscation.ObfuscateTexts | lib/core/sentence-obfuscator.js:60-85 | every direct text node is rewritten or kept by that rule, and the count is the number of eligible nodes |
| SentenceObfuscation.ObfuscateElement | lib/core/sentence-obfuscator.js:43-85 | an exempt or already marked element keeps all its nodes; any other element has its nodes treated by that rule |
| SentenceObfuscation.ObfuscateElements | lib/core/sentence-obfuscator.js:42-86 | every element in document order is treated by the element rule |
| SentenceObfuscation.SentenceObfuscator.constructor | lib/core/sentence-obfuscator.js:5-10 | a rate of 0.99 and length limits of 11 and 2000 |
| SentenceObfuscation.SentenceObfuscator.SetObfuscationRate | lib/core/sentence-obfuscator.js:13-18 | only the rate changes |
| SentenceObfuscation.SentenceObfuscator.SetSentenceLengthLimits | lib/core/sentence-obfuscator.js:21-24 | only the limits change |
| SentenceObfuscation.SentenceObfuscator.ObfuscateSentences | lib/core/sentence-obfuscator.js:27-97 | empty input or a failed parse gives the input back; otherwise every element is treated by the element rule with the object's limits |
| SentenceObfuscation.IsTextObfuscatable | lib/core/sentence-obfuscator.js:257-279 | false exactly for blank text, an exempt parent tag or text that looks like code |
| SentenceObfuscation.BracketedTextIsCode | lib/core/sentence-obfuscator.js:272 | `[1,2]` looks like code |
| SentenceObfuscation.FunctionTextIsCode | lib/core/sentence-obfuscator.js:273 | `function (` looks like code |
| SentenceObfuscation.VarTextIsCode | lib/core/sentence-obfuscator.js:274 | `var x=` looks like code |
| SentenceObfuscation.NoCodeWithoutFOrV | lib/core/sentence-obfuscator.js:273-274 | text without `f` or `v` matches neither code pattern |
| SentenceObfuscation.ProseIsObfuscatable | lib/core/sentence-obfuscator.js:257-279 | prose in a paragraph can be obfuscated, but not in a `textarea` |
| Engine.MarkerHasBody | lib/obfuscation-engine.js:248-249 | every random marker has the shape the marker patterns look for |
| Engine.CodeCommentIsMarker | lib/obfuscation-engine.js:248 | the engine's code comment matches the CSS/JS marker pattern |
| Engine.HtmlCommentIsMarker | lib/obfuscation-engine.js:249 | the engine's HTML comment matches the HTML marker pattern |
| Engine.WrappedFound | lib/obfuscation-engine.js:248-249 | a marker anywhere in the content is found |
| Engine.LegacyDetected | lib/obfuscation-engine.js:250-252 | the older fixed `OBFUSCATED` markers after `/*`, `<!--` or `//` are recognised |
| Engine.NothingFoundWithoutOpener | lib/obfuscation-engine.js:245-256 | content without `/` or `<` is never taken as obfuscated |
| Engine.Transform | lib/obfuscation-engine.js:182-206 | documents go through the document, keyword and sentence passes and get the HTML marker line; scripts and style sheets get the code marker line; failures are exactly those of the document and script passes |
| Engine.Process | lib/obfuscation-engine.js:156-236 | skipped for its extension, its size or a marker, in that order; not written when a pass throws; otherwise the transformed content is written, after the class shuffle for documents |
| Engine.WrittenIsMarked | lib/obfuscation-engine.js:177-205 | everything written carries a marker |
| Engine.SecondRunSkips | lib/obfuscation-engine.js:177-180 | a second run skips every file the first run wrote |
| Engine.WritesFromFiles | lib/obfuscation-engine.js:156-240 | every written path belongs to a listed file, and holds what that file's treatment wrote |
| Engine.WritesSound | lib/obfuscation-engine.js:156-240 | only text files within the size limit and without a marker are written, and each written text carries a marker |
| Engine.RunWritesAppend | lib/obfuscation-engine.js:95-124 | the directory loop is sequential: two lists run one after the other are their concatenation |
| Engine.FailedDirectoryIsolated | lib/obfuscation-engine.js:100-123 | a directory whose file-structure step throws writes nothing and does not stop the loop |
| Engine.Dirname | lib/obfuscation-engine.js:31 | `path.dirname` is `.`, a root, or a proper prefix of the path |
| Engine.DirnameOfChild | lib/obfuscation-engine.js:31 | the parent of `parent/name` is `parent` |
| Engine.OrElse | lib/obfuscation-engine.js:21-29 | a given option wins over its default |
| Engine.NewKeywordPass | lib/obfuscation-engine.js:50-55 | the keyword pass exists exactly when enabled, with the given rate |
| Engine.NewSentencePass | lib/obfuscation-engine.js:58-63 | the sentence pass exists exactly when enabled, with the given rate |
| Engine.ObfuscationEngine.constructor | lib/obfuscation-engine.js:19-78 | the defaults; output next to the target when `.`; the two markers drawn in order; a mapping without classes or ids |
| Engine.ObfuscationEngine.Config | lib/obfuscation-engine.js:187-192 | a pass runs exactly when its flag is on and its object exists |
| Engine.ObfuscationEngine.ProcessFilesWith | lib/obfuscation-engine.js:156-240 | the file loop writes exactly what the specification of the loop writes |
| Engine.ObfuscationEngine.ProcessFiles | lib/obfuscation-engine.js:151-243 | `processFiles` with the engine's own settings |
| Engine.ObfuscationEngine.RunWith | lib/obfuscation-engine.js:96-124 | the directory loop writes the directories' writes in order |
| Engine.ObfuscationEngine.Run | lib/obfuscation-engine.js:80-127 | `run` with the engine's own settings |
| Engine.EngineMarkersWrapped | lib/obfuscation-engine.js:66-67 | the engine's two markers are comments the marker test recognises |

## Left out

- File I/O is not modelled. This covers `fs.readFile`, `fs.writeFile`, `fs.stat`, `walkDir`, `pathExists` and the `key.txt` lookup. The engine sees each file as a value (path, extension, size, text) and records its writes in a map. `loadKeywords` gets the outcome of reading the file as a parameter.
- The cheerio DOM is not modelled. A parsed document is handed in as the values each pass reads: element views, style texts, and attribute pairs. Two more things follow from this:
  - Serialising the document again (`$.html()`) is not modelled.
  - In the engine, the class shuffle at lib/obfuscation-engine.js:212-235 is a parameter: it uses `shorthash` and `Math.random` on the tree. `Engine.WrittenIsMarked`, `Engine.SecondRunSkips` and `Engine.WritesSound` require that the shuffle keeps a comment marker.
- `HtmlObfuscator.obfuscate` (lib/core/html-obfuscator.js:255-398) is a parameter of the engine. This covers its structure, attribute, tag, shuffle, fake-comment, entity and whitespace passes (lines 499-1004), all of which are random edits of the DOM. Its class/id step and its minimal mode are modelled.
- The PostCSS pipeline is a parameter of `CssObfuscation.Obfuscate`. This covers cssnano and `_addDeadCode` (lib/core/css-obfuscator.js:182-201, which uses `Date.now` and `Math.random`). The selector visitor is modelled as `CssObfuscation.RewriteRule` with `WordBoundary`.
- `JsObfuscator` is not part of this model. It appears only as the `obfuscateJs` and `js` parameters.
- The keyword methods that nothing calls are not modelled: `obfuscateWithSpan`, `obfuscateWithMixed`, `addNoiseElements`, `obfuscateAroundKeyword`, `createObfuscatedSpan` and `createMixedObfuscation`. The same goes for the unused sentence methods `splitTextWithSpans`, `mixedTextObfuscation` and `generateRandomAttributes`. It also goes for `randomAttribute`, `randomObfuscationMethod`, `randomInlineStyle`, `randomHtmlTextTag` and `randomHtmlTextTags`, which the core passes never call.
- Debug switches and console output are not modelled: `enableDebug`, `disableDebug` and every `console` call. `WARNING_SIZE` is left out because it only decides whether a line is logged.
- `MAX_SAFE_STRING_LENGTH` is a parameter (`Engine.Limits`), because lib/utils/const.js is not part of this model.
- The engine's `options` record and `version.json` are not modelled. `MappingManager`, `FileStructureObfuscator` and `BackupManager` are not part of this model. In particular, the engine's mapping is modelled only as what the passes see of it: no class or id tables. The creation of the work directories is reduced to the list of `WorkDir` values that `run` loops over.
- `Engine.ObfuscationEngine.Run` does not call `loadKeywords`. The keyword pass reaches the engine as the `keywords` parameter of `Engine.Passes`. `KeywordObfuscation.KeywordObfuscator.LoadKeywords` models that call on its own.
- `collectMappings` of lib/obfuscation-engine.js:128-149 is not modelled. Its only call, at line 87, is commented out.
- Saving the mapping file and printing statistics after each directory (lib/obfuscation-engine.js:109-117) are not modelled. A failure there comes after the directory's files are written and is caught like any other.
- Strings are sequences of code points, not UTF-16 code units. Lengths differ for characters outside the Basic Multilingual Plane.
- The case folding of the `i` regular-expression flag is modelled for ASCII and Latin-1 only (`JsString.Canonicalize`).
- `$` patterns in replacement strings are not modelled. The random identifiers used as replacements never contain `$`.
- The sentence pass's `obfuscationRate` is stored but never consulted, as in the source.
- `getStructureIntensityConfig` of a name such as `constructor` or `toString` is not modelled. In JavaScript such a name reaches `Object.prototype` rather than the `medium` default.
- KeywordObfuscation.KeywordObfuscator.ObfuscateKeywords: states that the result only inserts text into the document. It does not state which matches receive entities.
- KeywordObfuscation.SortByLengthDesc: states sorted and a permutation. It does not state that keywords of equal length keep their dictionary order, which the stable `Array.prototype.sort` guarantees and the insertion sort does in fact keep.
- KeywordObfuscation.SpliceMatches: states that the loop only inserts and keeps the earlier ranges. The skipped and spliced matches are stated per match by `KeywordObfuscation.ProcessMatch`.
- Engine.ObfuscationEngine.constructor: `keywordObfuscationRate` and `sentenceObfuscationRate` are modelled as reals, not as IEEE doubles.

## Findings

| source | as written | input that shows it | evidently intended | confidence | as-written member | corrected member |
|---|---|---|---|---|---|---|
| lib/core/css-obfuscator.js:219 | the pattern `\.name\b` ends at a word boundary, and `-` is not a word character, so the rename of a class also rewrites the front of every longer class that continues with `-` | class `text` renamed to `x9Q`; the selector `.text-muted` becomes `.x9Q-muted`, although the style-sheet rules protect `text-muted` (pattern `^text-\w+`) and the documents keep it | a selector name is replaced only when the whole name (a run of `[\w-]`) equals the renamed class; the same holds for ids at line 231 | not executed | CssObfuscation.RuleTextMutedAsWritten | CssObfuscation.RuleWholeNameOnly |
