/**
  The driver of lib/obfuscation-engine.js: which files of a work directory are
  rewritten, in which order the passes run on them, the marker that makes a second run
  leave a rewritten file alone, and the loop over the work directories.
  The file system is seen through what the driver reads of each file (its path, the
  extension `path.extname` gives, its size in bytes and its text) and through the map of
  files it has written. The passes that are not part of this model (the document pass of
  `HtmlObfuscator.obfuscate`, the JavaScript obfuscator, the PostCSS pipeline, and the
  keyword and sentence passes on serialised text) are parameters.
*/
module Engine {
  import opened Wrappers
  import opened JsString
  import opened RandomUtils
  import opened SymbolTable
  import CssObfuscation
  import KeywordObfuscation
  import SentenceObfuscation

  // ---------------------------------------------------------------- idempotency markers

  /** `[A-Z_]`: a character of the first two marker words. */
  predicate IsWordHead(c: char) { IsUpper(c) || c == '_' }

  /** `[a-z0-9]`: a character of the time stamp. */
  predicate IsStampChar(c: char) { IsLower(c) || IsDigit(c) }

  predicate HeadRun(s: string) { |s| > 0 && forall i :: 0 <= i < |s| ==> IsWordHead(s[i]) }
  predicate DigitRun(s: string) { |s| > 0 && forall i :: 0 <= i < |s| ==> IsDigit(s[i]) }
  predicate StampRun(s: string) { |s| > 0 && forall i :: 0 <= i < |s| ==> IsStampChar(s[i]) }
  predicate AllSpace(s: string) { forall i :: 0 <= i < |s| ==> IsSpace(s[i]) }

  /** `t` read as four runs split by underscores at `a`, `b` and `c`. */
  predicate MarkerSplit(t: string, a: nat, b: nat, c: nat) {
    0 < a && a + 1 < b && b + 1 < c && c + 1 < |t| &&
    t[a] == '_' && t[b] == '_' && t[c] == '_' &&
    HeadRun(t[..a]) && HeadRun(t[a + 1..b]) && DigitRun(t[b + 1..c]) && StampRun(t[c + 1..])
  }

  /** The whole of `t` matches `[A-Z_]+_[A-Z_]+_\d+_[a-z0-9]+`: some choice of the three
      separating underscores splits it into the four runs. */
  predicate MarkerBody(t: string) {
    exists a: nat, b: nat, c: nat | a < b < c < |t| :: MarkerSplit(t, a, b, c)
  }

  /** `t` read as `open`, spaces up to `p`, a marker up to `q`, spaces, and `close`. */
  predicate WrappedAt(t: string, open: string, close: string, p: nat, q: nat) {
    |open| <= p <= q && q + |close| <= |t| &&
    t[..|open|] == open && t[|t| - |close|..] == close &&
    AllSpace(t[|open|..p]) && MarkerBody(t[p..q]) && AllSpace(t[q..|t| - |close|])
  }

  /** The whole of `t` matches `open\s*BODY\s*close`. */
  predicate WrappedMarker(t: string, open: string, close: string) {
    exists p: nat, q: nat | p <= q <= |t| :: WrappedAt(t, open, close, p, q)
  }

  /** `s[i..j]` is a wrapped marker. */
  predicate WrappedIn(s: string, open: string, close: string, i: nat, j: nat) {
    i <= j <= |s| && WrappedMarker(s[i..j], open, close)
  }

  /** The search for a wrapped marker somewhere in `s`. */
  predicate ContainsWrapped(s: string, open: string, close: string) {
    exists i: nat, j: nat | i <= j <= |s| :: WrappedIn(s, open, close, i, j)
  }

  /** `open` at `i`, spaces, and `OBFUSCATED` at `k`. */
  predicate LegacyAt(s: string, open: string, i: nat, k: nat) {
    i + |open| <= k && k + 10 <= |s| &&
    s[i..i + |open|] == open && AllSpace(s[i + |open|..k]) && s[k..k + 10] == "OBFUSCATED"
  }

  /** The search for `open\s*OBFUSCATED` somewhere in `s`: the fixed markers of earlier
      versions. */
  predicate ContainsLegacy(s: string, open: string) {
    exists i: nat, k: nat | i <= k <= |s| :: LegacyAt(s, open, i, k)
  }

  /** `isAlreadyObfuscated(content)`: one of the five patterns is found. */
  predicate IsAlreadyObfuscated(content: string) {
    ContainsWrapped(content, "/*", "*/") || ContainsWrapped(content, "<!--", "-->") ||
    ContainsLegacy(content, "/*") || ContainsLegacy(content, "<!--") || ContainsLegacy(content, "//")
  }

  /** Four runs joined by underscores match the marker pattern. */
  lemma {:induction false} MarkerOfRuns(x: string, y: string, d: string, z: string)
    requires HeadRun(x) && HeadRun(y) && DigitRun(d) && StampRun(z)
    ensures MarkerBody(x + "_" + y + "_" + d + "_" + z)
  {
    var m := x + "_" + y + "_" + d + "_" + z;
    var a := |x|;
    var b := a + 1 + |y|;
    var c := b + 1 + |d|;
    assert m[..a] == x;
    assert m[a + 1..b] == y;
    assert m[b + 1..c] == d;
    assert m[c + 1..] == z;
    assert MarkerSplit(m, a, b, c);
  }

  /** Every marker `randomObfuscationMarker` draws has the form the detection looks for. */
  lemma {:induction false} MarkerHasBody(m: string)
    requires IsMarker(m)
    ensures MarkerBody(m)
  {
    var i, j, n, t: nat :| 0 <= i < |MarkerPrefixes| && 0 <= j < |MarkerSuffixes| && 1000 <= n <= 9999 &&
      m == MarkerPrefixes[i] + "_" + MarkerSuffixes[j] + "_" + ToDecimal(n) + "_" + ToBase36(t);
    MarkerPrefixesAreUpper();
    MarkerSuffixesAreUpper();
    MarkerOfRuns(MarkerPrefixes[i], MarkerSuffixes[j], ToDecimal(n), ToBase36(t));
  }

  /** A marker between single spaces and the comment delimiters is a wrapped marker. */
  lemma {:induction false} WrappedOfParts(t: string, open: string, close: string)
    requires |open| + |close| + 2 <= |t|
    requires t[..|open| + 1] == open + " " && t[|t| - |close| - 1..] == " " + close
    requires MarkerBody(t[|open| + 1..|t| - |close| - 1])
    ensures WrappedMarker(t, open, close)
  {
    var p := |open| + 1;
    var q := |t| - |close| - 1;
    assert t[..|open|] == t[..p][..|open|] == open;
    assert t[|t| - |close|..] == t[q..][1..] == close;
    assert t[|open|..p] == t[..p][|open|..] == " ";
    assert t[q..|t| - |close|] == t[q..][..1] == " ";
    assert WrappedAt(t, open, close, p, q);
  }

  /** `randomCodeComment()` output is a wrapped marker for the first pattern. */
  lemma {:induction false} CodeCommentIsMarker(g: Rng, now: nat)
    ensures WrappedMarker(RandomCodeComment(g, now), "/*", "*/")
  {
    var c := RandomCodeComment(g, now);
    MarkerHasBody(c[3..|c| - 3]);
    WrappedOfParts(c, "/*", "*/");
  }

  /** `randomHtmlComment()` output is a wrapped marker for the second pattern. */
  lemma {:induction false} HtmlCommentIsMarker(g: Rng, now: nat)
    ensures WrappedMarker(RandomHtmlComment(g, now), "<!--", "-->")
  {
    var c := RandomHtmlComment(g, now);
    MarkerHasBody(c[5..|c| - 4]);
    WrappedOfParts(c, "<!--", "-->");
  }

  /** A wrapped marker anywhere in a text is found. */
  lemma {:induction false} WrappedFound(pre: string, t: string, post: string, open: string, close: string)
    requires WrappedMarker(t, open, close)
    ensures ContainsWrapped(pre + t + post, open, close)
  {
    var s := pre + t + post;
    assert s[|pre|..|pre| + |t|] == t;
    assert WrappedIn(s, open, close, |pre|, |pre| + |t|);
  }

  /** Each of the fixed markers of earlier versions is found anywhere in a text. */
  lemma {:induction false} LegacyFound(pre: string, open: string, spaces: string, post: string)
    requires AllSpace(spaces)
    ensures ContainsLegacy(pre + open + spaces + "OBFUSCATED" + post, open)
  {
    var s := pre + open + spaces + "OBFUSCATED" + post;
    var i, k := |pre|, |pre| + |open| + |spaces|;
    assert s[i..i + |open|] == open;
    assert s[i + |open|..k] == spaces;
    assert s[k..k + 10] == "OBFUSCATED";
    assert LegacyAt(s, open, i, k);
  }

  /** The three fixed markers (a block-comment opening, an HTML-comment opening or a line
      comment, then any run of spaces and `OBFUSCATED`) are found wherever they appear. */
  lemma {:induction false} LegacyDetected(pre: string, open: string, spaces: string, post: string)
    requires open == "/*" || open == "<!--" || open == "//"
    requires AllSpace(spaces)
    ensures IsAlreadyObfuscated(pre + open + spaces + "OBFUSCATED" + post)
  {
    LegacyFound(pre, open, spaces, post);
  }

  /** A pattern that starts with a character absent from `s` is not found in it. */
  lemma {:induction false} NoLegacyWithout(s: string, open: string)
    requires open != [] && forall i :: 0 <= i < |s| ==> s[i] != open[0]
    ensures !ContainsLegacy(s, open)
  {
    forall i: nat, k: nat | i <= k <= |s|
      ensures !LegacyAt(s, open, i, k)
    {
      if i + |open| <= |s| {
        assert s[i..i + |open|][0] == s[i];
      }
    }
  }

  lemma {:induction false} NoWrappedWithout(s: string, open: string, close: string)
    requires open != [] && forall i :: 0 <= i < |s| ==> s[i] != open[0]
    ensures !ContainsWrapped(s, open, close)
  {
    forall i: nat, j: nat | i <= j <= |s|
      ensures !WrappedIn(s, open, close, i, j)
    {
      var t := s[i..j];
      forall p: nat, q: nat | p <= q <= |t|
        ensures !WrappedAt(t, open, close, p, q)
      {
        if |open| <= |t| {
          assert t[..|open|][0] == s[i];
        }
      }
    }
  }

  /** Every pattern starts with `/` or `<`: a text holding neither is never taken for an
      obfuscated one. */
  lemma {:induction false} NothingFoundWithoutOpener(s: string)
    requires forall i :: 0 <= i < |s| ==> s[i] != '/' && s[i] != '<'
    ensures !IsAlreadyObfuscated(s)
  {
    NoWrappedWithout(s, "/*", "*/");
    NoWrappedWithout(s, "<!--", "-->");
    NoLegacyWithout(s, "/*");
    NoLegacyWithout(s, "<!--");
    NoLegacyWithout(s, "//");
  }

  // ---------------------------------------------------------------- one file

  /** What `processFiles` reads of one file: its path, the extension `path.extname`
      gives, its size in bytes and its text. */
  datatype FileEntry = FileEntry(path: string, ext: string, size: nat, content: string)

  /** `MAX_SAFE_STRING_LENGTH`: larger files are skipped. (`WARNING_SIZE` only decides
      whether a log line is printed, so it has no part here.) */
  datatype Limits = Limits(maxSafeLength: nat)

  /** The passes a file goes through. `html` is `HtmlObfuscator.obfuscate` with the
      engine's mapping, `js` is `JsObfuscator.obfuscate`, `postcss` is the PostCSS pipeline
      inside `CssObfuscator.obfuscate`; `keywords` and `sentences` are the keyword and
      sentence passes on the text; `shuffleClasses` is the class shuffle a written document
      goes through, parsed and serialised again. `Failure` and `None` stand for a thrown
      error. The keyword and sentence passes, the script obfuscator and the class shuffle
      draw random numbers; each function here is the one outcome of those draws that the
      run in question produces. */
  datatype Passes = Passes(
    html: string -> Result<string>,
    keywords: string -> string,
    sentences: string -> string,
    postcss: string -> Option<string>,
    js: string -> Result<string>,
    shuffleClasses: string -> string)

  /** What of the engine a file's treatment depends on. `keywordPass` and `sentencePass`
      are the option flag together with the presence of the pass object. */
  datatype Settings = Settings(keywordPass: bool, sentencePass: bool, htmlMarker: string, codeMarker: string, limits: Limits)

  /** What happens to one file: skipped for its extension, for its size or for a marker
      it already carries, left unwritten after a pass threw, or written. */
  datatype Outcome = NotText | TooLarge | AlreadyDone | Failed(error: string) | Written(content: string)

  predicate IsHtmlExtension(ext: string) { ext == ".html" || ext == ".htm" }

  predicate IsTextExtension(ext: string) { IsHtmlExtension(ext) || ext == ".css" || ext == ".js" }

  /** `c` starts with the line `m`. */
  predicate StartsWithLine(c: string, m: string) {
    |m| < |c| && c[..|m| + 1] == m + "\n"
  }

  /** The pass order: a document goes through the document pass, then the keyword pass,
      then the sentence pass, and gets the document marker and a line break in front; a
      style sheet or a script goes through its own pass and gets the code marker. */
  function Transform(ext: string, content: string, s: Settings, p: Passes): (r: Result<string>)
    requires IsTextExtension(ext)
    ensures IsHtmlExtension(ext) ==> (r.Success? <==> p.html(content).Success?)
    ensures ext == ".js" ==> (r.Success? <==> p.js(content).Success?)
    ensures ext == ".css" ==> r.Success?
    ensures r.Success? && IsHtmlExtension(ext) ==> StartsWithLine(r.value, s.htmlMarker)
    ensures r.Success? && !IsHtmlExtension(ext) ==> StartsWithLine(r.value, s.codeMarker)
    ensures r.Success? && IsHtmlExtension(ext) && !s.keywordPass && !s.sentencePass ==>
      r.value == s.htmlMarker + "\n" + p.html(content).value
    ensures ext == ".css" && p.postcss(CssObfuscation.CollapseNewlines(content)).None? ==>
      r.value == s.codeMarker + "\n" + content
  {
    if IsHtmlExtension(ext) then
      match p.html(content)
      case Failure(e) => Failure(e)
      case Success(h) =>
        var k := if s.keywordPass then p.keywords(h) else h;
        var t := if s.sentencePass then p.sentences(k) else k;
        Success(s.htmlMarker + "\n" + t)
    else
      var body := if ext == ".css" then Success(CssObfuscation.Obfuscate(content, p.postcss)) else p.js(content);
      match body
      case Failure(e) => Failure(e)
      case Success(b) => Success(s.codeMarker + "\n" + b)
  }

  /** One iteration of the loop in `processFiles`, up to the write. */
  function Process(f: FileEntry, s: Settings, p: Passes): (o: Outcome)
    ensures o == NotText <==> !IsTextExtension(f.ext)
    ensures o == TooLarge <==> IsTextExtension(f.ext) && f.size > s.limits.maxSafeLength
    ensures o == AlreadyDone <==>
      IsTextExtension(f.ext) && f.size <= s.limits.maxSafeLength && IsAlreadyObfuscated(f.content)
    ensures o.Failed? <==>
      IsTextExtension(f.ext) && f.size <= s.limits.maxSafeLength && !IsAlreadyObfuscated(f.content) &&
      Transform(f.ext, f.content, s, p).Failure?
    ensures o.Written? && IsHtmlExtension(f.ext) ==> o.content == p.shuffleClasses(Transform(f.ext, f.content, s, p).value)
    ensures o.Written? && !IsHtmlExtension(f.ext) ==> o.content == Transform(f.ext, f.content, s, p).value
  {
    if !IsTextExtension(f.ext) then NotText
    else if f.size > s.limits.maxSafeLength then TooLarge
    else if IsAlreadyObfuscated(f.content) then AlreadyDone
    else match Transform(f.ext, f.content, s, p)
      case Failure(e) => Failed(e)
      case Success(c) => Written(if IsHtmlExtension(f.ext) then p.shuffleClasses(c) else c)
  }

  /** The markers are the random comments the engine draws. */
  predicate MarkersWrapped(s: Settings) {
    WrappedMarker(s.htmlMarker, "<!--", "-->") && WrappedMarker(s.codeMarker, "/*", "*/")
  }

  /** Parsing and serialising a document again keeps a comment marker in it. */
  ghost predicate ShuffleKeepsMarker(p: Passes) {
    forall c {:trigger p.shuffleClasses(c)} ::
      ContainsWrapped(c, "<!--", "-->") ==> ContainsWrapped(p.shuffleClasses(c), "<!--", "-->")
  }

  /** Whatever the engine writes carries its marker, so the next run skips it. */
  lemma {:induction false} WrittenIsMarked(f: FileEntry, s: Settings, p: Passes)
    requires MarkersWrapped(s) && ShuffleKeepsMarker(p)
    requires Process(f, s, p).Written?
    ensures IsAlreadyObfuscated(Process(f, s, p).content)
  {
    var c := Process(f, s, p).content;
    if IsHtmlExtension(f.ext) {
      var t := Transform(f.ext, f.content, s, p).value;
      MarkedLineFound(t, s.htmlMarker, "<!--", "-->");
      assert c == p.shuffleClasses(t);
    } else {
      MarkedLineFound(c, s.codeMarker, "/*", "*/");
    }
  }

  /** A text whose first line is a wrapped marker contains one. */
  lemma {:induction false} MarkedLineFound(c: string, m: string, open: string, close: string)
    requires WrappedMarker(m, open, close) && StartsWithLine(c, m)
    ensures ContainsWrapped(c, open, close)
  {
    assert c[..|m|] == c[..|m| + 1][..|m|] == m;
    assert WrappedIn(c, open, close, 0, |m|);
  }

  /** A second run over a written file skips it, whatever it was before. */
  lemma {:induction false} SecondRunSkips(f: FileEntry, s: Settings, p: Passes, size: nat)
    requires MarkersWrapped(s) && ShuffleKeepsMarker(p)
    requires Process(f, s, p).Written? && size <= s.limits.maxSafeLength
    ensures Process(FileEntry(f.path, f.ext, size, Process(f, s, p).content), s, p) == AlreadyDone
  {
    WrittenIsMarked(f, s, p);
  }

  // ---------------------------------------------------------------- the directories

  /** The treatment of one file under settings `s` and passes `p`. */
  function Step(s: Settings, p: Passes): (step: FileEntry -> Outcome)
    ensures forall f :: step(f) == Process(f, s, p)
  {
    f => Process(f, s, p)
  }

  /** The files written by `processFiles` over `files`, in order, each file treated by
      `step`: a later write of the same path replaces an earlier one. */
  function Writes(files: seq<FileEntry>, step: FileEntry -> Outcome): map<string, string>
    decreases |files|
  {
    if files == [] then map[]
    else
      var w := Writes(files[..|files| - 1], step);
      var f := files[|files| - 1];
      match step(f)
      case Written(c) => w[f.path := c]
      case _ => w
  }

  /** Every written path belongs to a listed file, whose treatment wrote what is there. */
  lemma {:induction false} WritesFromFiles(files: seq<FileEntry>, step: FileEntry -> Outcome, path: string)
    requires path in Writes(files, step)
    ensures exists i :: (0 <= i < |files| && files[i].path == path &&
      step(files[i]) == Written(Writes(files, step)[path]))
    decreases |files|
  {
    var init, f := files[..|files| - 1], files[|files| - 1];
    if step(f).Written? && f.path == path {
      assert files[|files| - 1] == f;
    } else {
      WritesFromFiles(init, step, path);
      var i :| 0 <= i < |init| && init[i].path == path && step(init[i]) == Written(Writes(init, step)[path]);
      assert files[i] == init[i];
    }
  }

  /** Only text files within the size limit and without a marker are written, and every
      written text carries a marker. */
  lemma {:induction false} WritesSound(files: seq<FileEntry>, s: Settings, p: Passes, path: string)
    requires MarkersWrapped(s) && ShuffleKeepsMarker(p)
    requires path in Writes(files, Step(s, p))
    ensures exists i :: (0 <= i < |files| && files[i].path == path && IsTextExtension(files[i].ext) &&
      files[i].size <= s.limits.maxSafeLength && !IsAlreadyObfuscated(files[i].content))
    ensures IsAlreadyObfuscated(Writes(files, Step(s, p))[path])
  {
    WritesFromFiles(files, Step(s, p), path);
    var i :| 0 <= i < |files| && files[i].path == path &&
      Step(s, p)(files[i]) == Written(Writes(files, Step(s, p))[path]);
    WrittenIsMarked(files[i], s, p);
  }

  /** A work directory as `run` meets it: its name, its files, and whether the
      file-structure pass before `processFiles` went through. */
  datatype WorkDir = WorkDir(name: string, files: seq<FileEntry>, restructured: bool)

  /** The files written by `run` over the work directories, in order. A directory whose
      step threw contributes nothing and the loop goes on. */
  function RunWrites(dirs: seq<WorkDir>, step: FileEntry -> Outcome): map<string, string>
    decreases |dirs|
  {
    if dirs == [] then map[]
    else
      var d := dirs[|dirs| - 1];
      RunWrites(dirs[..|dirs| - 1], step) + (if d.restructured then Writes(d.files, step) else map[])
  }

  /** The loop is sequential: running two lists of directories one after the other is
      running their concatenation. */
  lemma {:induction false} RunWritesAppend(a: seq<WorkDir>, b: seq<WorkDir>, step: FileEntry -> Outcome)
    ensures RunWrites(a + b, step) == RunWrites(a, step) + RunWrites(b, step)
    decreases |b|
  {
    if b == [] {
      assert a + b == a;
    } else {
      var init, d := b[..|b| - 1], b[|b| - 1];
      var extra := if d.restructured then Writes(d.files, step) else map[];
      assert (a + b)[..|a + b| - 1] == a + init && (a + b)[|a + b| - 1] == d;
      assert RunWrites(a + b, step) == RunWrites(a + init, step) + extra;
      assert RunWrites(b, step) == RunWrites(init, step) + extra;
      RunWritesAppend(a, init, step);
      UnionAssociative(RunWrites(a, step), RunWrites(init, step), extra);
    }
  }

  lemma {:induction false} UnionAssociative(x: map<string, string>, y: map<string, string>, z: map<string, string>)
    ensures (x + y) + z == x + (y + z)
  {
  }

  /** A directory whose step threw stops neither the directories before it nor those
      after it. */
  lemma {:induction false} FailedDirectoryIsolated(a: seq<WorkDir>, d: WorkDir, b: seq<WorkDir>, step: FileEntry -> Outcome)
    requires !d.restructured
    ensures RunWrites(a + [d] + b, step) == RunWrites(a, step) + RunWrites(b, step)
  {
    RunWritesAppend(a + [d], b, step);
    assert (a + [d])[..|a + [d]| - 1] == a && (a + [d])[|a + [d]| - 1] == d;
    var empty: map<string, string> := map[];
    assert RunWrites(a + [d], step) == RunWrites(a, step) + empty;
    assert RunWrites(a, step) + empty == RunWrites(a, step);
    assert a + [d] + b == (a + [d]) + b;
  }

  // ---------------------------------------------------------------- the engine

  /** `path.dirname` on POSIX paths: everything before the last separator that follows a
      non-separator, ignoring trailing separators; `.` when there is none, `/` for a path
      under the root. */
  function Dirname(path: string): (r: string)
    ensures r == "." || r == "/" || r == "//" || (0 < |r| < |path| && r == path[..|r|])
  {
    if path == [] then "."
    else
      var end := SeparatorEnd(path, |path| - 1, true);
      if end == -1 then (if path[0] == '/' then "/" else ".")
      else if path[0] == '/' && end == 1 then "//"
      else path[..end]
  }

  /** The scan of `path.dirname` from index `i` down to 1: the first separator met after a
      non-separator has been seen, or -1. */
  function SeparatorEnd(path: string, i: nat, matchedSlash: bool): (end: int)
    requires i < |path|
    ensures end == -1 || 1 <= end <= i
    decreases i
  {
    if i == 0 then -1
    else if path[i] == '/' then (if !matchedSlash then i else SeparatorEnd(path, i - 1, true))
    else SeparatorEnd(path, i - 1, false)
  }

  /** The scan passes over a name without separators and stops at the separator before it. */
  lemma {:induction false} SeparatorEndInName(parent: string, name: string, i: nat, matchedSlash: bool)
    requires name != [] && forall k :: 0 <= k < |name| ==> name[k] != '/'
    requires |parent| <= i < |parent| + 1 + |name| && 1 <= |parent|
    requires matchedSlash ==> i == |parent| + |name|
    ensures SeparatorEnd(parent + "/" + name, i, matchedSlash) == |parent|
    decreases i
  {
    var path := parent + "/" + name;
    if i == |parent| {
      assert path[i] == '/';
    } else {
      assert path[i] == name[i - |parent| - 1];
      SeparatorEndInName(parent, name, i - 1, false);
    }
  }

  /** The directory of `parent/name` is `parent`, for a name without separators and a
      parent without a trailing one. */
  lemma {:induction false} DirnameOfChild(parent: string, name: string)
    requires parent != [] && parent[|parent| - 1] != '/'
    requires name != [] && forall k :: 0 <= k < |name| ==> name[k] != '/'
    ensures Dirname(parent + "/" + name) == parent
  {
    var path := parent + "/" + name;
    SeparatorEndInName(parent, name, |path| - 1, true);
    assert path[..|parent|] == parent;
  }

  /** The constructor's options; `None` is an option left out, which takes its default. */
  datatype Options = Options(
    targetDir: string,
    outputDir: Option<string>,
    outCount: Option<int>,
    keywordObfuscationRate: Option<real>,
    enableKeywordObfuscation: Option<bool>,
    sentenceObfuscationRate: Option<real>,
    enableSentenceObfuscation: Option<bool>)

  function OrElse<T>(o: Option<T>, default: T): (r: T)
    ensures o.Some? ==> r == o.value
    ensures o.None? ==> r == default
  {
    match o
    case Some(v) => v
    case None => default
  }

  /** The keyword pass the constructor sets up when it is enabled. */
  method NewKeywordPass(enabled: bool, rate: real) returns (k: KeywordObfuscation.KeywordObfuscator?)
    ensures (k != null) == enabled
    ensures k != null ==> fresh(k) && k.obfuscationRate == rate && k.keywords == [] && !k.keywordsLoaded
  {
    k := null;
    if enabled {
      k := new KeywordObfuscation.KeywordObfuscator();
      k.SetObfuscationRate(rate);
    }
  }

  /** The sentence pass the constructor sets up when it is enabled. */
  method NewSentencePass(enabled: bool, rate: real) returns (t: SentenceObfuscation.SentenceObfuscator?)
    ensures (t != null) == enabled
    ensures t != null ==> fresh(t) && t.obfuscationRate == rate
  {
    t := null;
    if enabled {
      t := new SentenceObfuscation.SentenceObfuscator();
      t.SetObfuscationRate(rate);
    }
  }

  class ObfuscationEngine {
    var targetDir: string
    var outputDir: string
    var outCount: int
    var enableKeywordObfuscation: bool
    var enableSentenceObfuscation: bool
    var keywordObfuscator: KeywordObfuscation.KeywordObfuscator?
    var sentenceObfuscator: SentenceObfuscation.SentenceObfuscator?
    var htmlMarker: string
    var codeMarker: string
    /** The mapping handed to the passes: it keeps only the global names. */
    var mapping: MappingView
    /** The files written so far, by path. */
    var written: map<string, string>

    /** The constructor draws the document marker and then the code marker from `g`
        (three draws each); `htmlNow` and `codeNow` are the clock at each draw. */
    constructor(options: Options, g: Rng, htmlNow: nat, codeNow: nat)
      ensures targetDir == options.targetDir
      ensures OrElse(options.outputDir, ".") == "." ==> outputDir == Dirname(options.targetDir)
      ensures OrElse(options.outputDir, ".") != "." ==> outputDir == options.outputDir.value
      ensures outCount == OrElse(options.outCount, 1)
      ensures enableKeywordObfuscation == OrElse(options.enableKeywordObfuscation, true)
      ensures enableSentenceObfuscation == OrElse(options.enableSentenceObfuscation, true)
      ensures (keywordObfuscator != null) == enableKeywordObfuscation
      ensures keywordObfuscator != null ==> (fresh(keywordObfuscator) &&
        keywordObfuscator.obfuscationRate == OrElse(options.keywordObfuscationRate, 0.4) &&
        keywordObfuscator.keywords == [])
      ensures (sentenceObfuscator != null) == enableSentenceObfuscation
      ensures sentenceObfuscator != null ==> (fresh(sentenceObfuscator) &&
        sentenceObfuscator.obfuscationRate == OrElse(options.sentenceObfuscationRate, 0.6))
      ensures htmlMarker == RandomHtmlComment(g, htmlNow)
      ensures codeMarker == RandomCodeComment(g.Skip(3), codeNow)
      ensures mapping == MappingView(None, None)
      ensures written == map[]
    {
      var k := NewKeywordPass(OrElse(options.enableKeywordObfuscation, true), OrElse(options.keywordObfuscationRate, 0.4));
      var t := NewSentencePass(OrElse(options.enableSentenceObfuscation, true), OrElse(options.sentenceObfuscationRate, 0.6));
      targetDir := options.targetDir;
      var out := OrElse(options.outputDir, ".");
      outputDir := if out == "." then Dirname(options.targetDir) else out;
      outCount := OrElse(options.outCount, 1);
      enableKeywordObfuscation := OrElse(options.enableKeywordObfuscation, true);
      enableSentenceObfuscation := OrElse(options.enableSentenceObfuscation, true);
      keywordObfuscator := k;
      sentenceObfuscator := t;
      htmlMarker := RandomHtmlComment(g, htmlNow);
      codeMarker := RandomCodeComment(g.Skip(3), codeNow);
      mapping := MappingView(None, None);
      written := map[];
    }

    /** What a file's treatment reads of the engine. */
    function Config(limits: Limits): (s: Settings)
      reads this`enableKeywordObfuscation, this`keywordObfuscator, this`enableSentenceObfuscation,
        this`sentenceObfuscator, this`htmlMarker, this`codeMarker
      ensures s.keywordPass <==> enableKeywordObfuscation && keywordObfuscator != null
      ensures s.sentencePass <==> enableSentenceObfuscation && sentenceObfuscator != null
      ensures s.htmlMarker == htmlMarker && s.codeMarker == codeMarker && s.limits == limits
    {
      Settings(enableKeywordObfuscation && keywordObfuscator != null,
               enableSentenceObfuscation && sentenceObfuscator != null,
               htmlMarker, codeMarker, limits)
    }

    /** The loop of `processFiles` over the files `walkDir` lists, in order, each file
        treated by `step`; a file whose treatment writes it is written. */
    method ProcessFilesWith(files: seq<FileEntry>, step: FileEntry -> Outcome)
      modifies this`written
      ensures written == old(written) + Writes(files, step)
    {
      for i := 0 to |files|
        invariant written == old(written) + Writes(files[..i], step)
      {
        assert files[..i + 1][..i] == files[..i];
        var f := files[i];
        match step(f)
        case Written(c) => written := written[f.path := c];
        case _ =>
      }
      assert files[..|files|] == files;
    }

    /** `processFiles(workDir)` with the engine's settings. */
    method ProcessFiles(files: seq<FileEntry>, limits: Limits, passes: Passes)
      modifies this`written
      ensures written == old(written) + Writes(files, Step(Config(limits), passes))
    {
      ProcessFilesWith(files, Step(Config(limits), passes));
    }

    /** The loop of `run` over the work directories, one at a time in order: a directory
        whose file-structure step threw is reported and the loop goes on. */
    method RunWith(dirs: seq<WorkDir>, step: FileEntry -> Outcome)
      modifies this`written
      ensures written == old(written) + RunWrites(dirs, step)
    {
      ghost var w0 := written;
      for i := 0 to |dirs|
        invariant written == w0 + RunWrites(dirs[..i], step)
      {
        var d := dirs[i];
        var extra := if d.restructured then Writes(d.files, step) else map[];
        assert dirs[..i + 1][..i] == dirs[..i] && dirs[..i + 1][i] == d;
        assert RunWrites(dirs[..i + 1], step) == RunWrites(dirs[..i], step) + extra;
        if d.restructured {
          ProcessFilesWith(d.files, step);
        }
        UnionAssociative(w0, RunWrites(dirs[..i], step), extra);
      }
      assert dirs[..|dirs|] == dirs;
    }

    /** `run()` over the work directories `BackupManager.prepare` made, with the engine's
        settings. */
    method Run(dirs: seq<WorkDir>, limits: Limits, passes: Passes)
      modifies this`written
      ensures written == old(written) + RunWrites(dirs, Step(Config(limits), passes))
    {
      RunWith(dirs, Step(Config(limits), passes));
    }
  }

  /** The engine's markers are the random comments, so what it writes is skipped next time. */
  lemma {:induction false} EngineMarkersWrapped(g: Rng, htmlNow: nat, codeNow: nat, limits: Limits, keywordPass: bool, sentencePass: bool)
    ensures MarkersWrapped(Settings(keywordPass, sentencePass, RandomHtmlComment(g, htmlNow), RandomCodeComment(g.Skip(3), codeNow), limits))
  {
    HtmlCommentIsMarker(g, htmlNow);
    CodeCommentIsMarker(g.Skip(3), codeNow);
  }
}
