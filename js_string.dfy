/**
  The JavaScript string and regular-expression primitives the engine is built on,
  stated over `seq<char>` (one element per code point).
 */
module JsString {

  /** `\s` in a JavaScript regular expression: the characters `String.prototype.trim` also removes. */
  predicate IsSpace(c: char) {
    c == '\t' || c == '\n' || c == '\U{000B}' || c == '\U{000C}' || c == '\r' || c == ' ' ||
    c == '\U{00A0}' || c == '\U{1680}' || ('\U{2000}' <= c <= '\U{200A}') ||
    c == '\U{2028}' || c == '\U{2029}' || c == '\U{202F}' || c == '\U{205F}' ||
    c == '\U{3000}' || c == '\U{FEFF}'
  }

  /** The characters `.` does not match in a regular expression without the `s` flag. */
  predicate IsLineTerminator(c: char) {
    c == '\n' || c == '\r' || c == '\U{2028}' || c == '\U{2029}'
  }

  predicate IsDigit(c: char) { '0' <= c <= '9' }
  predicate IsUpper(c: char) { 'A' <= c <= 'Z' }
  predicate IsLower(c: char) { 'a' <= c <= 'z' }
  predicate IsAsciiLetter(c: char) { IsUpper(c) || IsLower(c) }

  /** `\w` in a JavaScript regular expression. */
  predicate IsWordChar(c: char) { IsAsciiLetter(c) || IsDigit(c) || c == '_' }

  /** Case folding of a regular expression with the `i` flag and without `u`: the
      character's single upper-case form, for ASCII and Latin-1 letters. */
  function Canonicalize(c: char): (u: char)
    ensures IsAsciiLetter(c) ==> IsUpper(u) && (u == c || u as int == c as int - 32)
    ensures c as int < 128 && !IsLower(c) ==> u == c
  {
    if IsLower(c) then (c as int - 32) as char
    else if '\U{00E0}' <= c <= '\U{00FE}' && c != '\U{00F7}' then (c as int - 32) as char
    else if c == '\U{00FF}' then '\U{0178}'
    else if c == '\U{00B5}' then '\U{039C}'
    else c
  }

  /** Equal under the `i` flag. */
  predicate SameIgnoringCase(a: string, b: string) {
    |a| == |b| && forall i :: 0 <= i < |a| ==> Canonicalize(a[i]) == Canonicalize(b[i])
  }

  // ---------------------------------------------------------------- whitespace

  /** Length of the leading run of `\s`: what the pattern `^\s*` matches. */
  function LeadingSpaceCount(s: string): (n: nat)
    ensures n <= |s|
  {
    if s == [] || !IsSpace(s[0]) then 0 else 1 + LeadingSpaceCount(s[1..])
  }

  /** Length of the trailing run of `\s`: what the pattern `\s*$` matches. */
  function TrailingSpaceCount(s: string): (n: nat)
    ensures n <= |s|
  {
    if s == [] || !IsSpace(s[|s| - 1]) then 0 else 1 + TrailingSpaceCount(s[..|s| - 1])
  }

  /** The leading run is maximal. */
  lemma {:induction false} LeadingRun(s: string)
    ensures forall i :: 0 <= i < LeadingSpaceCount(s) ==> IsSpace(s[i])
    ensures LeadingSpaceCount(s) < |s| ==> !IsSpace(s[LeadingSpaceCount(s)])
    decreases |s|
  {
    if s != [] && IsSpace(s[0]) {
      LeadingRun(s[1..]);
    }
  }

  /** The trailing run is maximal. */
  lemma {:induction false} TrailingRun(s: string)
    ensures forall i :: |s| - TrailingSpaceCount(s) <= i < |s| ==> IsSpace(s[i])
    ensures TrailingSpaceCount(s) < |s| ==> !IsSpace(s[|s| - TrailingSpaceCount(s) - 1])
    decreases |s|
  {
    if s != [] && IsSpace(s[|s| - 1]) {
      var p := s[..|s| - 1];
      TrailingRun(p);
      assert forall i :: 0 <= i < |p| ==> p[i] == s[i];
    }
  }

  predicate IsBlank(s: string) { forall i :: 0 <= i < |s| ==> IsSpace(s[i]) }

  lemma {:induction false} BlankIffAllLeading(s: string)
    ensures IsBlank(s) <==> LeadingSpaceCount(s) == |s|
  {
    LeadingRun(s);
  }

  /** When the text is not blank, the leading and trailing runs do not meet. */
  lemma {:induction false} SpaceRunsDisjoint(s: string)
    requires !IsBlank(s)
    ensures LeadingSpaceCount(s) + TrailingSpaceCount(s) < |s|
  {
    LeadingRun(s);
    TrailingRun(s);
  }

  /** `String.prototype.trim`: the leading run of whitespace dropped, then the trailing one. */
  function Trim(s: string): (r: string)
    ensures |r| <= |s|
  {
    var l := LeadingSpaceCount(s);
    s[l..|s| - TrailingSpaceCount(s[l..])]
  }

  /** The trim of text that is not blank is the slice between the two runs. */
  lemma {:induction false} TrimSlice(s: string)
    requires !IsBlank(s)
    ensures LeadingSpaceCount(s) + TrailingSpaceCount(s) < |s|
    ensures Trim(s) == s[LeadingSpaceCount(s)..|s| - TrailingSpaceCount(s)]
  {
    SpaceRunsDisjoint(s);
    TrimOfRuns(s);
  }

  lemma {:induction false} TrimOfRuns(s: string)
    requires LeadingSpaceCount(s) + TrailingSpaceCount(s) < |s|
    ensures Trim(s) == s[LeadingSpaceCount(s)..|s| - TrailingSpaceCount(s)]
  {
    TrailingOfSuffix(s, LeadingSpaceCount(s));
  }

  /** Trimming gives the empty string exactly for blank text; otherwise it drops exactly the
      leading and the trailing run, and what is left neither starts nor ends with whitespace. */
  lemma {:induction false} TrimFacts(s: string)
    ensures IsBlank(s) <==> Trim(s) == []
    ensures !IsBlank(s) ==>
      var r := Trim(s);
      r != [] && !IsSpace(r[0]) && !IsSpace(r[|r| - 1]) &&
      s == s[..LeadingSpaceCount(s)] + r + s[|s| - TrailingSpaceCount(s)..]
  {
    if IsBlank(s) {
      BlankIffAllLeading(s);
      assert s[LeadingSpaceCount(s)..] == [];
    } else {
      TrimEnds(s);
    }
  }

  lemma {:induction false} TrimEnds(s: string)
    requires !IsBlank(s)
    ensures Trim(s) != [] && !IsSpace(Trim(s)[0]) && !IsSpace(Trim(s)[|Trim(s)| - 1])
    ensures s == s[..LeadingSpaceCount(s)] + Trim(s) + s[|s| - TrailingSpaceCount(s)..]
  {
    TrimSlice(s);
    LeadingStop(s);
    TrailingStop(s);
    SliceBetweenNonSpace(s, LeadingSpaceCount(s), |s| - TrailingSpaceCount(s), Trim(s));
    assert Trim(s) != [];
    assert !IsSpace(Trim(s)[0]);
    assert !IsSpace(Trim(s)[|Trim(s)| - 1]);
    assert s == s[..LeadingSpaceCount(s)] + Trim(s) + s[|s| - TrailingSpaceCount(s)..];
  }

  lemma {:induction false} LeadingStop(s: string)
    ensures LeadingSpaceCount(s) < |s| ==> !IsSpace(s[LeadingSpaceCount(s)])
  {
    LeadingRun(s);
  }

  lemma {:induction false} TrailingStop(s: string)
    ensures TrailingSpaceCount(s) < |s| ==> !IsSpace(s[|s| - TrailingSpaceCount(s) - 1])
  {
    TrailingRun(s);
  }

  /** A slice bounded by characters that are not whitespace starts and ends with them, and
      the text is the slice with what lies before and after it. */
  lemma {:induction false} SliceBetweenNonSpace(s: string, a: nat, b: nat, r: string)
    requires a < b <= |s| && r == s[a..b] && !IsSpace(s[a]) && !IsSpace(s[b - 1])
    ensures r != [] && !IsSpace(r[0]) && !IsSpace(r[|r| - 1])
    ensures s == s[..a] + r + s[b..]
  {
    assert r[0] == s[a] && r[|r| - 1] == s[b - 1];
    SliceThree(s, a, b);
  }

  lemma {:induction false} SliceThree(s: string, a: nat, b: nat)
    requires a <= b <= |s|
    ensures s == s[..a] + s[a..b] + s[b..]
  {
  }

  lemma {:induction false} SuffixThree(s: string, a: nat, b: nat, c: nat)
    requires a <= b <= c <= |s|
    ensures s[a..] == s[a..b] + s[b..c] + s[c..]
  {
    assert s[a..] == s[a..b] + s[b..];
    assert s[b..] == s[b..c] + s[c..];
  }

  /** Dropping a prefix that ends before the trailing run leaves the trailing run as it is. */
  lemma {:induction false} TrailingOfSuffix(s: string, l: nat)
    requires l + TrailingSpaceCount(s) < |s|
    ensures TrailingSpaceCount(s[l..]) == TrailingSpaceCount(s)
    decreases |s|
  {
    var t := s[l..];
    if IsSpace(s[|s| - 1]) {
      assert t[|t| - 1] == s[|s| - 1];
      assert t[..|t| - 1] == s[..|s| - 1][l..];
      TrailingOfSuffix(s[..|s| - 1], l);
    } else {
      assert t[|t| - 1] == s[|s| - 1];
    }
  }

  /** Text with no whitespace at either end is its own trim. */
  lemma {:induction false} TrimUntouched(s: string)
    requires s != [] && !IsSpace(s[0]) && !IsSpace(s[|s| - 1])
    ensures Trim(s) == s
  {
    assert LeadingSpaceCount(s) == 0 && TrailingSpaceCount(s) == 0;
  }

  /** `[...s]`: one piece per code point. */
  function CodePoints(s: string): (r: seq<string>)
    ensures |r| == |s| && Concat(r) == s
    ensures forall i :: 0 <= i < |r| ==> r[i] == [s[i]]
  {
    if s == [] then [] else [[s[0]]] + CodePoints(s[1..])
  }

  // ---------------------------------------------------------------- searching

  /** `s.indexOf(c, from)` for a one-character search string and a non-negative start. */
  function IndexOf(s: string, c: char, from: nat): (r: int)
    decreases |s| - from
    ensures -1 <= r < |s|
    ensures r == -1 <==> forall i :: from <= i < |s| ==> s[i] != c
    ensures r != -1 ==> from <= r && s[r] == c && forall i :: from <= i < r ==> s[i] != c
  {
    if from >= |s| then -1
    else if s[from] == c then from
    else IndexOf(s, c, from + 1)
  }

  /** `s.lastIndexOf(c, from)` for a one-character search string and a non-negative start:
      the last position at or before `from` (clamped to the string) holding `c`. */
  function LastIndexOf(s: string, c: char, from: nat): (r: int)
    decreases from
    ensures -1 <= r < |s| && r <= from
    ensures r == -1 <==> forall i :: 0 <= i <= from && i < |s| ==> s[i] != c
    ensures r != -1 ==> s[r] == c && forall i :: r < i <= from && i < |s| ==> s[i] != c
  {
    if from >= |s| then (if s == [] then -1 else LastIndexOf(s, c, |s| - 1))
    else if s[from] == c then from
    else if from == 0 then -1
    else LastIndexOf(s, c, from - 1)
  }

  /** `sub` occurs in `s` at position `i`. */
  predicate OccursAt(s: string, sub: string, i: int) {
    0 <= i && i + |sub| <= |s| && s[i..i + |sub|] == sub
  }

  /** `s.includes(sub)`. */
  predicate Contains(s: string, sub: string)
    decreases |s|
  {
    OccursAt(s, sub, 0) || (s != [] && Contains(s[1..], sub))
  }

  lemma {:induction false} ContainsIffOccurs(s: string, sub: string)
    ensures Contains(s, sub) <==> exists i :: OccursAt(s, sub, i)
    decreases |s|
  {
    if s != [] {
      ContainsIffOccurs(s[1..], sub);
      forall i | OccursAt(s[1..], sub, i) ensures OccursAt(s, sub, i + 1) {
        assert s[i + 1..i + 1 + |sub|] == s[1..][i..i + |sub|];
      }
      forall i | OccursAt(s, sub, i) && i > 0 ensures OccursAt(s[1..], sub, i - 1) {
        assert s[i..i + |sub|] == s[1..][i - 1..i - 1 + |sub|];
      }
    }
  }

  /** Anything containing `sub` surrounded by more text still contains it. */
  lemma {:induction false} ContainsInContext(pre: string, sub: string, post: string)
    ensures Contains(pre + sub + post, sub)
  {
    var s := pre + sub + post;
    assert s[|pre|..|pre| + |sub|] == sub;
    assert OccursAt(s, sub, |pre|);
    ContainsIffOccurs(s, sub);
  }

  /** Number of occurrences of a character: what `(s.match(/c/g) || []).length` gives. */
  function CountChar(s: string, c: char): (n: nat)
    ensures n <= |s|
    ensures n == 0 <==> forall i :: 0 <= i < |s| ==> s[i] != c
  {
    if s == [] then 0 else (if s[0] == c then 1 else 0) + CountChar(s[1..], c)
  }

  // ---------------------------------------------------------------- joining and splitting

  /** The concatenation of a list of strings. */
  function Concat(parts: seq<string>): (r: string)
  {
    if parts == [] then [] else parts[0] + Concat(parts[1..])
  }

  lemma {:induction false} ConcatAppend(a: seq<string>, b: seq<string>)
    ensures Concat(a + b) == Concat(a) + Concat(b)
  {
    if a == [] {
      assert a + b == b;
    } else {
      assert (a + b)[1..] == a[1..] + b;
      ConcatAppend(a[1..], b);
    }
  }

  lemma {:induction false} ConcatSnoc(a: seq<string>, x: string)
    ensures Concat(a + [x]) == Concat(a) + x
  {
    ConcatAppend(a, [x]);
  }

  /** `parts.join(sep)`. */
  function Join(parts: seq<string>, sep: string): string
  {
    if parts == [] then []
    else if |parts| == 1 then parts[0]
    else parts[0] + sep + Join(parts[1..], sep)
  }

  /** Index of the first `\s` character, or `|s|`. */
  function FirstSpace(s: string): (k: nat)
    ensures k <= |s|
    ensures forall i :: 0 <= i < k ==> !IsSpace(s[i])
    ensures k < |s| ==> IsSpace(s[k])
  {
    if s == [] || IsSpace(s[0]) then 0 else 1 + FirstSpace(s[1..])
  }

  predicate NoSpace(t: string) { forall i :: 0 <= i < |t| ==> !IsSpace(t[i]) }

  /** `s.split(/\s+/)`: the pieces between maximal runs of `\s`, keeping the empty piece
      before a leading run and after a trailing run. */
  function SplitOnSpaces(s: string): (r: seq<string>)
    decreases |s|
    ensures |r| >= 1
  {
    var k := FirstSpace(s);
    if k == |s| then [s]
    else
      var run := LeadingSpaceCount(s[k..]);
      [s[..k]] + SplitOnSpaces(s[k + run..])
  }

  /** No piece of a split holds white space. */
  lemma {:induction false} SplitPiecesNoSpace(s: string)
    ensures forall j :: 0 <= j < |SplitOnSpaces(s)| ==> NoSpace(SplitOnSpaces(s)[j])
    decreases |s|
  {
    var k := FirstSpace(s);
    if k < |s| {
      var run := LeadingSpaceCount(s[k..]);
      var rest := s[k + run..];
      SplitPiecesNoSpace(rest);
      var r := SplitOnSpaces(s);
      assert r == [s[..k]] + SplitOnSpaces(rest);
      forall j | 0 <= j < |r|
        ensures NoSpace(r[j])
      {
        if j > 0 {
          assert r[j] == SplitOnSpaces(rest)[j - 1];
        }
      }
    }
  }

  /** Text without white space splits into itself alone. */
  lemma {:induction false} SplitOfNoSpace(s: string)
    requires NoSpace(s)
    ensures SplitOnSpaces(s) == [s]
  {
    assert FirstSpace(s) == |s|;
  }

  /** Only the first and the last piece of a split can be empty: runs of `\s` are maximal. */
  lemma {:induction false} SplitMiddleNonEmpty(s: string)
    ensures forall j :: 0 < j < |SplitOnSpaces(s)| - 1 ==> SplitOnSpaces(s)[j] != []
    decreases |s|
  {
    var k := FirstSpace(s);
    if k < |s| {
      var run := LeadingSpaceCount(s[k..]);
      LeadingRun(s[k..]);
      var rest := s[k + run..];
      SplitMiddleNonEmpty(rest);
      if rest != [] {
        assert rest[0] == s[k..][run];
        assert FirstSpace(rest) >= 1;
        assert SplitOnSpaces(rest)[0] == rest[..FirstSpace(rest)];
      }
      assert SplitOnSpaces(s) == [s[..k]] + SplitOnSpaces(rest);
    }
  }

  /** The first space of `a + s` where `a` has none and `s` starts with one is `|a|`. */
  lemma {:induction false} FirstSpaceAfter(a: string, s: string)
    requires NoSpace(a) && s != [] && IsSpace(s[0])
    ensures FirstSpace(a + s) == |a|
  {
    if a != [] {
      assert (a + s)[1..] == a[1..] + s;
      FirstSpaceAfter(a[1..], s);
    } else {
      assert (a + s)[0] == s[0];
    }
  }

  /** Splitting `a + " " + rest` peels off `a` when `a` has no space and `rest` does not
      start with one. */
  lemma {:induction false} SplitAfterOneSpace(a: string, rest: string)
    requires NoSpace(a)
    requires rest == [] || !IsSpace(rest[0])
    ensures SplitOnSpaces(a + " " + rest) == [a] + SplitOnSpaces(rest)
  {
    var s := a + " " + rest;
    assert s == a + (" " + rest);
    FirstSpaceAfter(a, " " + rest);
    assert s[|a|..] == " " + rest;
    assert (" " + rest)[1..] == rest;
    assert LeadingSpaceCount(" " + rest) == 1;
    assert s[..|a|] == a;
    assert s[|a| + 1..] == rest;
  }

  /** Joining space-free pieces with single spaces and splitting the result again gives
      the pieces back, as long as no piece but the first and the last is empty. */
  lemma {:induction false} SplitJoin(parts: seq<string>)
    requires |parts| >= 1
    requires forall j :: 0 <= j < |parts| ==> NoSpace(parts[j])
    requires forall j :: 0 < j < |parts| - 1 ==> parts[j] != []
    ensures SplitOnSpaces(Join(parts, " ")) == parts
    decreases |parts|
  {
    HeadTail(parts);
    if |parts| == 1 {
      SplitOfNoSpace(parts[0]);
      assert parts[1..] == [];
    } else {
      var tail := parts[1..];
      forall j | 0 <= j < |tail|
        ensures NoSpace(tail[j]) && (0 < j < |tail| - 1 ==> tail[j] != [])
      {
        assert tail[j] == parts[j + 1];
      }
      SplitJoin(tail);
      JoinStartsWithPart(tail, |parts| > 2);
      SplitJoinCons(parts[0], tail);
    }
  }

  /** A non-empty sequence is its head in front of its tail. */
  lemma {:induction false} HeadTail<T>(s: seq<T>)
    requires |s| >= 1
    ensures [s[0]] + s[1..] == s
  {
  }

  /** One step of the round trip: a space-free head joined in front of parts that already
      split back into themselves. */
  lemma {:induction false} SplitJoinCons(head: string, tail: seq<string>)
    requires NoSpace(head) && |tail| >= 1
    requires SplitOnSpaces(Join(tail, " ")) == tail
    requires Join(tail, " ") == [] || !IsSpace(Join(tail, " ")[0])
    ensures SplitOnSpaces(Join([head] + tail, " ")) == [head] + tail
  {
    var rest := Join(tail, " ");
    assert ([head] + tail)[1..] == tail;
    assert Join([head] + tail, " ") == head + " " + rest;
    SplitAfterOneSpace(head, rest);
  }

  /** A join starts with its first part, followed by the separator when there are more. */
  lemma {:induction false} JoinStartsWithPart(parts: seq<string>, nonEmptyHead: bool)
    requires |parts| >= 1 && NoSpace(parts[0])
    requires nonEmptyHead ==> parts[0] != [] && |parts| > 1
    requires !nonEmptyHead ==> |parts| == 1
    ensures Join(parts, " ") == [] || !IsSpace(Join(parts, " ")[0])
  {
    if nonEmptyHead {
      assert Join(parts, " ") == parts[0] + " " + Join(parts[1..], " ");
      assert Join(parts, " ")[0] == parts[0][0];
    }
  }

  // ---------------------------------------------------------------- number formatting

  /** The digit character of value `v`, lower-case letters above nine. */
  function DigitChar(v: nat): (c: char)
    requires v < 36
    ensures IsDigit(c) || IsLower(c)
    ensures v < 10 <==> IsDigit(c)
  {
    if v < 10 then ('0' as int + v) as char else ('a' as int + v - 10) as char
  }

  /** The value of a digit character, the inverse of `DigitChar`. */
  function DigitValue(c: char): (v: nat)
    ensures IsDigit(c) || IsLower(c) ==> v < 36 && DigitChar(v) == c
  {
    if IsDigit(c) then c as int - '0' as int
    else if IsLower(c) then c as int - 'a' as int + 10
    else 0
  }

  /** `Number.prototype.toString(radix)` for a non-negative integer. */
  function ToRadix(n: nat, radix: nat): (s: string)
    requires 2 <= radix <= 36
    ensures |s| >= 1
    ensures forall i :: 0 <= i < |s| ==> (IsDigit(s[i]) || IsLower(s[i])) && DigitValue(s[i]) < radix
    ensures |s| > 1 ==> s[0] != '0'
    decreases n
  {
    if n < radix then [DigitChar(n)]
    else
      DivModFacts(n, radix);
      ToRadix(n / radix, radix) + [DigitChar(n % radix)]
  }

  /** Quotient and remainder of a number at least the radix. */
  lemma {:induction false} DivModFacts(n: nat, radix: nat)
    requires 2 <= radix <= n
    ensures 1 <= n / radix < n && n % radix < radix
    ensures n == (n / radix) * radix + n % radix
  {
  }

  /** The value of a digit string in the given radix. */
  function FromRadix(s: string, radix: nat): nat
  {
    if s == [] then 0 else FromRadix(s[..|s| - 1], radix) * radix + DigitValue(s[|s| - 1])
  }

  lemma {:induction false} DigitValueOfChar(v: nat)
    requires v < 36
    ensures DigitValue(DigitChar(v)) == v
  {
  }

  /** Formatting a number and reading it back gives the number. */
  lemma {:induction false} RadixRoundTrip(n: nat, radix: nat)
    requires 2 <= radix <= 36
    ensures FromRadix(ToRadix(n, radix), radix) == n
    decreases n
  {
    var s := ToRadix(n, radix);
    if n < radix {
      DigitValueOfChar(n);
      assert s[..0] == [];
    } else {
      var q, d := n / radix, n % radix;
      DivModFacts(n, radix);
      RadixRoundTrip(q, radix);
      assert s[..|s| - 1] == ToRadix(q, radix);
      DigitValueOfChar(d);
      assert FromRadix(s, radix) == q * radix + d;
    }
  }

  /** Decimal text: `${n}` for a non-negative integer. */
  function ToDecimal(n: nat): (s: string)
    ensures |s| >= 1 && forall i :: 0 <= i < |s| ==> IsDigit(s[i])
    ensures FromRadix(s, 10) == n
  {
    RadixRoundTrip(n, 10);
    ToRadix(n, 10)
  }

  /** Lower-case base-36 text: `n.toString(36)`. */
  function ToBase36(n: nat): (s: string)
    ensures |s| >= 1 && forall i :: 0 <= i < |s| ==> IsDigit(s[i]) || IsLower(s[i])
    ensures FromRadix(s, 36) == n
  {
    RadixRoundTrip(n, 36);
    ToRadix(n, 36)
  }

  // ---------------------------------------------------------------- regular expressions

  /** The characters `escapeRegExp` escapes: the pattern `[.*+?^${}()|[\]\\]`. */
  predicate IsRegExpSyntax(c: char) {
    c == '.' || c == '*' || c == '+' || c == '?' || c == '^' || c == '$' || c == '{' || c == '}' ||
    c == '(' || c == ')' || c == '|' || c == '[' || c == ']' || c == '\\'
  }

  /** `escapeRegExp(s)`: a backslash before every syntax character, other characters as they are. */
  function EscapeRegExp(s: string): (r: string)
    ensures |s| <= |r| <= 2 * |s|
    ensures (forall i :: 0 <= i < |s| ==> !IsRegExpSyntax(s[i])) ==> r == s
  {
    if s == [] then []
    else (if IsRegExpSyntax(s[0]) then ['\\', s[0]] else [s[0]]) + EscapeRegExp(s[1..])
  }

  /** How a regular expression reads an escaped text back: a backslash makes the next character literal. */
  function UnescapeRegExp(t: string): (r: string)
    decreases |t|
  {
    if t == [] then []
    else if t[0] == '\\' && |t| >= 2 then [t[1]] + UnescapeRegExp(t[2..])
    else [t[0]] + UnescapeRegExp(t[1..])
  }

  /** The escaped pattern denotes the original text literally. */
  lemma {:induction false} EscapeRegExpRoundTrip(s: string)
    ensures UnescapeRegExp(EscapeRegExp(s)) == s
    decreases |s|
  {
    if s != [] {
      EscapeRegExpRoundTrip(s[1..]);
      var e := EscapeRegExp(s);
      if IsRegExpSyntax(s[0]) {
        assert e[2..] == EscapeRegExp(s[1..]);
      } else {
        assert e[1..] == EscapeRegExp(s[1..]);
      }
    }
  }
}
