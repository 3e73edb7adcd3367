/**
  The random generators of lib/utils/random-utils.js.

  `Math.random()` is not a function of anything the program can see, so the model
  injects it: a `Draw` `u` stands for the floating-point fraction `u / 2^53`
  (every value `Math.random()` returns is such a fraction), and an `Rng` is an
  infinite stream of draws together with the position of the next one. Every
  generator says which positions it consumes.
 */
module RandomUtils {
  import opened JsString

  /** 2^53: the number of distinct values `Math.random()` can return. */
  const Resolution: nat := 0x20_0000_0000_0000

  type Draw = u: nat | u < Resolution

  /** The source of `Math.random()`: the whole stream and the position of the next draw. */
  datatype Rng = Rng(stream: nat -> Draw, pos: nat)
  {
    function Head(): Draw { stream(pos) }
    function Skip(n: nat): Rng { Rng(stream, pos + n) }
  }

  lemma {:induction false} ScaledBounds(u: Draw, n: int)
    ensures 0 < n ==> 0 <= (u * n) / Resolution < n
    ensures n <= 0 ==> n <= (u * n) / Resolution <= 0
  {
    if 0 < n {
      assert 0 <= u * n < Resolution * n;
    } else {
      assert Resolution * n <= u * n <= 0;
    }
  }

  /** `Math.floor(Math.random() * n)`. Dafny's `/` by the positive constant is the
      floor, also for a negative product. */
  function Scaled(u: Draw, n: int): (k: int)
    ensures 0 < n ==> 0 <= k < n
    ensures n <= 0 ==> n <= k <= 0
  {
    ScaledBounds(u, n);
    (u * n) / Resolution
  }

  /** `randomInt(min, max)`: one draw. */
  function RandomInt(u: Draw, min: int, max: int): (r: int)
    ensures min <= max ==> min <= r <= max
    ensures max < min ==> max < r <= min
  {
    Scaled(u, max - min + 1) + min
  }

  /** `randomBool(p)`: one draw, true when the drawn fraction is below `p`. */
  function RandomBool(u: Draw, p: real): (b: bool)
    ensures b <==> (u as real) / (Resolution as real) < p
    ensures p <= 0.0 ==> !b
    ensures 1.0 <= p ==> b
  {
    (u as real) < p * (Resolution as real)
  }

  /** The five zero-width entities: U+200B, U+200C, U+200D, U+2060 and U+FEFF written as
      decimal numeric character references (HTML Living Standard section 13.1.4). */
  const InvisibleEntities: seq<string> := ["&#8203;", "&#8204;", "&#8205;", "&#8288;", "&#65279;"]

  /** `randomInvisibleChar()`: one draw. */
  function RandomInvisibleChar(u: Draw): (e: string)
    ensures e in InvisibleEntities
  {
    InvisibleEntities[Scaled(u, |InvisibleEntities|)]
  }

  predicate AllEntities(ents: seq<string>) {
    forall i :: 0 <= i < |ents| ==> ents[i] in InvisibleEntities
  }

  lemma {:induction false} AllEntitiesAppend(a: seq<string>, b: seq<string>)
    requires AllEntities(a) && AllEntities(b)
    ensures AllEntities(a + b)
  {
  }

  /** A separator list for weaving entities between pieces: entities or nothing, nothing after the last piece. */
  predicate EntitySeparators(seps: seq<string>) {
    |seps| > 0 && seps[|seps| - 1] == [] &&
    forall i :: 0 <= i < |seps| ==> seps[i] == [] || seps[i] in InvisibleEntities
  }

  /** Character `k` of the generators' pool: 26 lower-case letters, 26 upper-case
      letters, then the ten digits. */
  function PoolChar(k: nat): (c: char)
    requires k < 62
    ensures k < 52 <==> IsAsciiLetter(c)
    ensures 52 <= k ==> IsDigit(c)
  {
    if k < 26 then ('a' as int + k) as char
    else if k < 52 then ('A' as int + k - 26) as char
    else ('0' as int + k - 52) as char
  }

  predicate IsAlnum(c: char) { IsAsciiLetter(c) || IsDigit(c) }

  /** What `randomIdentifier` produces: 4 to 8 characters, a letter first, letters and digits after. */
  predicate IsIdentifier(s: string) {
    4 <= |s| <= 8 && IsAsciiLetter(s[0]) && forall i :: 1 <= i < |s| ==> IsAlnum(s[i])
  }

  /** `randomIdentifier()`: draws the length, then one draw per character. */
  method RandomIdentifier(g: Rng) returns (id: string, g': Rng)
    ensures IsIdentifier(id)
    ensures |id| == 4 + Scaled(g.Head(), 5)
    ensures id[0] == PoolChar(Scaled(g.stream(g.pos + 1), 52))
    ensures forall i :: 1 <= i < |id| ==> id[i] == PoolChar(Scaled(g.stream(g.pos + 1 + i), 62))
    ensures g' == g.Skip(|id| + 1)
  {
    var length := Scaled(g.Head(), 5) + 4;
    id := [PoolChar(Scaled(g.stream(g.pos + 1), 52))];
    g' := g.Skip(2);
    var i := 1;
    while i < length
      invariant 1 <= i <= length
      invariant |id| == i && IsAsciiLetter(id[0])
      invariant id[0] == PoolChar(Scaled(g.stream(g.pos + 1), 52))
      invariant forall k :: 1 <= k < i ==> id[k] == PoolChar(Scaled(g.stream(g.pos + 1 + k), 62))
      invariant g' == g.Skip(i + 1)
    {
      id := id + [PoolChar(Scaled(g'.Head(), 62))];
      g' := g'.Skip(1);
      i := i + 1;
    }
  }

  /** `randomString(length)`: one draw per character; a negative length gives the empty string. */
  method RandomString(length: int, g: Rng) returns (s: string, g': Rng)
    ensures |s| == if length < 0 then 0 else length
    ensures forall i :: 0 <= i < |s| ==> IsAlnum(s[i])
    ensures forall i :: 0 <= i < |s| ==> s[i] == PoolChar(Scaled(g.stream(g.pos + i), 62))
    ensures g' == g.Skip(|s|)
  {
    s := [];
    g' := g;
    var i := 0;
    while i < length
      invariant 0 <= i && (length < 0 ==> i == 0) && (0 <= length ==> i <= length)
      invariant |s| == i
      invariant forall k :: 0 <= k < i ==> s[k] == PoolChar(Scaled(g.stream(g.pos + k), 62))
      invariant g' == g.Skip(i)
    {
      s := s + [PoolChar(Scaled(g'.Head(), 62))];
      g' := g'.Skip(1);
      i := i + 1;
    }
  }

  const MarkerPrefixes: seq<string> := [
    "PROCESSED", "COMPILED", "OPTIMIZED", "ENHANCED", "TRANSFORMED",
    "MINIFIED", "BUNDLED", "COMPRESSED", "ENCODED", "SECURED",
    "GENERATED", "BUILT", "PACKED", "MODIFIED", "CONVERTED",
    "PREPARED", "RENDERED", "FORMATTED", "PROTECTED", "UPDATED"]

  const MarkerSuffixes: seq<string> := [
    "CODE", "SCRIPT", "DATA", "CONTENT", "FILE", "RESOURCE",
    "ASSET", "MODULE", "COMPONENT", "ELEMENT", "BLOCK", "SECTION",
    "PART", "SEGMENT", "PIECE", "FRAGMENT", "CHUNK", "UNIT"]

  /** A non-empty run of upper-case ASCII letters. */
  predicate IsUpperWord(w: string) { |w| > 0 && forall i :: 0 <= i < |w| ==> IsUpper(w[i]) }

  lemma {:induction false} MarkerPrefixesAreUpper()
    ensures forall i :: 0 <= i < |MarkerPrefixes| ==> IsUpperWord(MarkerPrefixes[i])
  {
  }

  lemma {:induction false} MarkerSuffixesAreUpper()
    ensures forall j :: 0 <= j < |MarkerSuffixes| ==> IsUpperWord(MarkerSuffixes[j])
  {
  }

  /** The form `PREFIX_SUFFIX_N_ts`: a listed prefix, a listed suffix, a number from 1000 to
      9999 in decimal and a time stamp in lower-case base 36. */
  ghost predicate IsMarker(m: string) {
    exists i, j, n, t: nat {:trigger MarkerPrefixes[i], MarkerSuffixes[j], ToDecimal(n), ToBase36(t)} ::
      0 <= i < |MarkerPrefixes| && 0 <= j < |MarkerSuffixes| && 1000 <= n <= 9999 &&
      m == MarkerPrefixes[i] + "_" + MarkerSuffixes[j] + "_" + ToDecimal(n) + "_" + ToBase36(t)
  }

  /** `randomObfuscationMarker()` with `Date.now()` as `now`: draws the prefix, the suffix and
      the number, three draws in all. */
  function RandomObfuscationMarker(g: Rng, now: nat): (m: string)
    ensures IsMarker(m)
  {
    var i := Scaled(g.Head(), |MarkerPrefixes|);
    var j := Scaled(g.stream(g.pos + 1), |MarkerSuffixes|);
    var n := RandomInt(g.stream(g.pos + 2), 1000, 9999);
    MarkerPrefixes[i] + "_" + MarkerSuffixes[j] + "_" + ToDecimal(n) + "_" + ToBase36(now)
  }

  /** `randomHtmlComment()`: a marker inside an HTML comment; three draws. */
  function RandomHtmlComment(g: Rng, now: nat): (c: string)
    ensures 9 < |c| && c[..5] == "<!-- " && c[|c| - 4..] == " -->"
    ensures IsMarker(c[5..|c| - 4])
  {
    var m := RandomObfuscationMarker(g, now);
    var c := "<!-- " + m + " -->";
    assert c[5..|c| - 4] == m;
    c
  }

  /** `randomCodeComment()`: a marker inside a CSS/JavaScript block comment; three draws. */
  function RandomCodeComment(g: Rng, now: nat): (c: string)
    ensures 6 < |c| && c[..3] == "/* " && c[|c| - 3..] == " */"
    ensures IsMarker(c[3..|c| - 3])
  {
    var m := RandomObfuscationMarker(g, now);
    var c := "/* " + m + " */";
    assert c[3..|c| - 3] == m;
    c
  }

  const ClassNamePrefixes: seq<string> := ["fx", "ui", "app", "css", "cls", "key", "txt", "data", "elem", "item"]

  /** `randomClassName()`: draws the prefix, then a `randomIdentifier`. */
  method RandomClassName(g: Rng) returns (name: string, g': Rng)
    ensures var p := ClassNamePrefixes[Scaled(g.Head(), |ClassNamePrefixes|)];
      |p| < |name| && name[..|p|] == p && name[|p|] == '-' && IsIdentifier(name[|p| + 1..])
    ensures g'.stream == g.stream && g.pos < g'.pos
  {
    var p := ClassNamePrefixes[Scaled(g.Head(), |ClassNamePrefixes|)];
    var id;
    id, g' := RandomIdentifier(g.Skip(1));
    name := p + "-" + id;
    assert name[|p| + 1..] == id;
  }
}
