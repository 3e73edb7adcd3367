/**
  The renaming tables shared by the style-sheet and document passes.

  A mapping holds four JavaScript `Map`s: `classes` and `ids` send an original name to
  its replacement, and `classSelectors` and `idSelectors` send the selector `.name` or
  `#name` to `.replacement` or `#replacement`. Both collectors fill them first-write-wins:
  a name already present keeps its replacement, and a new name is entered only when the
  protection rules allow renaming it.
*/
module SymbolTable {
  import opened JsString
  import opened RandomUtils
  import opened Protection
  import opened Wrappers

  /** A JavaScript `Map<string, string>`: the keys in insertion order and the value of each. */
  datatype Table = Table(keys: seq<string>, vals: map<string, string>)
  {
    /** Every key is listed once, and exactly the listed keys have values. */
    ghost predicate Valid() {
      (forall i, j :: 0 <= i < j < |keys| ==> keys[i] != keys[j]) &&
      (forall k :: k in vals <==> k in keys)
    }

    /** `map.has(k)`. */
    predicate Has(k: string) { k in vals }

    /** `map.get(k)`, with `undefined` as `None`. */
    function Get(k: string): (r: Option<string>)
      ensures r.Some? <==> Has(k)
      ensures r.Some? ==> r.value == vals[k]
    {
      if k in vals then Some(vals[k]) else None
    }

    /** `map.set(k, v)`. */
    function Set(k: string, v: string): Table
    {
      if k in vals then Table(keys, vals[k := v]) else Table(keys + [k], vals[k := v])
    }
  }

  /** After `map.set(k, v)`, `k` has value `v` and every other key keeps its value; a new
      key goes to the end and an existing key keeps its place; the table stays well formed. */
  lemma {:induction false} SetSpec(t: Table, k: string, v: string)
    ensures t.Set(k, v).Get(k) == Some(v)
    ensures forall k' :: k' != k ==> t.Set(k, v).Get(k') == t.Get(k')
    ensures |t.keys| <= |t.Set(k, v).keys| && t.Set(k, v).keys[..|t.keys|] == t.keys
    ensures |t.Set(k, v).keys| == if t.Has(k) then |t.keys| else |t.keys| + 1
    ensures t.Valid() ==> t.Set(k, v).Valid()
  {
  }

  /** Setting a missing key appends it. */
  lemma {:induction false} SetNew(t: Table, k: string, v: string)
    requires t.Valid() && !t.Has(k)
    ensures t.Set(k, v) == Table(t.keys + [k], t.vals[k := v]) && t.Set(k, v).Valid()
  {
  }

  /** `new Map()`. */
  const EmptyTable := Table([], map[])

  /** Which of the two name spaces a name belongs to. */
  datatype Kind = ClassKind | IdKind
  {
    /** The character that introduces such a name in a selector. */
    function Sigil(): char { if ClassKind? then '.' else '#' }
  }

  /** A collector enters `n`: it is a non-empty name that the protection rules allow renaming. */
  predicate Wanted(rules: Rules, kind: Kind, protect: bool, n: string) {
    |n| > 0 &&
    match kind
    case ClassKind => ShouldObfuscateClass(rules, n, protect)
    case IdKind => ShouldObfuscateId(rules, n, protect)
  }

  /** `Wanted` as the test a fill applies to each name. */
  function Accept(rules: Rules, kind: Kind, protect: bool): string -> bool {
    n => Wanted(rules, kind, protect, n)
  }

  /** The key order after a first-write-wins fill of `keys` with `names`, one after another,
      entering the names `accept` lets through. */
  function Extend(keys: seq<string>, names: seq<string>, accept: string -> bool): (r: seq<string>)
    decreases |names|
  {
    if names == [] then keys
    else
      var before := Extend(keys, names[..|names| - 1], accept);
      var n := names[|names| - 1];
      if n !in before && accept(n) then before + [n] else before
  }

  /** Filling with `a` and then with `b` is filling with `a + b`. */
  lemma {:induction false} ExtendAppend(keys: seq<string>, a: seq<string>, b: seq<string>, accept: string -> bool)
    ensures Extend(keys, a + b, accept) == Extend(Extend(keys, a, accept), b, accept)
    decreases |b|
  {
    if b != [] {
      assert (a + b)[..|a + b| - 1] == a + b[..|b| - 1];
      assert (a + b)[|a + b| - 1] == b[|b| - 1];
      ExtendAppend(keys, a, b[..|b| - 1], accept);
    } else {
      assert a + b == a;
    }
  }

  /** What a fill adds: the old keys stay first and in order, every added key is a wanted
      name taken from `names` that was not there before, and no key appears twice. */
  lemma {:induction false} ExtendSound(keys: seq<string>, names: seq<string>, accept: string -> bool)
    requires forall i, j :: 0 <= i < j < |keys| ==> keys[i] != keys[j]
    ensures var r := Extend(keys, names, accept);
      |keys| <= |r| && r[..|keys|] == keys &&
      (forall i :: |keys| <= i < |r| ==> r[i] in names && r[i] !in keys && accept(r[i])) &&
      (forall i, j :: 0 <= i < j < |r| ==> r[i] != r[j])
    decreases |names|
  {
    if names != [] {
      var init := names[..|names| - 1];
      ExtendSound(keys, init, accept);
      var before := Extend(keys, init, accept);
      var r := Extend(keys, names, accept);
      forall i | |keys| <= i < |before| ensures before[i] in names {
        assert before[i] in init;
      }
      if r != before {
        assert r == before + [names[|names| - 1]];
        assert r[..|keys|] == before[..|keys|];
      }
    }
  }

  /** A fill misses nothing: afterwards every wanted name of `names` is a key. */
  lemma {:induction false} ExtendComplete(keys: seq<string>, names: seq<string>, accept: string -> bool)
    ensures var r := Extend(keys, names, accept);
      forall n :: n in names && accept(n) ==> n in r
    decreases |names|
  {
    if names != [] {
      var init := names[..|names| - 1];
      ExtendComplete(keys, init, accept);
      var before := Extend(keys, init, accept);
      var r := Extend(keys, names, accept);
      assert forall x :: x in before ==> x in r;
      forall n | n in names && accept(n) ensures n in r {
        if n != names[|names| - 1] {
          assert n in init;
        }
      }
    }
  }

  /** The state a fill leaves behind, given the table before it: the keys are
      `Extend(before.keys, names)`, old entries keep their values, and every new value is a
      random identifier. */
  ghost predicate Filled(before: Table, after: Table, names: seq<string>, accept: string -> bool) {
    after.Valid() &&
    after.keys == Extend(before.keys, names, accept) &&
    (forall k :: k in before.vals ==> k in after.vals && after.vals[k] == before.vals[k]) &&
    (forall k :: k in after.vals && k !in before.vals ==> IsIdentifier(after.vals[k]))
  }

  /** Two fills in a row are one fill with both name lists. */
  lemma {:induction false} FilledTrans(t0: Table, t1: Table, t2: Table, a: seq<string>, b: seq<string>, accept: string -> bool)
    requires Filled(t0, t1, a, accept) && Filled(t1, t2, b, accept)
    ensures Filled(t0, t2, a + b, accept)
  {
    ExtendAppend(t0.keys, a, b, accept);
  }

  /** A fill with no names changes nothing it is asked about. */
  lemma {:induction false} FilledNothing(t: Table, accept: string -> bool)
    requires t.Valid()
    ensures Filled(t, t, [], accept)
  {
  }

  /** Entering one new wanted name is a fill with that name. */
  lemma {:induction false} FilledByOne(t: Table, n: string, obf: string, accept: string -> bool)
    requires t.Valid() && !t.Has(n) && accept(n) && IsIdentifier(obf)
    ensures Filled(t, t.Set(n, obf), [n], accept)
  {
    assert [n][..0] == [];
    assert n !in t.keys;
  }

  /** Passing over a name that is present or protected is a fill with that name. */
  lemma {:induction false} FilledByNone(t: Table, n: string, accept: string -> bool)
    requires t.Valid() && (t.Has(n) || !accept(n))
    ensures Filled(t, t, [n], accept)
  {
    assert [n][..0] == [];
  }

  /** `sel` is the selector map that goes with `t`: the same entries in the same order,
      each key and value prefixed with `sigil`. */
  ghost predicate InStep(t: Table, sel: Table, sigil: char) {
    |sel.keys| == |t.keys| &&
    (forall i :: 0 <= i < |t.keys| ==> sel.keys[i] == [sigil] + t.keys[i]) &&
    (forall k :: k in t.vals ==> [sigil] + k in sel.vals && sel.vals[[sigil] + k] == [sigil] + t.vals[k])
  }

  /** The `classes` and `ids` members of a mapping object as the rewriters read them; either
      may be missing (`None`). */
  datatype MappingView = MappingView(classes: Option<Table>, ids: Option<Table>)

  /** A name table and its selector table are each well formed and in step. */
  ghost predicate TablesValid(t: Table, sel: Table, sigil: char) {
    t.Valid() && sel.Valid() && InStep(t, sel, sigil)
  }

  /** The collectors' `mapping` argument. */
  class Mapping {
    var classes: Table
    var ids: Table
    var classSelectors: Table
    var idSelectors: Table

    ghost predicate Valid()
      reads this
    {
      TablesValid(classes, classSelectors, '.') && TablesValid(ids, idSelectors, '#')
    }

    /** The name table of one kind. */
    function Names(kind: Kind): Table
      reads this
    {
      if kind.ClassKind? then classes else ids
    }

    /** What the rewriters see of this mapping. */
    function View(): MappingView
      reads this
    {
      MappingView(Some(classes), Some(ids))
    }

    constructor ()
      ensures Valid()
      ensures classes == ids == classSelectors == idSelectors == EmptyTable
    {
      classes, ids := EmptyTable, EmptyTable;
      classSelectors, idSelectors := EmptyTable, EmptyTable;
    }

    /** `map.set(name, obf)` on the name table and `map.set(sigil + name, sigil + obf)` on
        its selector table, for a name not yet present. */
    method Add(kind: Kind, name: string, obf: string)
      requires Valid() && !Names(kind).Has(name)
      modifies this
      ensures Valid()
      ensures Names(kind) == old(Names(kind)).Set(name, obf)
      ensures kind.ClassKind? ==> classSelectors == old(classSelectors).Set("." + name, "." + obf) && ids == old(ids) && idSelectors == old(idSelectors)
      ensures kind.IdKind? ==> idSelectors == old(idSelectors).Set("#" + name, "#" + obf) && classes == old(classes) && classSelectors == old(classSelectors)
    {
      if kind.ClassKind? {
        AddInStep(classes, classSelectors, '.', name, obf);
        classes, classSelectors := classes.Set(name, obf), classSelectors.Set("." + name, "." + obf);
      } else {
        AddInStep(ids, idSelectors, '#', name, obf);
        ids, idSelectors := ids.Set(name, obf), idSelectors.Set("#" + name, "#" + obf);
      }
    }

    /** One name of the fill loop: it gets a fresh random identifier when it is wanted
        and not yet present. */
    method CollectOne(kind: Kind, n: string, rules: Rules, protect: bool, g: Rng) returns (g': Rng)
      requires Valid()
      modifies this
      ensures Valid()
      ensures Filled(old(Names(kind)), Names(kind), [n], Accept(rules, kind, protect))
      ensures kind.ClassKind? ==> ids == old(ids) && idSelectors == old(idSelectors)
      ensures kind.IdKind? ==> classes == old(classes) && classSelectors == old(classSelectors)
      ensures g'.stream == g.stream
    {
      g' := g;
      if !Names(kind).Has(n) && Wanted(rules, kind, protect, n) {
        var obf;
        obf, g' := RandomIdentifier(g');
        FilledByOne(Names(kind), n, obf, Accept(rules, kind, protect));
        Add(kind, n, obf);
      } else {
        FilledByNone(Names(kind), n, Accept(rules, kind, protect));
      }
    }

    /** The first-write-wins loop of the collectors: each name in turn is given a fresh
        random identifier when it is wanted and not yet present. The other kind's
        tables are left alone. */
    method Collect(kind: Kind, names: seq<string>, rules: Rules, protect: bool, g: Rng) returns (g': Rng)
      requires Valid()
      modifies this
      ensures Valid()
      ensures Filled(old(Names(kind)), Names(kind), names, Accept(rules, kind, protect))
      ensures kind.ClassKind? ==> ids == old(ids) && idSelectors == old(idSelectors)
      ensures kind.IdKind? ==> classes == old(classes) && classSelectors == old(classSelectors)
      ensures g'.stream == g.stream
    {
      g' := g;
      ghost var t0 := Names(kind);
      FilledNothing(t0, Accept(rules, kind, protect));
      for i := 0 to |names|
        invariant Valid()
        invariant Filled(t0, Names(kind), names[..i], Accept(rules, kind, protect))
        invariant kind.ClassKind? ==> ids == old(ids) && idSelectors == old(idSelectors)
        invariant kind.IdKind? ==> classes == old(classes) && classSelectors == old(classSelectors)
        invariant g'.stream == g.stream
      {
        ghost var t1 := Names(kind);
        g' := CollectOne(kind, names[i], rules, protect, g');
        FilledTrans(t0, t1, Names(kind), names[..i], [names[i]], Accept(rules, kind, protect));
        assert names[..i] + [names[i]] == names[..i + 1];
      }
      assert names[..|names|] == names;
    }
  }

  /** A name missing from `t` has no selector in a map in step with it. */
  lemma {:induction false} SelectorAbsent(t: Table, sel: Table, sigil: char, name: string)
    requires t.Valid() && sel.Valid() && InStep(t, sel, sigil) && !t.Has(name)
    ensures !sel.Has([sigil] + name)
  {
    forall i | 0 <= i < |sel.keys| ensures sel.keys[i] != [sigil] + name {
      assert t.keys[i] in t.vals;
      assert ([sigil] + t.keys[i])[1..] == t.keys[i];
      assert ([sigil] + name)[1..] == name;
    }
    assert [sigil] + name !in sel.keys;
  }

  /** Adding a name and its selector together keeps the two maps in step. */
  lemma {:induction false} AddInStep(t: Table, sel: Table, sigil: char, name: string, obf: string)
    requires TablesValid(t, sel, sigil) && !t.Has(name)
    ensures TablesValid(t.Set(name, obf), sel.Set([sigil] + name, [sigil] + obf), sigil)
  {
    SelectorAbsent(t, sel, sigil, name);
    SetNew(t, name, obf);
    SetNew(sel, [sigil] + name, [sigil] + obf);
    AppendInStep(t, sel, sigil, name, obf);
  }

  /** Appending `name` to a table and `sigil + name` to its selector table keeps them in step. */
  lemma {:induction false} AppendInStep(t: Table, sel: Table, sigil: char, name: string, obf: string)
    requires InStep(t, sel, sigil)
    ensures InStep(Table(t.keys + [name], t.vals[name := obf]),
                   Table(sel.keys + [[sigil] + name], sel.vals[[sigil] + name := [sigil] + obf]), sigil)
  {
    var t' := Table(t.keys + [name], t.vals[name := obf]);
    var sel' := Table(sel.keys + [[sigil] + name], sel.vals[[sigil] + name := [sigil] + obf]);
    forall i | 0 <= i < |t'.keys| ensures sel'.keys[i] == [sigil] + t'.keys[i] {
      if i < |t.keys| {
        assert sel'.keys[i] == sel.keys[i];
      }
    }
    forall k | k in t'.vals ensures [sigil] + k in sel'.vals && sel'.vals[[sigil] + k] == [sigil] + t'.vals[k] {
      if k != name {
        assert [sigil] + k != [sigil] + name by {
          assert ([sigil] + k)[1..] == k;
          assert ([sigil] + name)[1..] == name;
        }
      }
    }
  }
}
