/**
  Text insertion: both obfuscation passes only ever insert characters into the
  document, never drop or change one. A boolean mask over the result marks the
  inserted characters; deleting them must give back the text before the pass.
 */
module Insertion {
  import opened JsString

  /** The characters of `s` whose mask entry is false, in order. */
  function Kept(s: string, mask: seq<bool>): (r: string)
    requires |mask| == |s|
    ensures |r| <= |s|
  {
    if s == [] then [] else (if mask[0] then [] else [s[0]]) + Kept(s[1..], mask[1..])
  }

  /** `res` is `orig` with the characters `mask` marks inserted. */
  predicate IsInsertion(orig: string, res: string, mask: seq<bool>) {
    |mask| == |res| && Kept(res, mask) == orig
  }

  function Falses(n: nat): (m: seq<bool>)
    ensures |m| == n && forall i :: 0 <= i < n ==> !m[i]
  {
    if n == 0 then [] else [false] + Falses(n - 1)
  }

  function Trues(n: nat): (m: seq<bool>)
    ensures |m| == n && forall i :: 0 <= i < n ==> m[i]
  {
    if n == 0 then [] else [true] + Trues(n - 1)
  }

  function CountFalse(m: seq<bool>): (n: nat)
    ensures n <= |m|
  {
    if m == [] then 0 else (if m[0] then 0 else 1) + CountFalse(m[1..])
  }

  lemma {:induction false} KeptLength(s: string, mask: seq<bool>)
    requires |mask| == |s|
    ensures |Kept(s, mask)| == CountFalse(mask)
    decreases |s|
  {
    if s != [] {
      KeptLength(s[1..], mask[1..]);
    }
  }

  lemma {:induction false} KeptAppend(a: string, ma: seq<bool>, b: string, mb: seq<bool>)
    requires |ma| == |a| && |mb| == |b|
    ensures Kept(a + b, ma + mb) == Kept(a, ma) + Kept(b, mb)
    decreases |a|
  {
    if a == [] {
      assert a + b == b && ma + mb == mb;
    } else {
      assert (a + b)[1..] == a[1..] + b;
      assert (ma + mb)[1..] == ma[1..] + mb;
      KeptAppend(a[1..], ma[1..], b, mb);
    }
  }

  /** Unmarked text is kept whole. */
  lemma {:induction false} KeptFalses(s: string)
    ensures Kept(s, Falses(|s|)) == s
    decreases |s|
  {
    if s != [] {
      assert Falses(|s|)[1..] == Falses(|s| - 1);
      KeptFalses(s[1..]);
    }
  }

  /** Marked text vanishes. */
  lemma {:induction false} KeptTrues(s: string)
    ensures Kept(s, Trues(|s|)) == []
    decreases |s|
  {
    if s != [] {
      assert Trues(|s|)[1..] == Trues(|s| - 1);
      KeptTrues(s[1..]);
    }
  }

  lemma {:induction false} InsertionRefl(s: string)
    ensures IsInsertion(s, s, Falses(|s|))
  {
    KeptFalses(s);
  }

  /** Text made entirely of inserted characters. */
  lemma {:induction false} InsertionOfNothing(t: string)
    ensures IsInsertion([], t, Trues(|t|))
  {
    KeptTrues(t);
  }

  /** Insertions into neighbouring texts form an insertion into their concatenation. */
  lemma {:induction false} InsertionConcat(a: string, ra: string, ma: seq<bool>, b: string, rb: string, mb: seq<bool>)
    requires IsInsertion(a, ra, ma) && IsInsertion(b, rb, mb)
    ensures IsInsertion(a + b, ra + rb, ma + mb)
  {
    KeptAppend(ra, ma, rb, mb);
  }

  /** The mask of two insertions made one after the other: `outer` over the final text,
      `inner` over the intermediate text, which the unmarked positions of `outer` hold. */
  function Compose(outer: seq<bool>, inner: seq<bool>): (m: seq<bool>)
    requires CountFalse(outer) == |inner|
    ensures |m| == |outer|
  {
    if outer == [] then []
    else if outer[0] then [true] + Compose(outer[1..], inner)
    else [inner[0]] + Compose(outer[1..], inner[1..])
  }

  lemma {:induction false} KeptCompose(c: string, outer: seq<bool>, inner: seq<bool>)
    requires |outer| == |c| && CountFalse(outer) == |inner|
    ensures |Kept(c, outer)| == |inner|
    ensures Kept(c, Compose(outer, inner)) == Kept(Kept(c, outer), inner)
    decreases |c|
  {
    KeptLength(c, outer);
    if c != [] {
      if outer[0] {
        KeptCompose(c[1..], outer[1..], inner);
        var m := Compose(outer, inner);
        assert m[0] && m[1..] == Compose(outer[1..], inner);
        assert Kept(c, m) == Kept(c[1..], m[1..]);
        assert Kept(c, outer) == Kept(c[1..], outer[1..]);
      } else {
        KeptCompose(c[1..], outer[1..], inner[1..]);
        var m := Compose(outer, inner);
        assert m[0] == inner[0] && m[1..] == Compose(outer[1..], inner[1..]);
        var x := Kept(c, outer);
        assert x == [c[0]] + Kept(c[1..], outer[1..]);
        assert x[1..] == Kept(c[1..], outer[1..]);
      }
    }
  }

  /** An insertion into an insertion is an insertion into the original. */
  lemma {:induction false} InsertionTrans(a: string, b: string, c: string, m1: seq<bool>, m2: seq<bool>)
    requires IsInsertion(a, b, m1) && IsInsertion(b, c, m2)
    ensures CountFalse(m2) == |m1|
    ensures IsInsertion(a, c, Compose(m2, m1))
  {
    KeptLength(c, m2);
    KeptCompose(c, m2, m1);
  }

  /** `pieces[0] + seps[0] + pieces[1] + seps[1] + ...`: separators woven after pieces. */
  function Weave(pieces: seq<string>, seps: seq<string>): (r: string)
    requires |pieces| == |seps|
  {
    if pieces == [] then [] else pieces[0] + seps[0] + Weave(pieces[1..], seps[1..])
  }

  /** The mask marking the separators of a `Weave`. */
  function WeaveMask(pieces: seq<string>, seps: seq<string>): (m: seq<bool>)
    requires |pieces| == |seps|
    ensures |m| == |Weave(pieces, seps)|
  {
    if pieces == [] then []
    else Falses(|pieces[0]|) + Trues(|seps[0]|) + WeaveMask(pieces[1..], seps[1..])
  }

  /** Weaving separators between pieces inserts the separators into the pieces' concatenation. */
  lemma {:induction false} WeaveIsInsertion(pieces: seq<string>, seps: seq<string>)
    requires |pieces| == |seps|
    ensures IsInsertion(Concat(pieces), Weave(pieces, seps), WeaveMask(pieces, seps))
    decreases |pieces|
  {
    if pieces != [] {
      WeaveIsInsertion(pieces[1..], seps[1..]);
      InsertionRefl(pieces[0]);
      InsertionOfNothing(seps[0]);
      InsertionConcat(pieces[0], pieces[0], Falses(|pieces[0]|), [], seps[0], Trues(|seps[0]|));
      assert pieces[0] + [] == pieces[0];
      InsertionConcat(pieces[0], pieces[0] + seps[0], Falses(|pieces[0]|) + Trues(|seps[0]|),
        Concat(pieces[1..]), Weave(pieces[1..], seps[1..]), WeaveMask(pieces[1..], seps[1..]));
    }
  }

  /** Appending one more piece and separator to a `Weave`. */
  lemma {:induction false} WeaveSnoc(pieces: seq<string>, seps: seq<string>, p: string, sep: string)
    requires |pieces| == |seps|
    ensures Weave(pieces + [p], seps + [sep]) == Weave(pieces, seps) + p + sep
    decreases |pieces|
  {
    if pieces == [] {
      assert pieces + [p] == [p] && seps + [sep] == [sep];
    } else {
      WeaveSnoc(pieces[1..], seps[1..], p, sep);
      assert (pieces + [p])[1..] == pieces[1..] + [p];
      assert (seps + [sep])[1..] == seps[1..] + [sep];
    }
  }

  /** Weaving with every separator empty gives back the concatenation. */
  lemma {:induction false} WeaveEmptySeps(pieces: seq<string>, seps: seq<string>)
    requires |pieces| == |seps| && forall i :: 0 <= i < |seps| ==> seps[i] == []
    ensures Weave(pieces, seps) == Concat(pieces)
    decreases |pieces|
  {
    if pieces != [] {
      WeaveEmptySeps(pieces[1..], seps[1..]);
    }
  }

  /** Surrounding a text with inserted text on both sides. */
  lemma {:induction false} InsertionWrap(pre: string, mid: string, rmid: string, mm: seq<bool>, post: string)
    requires IsInsertion(mid, rmid, mm)
    ensures IsInsertion(mid, pre + rmid + post, Trues(|pre|) + mm + Trues(|post|))
  {
    InsertionOfNothing(pre);
    InsertionOfNothing(post);
    InsertionConcat([], pre, Trues(|pre|), mid, rmid, mm);
    assert [] + mid == mid;
    InsertionConcat(mid, pre + rmid, Trues(|pre|) + mm, [], post, Trues(|post|));
    assert mid + [] == mid;
  }

  /** Replacing the slice `s[lo..hi]` by an insertion into it is an insertion into `s`. */
  lemma {:induction false} InsertionSplice(s: string, lo: nat, hi: nat, r: string, m: seq<bool>)
    requires lo <= hi <= |s| && IsInsertion(s[lo..hi], r, m)
    ensures IsInsertion(s, s[..lo] + r + s[hi..], Falses(lo) + m + Falses(|s| - hi))
  {
    InsertionRefl(s[..lo]);
    InsertionRefl(s[hi..]);
    InsertionConcat(s[..lo], s[..lo], Falses(lo), s[lo..hi], r, m);
    InsertionConcat(s[..lo] + s[lo..hi], s[..lo] + r, Falses(lo) + m, s[hi..], s[hi..], Falses(|s| - hi));
    assert s[..lo] + s[lo..hi] + s[hi..] == s;
  }

  /** An insertion into the middle of a text whose two ends stay as they are. */
  lemma {:induction false} InsertionBetween(lead: string, mid: string, rmid: string, mm: seq<bool>, trail: string)
    requires IsInsertion(mid, rmid, mm)
    ensures IsInsertion(lead + mid + trail, lead + rmid + trail, Falses(|lead|) + mm + Falses(|trail|))
  {
    var fl, ft := Falses(|lead|), Falses(|trail|);
    InsertionRefl(lead);
    InsertionRefl(trail);
    InsertionConcat(lead, lead, fl, mid, rmid, mm);
    InsertionConcat(lead + mid, lead + rmid, fl + mm, trail, trail, ft);
  }
}
