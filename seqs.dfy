/** Sequence facts shared by the Python lists the add-on grows with
    "append if not already present". */
module Seqs {

  predicate NoDup<T(==)>(s: seq<T>)
  {
    forall i, j :: 0 <= i < j < |s| ==> s[i] != s[j]
  }

  predicate IsPrefix<T(==)>(a: seq<T>, b: seq<T>)
  {
    |a| <= |b| && b[..|a|] == a
  }

  /** `for x in xs: if x not in l: l.append(x)` */
  function AddAll<T(==)>(l: seq<T>, xs: seq<T>): seq<T>
    decreases |xs|
  {
    if xs == [] then l
    else AddAll(if xs[0] in l then l else l + [xs[0]], xs[1..])
  }

  /** The elements of `xs` that satisfy `p`, in order. */
  function Filter<T>(xs: seq<T>, p: T -> bool): (r: seq<T>)
    ensures |r| <= |xs|
    decreases |xs|
  {
    if xs == [] then []
    else (if p(xs[0]) then [xs[0]] else []) + Filter(xs[1..], p)
  }

  lemma {:induction false} FilterMembers<T>(xs: seq<T>, p: T -> bool, x: T)
    ensures x in Filter(xs, p) <==> x in xs && p(x)
    decreases |xs|
  {
    if xs != [] {
      FilterMembers(xs[1..], p, x);
      assert xs == [xs[0]] + xs[1..];
    }
  }

  lemma {:induction false} FilterSnoc<T>(xs: seq<T>, y: T, p: T -> bool)
    ensures Filter(xs + [y], p) == Filter(xs, p) + (if p(y) then [y] else [])
    decreases |xs|
  {
    if xs == [] {
      assert [y][1..] == [];
    } else {
      var head := if p(xs[0]) then [xs[0]] else [];
      var tail := if p(y) then [y] else [];
      assert (xs + [y])[0] == xs[0];
      assert (xs + [y])[1..] == xs[1..] + [y];
      calc {
        Filter(xs + [y], p);
        head + Filter(xs[1..] + [y], p);
        { FilterSnoc(xs[1..], y, p); }
        head + (Filter(xs[1..], p) + tail);
        (head + Filter(xs[1..], p)) + tail;
      }
    }
  }

  /** Appending only absent elements never drops or reorders what was there. */
  lemma {:induction false} AddAllGrows<T>(l: seq<T>, xs: seq<T>)
    ensures IsPrefix(l, AddAll(l, xs))
    decreases |xs|
  {
    if xs != [] {
      var l' := if xs[0] in l then l else l + [xs[0]];
      AddAllGrows(l', xs[1..]);
      assert AddAll(l', xs[1..])[..|l|] == AddAll(l', xs[1..])[..|l'|][..|l|];
    }
  }

  /** After the loop, exactly the old elements and the offered ones are present. */
  lemma {:induction false} AddAllMembers<T>(l: seq<T>, xs: seq<T>, x: T)
    ensures x in AddAll(l, xs) <==> x in l || x in xs
    decreases |xs|
  {
    if xs != [] {
      var l' := if xs[0] in l then l else l + [xs[0]];
      AddAllMembers(l', xs[1..], x);
      assert xs == [xs[0]] + xs[1..];
    }
  }

  /** A duplicate-free list stays duplicate-free. */
  lemma {:induction false} AddAllNoDup<T>(l: seq<T>, xs: seq<T>)
    requires NoDup(l)
    ensures NoDup(AddAll(l, xs))
    decreases |xs|
  {
    if xs != [] {
      var l' := if xs[0] in l then l else l + [xs[0]];
      assert NoDup(l');
      AddAllNoDup(l', xs[1..]);
    }
  }

  /** One more loop iteration. */
  lemma {:induction false} AddAllSnoc<T>(l: seq<T>, xs: seq<T>, y: T)
    ensures AddAll(l, xs + [y]) == (var m := AddAll(l, xs); if y in m then m else m + [y])
    decreases |xs|
  {
    if xs == [] {
      assert [y][1..] == [];
    } else {
      var l' := if xs[0] in l then l else l + [xs[0]];
      assert (xs + [y])[1..] == xs[1..] + [y];
      AddAllSnoc(l', xs[1..], y);
    }
  }

  /** One iteration of the loop over `xs`, with the lists before and after it. */
  lemma AddAllStep<T>(l: seq<T>, xs: seq<T>, k: nat, m: seq<T>, m': seq<T>)
    requires k < |xs| && m == AddAll(l, xs[..k])
    requires m' == if xs[k] in m then m else m + [xs[k]]
    ensures m' == AddAll(l, xs[..k + 1])
  {
    assert xs[..k + 1] == xs[..k] + [xs[k]];
    AddAllSnoc(l, xs[..k], xs[k]);
  }

  /** Growing a list keeps every element where it was. */
  lemma PrefixMembers<T>(a: seq<T>, b: seq<T>, x: T)
    requires IsPrefix(a, b) && x in a
    ensures x in b
  {
    var k :| 0 <= k < |a| && a[k] == x;
    assert b[k] == x;
  }

  lemma PrefixTrans<T>(a: seq<T>, b: seq<T>, c: seq<T>)
    requires IsPrefix(a, b) && IsPrefix(b, c)
    ensures IsPrefix(a, c)
  {
    assert c[..|a|] == c[..|b|][..|a|];
  }
}
