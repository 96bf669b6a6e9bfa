/** Facts about sequences that the scans over cookie lists and image elements rely on. */
module Seqs {
  import opened Wrappers

  /** The index of the first element of `s` that satisfies `p`, if there is one. */
  function FirstWhere<T>(s: seq<T>, p: T -> bool): (r: Option<nat>)
    ensures r.None? <==> forall i :: 0 <= i < |s| ==> !p(s[i])
    ensures r.Some? ==> r.value < |s| && p(s[r.value]) && forall j :: 0 <= j < r.value ==> !p(s[j])
  {
    if s == [] then None
    else if p(s[0]) then Some(0)
    else match FirstWhere(s[1..], p)
      case None => None
      case Some(k) => Some(k + 1)
  }

  predicate NoDuplicates<T(==)>(s: seq<T>) {
    forall i, j :: 0 <= i < j < |s| ==> s[i] != s[j]
  }

  /** The position of the first occurrence of `x` in `s`. */
  function FirstIndex<T(==)>(s: seq<T>, x: T): (k: nat)
    requires x in s
    ensures k < |s| && s[k] == x && x !in s[..k]
  {
    if s[0] == x then 0
    else
      var k := FirstIndex(s[1..], x);
      assert s[..k + 1] == [s[0]] + s[1..][..k];
      k + 1
  }

  /** Any position holding `x` with no `x` before it is the first one. */
  lemma FirstIndexUnique<T>(s: seq<T>, x: T, k: nat)
    requires k < |s| && s[k] == x && x !in s[..k]
    ensures FirstIndex(s, x) == k
  {
    var f := FirstIndex(s, x);
    assert s[f] == x && x !in s[..f];
  }

  /** `s` with every repeated element dropped: each value is kept at its first
      occurrence, in the order of those occurrences. */
  function Firsts<T(==)>(s: seq<T>): seq<T>
  {
    if s == [] then []
    else
      var init := s[..|s| - 1];
      if s[|s| - 1] in init then Firsts(init) else Firsts(init) + [s[|s| - 1]]
  }

  /** Firsts keeps exactly the values of `s`. */
  lemma {:induction false} FirstsMembers<T>(s: seq<T>)
    ensures forall x :: x in Firsts(s) <==> x in s
  {
    if s != [] {
      var init := s[..|s| - 1];
      FirstsMembers(init);
      assert s == init + [s[|s| - 1]];
    }
  }

  /** Firsts holds every value of `s` exactly once. */
  lemma {:induction false} FirstsOnce<T>(s: seq<T>)
    ensures NoDuplicates(Firsts(s))
    ensures forall x :: x in s ==> multiset(Firsts(s))[x] == 1
  {
    if s != [] {
      var init, last := s[..|s| - 1], s[|s| - 1];
      assert s == init + [last];
      FirstsOnce(init);
      FirstsMembers(init);
      if last !in init {
        var r := Firsts(init) + [last];
        assert multiset(r) == multiset(Firsts(init)) + multiset{last};
        forall i, j | 0 <= i < j < |r| ensures r[i] != r[j] {
          if j == |r| - 1 {
            assert r[i] in Firsts(init);
          }
        }
      }
    }
  }

  /** Appending an element does not move first occurrences already present. */
  lemma FirstIndexAppend<T>(s: seq<T>, last: T, x: T)
    requires x in s
    ensures FirstIndex(s + [last], x) == FirstIndex(s, x)
  {
    var k := FirstIndex(s, x);
    assert (s + [last])[..k] == s[..k];
    FirstIndexUnique(s + [last], x, k);
  }

  /** Firsts lists its values in the order in which they first occur in `s`. */
  lemma {:induction false} FirstsOrdered<T>(s: seq<T>)
    ensures forall x :: x in Firsts(s) ==> x in s
    ensures forall i, j :: 0 <= i < j < |Firsts(s)| ==>
              FirstIndex(s, Firsts(s)[i]) < FirstIndex(s, Firsts(s)[j])
  {
    FirstsMembers(s);
    if s != [] {
      var init, last := s[..|s| - 1], s[|s| - 1];
      assert s == init + [last];
      FirstsOrdered(init);
      FirstsMembers(init);
      var r := Firsts(s);
      forall i, j | 0 <= i < j < |r|
        ensures FirstIndex(s, r[i]) < FirstIndex(s, r[j])
      {
        var ri := r[i];
        assert ri in Firsts(init);
        FirstIndexAppend(init, last, ri);
        if j < |Firsts(init)| {
          FirstIndexAppend(init, last, r[j]);
        } else {
          assert r[j] == last && last !in init;
          assert s[..|init|] == init;
          FirstIndexUnique(s, last, |init|);
        }
      }
    }
  }

  /** The values `pick` extracts from the elements of `s`, in order. */
  function Picked<T, U>(s: seq<T>, pick: T -> Option<U>): seq<U> {
    if s == [] then [] else Picked(s[..|s| - 1], pick) + PickOne(s[|s| - 1], pick)
  }

  function PickOne<T, U>(x: T, pick: T -> Option<U>): seq<U> {
    match pick(x)
    case Some(u) => [u]
    case None => []
  }

  /** Extending `s[..i]` by `s[i]` extends the picked values by `s[i]`'s. */
  lemma PickedPrefix<T, U>(s: seq<T>, i: nat, pick: T -> Option<U>)
    requires i < |s|
    ensures Picked(s[..i + 1], pick) == Picked(s[..i], pick) + PickOne(s[i], pick)
  {
    assert s[..i + 1][..i] == s[..i];
  }

  /** Picking distributes over concatenation. */
  lemma {:induction false} PickedAppend<T, U>(a: seq<T>, b: seq<T>, pick: T -> Option<U>)
    ensures Picked(a + b, pick) == Picked(a, pick) + Picked(b, pick)
    decreases |b|
  {
    if b == [] {
      assert a + b == a;
    } else {
      var b' := b[..|b| - 1];
      assert (a + b)[..|a + b| - 1] == a + b';
      PickedAppend(a, b', pick);
    }
  }

  /** A value is picked exactly when some element yields it. */
  lemma {:induction false} PickedMembers<T, U>(s: seq<T>, pick: T -> Option<U>, u: U)
    ensures u in Picked(s, pick) <==> exists i :: 0 <= i < |s| && pick(s[i]) == Some(u)
  {
    if s != [] {
      var init := s[..|s| - 1];
      PickedMembers(init, pick, u);
      if exists i :: 0 <= i < |s| && pick(s[i]) == Some(u) {
        var i :| 0 <= i < |s| && pick(s[i]) == Some(u);
        if i < |init| {
          assert init[i] == s[i];
        }
      }
      if u in Picked(init, pick) {
        var i :| 0 <= i < |init| && pick(init[i]) == Some(u);
        assert s[i] == init[i];
      }
    }
  }

  /** An element that yields nothing can be dropped. */
  lemma PickedSkip<T, U>(s: seq<T>, k: nat, pick: T -> Option<U>)
    requires k < |s| && pick(s[k]).None?
    ensures Picked(s, pick) == Picked(s[..k] + s[k + 1..], pick)
  {
    var a, b := s[..k], s[k + 1..];
    assert s == (a + [s[k]]) + b;
    PickedAppend(a + [s[k]], b, pick);
    assert (a + [s[k]])[..|a|] == a;
    assert Picked(a + [s[k]], pick) == Picked(a, pick);
    PickedAppend(a, b, pick);
  }

  /** Deduplicating one more element: it is appended unless already present. */
  lemma FirstsSnoc<T>(q: seq<T>, x: T)
    ensures Firsts(q + [x]) == if x in Firsts(q) then Firsts(q) else Firsts(q) + [x]
  {
    assert (q + [x])[..|q|] == q;
    FirstsMembers(q);
  }
}

