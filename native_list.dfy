/**
 * The native engine's intrusive singly linked list of pointers (`List` in
 * jni/sandblaster.cc), which keeps the live sandboxes. The chain of nodes is
 * the sequence of the pointers it holds, head first; a pointer is compared by
 * identity, which is what `T(==)` equality stands for here.
 */
module NativeList {

  /** `xs` without its first occurrence of `d` (all of `xs` when there is none). */
  function Removed<T(==)>(xs: seq<T>, d: T): seq<T> {
    if xs == [] then []
    else if xs[0] == d then xs[1..]
    else [xs[0]] + Removed(xs[1..], d)
  }

  /** Removing what was just added gives back the list as it was. */
  lemma RemoveUndoesAdd<T>(xs: seq<T>, d: T)
    ensures Removed([d] + xs, d) == xs
  {
    assert ([d] + xs)[1..] == xs;
  }

  /** `Removed` drops exactly one copy of `d` when there is one, and changes nothing otherwise. */
  lemma {:induction false} RemovedCounts<T>(xs: seq<T>, d: T)
    ensures d in xs ==> multiset(Removed(xs, d)) == multiset(xs) - multiset{d}
    ensures d !in xs ==> Removed(xs, d) == xs
    ensures |Removed(xs, d)| == if d in xs then |xs| - 1 else |xs|
  {
    if xs != [] {
      assert xs == [xs[0]] + xs[1..];
      if xs[0] != d {
        RemovedCounts(xs[1..], d);
      }
    }
  }

  /** `Removed` keeps the order of everything else: it is the prefix before the first `d` and the suffix after it. */
  lemma {:induction false} RemovedSplits<T>(xs: seq<T>, d: T, i: nat)
    requires i < |xs| && xs[i] == d && d !in xs[..i]
    ensures Removed(xs, d) == xs[..i] + xs[i + 1..]
  {
    if i > 0 {
      assert xs[0] in xs[..i];
      RemovedSplits(xs[1..], d, i - 1);
      assert xs[1..][..i - 1] == xs[1..i];
      assert xs[..i] == [xs[0]] + xs[1..i];
    }
  }

  class List<T(==)> {
    /** The pointers on the chain from `head`, in link order. */
    var items: seq<T>

    /** An empty list: the static list's head starts out null. */
    constructor ()
      ensures items == []
    {
      items := [];
    }

    /** `add`: a new node holding `d` becomes the head. */
    method Add(d: T)
      modifies this
      ensures items == [d] + old(items)
    {
      items := [d] + items;
    }

    /**
     * `remove`: walks from the head and unlinks the first node holding `d`,
     * answering whether there was one.
     */
    method Remove(d: T) returns (found: bool)
      modifies this
      ensures found <==> d in old(items)
      ensures items == Removed(old(items), d)
    {
      var i := 0;
      while i < |items|
        invariant 0 <= i <= |items|
        invariant d !in items[..i]
      {
        if items[i] == d {
          RemovedSplits(items, d, i);
          items := items[..i] + items[i + 1..];
          return true;
        }
        assert items[..i + 1] == items[..i] + [items[i]];
        i := i + 1;
      }
      assert items[..i] == items;
      RemovedCounts(items, d);
      return false;
    }
  }
}
