/** Generic facts about sequences used as Python lists and as the insertion order of Python dicts. */
module Seqs {

  /** No element occurs twice: the keys of a dict, listed in insertion order. */
  predicate Distinct<T(==)>(s: seq<T>) {
    forall i, j :: 0 <= i < j < |s| ==> s[i] != s[j]
  }

  /** The elements of `s` that satisfy `f`, in order (a list comprehension with a condition). */
  function Filter<T(!new)>(f: T -> bool, s: seq<T>): (r: seq<T>)
    ensures |r| <= |s|
    ensures forall x :: x in r <==> x in s && f(x)
  {
    if |s| == 0 then []
    else if f(s[|s| - 1]) then Filter(f, s[..|s| - 1]) + [s[|s| - 1]]
    else Filter(f, s[..|s| - 1])
  }

  /** `f` applied to every element, in order. */
  function Apply<T, U>(f: T -> U, s: seq<T>): (r: seq<U>)
    ensures |r| == |s|
    ensures forall i :: 0 <= i < |s| ==> r[i] == f(s[i])
  {
    seq(|s|, i requires 0 <= i < |s| => f(s[i]))
  }

  /** The keys a dict ends up with when the elements of `s` are inserted in order:
      each element once, at the position of its first occurrence. */
  function Dedup<T(==,!new)>(s: seq<T>): (r: seq<T>)
    ensures Distinct(r)
    ensures forall x :: x in r <==> x in s
    ensures |r| <= |s|
  {
    if |s| == 0 then []
    else
      var d := Dedup(s[..|s| - 1]);
      assert forall x :: x in s <==> x in s[..|s| - 1] || x == s[|s| - 1] by {
        assert s == s[..|s| - 1] + [s[|s| - 1]];
      }
      if s[|s| - 1] in d then d else d + [s[|s| - 1]]
  }

  /** Inserting the elements of `s` into a dict one after the other yields `Dedup(s)`; extending `s`
      extends `Dedup(s)` exactly when the new element is new. */
  lemma DedupSnoc<T(!new)>(s: seq<T>, x: T)
    ensures Dedup(s + [x]) == if x in Dedup(s) then Dedup(s) else Dedup(s) + [x]
  {
    assert (s + [x])[..|s + [x]| - 1] == s;
  }

  /** Inserting at most one more element. */
  lemma DedupAppend<T(!new)>(s: seq<T>, c: seq<T>)
    requires |c| <= 1
    ensures Dedup(s + c) == if c == [] || c[0] in Dedup(s) then Dedup(s) else Dedup(s) + c
  {
    if c == [] {
      assert s + c == s;
    } else {
      assert c == [c[0]];
      DedupSnoc(s, c[0]);
    }
  }

  /** A list without repeats has as many elements as the set of its elements. */
  lemma {:induction false} DistinctCard<T>(s: seq<T>)
    requires Distinct(s)
    ensures |set x | x in s| == |s|
  {
    if |s| > 0 {
      var init := s[..|s| - 1];
      assert Distinct(init);
      DistinctCard(init);
      assert s == init + [s[|s| - 1]];
      assert s[|s| - 1] !in init;
      assert (set x | x in s) == (set x | x in init) + {s[|s| - 1]};
    }
  }
}
