/** Python's `sorted(xs, key=key, reverse=True)` on a list: a stable sort, largest key first. */
module Sorting {
  import opened Seqs

  /** Keys never increase along the list. */
  predicate Descending<T(!new)>(key: T -> int, s: seq<T>) {
    forall i, j :: 0 <= i < j < |s| ==> key(s[i]) >= key(s[j])
  }

  /** `x` placed before the first element whose key is not larger than its own. */
  function Insert<T(!new)>(key: T -> int, x: T, s: seq<T>): (r: seq<T>)
    ensures |r| == |s| + 1
    ensures forall y :: y in r <==> y == x || y in s
  {
    if |s| == 0 || key(x) >= key(s[0]) then [x] + s
    else
      assert s == [s[0]] + s[1..];
      [s[0]] + Insert(key, x, s[1..])
  }

  /** The sort, by insertion from the back: each element goes before the elements after it in
      the input that have the same key, which keeps their order. */
  function SortDescending<T(!new)>(key: T -> int, s: seq<T>): (r: seq<T>)
    ensures |r| == |s|
  {
    if |s| == 0 then [] else Insert(key, s[0], SortDescending(key, s[1..]))
  }

  lemma {:induction false} InsertMultiset<T(!new)>(key: T -> int, x: T, s: seq<T>)
    ensures multiset(Insert(key, x, s)) == multiset(s) + multiset{x}
    decreases |s|
  {
    if |s| > 0 && key(x) < key(s[0]) {
      InsertMultiset(key, x, s[1..]);
      assert s == [s[0]] + s[1..];
    }
  }

  /** A descending list stays descending without its head. */
  lemma DescendingTail<T(!new)>(key: T -> int, s: seq<T>)
    requires |s| > 0 && Descending(key, s)
    ensures Descending(key, s[1..])
  {
    var tail := s[1..];
    forall i, j | 0 <= i < j < |tail| ensures key(tail[i]) >= key(tail[j]) {
      assert tail[i] == s[i + 1] && tail[j] == s[j + 1];
    }
  }

  /** A head whose key is at least every key of a descending list keeps it descending. */
  lemma DescendingCons<T(!new)>(key: T -> int, h: T, r: seq<T>)
    requires Descending(key, r) && forall y :: y in r ==> key(h) >= key(y)
    ensures Descending(key, [h] + r)
  {
    var full := [h] + r;
    forall i, j | 0 <= i < j < |full| ensures key(full[i]) >= key(full[j]) {
      if i == 0 {
        assert full[j] == r[j - 1] && full[j] in r;
      } else {
        assert full[i] == r[i - 1] && full[j] == r[j - 1];
      }
    }
  }

  /** Inserting into a descending list keeps it descending. */
  lemma {:induction false} InsertDescending<T(!new)>(key: T -> int, x: T, s: seq<T>)
    requires Descending(key, s)
    ensures Descending(key, Insert(key, x, s))
    decreases |s|
  {
    if |s| > 0 && key(x) < key(s[0]) {
      var tail := s[1..];
      DescendingTail(key, s);
      InsertDescending(key, x, tail);
      var r := Insert(key, x, tail);
      forall y | y in r ensures key(s[0]) >= key(y) {
        if y != x {
          var m :| 0 <= m < |tail| && tail[m] == y;
          assert tail[m] == s[m + 1];
        }
      }
      DescendingCons(key, s[0], r);
    }
  }

  /** The elements of `s` whose key is `c`, in order. */
  function WithKey<T(!new)>(key: T -> int, c: int, s: seq<T>): (r: seq<T>)
  {
    if |s| == 0 then []
    else (if key(s[0]) == c then [s[0]] else []) + WithKey(key, c, s[1..])
  }

  /** The elements of key `c` in a list with `y` in front. */
  lemma WithKeyCons<T(!new)>(key: T -> int, c: int, y: T, s: seq<T>)
    ensures WithKey(key, c, [y] + s) == (if key(y) == c then [y] else []) + WithKey(key, c, s)
  {
    assert ([y] + s)[1..] == s;
  }

  /** Inserting `x` puts it before every element of its key: those keep their order after it. */
  lemma {:induction false} InsertStable<T(!new)>(key: T -> int, c: int, x: T, s: seq<T>)
    requires Descending(key, s)
    ensures WithKey(key, c, Insert(key, x, s)) == (if key(x) == c then [x] else []) + WithKey(key, c, s)
    decreases |s|
  {
    if |s| == 0 || key(x) >= key(s[0]) {
      WithKeyCons(key, c, x, s);
    } else {
      var tail := s[1..];
      assert Descending(key, tail) by {
        forall i, j | 0 <= i < j < |tail| ensures key(tail[i]) >= key(tail[j]) {
          assert tail[i] == s[i + 1] && tail[j] == s[j + 1];
        }
      }
      InsertStable(key, c, x, tail);
      WithKeyCons(key, c, s[0], Insert(key, x, tail));
      WithKeyCons(key, c, s[0], tail);
      assert s == [s[0]] + tail;
    }
  }

  /** The sort is a permutation, is descending, and keeps the elements of each key in their
      input order. */
  lemma {:induction false} SortDescendingCorrect<T(!new)>(key: T -> int, s: seq<T>)
    ensures multiset(SortDescending(key, s)) == multiset(s)
    ensures Descending(key, SortDescending(key, s))
    ensures forall c :: WithKey(key, c, SortDescending(key, s)) == WithKey(key, c, s)
    decreases |s|
  {
    if |s| > 0 {
      var rest := SortDescending(key, s[1..]);
      SortDescendingCorrect(key, s[1..]);
      InsertMultiset(key, s[0], rest);
      InsertDescending(key, s[0], rest);
      assert s == [s[0]] + s[1..];
      forall c ensures WithKey(key, c, SortDescending(key, s)) == WithKey(key, c, s) {
        InsertStable(key, c, s[0], rest);
      }
    }
  }
}
