/** Sorting and cutting the lists a device returns. */
module Lists {
  import opened Basics

  ghost predicate Sorted<T>(list: seq<T>, key: T -> int) {
    forall i, j :: 0 <= i < j < |list| ==> key(list[i]) <= key(list[j])
  }

  ghost predicate Increasing<T>(list: seq<T>, key: T -> int) {
    forall i, j :: 0 <= i < j < |list| ==> key(list[i]) < key(list[j])
  }

  /** The key of a list of numbers. */
  const ITSELF := (x: int) => x

  /** The list cut to a configured size, read as an unsigned 32-bit number as `size() > getInt()`
      and `resize` do. */
  function Cut<T>(list: seq<T>, max: Int32): (r: seq<T>)
    ensures r <= list
  {
    if |list| > max % 0x1_0000_0000 then list[..max % 0x1_0000_0000] else list
  }

  /** A setting keeps that many elements, and a negative one every list of up to 2^31. */
  lemma CutKeeps<T>(list: seq<T>, max: Int32)
    ensures max >= 0 ==> |Cut(list, max)| == if |list| <= max then |list| else max
    ensures max < 0 && |list| <= 0x8000_0000 ==> Cut(list, max) == list
  {
  }

  function Insert<T>(sorted: seq<T>, key: T -> int, e: T): (r: seq<T>)
    requires Sorted(sorted, key)
    ensures |r| == |sorted| + 1 && (r[0] == e || (sorted != [] && r[0] == sorted[0]))
    ensures Sorted(r, key)
  {
    if sorted == [] then [e]
    else if key(e) < key(sorted[0]) then [e] + sorted
    else [sorted[0]] + Insert(sorted[1..], key, e)
  }

  lemma {:induction false} InsertAddsOne<T>(sorted: seq<T>, key: T -> int, e: T)
    requires Sorted(sorted, key)
    ensures multiset(Insert(sorted, key, e)) == multiset(sorted) + multiset{e}
  {
    if sorted != [] {
      InsertAddsOne(sorted[1..], key, e);
      assert sorted == [sorted[0]] + sorted[1..];
    }
  }

  /** A sort in which later elements go behind earlier ones of the same key. */
  function Sort<T>(list: seq<T>, key: T -> int): (r: seq<T>)
    ensures Sorted(r, key) && |r| == |list|
  {
    if list == [] then [] else Insert(Sort(list[..|list| - 1], key), key, list[|list| - 1])
  }

  lemma {:induction false} SortPermutes<T>(list: seq<T>, key: T -> int)
    ensures multiset(Sort(list, key)) == multiset(list)
  {
    if list != [] {
      var before, last := list[..|list| - 1], list[|list| - 1];
      SortPermutes(before, key);
      InsertAddsOne(Sort(before, key), key, last);
      assert list == before + [last];
    }
  }

  lemma SortKeepsMembers<T>(list: seq<T>, key: T -> int)
    ensures forall e :: e in Sort(list, key) <==> e in list
  {
    SortPermutes(list, key);
    forall e ensures e in Sort(list, key) <==> e in list {
      assert e in Sort(list, key) <==> e in multiset(Sort(list, key));
    }
  }

  /** The elements with a given key, in order. */
  function WithKey<T>(list: seq<T>, key: T -> int, k: int): seq<T> {
    if list == [] then []
    else WithKey(list[..|list| - 1], key, k) + if key(list[|list| - 1]) == k then [list[|list| - 1]] else []
  }

  lemma {:induction false} WithKeyOfSum<T>(a: seq<T>, b: seq<T>, key: T -> int, k: int)
    ensures WithKey(a + b, key, k) == WithKey(a, key, k) + WithKey(b, key, k)
  {
    if b == [] {
      assert a + b == a;
    } else {
      assert (a + b)[..|a + b| - 1] == a + b[..|b| - 1];
      WithKeyOfSum(a, b[..|b| - 1], key, k);
    }
  }

  lemma {:induction false} NoneAbove<T>(sorted: seq<T>, key: T -> int, k: int)
    requires Sorted(sorted, key) && sorted != [] && k < key(sorted[0])
    ensures WithKey(sorted, key, k) == []
  {
    if |sorted| > 1 {
      NoneAbove(sorted[..|sorted| - 1], key, k);
    } else {
      assert WithKey(sorted[..0], key, k) == [];
    }
  }

  lemma {:induction false} InsertGoesBehind<T>(sorted: seq<T>, key: T -> int, e: T, k: int)
    requires Sorted(sorted, key)
    ensures WithKey(Insert(sorted, key, e), key, k) == WithKey(sorted + [e], key, k)
  {
    WithKeyOfSum(sorted, [e], key, k);
    if sorted == [] {
      assert sorted + [e] == [e];
    } else if key(e) < key(sorted[0]) {
      WithKeyOfSum([e], sorted, key, k);
      if key(e) == k {
        NoneAbove(sorted, key, k);
      } else {
        assert WithKey([e], key, k) == [] by {
          assert [e][..0] == [];
        }
      }
    } else {
      var head, rest := [sorted[0]], sorted[1..];
      InsertGoesBehind(rest, key, e, k);
      WithKeyOfSum(head, Insert(rest, key, e), key, k);
      WithKeyOfSum(head, rest + [e], key, k);
      assert head + (rest + [e]) == sorted + [e];
    }
  }

  /** The sort is stable: elements of the same key keep their order. */
  lemma {:induction false} SortIsStable<T>(list: seq<T>, key: T -> int, k: int)
    ensures WithKey(Sort(list, key), key, k) == WithKey(list, key, k)
  {
    if list != [] {
      var before, last := list[..|list| - 1], list[|list| - 1];
      SortIsStable(before, key, k);
      InsertGoesBehind(Sort(before, key), key, last, k);
      WithKeyOfSum(Sort(before, key), [last], key, k);
      WithKeyOfSum(before, [last], key, k);
      assert before + [last] == list;
    }
  }
}
