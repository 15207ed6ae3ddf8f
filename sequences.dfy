/** The std::vector operations the engines use on their lists of pointers:
  * std::find, erase of the found element, swap-with-last-and-pop, and the
  * "insert before the first element with a strictly greater key" idiom that
  * keeps component and sprite lists sorted. */
module Sequences {

  predicate NoDup<T(==)>(s: seq<T>) {
    forall i, j :: 0 <= i < j < |s| ==> s[i] != s[j]
  }

  /** std::find: the position of the first element equal to x. */
  function IndexOf<T(==)>(s: seq<T>, x: T): (i: nat)
    requires x in s
    ensures i < |s| && s[i] == x
    ensures forall j :: 0 <= j < i ==> s[j] != x
  {
    if s[0] == x then 0 else 1 + IndexOf(s[1..], x)
  }

  /** std::find followed by erase when found: order of the rest is kept. */
  function RemoveFirst<T(==)>(s: seq<T>, x: T): seq<T> {
    if x in s then s[..IndexOf(s, x)] + s[IndexOf(s, x) + 1..] else s
  }

  /** std::find, std::iter_swap with the last element, then pop_back. */
  function SwapRemove<T(==)>(s: seq<T>, x: T): seq<T> {
    if x in s then s[IndexOf(s, x) := s[|s| - 1]][..|s| - 1] else s
  }

  /** The loop `for (...) if (k < key(*iter)) break;`: the position of the
    * first element whose key is strictly greater than k, or |s|. */
  function InsertionPoint<T>(s: seq<T>, key: T -> int, k: int): (i: nat)
    ensures i <= |s|
    ensures forall j :: 0 <= j < i ==> key(s[j]) <= k
    ensures i < |s| ==> k < key(s[i])
  {
    if s == [] || k < key(s[0]) then 0 else 1 + InsertionPoint(s[1..], key, k)
  }

  /** vector::insert(iter, x) at the insertion point of key(x). */
  function InsertSorted<T>(s: seq<T>, x: T, key: T -> int): seq<T> {
    var i := InsertionPoint(s, key, key(x));
    s[..i] + [x] + s[i..]
  }

  predicate SortedBy<T>(s: seq<T>, key: T -> int) {
    forall i, j :: 0 <= i < j < |s| ==> key(s[i]) <= key(s[j])
  }

  /** The insertion point is the only index that splits the list into
    * "key <= k" and "key > k" parts; a linear scan that stops at the first
    * greater key therefore finds it. */
  lemma InsertionPointUnique<T>(s: seq<T>, key: T -> int, k: int, i: nat)
    requires i <= |s|
    requires forall j :: 0 <= j < i ==> key(s[j]) <= k
    requires i < |s| ==> k < key(s[i])
    ensures i == InsertionPoint(s, key, k)
  {
  }

  /** Inserting places x after every element whose key is at most key(x) and
    * keeps all old elements, in their old relative order, around it. */
  lemma InsertSortedShape<T>(s: seq<T>, x: T, key: T -> int)
    ensures var r := InsertSorted(s, x, key);
      var i := InsertionPoint(s, key, key(x));
      |r| == |s| + 1 && r[i] == x
      && r[..i] == s[..i] && r[i + 1..] == s[i..]
      && (forall j :: 0 <= j < i ==> key(r[j]) <= key(x))
      && multiset(r) == multiset(s) + multiset{x}
  {
    var r := InsertSorted(s, x, key);
    var i := InsertionPoint(s, key, key(x));
    assert s == s[..i] + s[i..];
    assert r[..i] == s[..i];
    assert r[i + 1..] == s[i..];
  }

  /** Inserting keeps a sorted list sorted and places x before every element
    * whose key is greater; with the shape lemma, equal keys keep their
    * insertion order (the new element goes after its equals). */
  lemma InsertSortedKeepsSorted<T>(s: seq<T>, x: T, key: T -> int)
    requires SortedBy(s, key)
    ensures var r := InsertSorted(s, x, key);
      SortedBy(r, key)
      && forall j :: InsertionPoint(s, key, key(x)) < j < |r| ==> key(x) < key(r[j])
  {
    var r := InsertSorted(s, x, key);
    var i := InsertionPoint(s, key, key(x));
    InsertSortedSlots(s, x, key);
    forall j | i < j < |r| ensures key(x) < key(r[j]) {
      assert key(x) < key(s[i]) && key(s[i]) <= key(s[j - 1]);
    }
    forall a, b | 0 <= a < b < |r| ensures key(r[a]) <= key(r[b]) {
      if a < i < b {
        assert key(r[a]) <= key(x) && key(x) < key(r[b]);
      }
    }
  }

  /** Where each element of the inserted list comes from. */
  lemma InsertSortedSlots<T>(s: seq<T>, x: T, key: T -> int)
    ensures var r := InsertSorted(s, x, key);
      var i := InsertionPoint(s, key, key(x));
      |r| == |s| + 1
      && forall j :: 0 <= j < |r| ==> r[j] == if j < i then s[j] else if j == i then x else s[j - 1]
  {
  }

  /** An element whose key is at least every present key goes at the end. */
  lemma InsertSortedAppends<T>(s: seq<T>, x: T, key: T -> int)
    requires forall j :: 0 <= j < |s| ==> key(s[j]) <= key(x)
    ensures InsertSorted(s, x, key) == s + [x]
  {
    InsertionPointUnique(s, key, key(x), |s|);
    assert s[..|s|] == s;
  }

  /** An element whose key is below every present key goes at the front. */
  lemma InsertSortedPrepends<T>(s: seq<T>, x: T, key: T -> int)
    requires forall j :: 0 <= j < |s| ==> key(x) < key(s[j])
    ensures InsertSorted(s, x, key) == [x] + s
  {
    InsertionPointUnique(s, key, key(x), 0);
    assert s[0..] == s;
  }

  /** AddComponent then RemoveComponent of a fresh element restores the list:
    * construction followed by destruction leaves the owner as it was. */
  lemma RemoveAfterInsert<T>(s: seq<T>, x: T, key: T -> int)
    requires x !in s
    ensures RemoveFirst(InsertSorted(s, x, key), x) == s
  {
    var r := InsertSorted(s, x, key);
    var i := InsertionPoint(s, key, key(x));
    assert r == s[..i] + [x] + s[i..];
    assert r[i] == x;
    forall j | 0 <= j < i ensures r[j] != x {
      assert r[j] == s[j];
    }
    IndexOfIs(r, x, i);
    assert r[..i] + r[i + 1..] == s[..i] + s[i..];
    assert s[..i] + s[i..] == s;
  }

  lemma IndexOfIs<T>(s: seq<T>, x: T, i: nat)
    requires i < |s| && s[i] == x
    requires forall j :: 0 <= j < i ==> s[j] != x
    ensures x in s && IndexOf(s, x) == i
  {
  }

  /** erase of the first occurrence: one fewer copy of x, the rest kept;
    * an absent element is a no-op. */
  lemma RemoveFirstCount<T>(s: seq<T>, x: T)
    ensures x !in s ==> RemoveFirst(s, x) == s
    ensures x in s ==> |RemoveFirst(s, x)| == |s| - 1
    ensures multiset(RemoveFirst(s, x)) == multiset(s) - multiset{x}
  {
    if x in s {
      var i := IndexOf(s, x);
      assert s == s[..i] + [x] + s[i + 1..];
      assert multiset(s) == multiset(s[..i]) + multiset{x} + multiset(s[i + 1..]);
    }
  }

  /** Without duplicates, erase takes x out entirely, so calling it a second
    * time changes nothing. */
  lemma RemoveFirstNoDup<T>(s: seq<T>, x: T)
    requires NoDup(s)
    ensures NoDup(RemoveFirst(s, x)) && x !in RemoveFirst(s, x)
    ensures RemoveFirst(RemoveFirst(s, x), x) == RemoveFirst(s, x)
  {
    if x in s {
      var i := IndexOf(s, x);
      var r := RemoveFirst(s, x);
      assert |r| == |s| - 1;
      forall a | 0 <= a < |r| ensures r[a] == s[if a < i then a else a + 1] {
      }
      forall a, b | 0 <= a < b < |r| ensures r[a] != r[b] {
        assert r[a] == s[if a < i then a else a + 1];
        assert r[b] == s[if b < i then b else b + 1];
      }
      forall j | 0 <= j < |r| ensures r[j] != x {
        assert r[j] == s[if j < i then j else j + 1];
      }
    }
  }

  /** swap-with-last and pop: one fewer copy of x, nothing else lost; an
    * absent element is a no-op. */
  lemma SwapRemoveCount<T>(s: seq<T>, x: T)
    ensures x !in s ==> SwapRemove(s, x) == s
    ensures x in s ==> |SwapRemove(s, x)| == |s| - 1
    ensures multiset(SwapRemove(s, x)) == multiset(s) - multiset{x}
  {
    if x in s {
      SwapPopMultiset(s, IndexOf(s, x));
    }
  }

  lemma SwapPopMultiset<T>(s: seq<T>, i: nat)
    requires i < |s|
    ensures multiset(s[i := s[|s| - 1]][..|s| - 1]) == multiset(s) - multiset{s[i]}
  {
    var n := |s|;
    if i == n - 1 {
      assert s[i := s[n - 1]][..n - 1] == s[..n - 1];
      assert s == s[..n - 1] + [s[n - 1]];
    } else {
      var front, mid, last := s[..i], s[i + 1..n - 1], s[n - 1];
      SwapPopShape(s, i);
      assert s == front + [s[i]] + mid + [last];
      MultisetSwap(multiset(front), multiset(mid), last, s[i]);
    }
  }

  /** Swap-and-pop of an element that is not last moves the last element
    * into its slot. */
  lemma SwapPopShape<T>(s: seq<T>, i: nat)
    requires i < |s| - 1
    ensures s[i := s[|s| - 1]][..|s| - 1] == s[..i] + [s[|s| - 1]] + s[i + 1..|s| - 1]
  {
  }

  lemma MultisetSwap<T>(f: multiset<T>, m: multiset<T>, l: T, x: T)
    ensures f + multiset{l} + m == (f + multiset{x} + m + multiset{l}) - multiset{x}
  {
  }

  /** Swap-and-pop of a present element: the last element takes its slot
    * and every other slot keeps its element. */
  lemma SwapRemoveSlots<T>(s: seq<T>, x: T)
    requires x in s
    ensures |SwapRemove(s, x)| == |s| - 1
    ensures forall a :: 0 <= a < |s| - 1 ==>
      SwapRemove(s, x)[a] == s[if a == IndexOf(s, x) then |s| - 1 else a]
  {
  }

  /** Without duplicates, swap-and-pop removes exactly x and keeps every
    * other element. */
  lemma SwapRemoveNoDup<T>(s: seq<T>, x: T)
    requires NoDup(s)
    ensures NoDup(SwapRemove(s, x))
    ensures forall y :: y in SwapRemove(s, x) <==> y in s && y != x
  {
    if x in s {
      var i := IndexOf(s, x);
      var n := |s|;
      var r := SwapRemove(s, x);
      SwapRemoveSlots(s, x);
      forall a, b | 0 <= a < b < |r| ensures r[a] != r[b] {
        assert r[a] == s[if a == i then n - 1 else a];
        assert r[b] == s[if b == i then n - 1 else b];
      }
      forall y ensures y in r <==> y in s && y != x {
        if y in r {
          var j :| 0 <= j < |r| && r[j] == y;
          assert s[if j == i then n - 1 else j] == y;
        }
        if y in s && y != x {
          var j :| 0 <= j < |s| && s[j] == y;
          if j == n - 1 {
            assert r[i] == y;
          } else {
            assert r[j] == y;
          }
        }
      }
    }
  }

  /** Appending a new element keeps a list without duplicates. */
  lemma AppendNoDup<T>(s: seq<T>, x: T)
    requires NoDup(s) && x !in s
    ensures NoDup(s + [x])
  {
    var r := s + [x];
    forall a, b | 0 <= a < b < |r| ensures r[a] != r[b] {
      if b == |s| {
        assert r[a] == s[a];
      }
    }
  }

  /** Inserting a new element anywhere keeps a list without duplicates. */
  lemma InsertNoDup<T>(s: seq<T>, x: T, i: nat)
    requires NoDup(s) && x !in s && i <= |s|
    ensures NoDup(s[..i] + [x] + s[i..])
  {
    var r := s[..i] + [x] + s[i..];
    forall a, b | 0 <= a < b < |r| ensures r[a] != r[b] {
      if a < i && b < i {
        assert r[a] == s[a] && r[b] == s[b];
      } else if a < i && b == i {
        assert r[a] == s[a];
      } else if a < i {
        assert r[a] == s[a] && r[b] == s[b - 1];
      } else if a == i {
        assert r[b] == s[b - 1];
      } else {
        assert r[a] == s[a - 1] && r[b] == s[b - 1];
      }
    }
  }

  /** Appending one list to another keeps "no duplicates" when they share no
    * element. */
  lemma ConcatNoDup<T>(s: seq<T>, t: seq<T>)
    requires NoDup(s) && NoDup(t)
    requires forall x :: x in s ==> x !in t
    ensures NoDup(s + t)
  {
    var r := s + t;
    forall a, b | 0 <= a < b < |r| ensures r[a] != r[b] {
      if b < |s| {
        assert r[a] == s[a] && r[b] == s[b];
      } else if a < |s| {
        assert r[a] == s[a] && r[b] == t[b - |s|];
        assert r[a] in s;
      } else {
        assert r[a] == t[a - |s|] && r[b] == t[b - |s|];
      }
    }
  }

  /** Erasing an element keeps a sorted list sorted. */
  lemma RemoveFirstKeepsSorted<T>(s: seq<T>, x: T, key: T -> int)
    requires SortedBy(s, key)
    ensures SortedBy(RemoveFirst(s, x), key)
  {
    if x in s {
      var i := IndexOf(s, x);
      var r := RemoveFirst(s, x);
      assert |r| == |s| - 1;
      forall a | 0 <= a < |r| ensures r[a] == s[if a < i then a else a + 1] {
      }
      forall a, b | 0 <= a < b < |r| ensures key(r[a]) <= key(r[b]) {
        assert r[a] == s[if a < i then a else a + 1];
        assert r[b] == s[if b < i then b else b + 1];
      }
    }
  }
}
