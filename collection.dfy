/**
 * A WDFCOLLECTION of object handles as the modules use it: WdfCollectionAdd
 * appends, WdfCollectionGetItem returns NULL past the last item, and
 * WdfCollectionRemoveItem closes the gap at an index.
 *
 * RemoveFirst is the reference definition of "search for a handle and remove
 * it": the scans of the request target and of the IOCTL handler are proved to
 * compute it.
 */
module Collection {
  import opened NtStatus

  /** WdfCollectionGetItem: the item at index i, or NULL past the end. */
  function GetItem<T>(s: seq<T>, i: nat): (r: Option<T>)
    ensures r.Some? <==> i < |s|
    ensures r.Some? ==> r.value == s[i]
  {
    if i < |s| then Some(s[i]) else None
  }

  /** WdfCollectionRemoveItem: the collection without its i-th item. */
  function RemoveItem<T>(s: seq<T>, i: nat): (r: seq<T>)
    requires i < |s|
    ensures |r| == |s| - 1
    ensures forall j :: 0 <= j < i ==> r[j] == s[j]
    ensures forall j :: i <= j < |r| ==> r[j] == s[j + 1]
  {
    s[..i] + s[i + 1..]
  }

  /** The index of the first occurrence of x, or |s| when x is absent. */
  function FirstIndex<T(==)>(s: seq<T>, x: T): (i: nat)
    ensures i <= |s|
    ensures i < |s| <==> x in s
    ensures i < |s| ==> s[i] == x
    ensures forall j :: 0 <= j < i ==> s[j] != x
  {
    if |s| == 0 then 0
    else if s[0] == x then 0
    else 1 + FirstIndex(s[1..], x)
  }

  /** The collection with the first occurrence of x taken out (unchanged when x is absent). */
  function RemoveFirst<T(==)>(s: seq<T>, x: T): (r: seq<T>)
    ensures x in s ==> |r| == |s| - 1
    ensures x !in s ==> r == s
  {
    if |s| == 0 then s
    else if s[0] == x then s[1..]
    else [s[0]] + RemoveFirst(s[1..], x)
  }

  /** No handle occurs twice. */
  predicate NoDup<T(==)>(s: seq<T>)
  {
    forall i, j :: 0 <= i < j < |s| ==> s[i] != s[j]
  }

  /**
   * Removing at the index of the first occurrence is RemoveFirst: this is
   * what a front-to-back scan that stops at the first match computes.
   */
  lemma {:induction false} RemoveItemAtFirstMatch<T>(s: seq<T>, x: T, i: nat)
    requires i < |s| && s[i] == x
    requires forall j :: 0 <= j < i ==> s[j] != x
    ensures RemoveItem(s, i) == RemoveFirst(s, x)
  {
    if i > 0 {
      var t := s[1..];
      assert s[0] != x;
      assert forall j :: 0 <= j < i - 1 ==> t[j] == s[j + 1];
      RemoveItemAtFirstMatch(t, x, i - 1);
      assert RemoveItem(s, i) == [s[0]] + RemoveItem(t, i - 1);
      assert RemoveFirst(s, x) == [s[0]] + RemoveFirst(t, x);
    }
  }

  /** RemoveFirst of a present handle is the removal at its first index. */
  lemma RemoveFirstAtFirstIndex<T>(s: seq<T>, x: T)
    requires x in s
    ensures RemoveFirst(s, x) == RemoveItem(s, FirstIndex(s, x))
  {
    RemoveItemAtFirstMatch(s, x, FirstIndex(s, x));
  }

  /** Removal only takes items away: what is left was there before. */
  lemma RemoveFirstSubset<T>(s: seq<T>, x: T)
    ensures forall y :: y in RemoveFirst(s, x) ==> y in s
  {
    if x in s {
      RemoveFirstAtFirstIndex(s, x);
    }
  }

  /** Adding a handle that is not yet present keeps the collection free of duplicates. */
  lemma AddKeepsNoDup<T>(s: seq<T>, x: T)
    requires NoDup(s) && x !in s
    ensures NoDup(s + [x])
  {
  }

  /**
   * Removal from a duplicate-free collection takes the handle out completely
   * and leaves every other handle where it was.
   */
  lemma RemoveFirstNoDup<T>(s: seq<T>, x: T)
    requires NoDup(s)
    ensures NoDup(RemoveFirst(s, x))
    ensures x !in RemoveFirst(s, x)
    ensures forall y :: y != x ==> (y in RemoveFirst(s, x) <==> y in s)
  {
    if x in s {
      RemoveFirstAtFirstIndex(s, x);
      var i := FirstIndex(s, x);
      var r := RemoveItem(s, i);
      forall a, b | 0 <= a < b < |r|
        ensures r[a] != r[b]
      {
        var a' := if a < i then a else a + 1;
        var b' := if b < i then b else b + 1;
        assert r[a] == s[a'] && r[b] == s[b'];
      }
      forall k | 0 <= k < |r|
        ensures r[k] != x && r[k] in s
      {
        var k' := if k < i then k else k + 1;
        assert r[k] == s[k'] && k' != i;
      }
      forall y | y in s && y != x
        ensures y in r
      {
        var k :| 0 <= k < |s| && s[k] == y;
        if k < i { assert r[k] == y; } else { assert k > i; assert r[k - 1] == y; }
      }
    }
  }

  /** Taking a just-appended handle out again restores the collection (add, then search-and-remove). */
  lemma {:induction false} RemoveFirstOfAppended<T>(s: seq<T>, x: T)
    requires x !in s
    ensures RemoveFirst(s + [x], x) == s
  {
    if |s| > 0 {
      assert (s + [x])[1..] == s[1..] + [x];
      RemoveFirstOfAppended(s[1..], x);
    }
  }
}
