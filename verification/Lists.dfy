/** Lists in which every element occurs at most once. */
module Lists {

  ghost predicate NoDuplicates<T>(list: seq<T>) {
    forall i, j :: 0 <= i < j < |list| ==> list[i] != list[j]
  }

  /** A list with one element taken out, if it occurs. */
  function Without<T(==)>(list: seq<T>, x: T): (r: seq<T>)
    ensures forall j :: 0 <= j < |r| ==> r[j] in list
  {
    if list == [] then []
    else if list[0] == x then list[1..]
    else [list[0]] + Without(list[1..], x)
  }

  lemma {:induction false} WithoutAt<T>(list: seq<T>, x: T, i: nat)
    requires i < |list| && list[i] == x && x !in list[..i]
    ensures Without(list, x) == list[..i] + list[i + 1..]
  {
    if i > 0 {
      assert list[0] == list[..i][0] && list[1..][..i - 1] == list[..i][1..];
      WithoutAt(list[1..], x, i - 1);
    }
  }

  lemma {:induction false} WithoutMissing<T>(list: seq<T>, x: T)
    requires x !in list
    ensures Without(list, x) == list
  {
    if list != [] {
      WithoutMissing(list[1..], x);
    }
  }

  lemma WithoutIs<T>(list: seq<T>, x: T)
    requires NoDuplicates(list)
    ensures NoDuplicates(Without(list, x)) && forall y :: y in Without(list, x) <==> y in list && y != x
  {
    hide Without;
    if x in list {
      var i :| 0 <= i < |list| && list[i] == x;
      WithoutAt(list, x, i);
      Cut(list, i);
    } else {
      WithoutMissing(list, x);
    }
  }

  lemma Cut<T>(list: seq<T>, i: nat)
    requires NoDuplicates(list) && i < |list|
    ensures NoDuplicates(list[..i] + list[i + 1..])
    ensures forall y :: y in list[..i] + list[i + 1..] <==> y in list && y != list[i]
  {
    var rest := list[..i] + list[i + 1..];
    assert forall k :: 0 <= k < |rest| ==> rest[k] == list[if k < i then k else k + 1];
    forall y | y in list && y != list[i]
      ensures y in rest
    {
      var k :| 0 <= k < |list| && list[k] == y;
      assert rest[if k < i then k else k - 1] == y;
    }
  }

  /** Moving an element to the end, or adding it there, loses no other. */
  lemma {:induction false} MovedKeepsOthers<T>(list: seq<T>, x: T)
    ensures x in Without(list, x) + [x]
    ensures forall y :: y in list ==> y in Without(list, x) + [x]
  {
    if list != [] {
      assert list == [list[0]] + list[1..];
      MovedKeepsOthers(list[1..], x);
    }
  }

  lemma TailIsDistinct<T>(list: seq<T>)
    requires NoDuplicates(list) && list != []
    ensures NoDuplicates(list[1..]) && list[0] !in list[1..] && list == [list[0]] + list[1..]
  {
  }

  lemma JoinIsDistinct<T>(a: seq<T>, b: seq<T>)
    requires NoDuplicates(a) && NoDuplicates(b) && forall x :: x in a ==> x !in b
    ensures NoDuplicates(a + b)
  {
    var c := a + b;
    forall i, j | 0 <= i < j < |c|
      ensures c[i] != c[j]
    {
      assert i < |a| <= j ==> a[i] in a && b[j - |a|] in b;
    }
  }

  ghost predicate Precedes<T>(list: seq<T>, x: T, y: T) {
    exists a, b :: 0 <= a < b < |list| && list[a] == x && list[b] == y
  }

  /** The elements of one list come in the order of another one. */
  ghost predicate InOrder<T>(some: seq<T>, list: seq<T>) {
    forall i, j :: 0 <= i < j < |some| ==> Precedes(list, some[i], some[j])
  }

  lemma InOrderOfMore<T>(some: seq<T>, list: seq<T>, x: T)
    requires InOrder(some, list) && forall k :: 0 <= k < |some| ==> some[k] in list
    ensures InOrder(some, list + [x]) && InOrder(some + [x], list + [x])
  {
    forall i, j | 0 <= i < j < |some|
      ensures Precedes(list + [x], some[i], some[j])
    {
      assert Precedes(list, some[i], some[j]);
      var a: nat, b: nat :| a < b < |list| && list[a] == some[i] && list[b] == some[j];
      assert (list + [x])[a] == some[i] && (list + [x])[b] == some[j];
    }
    forall i | 0 <= i < |some|
      ensures Precedes(list + [x], some[i], x)
    {
      assert some[i] in list;
      var a :| 0 <= a < |list| && list[a] == some[i];
      assert (list + [x])[a] == some[i] && (list + [x])[|list|] == x;
    }
  }

  lemma CutIsInOrder<T>(some: seq<T>, list: seq<T>, i: nat)
    requires InOrder(some, list) && i < |some|
    ensures InOrder(some[..i] + some[i + 1..], list)
  {
    var rest := some[..i] + some[i + 1..];
    assert forall k :: 0 <= k < |rest| ==> rest[k] == some[if k < i then k else k + 1];
  }

  lemma WholeIsInOrder<T>(list: seq<T>)
    ensures InOrder(list, list)
  {
  }

  lemma WithoutIsInOrder<T>(list: seq<T>, x: T)
    ensures InOrder(Without(list, x), list)
  {
    hide Without, InOrder;
    WholeIsInOrder(list);
    if x in list {
      var i := FirstIndex(list, x);
      WithoutAt(list, x, i);
      CutIsInOrder(list, list, i);
    } else {
      WithoutMissing(list, x);
    }
  }

  lemma {:induction false} FirstIndex<T>(list: seq<T>, x: T) returns (i: nat)
    requires x in list
    ensures i < |list| && list[i] == x && x !in list[..i]
  {
    i := 0;
    if list[0] != x {
      var j := FirstIndex(list[1..], x);
      i := j + 1;
      assert list[..i] == [list[0]] + list[1..][..j];
    }
  }

  lemma InOrderTwice<T>(a: seq<T>, b: seq<T>, list: seq<T>)
    requires InOrder(a, b) && InOrder(b, list)
    ensures InOrder(a, list)
  {
    forall i, j | 0 <= i < j < |a|
      ensures Precedes(list, a[i], a[j])
    {
      assert Precedes(b, a[i], a[j]);
      var k: nat, l: nat :| k < l < |b| && b[k] == a[i] && b[l] == a[j];
      assert Precedes(list, b[k], b[l]);
    }
  }

  lemma NoneIsInOrder<T>(list: seq<T>)
    ensures InOrder([], list)
  {
  }

  lemma OneIsInOrder<T>(x: T, list: seq<T>)
    ensures InOrder([x], list)
  {
  }

  /** The first one, or not, and then others that come in the order of the list behind it. */
  lemma FirstIsInOrder<T>(x: T, more: seq<T>, list: seq<T>)
    requires InOrder(more, list) && forall k :: 0 <= k < |more| ==> more[k] in list
    ensures InOrder([x] + more, [x] + list) && InOrder(more, [x] + list)
  {
    var all := [x] + list;
    forall i, j | 0 <= i < j < |more|
      ensures Precedes(all, more[i], more[j])
    {
      assert Precedes(list, more[i], more[j]);
      var a: nat, b: nat :| a < b < |list| && list[a] == more[i] && list[b] == more[j];
      assert all[a + 1] == more[i] && all[b + 1] == more[j];
    }
    forall j | 0 <= j < |more|
      ensures Precedes(all, x, more[j])
    {
      assert more[j] in list;
      var b: nat :| b < |list| && list[b] == more[j];
      assert all[0] == x && all[b + 1] == more[j];
    }
  }

  /** The i-th element of what is left goes behind the others, or is left out. */
  lemma TakenIsInOrder<T>(more: seq<T>, list: seq<T>, i: nat)
    requires i < |list|
    ensures
      var cut := list[..i] + list[i + 1..];
      more + [list[i]] + cut[i..] == more + list[i..]
  {
    assert (list[..i] + list[i + 1..])[i..] == list[i + 1..];
  }

  lemma LeftOutIsInOrder<T>(more: seq<T>, list: seq<T>, i: nat, all: seq<T>)
    requires i < |list| && InOrder(more + list[i..], all)
    ensures InOrder(more + list[i + 1..], all)
  {
    var others := more + list[i..];
    CutIsInOrder(others, all, |more|);
    assert others[..|more|] + others[|more| + 1..] == more + list[i + 1..];
  }
}
