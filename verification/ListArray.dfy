/**
The active-thread list of src/module/listarray.h: a doubly linked list threaded
through a fixed array, so that insertion, removal and lookup take constant time.
The class keeps the source's links in place; `Contents` is the sequence they represent.
*/
module ListArrays {

  const MAX_SIZE := 4096
  const NULL := -1
  const DEAD := MAX_SIZE + 1

  datatype Link = Link(next: int, prev: int)

  ghost predicate Distinct(s: seq<int>) {
    forall i, j :: 0 <= i < j < |s| ==> s[i] != s[j]
  }

  /** The sequence with the first occurrence of x deleted and the order kept. */
  function Without(s: seq<int>, x: int): seq<int> {
    if s == [] then [] else if s[0] == x then s[1..] else [s[0]] + Without(s[1..], x)
  }

  /** The indices 0, 1, ..., n-1: what the interrupt-side traversal visits. */
  function UpTo(n: nat): (s: seq<int>)
    ensures |s| == n && forall k :: 0 <= k < n ==> s[k] == k
  {
    seq(n, k => k)
  }

  /** The sequence without its element k. */
  function Deleted(s: seq<int>, k: nat): seq<int>
    requires k < |s|
  {
    s[..k] + s[k+1..]
  }

  lemma {:induction false} WithoutAt(s: seq<int>, k: nat)
    requires Distinct(s) && k < |s|
    ensures Without(s, s[k]) == Deleted(s, k) && |Deleted(s, k)| == |s| - 1
  {
    if k == 0 {
    } else {
      WithoutAt(s[1..], k - 1);
      assert s[0] != s[k] && s[1..][k-1] == s[k];
      assert Deleted(s, k) == [s[0]] + Deleted(s[1..], k - 1);
    }
  }

  /** Removal takes out exactly one element and keeps the list duplicate-free. */
  lemma {:induction false} WithoutElements(s: seq<int>, x: int)
    requires Distinct(s)
    ensures Distinct(Without(s, x))
    ensures forall y :: y in Without(s, x) <==> y in s && y != x
    ensures |Without(s, x)| == |s| - (if x in s then 1 else 0)
  {
    if s == [] {
    } else {
      WithoutElements(s[1..], x);
      assert s == [s[0]] + s[1..];
      var w := Without(s[1..], x);
      assert s[0] != x ==> s[0] !in w && Without(s, x) == [s[0]] + w;
    }
  }

  /** Appending a new element and removing it again gives back the list. */
  lemma {:induction false} InsertThenRemove(s: seq<int>, x: int)
    requires x !in s
    ensures Without(s + [x], x) == s
  {
    if s == [] {
      assert s + [x] == [x];
    } else {
      assert (s + [x])[1..] == s[1..] + [x];
      InsertThenRemove(s[1..], x);
    }
  }

  /** Element k of a sequence, with the null marker past either end. */
  function Nth(s: seq<int>, k: int): int {
    if 0 <= k < |s| then s[k] else NULL
  }

  /** Member k is linked to its neighbours. */
  ghost predicate Linked(links: seq<Link>, c: seq<int>, k: nat)
    requires |links| == MAX_SIZE && k < |c|
  {
    0 <= c[k] < MAX_SIZE && links[c[k]] == Link(Nth(c, k + 1), Nth(c, k - 1))
  }

  /** The links thread exactly the sequence c: each member points to its neighbours, all else is dead. */
  ghost predicate Threads(links: seq<Link>, c: seq<int>) {
    && |links| == MAX_SIZE
    && Distinct(c)
    && (forall k :: 0 <= k < |c| ==> Linked(links, c, k))
    && (forall i :: 0 <= i < MAX_SIZE && i !in c ==> links[i] == Link(DEAD, DEAD))
  }

  /** The whole structure: links, both ends, and an index that bounds every member. */
  ghost predicate Represents(links: seq<Link>, head: int, tail: int, maxIndex: int, c: seq<int>) {
    && Threads(links, c)
    && head == Nth(c, 0)
    && tail == Nth(c, |c| - 1)
    && 0 <= maxIndex < MAX_SIZE
    && (forall i :: i in c ==> i <= maxIndex)
  }

  /** Linking a dead entry after the last one appends it. */
  lemma AppendThreads(links: seq<Link>, c: seq<int>, x: int, after: seq<Link>)
    requires Threads(links, c) && 0 <= x < MAX_SIZE && x !in c
    requires |after| == MAX_SIZE
    requires after[x] == Link(NULL, Nth(c, |c| - 1))
    requires c != [] ==> Linked(links, c, |c| - 1) && after[c[|c| - 1]] == links[c[|c| - 1]].(next := x)
    requires forall i :: 0 <= i < MAX_SIZE && i != x && i != Nth(c, |c| - 1) ==> after[i] == links[i]
    ensures Threads(after, c + [x])
  {
    var d := c + [x];
    forall k | 0 <= k < |d| ensures Linked(after, d, k) {
      if k < |c| {
        assert Linked(links, c, k);
      }
    }
    forall i | 0 <= i < MAX_SIZE && i !in d ensures after[i] == Link(DEAD, DEAD) {
      assert d[|c|] == x;
      assert i !in c;
      assert c != [] ==> c[|c| - 1] in c;
    }
  }

  /** Member k is dead and its neighbours are joined; every other link is as before. */
  ghost predicate Spliced(links: seq<Link>, c: seq<int>, k: nat, after: seq<Link>)
    requires |links| == |after| == MAX_SIZE && k < |c|
    requires Neighbourhood(links, c, k)
  {
    && after[c[k]] == Link(DEAD, DEAD)
    && (k > 0 ==> after[c[k-1]] == links[c[k-1]].(next := Nth(c, k + 1)))
    && (k + 1 < |c| ==> after[c[k+1]] == links[c[k+1]].(prev := Nth(c, k - 1)))
    && (forall i :: 0 <= i < MAX_SIZE && i != c[k] && i != Nth(c, k - 1) && i != Nth(c, k + 1) ==> after[i] == links[i])
  }

  /** Member k and its neighbours are linked, and are different entries. */
  ghost predicate Neighbourhood(links: seq<Link>, c: seq<int>, k: nat)
    requires |links| == MAX_SIZE && k < |c|
  {
    && Linked(links, c, k)
    && (k > 0 ==> Linked(links, c, k - 1) && c[k-1] != c[k])
    && (k + 1 < |c| ==> Linked(links, c, k + 1) && c[k+1] != c[k])
    && (0 < k < |c| - 1 ==> c[k-1] != c[k+1])
  }

  lemma NeighboursLinked(links: seq<Link>, c: seq<int>, k: nat)
    requires Threads(links, c) && k < |c|
    ensures Neighbourhood(links, c, k)
  {
    assert Linked(links, c, k);
    assert k > 0 ==> Linked(links, c, k - 1);
    assert k + 1 < |c| ==> Linked(links, c, k + 1);
  }

  /** Everything but member k survives its deletion. */
  lemma DeletedMembers(c: seq<int>, k: nat)
    requires k < |c|
    ensures forall m :: 0 <= m < |c| && m != k ==> c[m] in Deleted(c, k)
  {
    var d := Deleted(c, k);
    forall m | 0 <= m < |c| && m != k ensures c[m] in d {
      if m < k {
        assert d[m] == c[m];
      } else {
        assert d[m - 1] == c[m];
      }
    }
  }

  /** Unlinking member k by joining its neighbours deletes it and nothing else. */
  lemma RemoveThreads(links: seq<Link>, c: seq<int>, k: nat, after: seq<Link>)
    requires Threads(links, c) && k < |c| && |after| == MAX_SIZE
    requires Neighbourhood(links, c, k) && Spliced(links, c, k, after)
    ensures Threads(after, Deleted(c, k))
    ensures Nth(Deleted(c, k), 0) == Nth(c, if k == 0 then 1 else 0)
    ensures Nth(Deleted(c, k), |c| - 2) == Nth(c, if k == |c| - 1 then k - 1 else |c| - 1)
  {
    var d := Deleted(c, k);
    forall j | 0 <= j < |d| ensures Linked(after, d, j) {
      RemainsLinked(links, c, k, after, if j < k then j else j + 1);
    }
    forall i | 0 <= i < MAX_SIZE && i !in d ensures after[i] == Link(DEAD, DEAD) {
      BecomesDead(links, c, k, after, i);
    }
  }

  /** A remaining member, now at its place in the shorter sequence, points to its neighbours there. */
  lemma RemainsLinked(links: seq<Link>, c: seq<int>, k: nat, after: seq<Link>, m: nat)
    requires Threads(links, c) && k < |c| && |after| == MAX_SIZE && m < |c| && m != k
    requires Neighbourhood(links, c, k) && Spliced(links, c, k, after)
    ensures Linked(after, Deleted(c, k), if m < k then m else m - 1)
  {
    assert Linked(links, c, m);
  }

  lemma BecomesDead(links: seq<Link>, c: seq<int>, k: nat, after: seq<Link>, i: int)
    requires Threads(links, c) && k < |c| && |after| == MAX_SIZE && 0 <= i < MAX_SIZE && i !in Deleted(c, k)
    requires Neighbourhood(links, c, k) && Spliced(links, c, k, after)
    ensures after[i] == Link(DEAD, DEAD)
  {
    DeletedMembers(c, k);
    assert i in c ==> i == c[k];
    assert k > 0 ==> c[k-1] in c && c[k-1] != c[k];
    assert k + 1 < |c| ==> c[k+1] in c && c[k+1] != c[k];
  }

  /** Deletion of member k, ends included. */
  lemma RemoveRepresents(links: seq<Link>, head: int, tail: int, maxIndex: int, c: seq<int>, k: nat, after: seq<Link>,
      head': int, tail': int)
    requires Represents(links, head, tail, maxIndex, c) && k < |c| && |after| == MAX_SIZE
    requires Neighbourhood(links, c, k) && Spliced(links, c, k, after)
    requires head' == (if k == 0 then Nth(c, 1) else head) && tail' == (if k == |c| - 1 then Nth(c, k - 1) else tail)
    ensures Represents(after, head', tail', maxIndex, Deleted(c, k))
  {
    RemoveThreads(links, c, k, after);
    DeletionBounded(c, k, maxIndex);
  }

  lemma DeletionBounded(c: seq<int>, k: nat, maxIndex: int)
    requires k < |c| && forall i :: i in c ==> i <= maxIndex
    ensures var d := Deleted(c, k); |d| == |c| - 1 && forall i :: i in d ==> i <= maxIndex
  {
    var d := Deleted(c, k);
    assert |d| == |c| - 1;
    forall i | i in d ensures i <= maxIndex {
      var j :| 0 <= j < |d| && d[j] == i;
      var m := if j < k then j else j + 1;
      assert i == c[m] && c[m] in c;
    }
  }

  class ListArray {
    var entries: array<Link>
    var head: int
    var tail: int
    var count: int
    var maxIndex: int
    ghost var Contents: seq<int>

    ghost predicate Valid()
      reads this, entries
    {
      && entries.Length == MAX_SIZE
      && count == |Contents|
      && Represents(entries[..], head, tail, maxIndex, Contents)
    }

    constructor ()
      ensures Valid() && fresh(entries)
      ensures Contents == [] && maxIndex == 0
    {
      var links := new Link[MAX_SIZE];
      for i := 0 to MAX_SIZE
        invariant forall j :: 0 <= j < i ==> links[j] == Link(DEAD, DEAD)
      {
        links[i] := Link(DEAD, DEAD);
      }
      entries := links;
      head, tail := NULL, NULL;
      count := 0;
      maxIndex := 0;
      Contents := [];
    }

    method Count() returns (n: int)
      requires Valid()
      ensures n == |Contents|
    {
      n := count;
    }

    method InList(index: int) returns (b: bool)
      requires Valid() && 0 <= index < MAX_SIZE
      ensures b <==> index in Contents
    {
      b := entries[index].next != DEAD && entries[index].prev != DEAD;
      if index in Contents {
        var k :| 0 <= k < |Contents| && Contents[k] == index;
        assert Linked(entries[..], Contents, k);
        assert k + 1 < |Contents| ==> Contents[k+1] in Contents;
        assert k > 0 ==> Contents[k-1] in Contents;
      } else {
        assert entries[..][index] == Link(DEAD, DEAD);
      }
    }

    /** `ok` is false when the source stops the machine: the element is already listed. */
    method Insert(index: int) returns (ok: bool)
      requires Valid() && 0 <= index < MAX_SIZE
      modifies this, entries
      ensures Valid() && entries == old(entries)
      ensures ok <==> index !in old(Contents)
      ensures Contents == if ok then old(Contents) + [index] else old(Contents)
      ensures maxIndex == if ok && index > old(maxIndex) then index else old(maxIndex)
    {
      var listed := InList(index);
      if listed {
        return false;
      }
      ok := true;
      if tail == NULL {
        head, tail := index, index;
        entries[index] := entries[index].(prev := NULL);
      } else {
        assert Linked(entries[..], Contents, |Contents| - 1);
        entries[tail] := entries[tail].(next := index);
        entries[index] := entries[index].(prev := tail);
        tail := index;
      }
      entries[index] := entries[index].(next := NULL);
      count := count + 1;
      if index > maxIndex {
        maxIndex := index;
      }
      AppendThreads(old(entries[..]), Contents, index, entries[..]);
      Contents := Contents + [index];
    }

    /** The four cases of the removal: the links, head and tail afterwards. */
    method Unlink(index: int, ghost k: nat)
      requires entries.Length == MAX_SIZE && k < |Contents| && index == Contents[k]
      requires head == Nth(Contents, 0) && tail == Nth(Contents, |Contents| - 1)
      requires Neighbourhood(entries[..], Contents, k)
      modifies entries, `head, `tail
      ensures Spliced(old(entries[..]), Contents, k, entries[..])
      ensures head == if k == 0 then Nth(Contents, 1) else old(head)
      ensures tail == if k == |Contents| - 1 then Nth(Contents, k - 1) else old(tail)
    {
      var link := entries[index];
      if link.prev == NULL && link.next == NULL {
        head, tail := NULL, NULL;
      } else if link.prev == NULL {
        head := link.next;
        entries[head] := entries[head].(prev := NULL);
      } else if link.next == NULL {
        tail := link.prev;
        entries[tail] := entries[tail].(next := NULL);
      } else {
        entries[link.prev] := entries[link.prev].(next := link.next);
        entries[link.next] := entries[link.next].(prev := link.prev);
      }
      entries[index] := Link(DEAD, DEAD);
    }

    /** `ok` is false when the source stops the machine: the list is empty. */
    method Remove(index: int) returns (ok: bool)
      requires Valid()
      requires Contents == [] || index in Contents
      modifies this, entries
      ensures Valid() && entries == old(entries)
      ensures ok <==> old(Contents) != []
      ensures Contents == Without(old(Contents), index)
      ensures maxIndex == old(maxIndex)
    {
      if count <= 0 {
        return false;
      }
      ghost var k :| 0 <= k < |Contents| && Contents[k] == index;
      ghost var before, c := entries[..], Contents;
      NeighboursLinked(before, c, k);
      Unlink(index, k);
      count := count - 1;
      RemoveRepresents(before, old(head), old(tail), maxIndex, c, k, entries[..], head, tail);
      WithoutAt(c, k);
      Contents := Without(c, index);
      ok := true;
    }

    /** One step of the list traversal. */
    method Next(i: int, ghost k: nat) returns (next: int)
      requires Valid() && k < |Contents| && i == Contents[k]
      ensures next == Nth(Contents, k + 1)
    {
      assert Linked(entries[..], Contents, k);
      next := entries[i].next;
    }

    /** The list traversal: it stops, having visited exactly the represented sequence. */
    method ForEach() returns (visited: seq<int>)
      requires Valid()
      ensures visited == Contents
    {
      visited := [];
      var i := head;
      while i != NULL
        invariant |visited| <= |Contents| && visited == Contents[..|visited|]
        invariant i == Nth(Contents, |visited|)
        decreases |Contents| - |visited|
      {
        var next := Next(i, |visited|);
        visited := visited + [i];
        i := next;
      }
      assert |visited| < |Contents| ==> Linked(entries[..], Contents, |visited|);
    }

    /** The interrupt-side traversal visits every index up to `maxIndex`, so every member. */
    method ForEachAllElements() returns (visited: seq<int>)
      requires Valid()
      ensures visited == UpTo(maxIndex + 1)
      ensures forall i :: i in Contents ==> i in visited
    {
      visited := [];
      var i := 0;
      while i <= maxIndex
        invariant 0 <= i <= maxIndex + 1
        invariant visited == UpTo(i)
      {
        visited := visited + [i];
        i := i + 1;
      }
      forall m | m in Contents ensures m in visited {
        var k :| 0 <= k < |Contents| && Contents[k] == m;
        assert Linked(entries[..], Contents, k);
        assert visited[m] == m;
      }
    }
  }
}
