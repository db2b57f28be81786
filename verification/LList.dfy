/** The intrusive circular list of sys/alt_llist.h: a ring of entries threaded through
    a head element, with front insertion and constant-time removal. */
module LList {

  /** An element of a ring together with the structure that embeds it. */
  class Node<T(0)> {
    var next: Node?<T>
    var previous: Node?<T>
    var data: T

    /** ALT_LLIST_ENTRY: an element that was never put on a list. */
    constructor ()
      ensures next == null && previous == null
    {
      next, previous := null, null;
    }
  }

  ghost predicate Distinct<A>(s: seq<A>) {
    forall i, j :: 0 <= i < j < |s| ==> s[i] != s[j]
  }

  /** s is one closed ring, read forwards by next and backwards by previous. */
  ghost predicate Circular<T(0)>(s: seq<Node<T>>)
    reads s
  {
    && s != []
    && Distinct(s)
    && (forall i {:trigger s[i].next} :: 0 <= i < |s| - 1 ==> s[i].next == s[i + 1])
    && (forall i {:trigger s[i].previous} :: 1 <= i < |s| ==> s[i].previous == s[i - 1])
    && s[|s| - 1].next == s[0]
    && s[0].previous == s[|s| - 1]
  }

  /** An element off every list, as alt_llist_remove leaves it. */
  ghost predicate SelfLinked<T(0)>(n: Node<T>)
    reads n
  {
    n.next == n && n.previous == n
  }

  ghost function Elements<A>(s: seq<A>): (r: set<A>)
    ensures forall i :: 0 <= i < |s| ==> s[i] in r
  {
    set x | x in s
  }

  /** s with the occurrence of x taken out, the other elements in order. */
  ghost function Without<A>(s: seq<A>, x: A): (r: seq<A>)
    ensures |r| <= |s|
    ensures x !in s ==> r == s
  {
    if s == [] then []
    else if s[0] == x then s[1..]
    else [s[0]] + Without(s[1..], x)
  }

  lemma DistinctParts<A>(a: seq<A>, b: seq<A>)
    requires Distinct(a + b)
    ensures Distinct(a) && Distinct(b)
    ensures forall x :: x in a ==> x !in b
  {
    assert forall i :: 0 <= i < |a| ==> (a + b)[i] == a[i];
    assert forall i :: 0 <= i < |b| ==> (a + b)[|a| + i] == b[i];
  }

  lemma {:induction false} WithoutSplit<A>(s: seq<A>, k: nat)
    requires k < |s| && Distinct(s)
    ensures Without(s, s[k]) == s[..k] + s[k + 1..]
  {
    if k > 0 {
      assert s[1..][k - 1] == s[k];
      WithoutSplit(s[1..], k - 1);
      assert [s[0]] + s[1..][..k - 1] == s[..k];
      assert s[1..][k..] == s[k + 1..];
    }
  }

  lemma Assoc<A>(a: seq<A>, b: seq<A>, c: seq<A>)
    ensures a + (b + c) == (a + b) + c
  {
  }

  lemma {:induction false} WithoutAppend<A>(a: seq<A>, b: seq<A>, x: A)
    ensures Without(a + b, x) == if x in a then Without(a, x) + b else a + Without(b, x)
  {
    if a == [] {
      assert a + b == b;
    } else {
      var first, rest := [a[0]], a[1..];
      assert (a + b)[1..] == rest + b;
      if a[0] != x {
        WithoutAppend(rest, b, x);
        assert a == first + rest;
        Assoc(first, Without(rest, x), b);
        Assoc(first, rest, Without(b, x));
      }
    }
  }

  lemma DistinctCut<A>(s: seq<A>, k: nat)
    requires k < |s| && Distinct(s)
    ensures Distinct(s[..k] + s[k + 1..])
  {
    var r := s[..k] + s[k + 1..];
    forall i, j | 0 <= i < j < |r|
      ensures r[i] != r[j]
    {
      assert r[i] == s[if i < k then i else i + 1] && r[j] == s[if j < k then j else j + 1];
    }
  }

  lemma ElementsCut<A>(s: seq<A>, k: nat)
    requires k < |s| && forall i :: 0 <= i < |s| && i != k ==> s[i] != s[k]
    ensures Elements(s[..k] + s[k + 1..]) == Elements(s) - {s[k]}
  {
    assert s == s[..k] + [s[k]] + s[k + 1..];
  }

  lemma WithoutMembers<A>(s: seq<A>, x: A)
    requires Distinct(s)
    ensures Distinct(Without(s, x))
    ensures Elements(Without(s, x)) == Elements(s) - {x}
  {
    if x in s {
      var k :| 0 <= k < |s| && s[k] == x;
      WithoutSplit(s, k);
      DistinctCut(s, k);
      ElementsCut(s, k);
    }
  }

  ghost predicate Tail<A>(t: seq<A>, s: seq<A>) {
    |t| <= |s| && s[|s| - |t|..] == t
  }

  lemma WithoutTail<A>(s: seq<A>, t: seq<A>, x: A)
    requires Distinct(s) && Tail(t, s)
    ensures Tail(Without(t, x), Without(s, x))
    ensures Distinct(Without(s, x))
    ensures Elements(Without(s, x)) == Elements(s) - {x}
    ensures Elements(Without(t, x)) == Elements(t) - {x}
  {
    var front := s[..|s| - |t|];
    assert s == front + t;
    WithoutAppend(front, t, x);
    WithoutMembers(s, x);
    DistinctParts(front, t);
    assert x in front ==> Without(t, x) == t;
    WithoutMembers(t, x);
  }

  ghost function Cyclic<T(0)>(s: seq<Node<T>>, k: nat): Node<T>
    requires k <= |s| && s != []
  {
    if k < |s| then s[k] else s[0]
  }

  /** A ring whose links bypass its element at k is a ring without that element. */
  lemma Bridged<T(0)>(s: seq<Node<T>>, k: nat)
    requires 0 < k < |s| && Distinct(s)
    requires forall i {:trigger s[i].next} :: 0 <= i < |s| && i != k && i != k - 1 ==> s[i].next == Cyclic(s, i + 1)
    requires forall i {:trigger s[i].previous} :: 1 <= i < |s| && i != k && i != k + 1 ==> s[i].previous == s[i - 1]
    requires s[0].previous == if k + 1 == |s| then s[k - 1] else s[|s| - 1]
    requires s[k - 1].next == Cyclic(s, k + 1) && Cyclic(s, k + 1).previous == s[k - 1]
    ensures Circular(s[..k] + s[k + 1..])
  {
    var t := s[..k] + s[k + 1..];
    assert forall i {:trigger t[i]} :: 0 <= i < |t| ==> t[i] == s[if i < k then i else i + 1];
  }

  class Ring<T(0)> {
    const head: Node<T>
    ghost var entries: seq<Node<T>>

    ghost predicate Valid()
      reads this, head, entries
    {
      Circular([head] + entries)
    }

    ghost function Nodes(): set<Node<T>>
      reads this
    {
      {head} + Elements(entries)
    }

    /** ALT_LLIST_HEAD: an empty ring. */
    constructor ()
      ensures Valid() && entries == [] && fresh(head)
    {
      head := new Node();
      entries := [];
      new;
      head.next, head.previous := head, head;
    }

    /** alt_llist_insert: entry becomes the first element after the head. */
    method Insert(entry: Node<T>)
      requires Valid() && entry !in Nodes()
      modifies `entries, Nodes()`next, Nodes()`previous, entry`next, entry`previous
      ensures Valid() && entries == [entry] + old(entries)
    {
      ghost var all, grown := [head] + entries, [head, entry] + entries;
      assert all[|entries|].next == head;
      entry.previous := head;
      entry.next := head.next;
      head.next.previous := entry;
      head.next := entry;
      entries := [entry] + entries;
      assert [head] + entries == grown;
      assert forall i {:trigger grown[i]} :: 2 <= i < |grown| ==> grown[i] == all[i - 1];
    }

    /** The four writes of alt_llist_remove, on an element whose neighbours are known. */
    method Unlink(entry: Node<T>)
      requires entry.next != null && entry.previous != null
      requires entry.next == entry <==> entry.previous == entry
      modifies entry`next, entry`previous, entry.next`previous, entry.previous`next
      ensures SelfLinked(entry)
      ensures old(entry.next) != entry ==>
        old(entry.previous).next == old(entry.next) && old(entry.next).previous == old(entry.previous)
    {
      entry.next.previous := entry.previous;
      entry.previous.next := entry.next;
      entry.previous := entry;
      entry.next := entry;
    }

    /** alt_llist_remove: an element of the ring leaves it; one already off it stays off. */
    method Remove(entry: Node<T>)
      requires Valid() && entry != head && (entry in entries || SelfLinked(entry))
      modifies `entries, Nodes()`next, Nodes()`previous, entry`next, entry`previous
      ensures Valid() && entries == Without(old(entries), entry)
      ensures SelfLinked(entry)
    {
      ghost var s := [head] + entries;
      ghost var k := 0;
      if entry in entries {
        k := Position(entry);
      }
      Unlink(entry);
      if k > 0 {
        Bridged(s, k);
        entries := (s[..k] + s[k + 1..])[1..];
        assert [head] + entries == s[..k] + s[k + 1..];
      }
    }

    lemma Position(entry: Node<T>) returns (k: nat)
      requires Valid() && entry in entries
      ensures var s := [head] + entries;
        && 0 < k < |s| && s[k] == entry
        && entry.previous == s[k - 1] && entry.next == Cyclic(s, k + 1)
        && Without(entries, entry) == (s[..k] + s[k + 1..])[1..]
        && s[k - 1] != entry && Cyclic(s, k + 1) != entry
    {
      var s := [head] + entries;
      var i :| 0 <= i < |entries| && entries[i] == entry;
      k := i + 1;
      DistinctParts([head], entries);
      WithoutSplit(entries, i);
      assert s[k] == entry && s[k - 1].next == s[k];
      assert (s[..k] + s[k + 1..])[1..] == entries[..i] + entries[i + 1..];
    }
  }
}
