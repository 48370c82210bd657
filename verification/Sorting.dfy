/** The standard library's stable `sort`, and what sorting a duplicate-free list pins down. */
module Sorting {
  import opened Collections

  ghost predicate TotalOrder<T(!new)>(le: (T, T) -> bool) {
    && (forall x, y :: le(x, y) || le(y, x))
    && (forall x, y :: le(x, y) && le(y, x) ==> x == y)
    && (forall x, y, z :: le(x, y) && le(y, z) ==> le(x, z))
  }

  ghost predicate Ordered<T>(s: seq<T>, le: (T, T) -> bool) {
    forall i, j :: 0 <= i < j < |s| ==> le(s[i], s[j])
  }

  function Insert<T>(x: T, s: seq<T>, le: (T, T) -> bool): (r: seq<T>) {
    if s == [] then [x]
    else if le(x, s[0]) then [x] + s
    else [s[0]] + Insert(x, s[1..], le)
  }

  function Sort<T>(s: seq<T>, le: (T, T) -> bool): (r: seq<T>) {
    if s == [] then [] else Insert(s[0], Sort(s[1..], le), le)
  }

  lemma {:induction false} InsertKeepsEntries<T>(x: T, s: seq<T>, le: (T, T) -> bool)
    ensures multiset(Insert(x, s, le)) == multiset(s) + multiset{x}
  {
    if s != [] && !le(x, s[0]) {
      InsertKeepsEntries(x, s[1..], le);
      assert s == [s[0]] + s[1..];
    }
  }

  lemma OrderedOne<T>(x: T, le: (T, T) -> bool)
    ensures Ordered([x], le)
  {
  }

  lemma OrderedCons<T>(head: T, rest: seq<T>, le: (T, T) -> bool)
    requires Ordered(rest, le) && forall y :: y in rest ==> le(head, y)
    ensures Ordered([head] + rest, le)
  {
    var all := [head] + rest;
    forall i, j | 0 <= i < j < |all| ensures le(all[i], all[j]) {
      assert all[j] == rest[j - 1] && rest[j - 1] in rest;
      if i > 0 { assert all[i] == rest[i - 1]; }
    }
  }

  lemma OrderedHead<T>(s: seq<T>, le: (T, T) -> bool)
    requires Ordered(s, le) && s != []
    ensures Ordered(s[1..], le) && forall y :: y in s[1..] ==> le(s[0], y)
  {
  }

  lemma Flip<T(!new)>(x: T, y: T, le: (T, T) -> bool)
    requires TotalOrder(le) && !le(x, y)
    ensures le(y, x)
  {
  }

  lemma LeadsAll<T(!new)>(x: T, s: seq<T>, le: (T, T) -> bool)
    requires TotalOrder(le) && s != [] && le(x, s[0]) && forall y :: y in s[1..] ==> le(s[0], y)
    ensures forall y :: y in s ==> le(x, y)
  {
    assert s == [s[0]] + s[1..];
  }

  lemma InsertHas<T>(x: T, s: seq<T>, le: (T, T) -> bool, y: T)
    ensures y in Insert(x, s, le) <==> y == x || y in s
  {
    InsertKeepsEntries(x, s, le);
    assert y in Insert(x, s, le) <==> y in multiset(Insert(x, s, le));
    assert y in s <==> y in multiset(s);
  }

  lemma {:induction false} InsertIsOrdered<T(!new)>(x: T, s: seq<T>, le: (T, T) -> bool)
    requires TotalOrder(le) && Ordered(s, le)
    ensures Ordered(Insert(x, s, le), le)
  {
    hide TotalOrder, Ordered;
    if s == [] {
      OrderedOne(x, le);
    } else {
      OrderedHead(s, le);
      if le(x, s[0]) {
        LeadsAll(x, s, le);
        OrderedCons(x, s, le);
      } else {
        Flip(x, s[0], le);
        InsertIsOrdered(x, s[1..], le);
        forall y | y in Insert(x, s[1..], le) ensures le(s[0], y) { InsertHas(x, s[1..], le, y); }
        OrderedCons(s[0], Insert(x, s[1..], le), le);
      }
    }
  }

  /** Sorting orders the list and keeps every entry, with its multiplicity. */
  lemma {:induction false} SortIsOrdered<T(!new)>(s: seq<T>, le: (T, T) -> bool)
    requires TotalOrder(le)
    ensures Ordered(Sort(s, le), le)
    ensures multiset(Sort(s, le)) == multiset(s)
  {
    if s != [] {
      SortIsOrdered(s[1..], le);
      InsertIsOrdered(s[0], Sort(s[1..], le), le);
      InsertKeepsEntries(s[0], Sort(s[1..], le), le);
      assert s == [s[0]] + s[1..];
    }
  }

  lemma SameMultiset<T>(s: seq<T>, t: seq<T>)
    requires multiset(s) == multiset(t)
    ensures |s| == |t| && Elements(s) == Elements(t)
    ensures NoDup(s) ==> NoDup(t)
  {
    assert |s| == |multiset(s)| == |multiset(t)| == |t|;
    forall x ensures x in s <==> x in t {
      assert x in s <==> x in multiset(s);
      assert x in t <==> x in multiset(t);
    }
    assert Elements(s) == Elements(t);
    if NoDup(s) {
      NoDupCount(s);
      CountNoDup(t);
    }
  }

  /** A set has only one duplicate-free ordered listing. */
  lemma {:induction false} OrderedListingUnique<T(!new)>(s: seq<T>, t: seq<T>, le: (T, T) -> bool)
    requires TotalOrder(le)
    requires Ordered(s, le) && Ordered(t, le) && NoDup(s) && NoDup(t)
    requires Elements(s) == Elements(t)
    ensures s == t
  {
    NoDupCount(s);
    NoDupCount(t);
    if s != [] {
      assert s[0] in Elements(t);
      assert t[0] in Elements(s);
      assert le(s[0], t[0]) && le(t[0], s[0]);
      forall x ensures x in s[1..] <==> x in t[1..] {
        assert x in s[1..] <==> x in Elements(s) && x != s[0];
        assert x in t[1..] <==> x in Elements(t) && x != t[0];
      }
      OrderedListingUnique(s[1..], t[1..], le);
    }
  }
}
