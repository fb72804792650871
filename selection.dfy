/**
  A selection kept as a list: both screens toggle a chip or a switch by
  filtering the list when the item is present and appending it when it is
  absent (`prev.filter(id => id !== x)` / `[...prev, x]`).
 */
module Selection {
  import opened Seqs

  /** No element occurs twice. */
  predicate NoDup<T(==,!new)>(s: seq<T>) {
    forall i, j :: 0 <= i < j < |s| ==> s[i] != s[j]
  }

  /** `s.filter(y => y !== x)`: every occurrence of `x` removed, the rest kept in order. */
  function RemoveAll<T(==,!new)>(s: seq<T>, x: T): (r: seq<T>)
    ensures x !in r
    ensures forall y :: y != x ==> (y in r <==> y in s)
    ensures x !in s ==> r == s
  {
    if s == [] then []
    else
      assert s == [s[0]] + s[1..];
      if s[0] == x then RemoveAll(s[1..], x) else [s[0]] + RemoveAll(s[1..], x)
  }

  /** The toggle both screens perform on their selected-categories list. */
  function Toggle<T(==,!new)>(s: seq<T>, x: T): (r: seq<T>)
    ensures x in r <==> x !in s
    ensures forall y :: y != x ==> (y in r <==> y in s)
    ensures x !in s ==> r == s + [x]
  {
    if x in s then RemoveAll(s, x) else s + [x]
  }

  /** Only `x` goes: every other element keeps its number of occurrences. */
  lemma {:induction false} RemoveAllCounts<T(!new)>(s: seq<T>, x: T)
    ensures forall y :: y != x ==> multiset(RemoveAll(s, x))[y] == multiset(s)[y]
  {
    if s != [] {
      RemoveAllCounts(s[1..], x);
      HeadTail(s);
    }
  }

  lemma {:induction false} RemoveAllAppend<T(!new)>(a: seq<T>, b: seq<T>, x: T)
    ensures RemoveAll(a + b, x) == RemoveAll(a, x) + RemoveAll(b, x)
  {
    if a != [] {
      var h := if a[0] == x then [] else [a[0]];
      ConsAppend(a, b);
      assert RemoveAll(a + b, x) == h + RemoveAll(a[1..] + b, x);
      RemoveAllAppend(a[1..], b, x);
      AppendAssoc(h, RemoveAll(a[1..], x), RemoveAll(b, x));
    } else {
      assert a + b == b;
    }
  }

  /** Toggling off an item of a duplicate-free selection deletes exactly its position. */
  lemma {:induction false} ToggleOffDeletes<T(!new)>(s: seq<T>, i: nat)
    requires NoDup(s) && i < |s|
    ensures Toggle(s, s[i]) == s[..i] + s[i + 1..]
  {
    var x := s[i];
    var before, after := s[..i], s[i + 1..];
    SplitAround(s, i);
    RemoveAllAppend(before + [x], after, x);
    RemoveAllAppend(before, [x], x);
    assert x !in before by {
      forall k | 0 <= k < i ensures before[k] != x { assert before[k] == s[k] && s[k] != s[i]; }
    }
    assert x !in after by {
      forall k | 0 <= k < |after| ensures after[k] != x { assert after[k] == s[i + 1 + k] && s[i] != s[i + 1 + k]; }
    }
    assert RemoveAll([x], x) == [];
    assert before + [] == before;
  }

  lemma SplitAround<T>(s: seq<T>, i: nat)
    requires i < |s|
    ensures s == s[..i] + [s[i]] + s[i + 1..]
  {
  }

  /** A toggle keeps a duplicate-free selection duplicate-free. */
  lemma ToggleKeepsNoDup<T(!new)>(s: seq<T>, x: T)
    requires NoDup(s)
    ensures NoDup(Toggle(s, x))
  {
    if x in s {
      var i :| 0 <= i < |s| && s[i] == x;
      ToggleOffDeletes(s, i);
      var r := s[..i] + s[i + 1..];
      forall p, q | 0 <= p < q < |r| ensures r[p] != r[q] {
        var p' := if p < i then p else p + 1;
        var q' := if q < i then q else q + 1;
        assert r[p] == s[p'] && r[q] == s[q'];
      }
    }
  }

  /**
    Toggling the same item twice gives back the same members; the list itself
    comes back only when the item was absent at first (a present item comes
    back at the end, see ToggleTwiceMovesToEnd).
   */
  lemma {:induction false} ToggleTwice<T(!new)>(s: seq<T>, x: T)
    ensures forall y :: y in Toggle(Toggle(s, x), x) <==> y in s
    ensures x !in s ==> Toggle(Toggle(s, x), x) == s
  {
    if x !in s {
      RemoveAllAppend(s, [x], x);
      assert RemoveAll([x], x) == [];
    }
  }

  /** A present, non-last item does not come back in place. */
  lemma ToggleTwiceMovesToEnd()
    ensures Toggle(Toggle(["General", "Eventos"], "General"), "General") == ["Eventos", "General"]
  {
    assert "General" != "Eventos";
    assert RemoveAll(["Eventos"], "General") == ["Eventos"];
    assert RemoveAll(["General", "Eventos"], "General") == ["Eventos"];
  }

  /** The members of a duplicate-free list are as many as its entries. */
  lemma {:induction false} NoDupMembers<T(!new)>(s: seq<T>)
    requires NoDup(s)
    ensures |set x | x in s| == |s|
  {
    if s != [] {
      var rest := s[1..];
      assert NoDup(rest) by {
        forall i, j | 0 <= i < j < |rest| ensures rest[i] != rest[j] {
          assert rest[i] == s[i + 1] && rest[j] == s[j + 1];
        }
      }
      NoDupMembers(rest);
      assert s[0] !in rest by {
        forall k | 0 <= k < |rest| ensures rest[k] != s[0] { assert rest[k] == s[k + 1]; }
      }
      assert (set x | x in s) == {s[0]} + (set x | x in rest) by {
        assert s == [s[0]] + rest;
      }
    }
  }

  /** A duplicate-free list drawn from the members of `universe` is no longer than `universe`. */
  lemma NoDupWithin<T(!new)>(s: seq<T>, universe: seq<T>)
    requires NoDup(s) && forall x :: x in s ==> x in universe
    ensures |s| <= |universe|
  {
    NoDupMembers(s);
    MembersAtMost(universe);
    assert (set x | x in s) <= (set x | x in universe);
    SubsetSize(set x | x in s, set x | x in universe);
  }

  lemma {:induction false} MembersAtMost<T(!new)>(s: seq<T>)
    ensures |set x | x in s| <= |s|
  {
    if s != [] {
      MembersAtMost(s[1..]);
      assert (set x | x in s) == {s[0]} + (set x | x in s[1..]) by {
        assert s == [s[0]] + s[1..];
      }
    }
  }

  lemma SubsetSize<T(!new)>(a: set<T>, b: set<T>)
    requires a <= b
    ensures |a| <= |b|
  {
    assert b == a + (b - a);
  }
}
