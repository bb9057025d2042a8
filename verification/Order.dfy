/** Hashes in ascending order: how the maps of the node are iterated. */
module Order {
  import opened Types

  predicate Ascending(ids: seq<Hash>) {
    forall i, j :: 0 <= i < j < |ids| ==> ids[i] < ids[j]
  }

  /** The elements of a set in ascending order, as iterating a std::map visits its keys. */
  method SortKeys(s: set<Hash>) returns (ids: seq<Hash>)
    ensures Ascending(ids) && forall id :: id in ids <==> id in s
    ensures ids == Sorted(s)
  {
    ids := [];
    var rest := s;
    while rest != {}
      invariant rest <= s && Ascending(ids)
      invariant forall id :: id in ids <==> id in s - rest
      invariant forall a, b :: a in ids && b in rest ==> a < b
      decreases |rest|
    {
      var id := Least(rest);
      AscendingSnoc(ids, id);
      ids, rest := ids + [id], rest - {id};
    }
    AscendingUnique(ids, Sorted(s));
  }

  lemma {:induction false} Greatest(s: set<Hash>) returns (m: Hash)
    requires s != {}
    ensures m in s && forall x :: x in s ==> x <= m
    decreases |s|
  {
    m :| m in s;
    if s != {m} {
      var rest := s - {m};
      assert rest != {};
      var n := Greatest(rest);
      assert forall x :: x in s ==> x == m || x in rest;
      if m < n { m := n; }
    }
  }

  lemma HasGreatest(s: set<Hash>)
    requires s != {}
    ensures exists m :: m in s && forall x :: x in s ==> x <= m
  {
    var _ := Greatest(s);
  }

  ghost function Sorted(s: set<Hash>): (ids: seq<Hash>)
    ensures Ascending(ids) && |ids| == |s| && forall id :: id in ids <==> id in s
    decreases |s|
  {
    if s == {} then []
    else
      HasGreatest(s);
      var m :| m in s && forall x :: x in s ==> x <= m;
      var init := Sorted(s - {m});
      AscendingSnoc(init, m);
      init + [m]
  }

  method Least(s: set<Hash>) returns (m: Hash)
    requires s != {}
    ensures m in s && forall x :: x in s ==> m <= x
  {
    m :| m in s;
    var rest := s - {m};
    while rest != {}
      invariant rest <= s && m in s
      invariant forall x :: x in s ==> x in rest || m <= x
      decreases |rest|
    {
      var x :| x in rest;
      if x < m { m := x; }
      rest := rest - {x};
    }
  }

  lemma AscendingSnoc(ids: seq<Hash>, id: Hash)
    ensures Ascending(ids + [id]) <==> Ascending(ids) && forall x :: x in ids ==> x < id
  {
    var r := ids + [id];
    assert forall i :: 0 <= i < |ids| ==> r[i] == ids[i] && ids[i] in ids;
    assert r[|ids|] == id;
    if Ascending(r) {
      forall x | x in ids ensures x < id {
        var i :| 0 <= i < |ids| && ids[i] == x;
        assert r[i] < r[|ids|];
      }
    }
  }

  lemma Member(ids: seq<Hash>) returns (x: Hash)
    requires ids != []
    ensures x in ids
  {
    x := ids[0];
  }

  /** The order is determined by the pool alone. */
  lemma {:induction false} AscendingUnique(a: seq<Hash>, b: seq<Hash>)
    requires Ascending(a) && Ascending(b) && forall id :: id in a <==> id in b
    ensures a == b
  {
    if a == [] {
      if b != [] { var _ := Member(b); }
    } else if b == [] {
      var _ := Member(a);
    } else {
      var x, y, a', b' := a[|a| - 1], b[|b| - 1], a[..|a| - 1], b[..|b| - 1];
      assert a == a' + [x] && b == b' + [y];
      AscendingSnoc(a', x);
      AscendingSnoc(b', y);
      hide Ascending;
      assert x in b && y in a;
      forall id ensures id in a' <==> id in b' {
        assert id in a <==> id in a' || id == x;
        assert id in b <==> id in b' || id == y;
      }
      AscendingUnique(a', b');
    }
  }
}
