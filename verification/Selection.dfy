/** Choosing elements of a list. */
module Selection {

  /** The elements to keep. */
  function Kept<T>(all: seq<T>, keep: T -> bool): seq<T> {
    if all == [] then [] else
      var last := all[|all| - 1];
      Kept(all[..|all| - 1], keep) + if keep(last) then [last] else []
  }

  lemma KeptOneMore<T>(all: seq<T>, keep: T -> bool, last: T)
    ensures Kept(all + [last], keep) == Kept(all, keep) + if keep(last) then [last] else []
  {
    assert (all + [last])[..|all|] == all;
  }

  lemma {:induction false} KeptTwice<T>(a: seq<T>, b: seq<T>, keep: T -> bool)
    ensures Kept(a + b, keep) == Kept(a, keep) + Kept(b, keep)
    decreases |b|
  {
    if b == [] {
      assert a + b == a;
    } else {
      var front, last := b[..|b| - 1], b[|b| - 1];
      KeptTwice(a, front, keep);
      KeptOneMore(a + front, keep, last);
      assert a + front + [last] == a + b;
    }
  }

  predicate Ascending(ps: seq<nat>) {
    forall i, j :: 0 <= i < j < |ps| ==> ps[i] < ps[j]
  }

  /** `chosen` are the elements of `all` at the positions `ps`, and those are the positions to keep. */
  predicate PicksAt<T(==)>(all: seq<T>, keep: T -> bool, chosen: seq<T>, ps: seq<nat>) {
    && |ps| == |chosen| && Ascending(ps)
    && (forall i :: 0 <= i < |ps| ==> ps[i] < |all| && all[ps[i]] == chosen[i])
    && (forall p: nat :: p < |all| ==> (keep(all[p]) <==> p in ps))
  }

  lemma Took<T>(all: seq<T>, keep: T -> bool, chosen: seq<T>, ps: seq<nat>, last: T)
    requires PicksAt(all, keep, chosen, ps) && keep(last)
    ensures PicksAt(all + [last], keep, chosen + [last], ps + Only(|all|))
  {
    var qs := ps + Only(|all|);
    assert qs[|ps|] == |all|;
    forall p: nat | p < |all + [last]| ensures keep((all + [last])[p]) <==> p in qs {
      assert p in qs <==> p in ps || p == |all|;
    }
  }

  function Only(n: nat): seq<nat> {
    [n]
  }

  lemma Passed<T>(all: seq<T>, keep: T -> bool, chosen: seq<T>, ps: seq<nat>, last: T)
    requires PicksAt(all, keep, chosen, ps) && !keep(last)
    ensures PicksAt(all + [last], keep, chosen, ps)
  {
    assert |all| !in ps;
  }

  /** What is kept stands in order, each element as often as it occurs, none left out. */
  lemma {:induction false} KeptIsPicked<T(!new)>(all: seq<T>, keep: T -> bool) returns (ps: seq<nat>)
    ensures PicksAt(all, keep, Kept(all, keep), ps)
  {
    hide PicksAt;
    if all == [] {
      ps := [];
      assert PicksAt(all, keep, [], ps) by { NothingToPick(keep); }
    } else {
      var front, last := all[..|all| - 1], all[|all| - 1];
      assert all == front + [last];
      ps := KeptIsPicked(front, keep);
      KeptOneMore(front, keep, last);
      if keep(last) {
        Took(front, keep, Kept(front, keep), ps, last);
        ps := ps + Only(|front|);
      } else {
        Passed(front, keep, Kept(front, keep), ps, last);
        assert Kept(front, keep) + [] == Kept(front, keep);
      }
    }
  }

  lemma NothingToPick<T>(keep: T -> bool)
    ensures PicksAt([], keep, [], [])
  {}
}
