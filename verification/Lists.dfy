/** Loops that filter and map a list, described by what they pick and what they give
    rather than by how they go through it. */
module Lists {
  import opened Wrappers

  ghost predicate Increasing(picked: seq<nat>) {
    forall i, j | 0 <= i < j < |picked| :: picked[i] < picked[j]
  }

  /** `out` has one element for each wanted item, in their order, and nothing else. */
  ghost predicate Picks<A(!new), B(!new)>(
      items: seq<A>, out: seq<B>, picked: seq<nat>, wanted: A -> bool, gives: (A, B) -> bool)
  {
    && |picked| == |out| && Increasing(picked)
    && (forall k | 0 <= k < |picked| :: picked[k] < |items| && gives(items[picked[k]], out[k]))
    && forall i: nat | i < |items| :: i in picked <==> wanted(items[i])
  }

  ghost predicate Yields<A(!new), B(!new)>(items: seq<A>, out: seq<B>, wanted: A -> bool, gives: (A, B) -> bool) {
    exists picked: seq<nat> :: Picks(items, out, picked, wanted, gives)
  }

  lemma YieldsNothing<A(!new), B(!new)>(wanted: A -> bool, gives: (A, B) -> bool)
    ensures Yields([], [], wanted, gives)
  {
    assert Picks([], [], [], wanted, gives);
  }

  lemma PickedAreBefore<A(!new), B(!new)>(
      items: seq<A>, out: seq<B>, picked: seq<nat>, wanted: A -> bool, gives: (A, B) -> bool)
    requires Picks(items, out, picked, wanted, gives)
    ensures forall i: nat | i in picked :: i < |items| && wanted(items[i])
  {
    forall i: nat | i in picked ensures i < |items| && wanted(items[i]) {
      var k :| 0 <= k < |picked| && picked[k] == i;
    }
  }

  lemma OneIsPicked<A(!new), B(!new)>(
      items: seq<A>, out: seq<B>, picked: seq<nat>, item: A, b: B, wanted: A -> bool, gives: (A, B) -> bool)
    requires Picks(items, out, picked, wanted, gives) && wanted(item) && gives(item, b)
    ensures Picks(items + [item], out + [b], picked + [|items|], wanted, gives)
  {
    var all, now := items + [item], picked + [|items|];
    PickedAreBefore(items, out, picked, wanted, gives);
    forall k | 0 <= k < |now| ensures now[k] < |all| && gives(all[now[k]], (out + [b])[k]) {
      assert k < |picked| ==> now[k] == picked[k];
    }
    forall i: nat | i < |all| ensures i in now <==> wanted(all[i]) {
      assert i in now <==> i in picked || i == |items|;
      assert i < |items| ==> all[i] == items[i];
    }
  }

  lemma NoneIsPicked<A(!new), B(!new)>(
      items: seq<A>, out: seq<B>, picked: seq<nat>, item: A, wanted: A -> bool, gives: (A, B) -> bool)
    requires Picks(items, out, picked, wanted, gives) && !wanted(item)
    ensures Picks(items + [item], out, picked, wanted, gives)
  {
    var all := items + [item];
    PickedAreBefore(items, out, picked, wanted, gives);
    forall i: nat | i < |all| ensures i in picked <==> wanted(all[i]) {
      assert i < |items| ==> all[i] == items[i];
    }
  }

  lemma YieldsMore<A(!new), B(!new)>(
      items: seq<A>, out: seq<B>, item: A, more: seq<B>, wanted: A -> bool, gives: (A, B) -> bool)
    requires Yields(items, out, wanted, gives)
    requires if wanted(item) then |more| == 1 && gives(item, more[0]) else more == []
    ensures Yields(items + [item], out + more, wanted, gives)
  {
    hide Picks;
    var picked: seq<nat> :| Picks(items, out, picked, wanted, gives);
    if wanted(item) {
      OneIsPicked(items, out, picked, item, more[0], wanted, gives);
      assert more == [more[0]];
    } else {
      NoneIsPicked(items, out, picked, item, wanted, gives);
      assert out + more == out;
    }
  }

  /** The same picking, said in other words. */
  lemma YieldsAlike<A(!new), B(!new)>(
      items: seq<A>, out: seq<B>, wanted: A -> bool, gives: (A, B) -> bool, wanted': A -> bool, gives': (A, B) -> bool)
    requires Yields(items, out, wanted, gives)
    requires forall i | 0 <= i < |items| :: wanted(items[i]) <==> wanted'(items[i])
    requires forall i, k | 0 <= i < |items| && 0 <= k < |out| && gives(items[i], out[k]) :: gives'(items[i], out[k])
    ensures Yields(items, out, wanted', gives')
  {
    var picked: seq<nat> :| Picks(items, out, picked, wanted, gives);
    assert Picks(items, out, picked, wanted', gives');
  }

  /** Each wanted item has its element. */
  lemma GivenTo<A(!new), B(!new)>(items: seq<A>, out: seq<B>, i: nat, wanted: A -> bool, gives: (A, B) -> bool)
      returns (k: nat)
    requires Yields(items, out, wanted, gives) && i < |items| && wanted(items[i])
    ensures k < |out| && gives(items[i], out[k])
  {
    var picked: seq<nat> :| Picks(items, out, picked, wanted, gives);
    assert i in picked;
    k :| 0 <= k < |picked| && picked[k] == i;
  }

  function Flat<A>(parts: seq<seq<A>>): seq<A> {
    if parts == [] then [] else Flat(parts[..|parts| - 1]) + parts[|parts| - 1]
  }

  lemma FlatMore<A>(parts: seq<seq<A>>, part: seq<A>)
    ensures Flat(parts + [part]) == Flat(parts) + part
  {
    assert (parts + [part])[..|parts|] == parts;
  }
}
