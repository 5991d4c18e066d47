/** Which argument goes with which item of a format, said without walking along both. */
module Arguments {
  import opened Format
  import opened Counting
  import opened Canonical
  import opened Wrappers

  /** The place of item `k`'s argument among the arguments: as many before it as items before `k` take one. */
  function ArgPlace(items: seq<Item>, k: nat): nat
    requires k <= |items|
  {
    if k == 0 then 0 else ArgPlace(items[1..], k - 1) + if TakesArg(items[0]) then 1 else 0
  }

  lemma {:induction false} ArgIsAtPlace(items: seq<Item>, args: seq<Arg>, cells: nat, k: nat)
    requires k < |items| && TakesArg(items[k]) && WellTyped(items, args, cells)
    ensures ArgPlace(items, k) < |args| && args[ArgPlace(items, k)] == ArgOf(items, args, cells, k)
    decreases k
  {
    hide ArgFits;
    if k > 0 {
      ArgIsAtPlace(items[1..], ArgsAfter(items[0], args), cells, k - 1);
    }
  }

  /** Arguments fit a format exactly when there are enough of them and each item that takes one finds one that fits. */
  lemma {:induction false} WellTypedMeans(items: seq<Item>, args: seq<Arg>, cells: nat)
    ensures WellTyped(items, args, cells) <==>
      && ArgPlace(items, |items|) <= |args|
      && forall k :: 0 <= k < |items| && TakesArg(items[k]) ==>
           ArgPlace(items, k) < |args| && ArgFits(items[k], args[ArgPlace(items, k)], cells)
    decreases |items|
  {
    hide ArgFits, TakesArg;
    if items != [] {
      var rest, n := items[1..], if TakesArg(items[0]) then 1 else 0;
      assert forall k :: 0 <= k < |rest| ==> ArgPlace(items, k + 1) == ArgPlace(rest, k) + n;
      if n <= |args| {
        WellTypedMeans(rest, args[n..], cells);
        assert forall k :: 0 <= k < |rest| ==> items[k + 1] == rest[k];
      }
    }
  }

  function ArgAtPlace(items: seq<Item>, args: seq<Arg>, cells: nat, k: nat): (r: Option<Arg>)
    requires WellTyped(items, args, cells) && k < |items|
    ensures TakesArg(items[k]) ==> r.Some? && KindFits(items[k], r.value)
  {
    WellTypedMeans(items, args, cells);
    if TakesArg(items[k]) then Some(args[ArgPlace(items, k)]) else None
  }

  lemma LaterArg(items: seq<Item>, args: seq<Arg>, cells: nat, k: nat)
    requires WellTyped(items, args, cells) && 0 < k < |items|
    ensures WellTyped(items[1..], ArgsAfter(items[0], args), cells)
    ensures ArgAtPlace(items, args, cells, k) == ArgAtPlace(items[1..], ArgsAfter(items[0], args), cells, k - 1)
  {
    hide TakesArg, ArgFits;
    WellTypedMeans(items, args, cells);
    assert items[k] == items[1..][k - 1];
    assert ArgPlace(items, k) == ArgPlace(items[1..], k - 1) + if TakesArg(items[0]) then 1 else 0;
  }

  /** Each item prints what it prints for the argument at its place, whatever takes an argument before it. */
  lemma {:induction false} RenderingAt(items: seq<Item>, args: seq<Arg>, cells: nat, k: nat)
    requires WellTyped(items, args, cells) && k < |items|
    ensures Renderings(items, args, cells)[k] == RenderItem(items[k], ArgAtPlace(items, args, cells, k))
    decreases k
  {
    hide RenderItem, TakesArg, KindFits;
    if k > 0 {
      LaterArg(items, args, cells, k);
      RenderingAt(items[1..], ArgsAfter(items[0], args), cells, k - 1);
    }
  }
}
