/** What the `%n` directives of a format leave in their cells. */
module Counting {
  import opened Format

  predicate IsCounter(item: Item) {
    item.Directive? && !item.star && item.conv == 'n'
  }

  /** The argument that item `k` is given. */
  function ArgOf(items: seq<Item>, args: seq<Arg>, cells: nat, k: nat): (r: Arg)
    requires k < |items| && TakesArg(items[k]) && WellTyped(items, args, cells)
    ensures ArgFits(items[k], r, cells)
    decreases k
  {
    if k == 0 then args[0] else ArgOf(items[1..], ArgsAfter(items[0], args), cells, k - 1)
  }

  /** The cell that item `k` counts in. */
  function CellOf(items: seq<Item>, args: seq<Arg>, cells: nat, k: nat): (c: nat)
    requires k < |items| && IsCounter(items[k]) && WellTyped(items, args, cells)
    ensures c < cells
  {
    ArgOf(items, args, cells, k).cell
  }

  /** A cell no directive counts in keeps its value. */
  lemma {:induction false} Untouched(items: seq<Item>, args: seq<Arg>, printed: nat, cells: seq<int>, c: nat)
    requires WellTyped(items, args, |cells|) && c < |cells|
    requires forall j :: 0 <= j < |items| && IsCounter(items[j]) ==> CellOf(items, args, |cells|, j) != c
    ensures Count(items, args, printed, cells)[c] == cells[c]
    decreases |items|
  {
    if items != [] {
      var rest, after := items[1..], ArgsAfter(items[0], args);
      var text := RenderItem(items[0], FirstArg(items[0], args));
      var stored := if IsCounter(items[0]) then cells[args[0].cell := printed] else cells;
      hide RenderItem, ArgFits;
      forall j | 0 <= j < |rest| && IsCounter(rest[j]) ensures CellOf(rest, after, |cells|, j) != c {
        assert CellOf(items, args, |cells|, j + 1) == CellOf(rest, after, |cells|, j);
      }
      assert IsCounter(items[0]) ==> CellOf(items, args, |cells|, 0) != c;
      Untouched(rest, after, printed + |text|, stored, c);
    }
  }

  lemma {:induction false} PrefixTyped(items: seq<Item>, args: seq<Arg>, cells: nat, k: nat)
    requires WellTyped(items, args, cells) && k <= |items|
    ensures WellTyped(items[..k], args, cells)
    decreases k
  {
    hide ArgFits, TakesArg;
    if k > 0 {
      PrefixTyped(items[1..], ArgsAfter(items[0], args), cells, k - 1);
      assert items[..k][1..] == items[1..][..k - 1];
    }
  }

  lemma RenderPrefix(items: seq<Item>, args: seq<Arg>, cells: nat, k: nat)
    requires WellTyped(items, args, cells) && 0 < k <= |items|
    ensures WellTyped(items[..k], args, cells) && WellTyped(items[1..][..k - 1], ArgsAfter(items[0], args), cells)
    ensures Render(items[..k], args, cells)
         == RenderItem(items[0], FirstArg(items[0], args))
          + Render(items[1..][..k - 1], ArgsAfter(items[0], args), cells)
  {
    PrefixTyped(items, args, cells, k);
    hide RenderItem, ArgFits;
    assert items[..k][1..] == items[1..][..k - 1];
  }

  lemma CountStep(items: seq<Item>, args: seq<Arg>, printed: nat, cells: seq<int>)
    requires WellTyped(items, args, |cells|) && items != []
    ensures var text := RenderItem(items[0], FirstArg(items[0], args));
      var stored := if IsCounter(items[0]) then cells[args[0].cell := printed] else cells;
      && Count(items, args, printed, cells) == Count(items[1..], ArgsAfter(items[0], args), printed + |text|, stored)
      && (IsCounter(items[0]) ==> text == "")
    ensures Render(items[..0], args, |cells|) == ""
  {
  }

  /**
   * Every `%n` stores the number of characters its predecessors print; the store is what the cell holds in the end,
   * unless a later `%n` counts in the same cell.
   */
  lemma {:induction false} CounterHoldsLength(items: seq<Item>, args: seq<Arg>, printed: nat, cells: seq<int>, k: nat)
    requires WellTyped(items, args, |cells|) && k < |items| && IsCounter(items[k])
    requires forall j :: k < j < |items| && IsCounter(items[j]) ==>
      CellOf(items, args, |cells|, j) != CellOf(items, args, |cells|, k)
    ensures WellTyped(items[..k], args, |cells|)
    ensures Count(items, args, printed, cells)[CellOf(items, args, |cells|, k)]
         == printed + |Render(items[..k], args, |cells|)|
    decreases k
  {
    PrefixTyped(items, args, |cells|, k);
    var rest, after := items[1..], ArgsAfter(items[0], args);
    var text := RenderItem(items[0], FirstArg(items[0], args));
    var stored := if IsCounter(items[0]) then cells[args[0].cell := printed] else cells;
    var c := CellOf(items, args, |cells|, k);
    CountStep(items, args, printed, cells);
    hide RenderItem, ArgFits, Count, Render;
    forall j | 0 <= j < |rest| && IsCounter(rest[j])
      ensures CellOf(rest, after, |cells|, j) == CellOf(items, args, |cells|, j + 1)
    {
    }
    if k == 0 {
      Untouched(rest, after, printed, stored, c);
    } else {
      CounterHoldsLength(rest, after, printed + |text|, stored, k - 1);
      RenderPrefix(items, args, |cells|, k);
    }
  }
}
