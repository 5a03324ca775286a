/**
 * The drag-to-select engine of the card page (js/lasso.js): one Selecto instance at a time, its
 * select events applied to the cards' "selected" class, the action bar refreshed from the
 * document, and the clearing of the selection.  The library's hit-testing is not modelled: a
 * select event arrives as its `added` and `removed` element lists.
 */
module Lasso {
  import opened Wrappers
  import opened Seqs
  import opened Selection
  import opened Page

  /**
   * No instance but the current one is live (the current one may itself have been destroyed:
   * `selectoInstance` keeps pointing at it when the library is missing on a later call).
   */
  ghost predicate OneLive(instances: seq<bool>, current: Option<nat>)
  {
    && (current.Some? ==> current.value < |instances|)
    && forall i :: 0 <= i < |instances| && instances[i] ==> current == Some(i)
  }

  /** The number of live instances. */
  function LiveCount(instances: seq<bool>): nat
  {
    if instances == [] then 0
    else LiveCount(instances[..|instances| - 1]) + (if instances[|instances| - 1] then 1 else 0)
  }

  /**
   * `initLasso` on the instances made so far: the current one, if any, is destroyed; then, when
   * the library is loaded, a new live instance becomes current.
   */
  function Reinit(instances: seq<bool>, current: Option<nat>, loaded: bool): (seq<bool>, Option<nat>)
    requires current.Some? ==> current.value < |instances|
  {
    var after := if current.Some? then instances[current.value := false] else instances;
    if loaded then (after + [true], Some(|after|)) else (after, current)
  }

  /** `initLasso` keeps at most one instance live; with the library loaded the new one is the live one, otherwise none is. */
  lemma ReinitOneLive(instances: seq<bool>, current: Option<nat>, loaded: bool)
    requires OneLive(instances, current)
    ensures var (inst, cur) := Reinit(instances, current, loaded);
      && OneLive(inst, cur)
      && |inst| == |instances| + (if loaded then 1 else 0)
      && (loaded ==> cur == Some(|instances|) && inst[|instances|])
      && (!loaded ==> forall i :: 0 <= i < |inst| ==> !inst[i])
  {
  }

  /** Under `OneLive`, at most one instance is live. */
  lemma {:induction false} OneLiveCount(instances: seq<bool>, current: Option<nat>)
    requires OneLive(instances, current)
    ensures LiveCount(instances) <= 1
    ensures LiveCount(instances) == 1 <==> current.Some? && instances[current.value]
    decreases |instances|
  {
    if instances != [] {
      var n := |instances| - 1;
      var front := instances[..n];
      if current == Some(n) {
        NoneLive(front);
      } else {
        var cur := if current.Some? && current.value < n then current else None;
        assert OneLive(front, cur);
        OneLiveCount(front, cur);
      }
    }
  }

  lemma {:induction false} NoneLive(instances: seq<bool>)
    requires forall i :: 0 <= i < |instances| ==> !instances[i]
    ensures LiveCount(instances) == 0
    decreases |instances|
  {
    if instances != [] {
      NoneLive(instances[..|instances| - 1]);
    }
  }

  class LassoEngine {
    const dom: Dom
    /** Every Selecto instance made so far, live or destroyed. */
    var instances: seq<bool>
    /** `selectoInstance`. */
    var current: Option<nat>

    ghost predicate Valid()
      reads this
    {
      OneLive(instances, current)
    }

    constructor (dom: Dom)
      ensures Valid() && this.dom == dom && instances == [] && current == None
    {
      this.dom := dom;
      instances, current := [], None;
    }

    /** `initLasso`: the current instance is destroyed, and a new one made when the library is loaded. */
    method InitLasso(loaded: bool)
      requires Valid()
      modifies this
      ensures Valid()
      ensures (instances, current) == Reinit(old(instances), old(current), loaded)
    {
      ReinitOneLive(instances, current, loaded);
      if current.Some? {
        instances := instances[current.value := false];
      }
      if !loaded {
        return;
      }
      instances := instances + [true];
      current := Some(|instances| - 1);
    }

    /**
     * The select handler: each element of `added` gains the class, then each of `removed` loses
     * it, and the bar is refreshed.  Selecto only reports cards of the grid.
     */
    method OnSelect(added: seq<nat>, removed: seq<nat>)
      requires dom.Valid()
      requires forall x :: x in added ==> x in CardEls(dom.nodes)
      modifies dom`selected, dom`bar
      ensures dom.Valid()
      ensures dom.selected == AfterSelect(old(dom.selected), added, removed)
      ensures dom.bar == Refresh(old(dom.bar), |SelectedCards(dom.nodes, dom.selected)|)
      ensures dom.bar == Refresh(old(dom.bar), |dom.selected|)
    {
      MarkAll(added);
      UnmarkAll(removed);
      dom.UpdateUI();
    }

    method MarkAll(xs: seq<nat>)
      requires dom.Valid()
      requires forall x :: x in xs ==> x in CardEls(dom.nodes)
      modifies dom`selected
      ensures dom.Valid()
      ensures dom.selected == old(dom.selected) + Elems(xs)
    {
      ghost var start := dom.selected;
      for i := 0 to |xs|
        invariant dom.selected == start + Elems(xs[..i])
        invariant dom.Valid()
      {
        assert xs[..i + 1] == xs[..i] + [xs[i]];
        dom.selected := dom.selected + {xs[i]};
      }
      assert xs[..|xs|] == xs;
    }

    method UnmarkAll(xs: seq<nat>)
      requires dom.Valid()
      modifies dom`selected
      ensures dom.Valid()
      ensures dom.selected == old(dom.selected) - Elems(xs)
    {
      ghost var start := dom.selected;
      for i := 0 to |xs|
        invariant dom.selected == start - Elems(xs[..i])
        invariant dom.Valid()
      {
        assert xs[..i + 1] == xs[..i] + [xs[i]];
        dom.selected := dom.selected - {xs[i]};
      }
      assert xs[..|xs|] == xs;
    }

    /**
     * `clearSelection`: the live instance's own selection is emptied (library state, not
     * modelled), every selected card in the document loses the class, and the bar is hidden.
     */
    method ClearSelection()
      requires dom.Valid()
      modifies dom`selected, dom`bar
      ensures dom.Valid()
      ensures dom.selected == {}
      ensures dom.bar == Refresh(old(dom.bar), 0)
    {
      var allSelected := SelectedCards(dom.nodes, dom.selected);
      SelectedCardsCover(dom.nodes, dom.selected);
      ghost var start := dom.selected;
      for i := 0 to |allSelected|
        invariant dom.selected == start - (set k | 0 <= k < i :: allSelected[k].el)
        modifies dom`selected
      {
        dom.selected := dom.selected - {allSelected[i].el};
      }
      forall x | x in start ensures x !in dom.selected {
        var n :| n in allSelected && n.el == x;
      }
      assert dom.selected == {};
      SelectedCardsCover(dom.nodes, {});
      dom.UpdateUI();
    }
  }
}
