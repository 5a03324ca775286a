/**
 * The selection rules shared by the card grid (js/lasso.js) and the history list (js/app.js):
 * elements carry a "selected" class, a select event adds the class to its `added` elements and
 * then removes it from its `removed` ones, and a bar shows the number of selected elements.
 */
module Selection {

  /** The selection bar: whether it is shown, and the count its text last displayed. */
  datatype Bar = Bar(visible: bool, count: nat)

  function Elems(xs: seq<nat>): set<nat>
  {
    set x | x in xs
  }

  /** The selected set after a select event: `added` are marked first, then `removed` are unmarked. */
  function AfterSelect(selected: set<nat>, added: seq<nat>, removed: seq<nat>): set<nat>
  {
    (selected + Elems(added)) - Elems(removed)
  }

  /**
   * An element listed in both lists ends unselected, one listed only in `added` ends selected, and
   * one listed in neither keeps its state.
   */
  lemma SelectEffect(selected: set<nat>, added: seq<nat>, removed: seq<nat>, x: nat)
    ensures x in removed ==> x !in AfterSelect(selected, added, removed)
    ensures x in added && x !in removed ==> x in AfterSelect(selected, added, removed)
    ensures x !in added && x !in removed ==> (x in AfterSelect(selected, added, removed) <==> x in selected)
  {
  }

  /** `row.classList.toggle('selected')`. */
  function Toggled(selected: set<nat>, x: nat): (r: set<nat>)
    ensures x in r <==> x !in selected
    ensures forall y :: y != x ==> (y in r <==> y in selected)
  {
    if x in selected then selected - {x} else selected + {x}
  }

  lemma ToggleTwice(selected: set<nat>, x: nat)
    ensures Toggled(Toggled(selected, x), x) == selected
  {
  }

  /**
   * The bar after it is refreshed with `n` selected elements: shown with the count when `n` is
   * positive; hidden otherwise, its text left as it was.
   */
  function Refresh(bar: Bar, n: nat): (r: Bar)
    ensures r.visible <==> n > 0
    ensures r.visible ==> r.count == n
    ensures !r.visible ==> r.count == bar.count
  {
    if n > 0 then Bar(true, n) else Bar(false, bar.count)
  }

  /** Clearing, then clearing again, is clearing once. */
  lemma RefreshEmptyIdempotent(bar: Bar)
    ensures Refresh(Refresh(bar, 0), 0) == Refresh(bar, 0)
  {
  }

  /** Element numbers strictly increasing in document order: in particular, no number twice. */
  ghost predicate Increasing(els: seq<nat>)
  {
    forall i, j :: 0 <= i < j < |els| ==> els[i] < els[j]
  }

  lemma ConcatIncreasing(a: seq<nat>, b: seq<nat>, e0: nat)
    requires Increasing(a) && forall x :: x in a ==> x < e0
    requires forall i :: 0 <= i < |b| ==> b[i] == e0 + i
    ensures Increasing(a + b)
  {
    var ab := a + b;
    forall i, j | 0 <= i < j < |ab| ensures ab[i] < ab[j] {
      if j < |a| {
        assert ab[i] == a[i] && ab[j] == a[j];
      } else if i < |a| {
        assert ab[i] == a[i] && a[i] in a;
        assert ab[j] == b[j - |a|];
      } else {
        assert ab[i] == b[i - |a|] && ab[j] == b[j - |a|];
      }
    }
  }

  /** Both parts of an increasing sequence increase, and the first lies wholly below the second. */
  lemma IncreasingSplit(a: seq<nat>, b: seq<nat>)
    requires Increasing(a + b)
    ensures Increasing(a)
    ensures forall i, k :: 0 <= i < |a| && 0 <= k < |b| ==> a[i] < b[k]
  {
    var ab := a + b;
    forall i, j | 0 <= i < j < |a| ensures a[i] < a[j] {
      assert ab[i] == a[i] && ab[j] == a[j];
    }
    forall i, k | 0 <= i < |a| && 0 <= k < |b| ensures a[i] < b[k] {
      assert ab[i] == a[i] && ab[|a| + k] == b[k];
    }
  }
}
