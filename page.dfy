/**
 * The card page's document: the children of `#history-grid`, the set of cards carrying the
 * "selected" class, the action bar, and the delete button's label.  js/render.js fills the grid,
 * js/lasso.js marks and unmarks cards, js/actions.js removes them.  Elements are identified by
 * numbers handed out in creation order.
 */
module Page {
  import opened History
  import opened Seqs
  import opened Selection

  /** A child of the grid. */
  datatype Node =
    | GroupHeader(domain: string, size: nat)  // the text "<domain> (<size>)"
    | Card(el: nat, item: HistoryItem)        // a `.history-card`; its domain line shows `DomainOf(item)`
    | Notice                                  // the "History API not available" message

  predicate IsSelectedCard(selected: set<nat>, n: Node)
  {
    n.Card? && n.el in selected
  }

  function SelectedIn(selected: set<nat>): Node -> bool
  {
    n => IsSelectedCard(selected, n)
  }

  /** `document.querySelectorAll('.history-card.selected')`: the selected cards, in document order. */
  function SelectedCards(nodes: seq<Node>, selected: set<nat>): seq<Node>
  {
    Filter(nodes, SelectedIn(selected))
  }

  function CardEls(nodes: seq<Node>): set<nat>
  {
    set n | n in nodes && n.Card? :: n.el
  }

  /** The records of the cards, in document order. */
  function CardItems(nodes: seq<Node>): (r: seq<HistoryItem>)
    ensures |r| <= |nodes|
  {
    if nodes == [] then []
    else CardItems(nodes[..|nodes| - 1]) + (if nodes[|nodes| - 1].Card? then [nodes[|nodes| - 1].item] else [])
  }

  lemma {:induction false} CardItemsAppend(a: seq<Node>, b: seq<Node>)
    ensures CardItems(a + b) == CardItems(a) + CardItems(b)
    decreases |b|
  {
    if b == [] {
      assert a + b == a;
    } else {
      var b' := b[..|b| - 1];
      assert (a + b)[..|a + b| - 1] == a + b';
      CardItemsAppend(a, b');
    }
  }

  /**
   * Every selected element is a card of the grid, so the cards the query finds carry every
   * selected number, and the count the bar shows is positive exactly when something is selected.
   */
  lemma SelectedCardsCover(nodes: seq<Node>, selected: set<nat>)
    requires selected <= CardEls(nodes)
    ensures forall x :: x in selected ==> exists n :: n in SelectedCards(nodes, selected) && n.el == x
    ensures |SelectedCards(nodes, selected)| > 0 <==> selected != {}
  {
    forall x | x in selected ensures exists n :: n in SelectedCards(nodes, selected) && n.el == x {
      var n :| n in nodes && n.Card? && n.el == x;
      FilterMember(nodes, SelectedIn(selected), n);
    }
    if |SelectedCards(nodes, selected)| > 0 {
      assert SelectedIn(selected)(SelectedCards(nodes, selected)[0]);
    }
  }

  /** The cards' element numbers, in document order. */
  function CardElSeq(nodes: seq<Node>): (r: seq<nat>)
    ensures |r| <= |nodes|
  {
    if nodes == [] then []
    else CardElSeq(nodes[..|nodes| - 1]) + (if nodes[|nodes| - 1].Card? then [nodes[|nodes| - 1].el] else [])
  }

  lemma {:induction false} CardElSeqAppend(a: seq<Node>, b: seq<Node>)
    ensures CardElSeq(a + b) == CardElSeq(a) + CardElSeq(b)
    decreases |b|
  {
    if b == [] {
      assert a + b == a;
    } else {
      var b' := b[..|b| - 1];
      assert (a + b)[..|a + b| - 1] == a + b';
      CardElSeqAppend(a, b');
    }
  }

  /** The numbers in the sequence are exactly those of the cards. */
  lemma {:induction false} CardElSeqMembers(nodes: seq<Node>)
    ensures forall x :: x in CardElSeq(nodes) <==> x in CardEls(nodes)
    decreases |nodes|
  {
    if nodes != [] {
      var front, last := nodes[..|nodes| - 1], nodes[|nodes| - 1];
      CardElSeqMembers(front);
      LastSplit(nodes);
      CardElsSnoc(front, last);
    }
  }

  lemma CardElsSnoc(front: seq<Node>, last: Node)
    ensures CardEls(front + [last]) == CardEls(front) + (if last.Card? then {last.el} else {})
  {
  }

  /** Numbers `e`, `e + 1`, ... in order. */
  ghost predicate Numbered(els: seq<nat>, e: nat)
  {
    forall i :: 0 <= i < |els| ==> els[i] == e + i
  }

  /** Two numbered runs, the second starting where the first ends, make one. */
  lemma NumberedAppend(a: seq<nat>, b: seq<nat>, e: nat)
    requires Numbered(a, e) && Numbered(b, e + |a|)
    ensures Numbered(a + b, e)
  {
    var ab := a + b;
    forall i | 0 <= i < |ab| ensures ab[i] == e + i {
      if i >= |a| {
        assert ab[i] == b[i - |a|];
      }
    }
  }

  /**
   * When the cards' numbers increase in document order (no number twice), the cards the query
   * finds are one per selected number among them.
   */
  lemma {:induction false} SelectedCardsCount(nodes: seq<Node>, selected: set<nat>)
    requires Increasing(CardElSeq(nodes))
    ensures |SelectedCards(nodes, selected)| == |selected * CardEls(nodes)|
    decreases |nodes|
  {
    if nodes != [] {
      var front, last := nodes[..|nodes| - 1], nodes[|nodes| - 1];
      var tail := if last.Card? then [last.el] else [];
      var one := if IsSelectedCard(selected, last) then 1 else 0;
      assert Increasing(CardElSeq(front)) && (last.Card? ==> last.el !in CardEls(front)) by {
        assert CardElSeq(nodes) == CardElSeq(front) + tail;
        IncreasingSplit(CardElSeq(front), tail);
        CardElSeqMembers(front);
        assert tail != [] ==> tail[0] == last.el;
      }
      assert |SelectedCards(nodes, selected)| == |SelectedCards(front, selected)| + one;
      SelectedCardsCount(front, selected);
      LastSplit(nodes);
      SelectedSnoc(front, last, selected);
    }
  }

  /** One more card, not among the earlier ones, adds one selected number exactly when it is selected. */
  lemma SelectedSnoc(front: seq<Node>, last: Node, selected: set<nat>)
    requires last.Card? ==> last.el !in CardEls(front)
    ensures |selected * CardEls(front + [last])| == |selected * CardEls(front)| + if IsSelectedCard(selected, last) then 1 else 0
  {
    CardElsSnoc(front, last);
    if IsSelectedCard(selected, last) {
      assert selected * CardEls(front + [last]) == (selected * CardEls(front)) + {last.el};
    } else {
      assert selected * CardEls(front + [last]) == selected * CardEls(front);
    }
  }

  /** Filtering the grid keeps its cards' numbers increasing, and adds no number. */
  lemma {:induction false} FilterKeepsNumbering(nodes: seq<Node>, p: Node -> bool)
    requires Increasing(CardElSeq(nodes))
    ensures Increasing(CardElSeq(Filter(nodes, p)))
    ensures forall x :: x in CardElSeq(Filter(nodes, p)) ==> x in CardElSeq(nodes)
    decreases |nodes|
  {
    if nodes != [] {
      var front, last := nodes[..|nodes| - 1], nodes[|nodes| - 1];
      var tail := if last.Card? then [last.el] else [];
      var kept := if p(last) then [last] else [];
      var f := Filter(front, p);
      assert CardElSeq(nodes) == CardElSeq(front) + tail;
      IncreasingSplit(CardElSeq(front), tail);
      FilterKeepsNumbering(front, p);
      assert Filter(nodes, p) == f + kept;
      CardElSeqAppend(f, kept);
      assert CardElSeq(kept) == if p(last) then tail else [] by {
        assert kept == [] || kept[..0] == [];
      }
      if p(last) && last.Card? {
        forall x | x in CardElSeq(f) ensures x < last.el {
          var k :| 0 <= k < |CardElSeq(front)| && CardElSeq(front)[k] == x;
          assert tail[0] == last.el;
        }
        ConcatIncreasing(CardElSeq(f), tail, last.el);
      } else {
        assert CardElSeq(f) + CardElSeq(kept) == CardElSeq(f);
      }
    }
  }

  /** With each card a distinct element, the count the bar shows is the number of selected elements. */
  lemma SelectedCount(nodes: seq<Node>, selected: set<nat>)
    requires selected <= CardEls(nodes) && Increasing(CardElSeq(nodes))
    ensures |SelectedCards(nodes, selected)| == |selected|
  {
    SelectedCardsCount(nodes, selected);
    assert selected * CardEls(nodes) == selected;
  }

  class Dom {
    var nodes: seq<Node>
    var selected: set<nat>
    var bar: Bar
    var nextEl: nat
    var deleteLabel: string

    /**
     * Only cards in the grid carry the "selected" class, and the cards' numbers increase in
     * document order (each card is a distinct element).
     */
    ghost predicate Valid()
      reads this
    {
      && selected <= CardEls(nodes)
      && Increasing(CardElSeq(nodes))
    }

    constructor (buttonLabel: string)
      ensures Valid()
      ensures nodes == [] && selected == {} && bar == Bar(false, 0) && nextEl == 0 && deleteLabel == buttonLabel
    {
      nodes, selected, bar, nextEl, deleteLabel := [], {}, Bar(false, 0), 0, buttonLabel;
    }

    /** `updateUI`: the bar shows the number of selected cards in the grid, and is hidden when there are none. */
    method UpdateUI()
      modifies this`bar
      ensures bar == Refresh(old(bar), |SelectedCards(nodes, selected)|)
      ensures Valid() ==> bar == Refresh(old(bar), |selected|)
    {
      if Valid() {
        SelectedCount(nodes, selected);
      }
      var allSelected := SelectedCards(nodes, selected);
      bar := Refresh(bar, |allSelected|);
    }
  }
}
