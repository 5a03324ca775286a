/**
 * The bulk delete of the card page (js/actions.js): guarded by a non-empty selection and the
 * user's confirmation, it gathers the selected cards' URLs, issues one delete per URL, and then
 * either removes the selected cards and clears the selection (every delete succeeded) or raises
 * one alert and leaves the grid as it was; the button's label is restored on both paths.  The
 * store's answer to each delete of a well-formed URL is the parameter `deleteOk`.
 */
module Actions {
  import opened Wrappers
  import opened History
  import opened Seqs
  import opened Selection
  import opened Page
  import opened Lasso

  const DeletingLabel := "Deleting..."

  /** The non-empty `data-url`s of the cards, in document order (`if (url) urlsToDelete.push(url)`). */
  function CollectUrls(cards: seq<Node>): (urls: seq<string>)
    ensures |urls| <= |cards|
  {
    if cards == [] then []
    else
      var last := cards[|cards| - 1];
      CollectUrls(cards[..|cards| - 1]) + (if last.Card? && DataUrl(last.item) != "" then [DataUrl(last.item)] else [])
  }

  predicate HasUrl(n: Node)
  {
    n.Card? && DataUrl(n.item) != ""
  }

  /** The gathered list holds exactly the `data-url`s of the cards that have a non-empty one, one entry per such card. */
  lemma {:induction false} CollectUrlsExact(cards: seq<Node>)
    ensures forall u :: u in CollectUrls(cards) <==> exists n :: n in cards && HasUrl(n) && DataUrl(n.item) == u
    ensures |CollectUrls(cards)| == |Filter(cards, HasUrlOf())|
    decreases |cards|
  {
    if cards != [] {
      var front, last := cards[..|cards| - 1], cards[|cards| - 1];
      CollectUrlsExact(front);
      LastSplit(cards);
      forall u ensures u in CollectUrls(cards) <==> exists n :: n in cards && HasUrl(n) && DataUrl(n.item) == u {
        if u in CollectUrls(cards) && u !in CollectUrls(front) {
          assert last in cards;
        }
        if n :| n in cards && HasUrl(n) && DataUrl(n.item) == u {
          if n != last {
            assert n in front by {
              var k :| 0 <= k < |cards| && cards[k] == n;
              assert k < |front| && front[k] == n;
            }
          }
        }
      }
    }
  }

  function HasUrlOf(): Node -> bool
  {
    n => HasUrl(n)
  }

  /**
   * The guard `if (url)` never skips a card: a card without a URL yields the text "undefined",
   * so the list has one entry per card, and that entry is the card's own URL when it has one.
   */
  lemma {:induction false} OneUrlPerCard(cards: seq<Node>)
    requires forall i :: 0 <= i < |cards| ==> cards[i].Card?
    ensures |CollectUrls(cards)| == |cards|
    ensures forall i :: 0 <= i < |cards| ==> CollectUrls(cards)[i] == DataUrl(cards[i].item)
    decreases |cards|
  {
    if cards != [] {
      var front := cards[..|cards| - 1];
      OneUrlPerCard(front);
      assert CollectUrls(cards) == CollectUrls(front) + [DataUrl(cards[|cards| - 1].item)];
    }
  }

  /** The grid without the cards whose element is in `gone`. */
  function Remaining(nodes: seq<Node>, gone: set<nat>): seq<Node>
  {
    Filter(nodes, Unselected(gone))
  }

  function Unselected(gone: set<nat>): Node -> bool
  {
    n => !IsSelectedCard(gone, n)
  }

  /**
   * After a successful delete exactly the selected cards are gone: every other node stays, in
   * its order, and no selected card is left.
   */
  lemma DeleteKeepsOthers(nodes: seq<Node>, selected: set<nat>)
    ensures forall n :: n in Remaining(nodes, selected) <==> n in nodes && !IsSelectedCard(selected, n)
    ensures IsSubseq(Remaining(nodes, selected), nodes)
    ensures SelectedCards(Remaining(nodes, selected), selected) == []
  {
    var r := Remaining(nodes, selected);
    forall n ensures n in r <==> n in nodes && !IsSelectedCard(selected, n) {
      FilterMember(nodes, Unselected(selected), n);
    }
    FilterIsSubseq(nodes, Unselected(selected));
    if SelectedCards(r, selected) != [] {
      var n := SelectedCards(r, selected)[0];
      FilterMember(r, SelectedIn(selected), n);
    }
  }

  /** The remaining nodes and the removed cards together are the old grid, occurrence for occurrence. */
  lemma DeletePartition(nodes: seq<Node>, selected: set<nat>)
    ensures multiset(Remaining(nodes, selected)) + multiset(SelectedCards(nodes, selected)) == multiset(nodes)
  {
    FilterMultiset(nodes, Unselected(selected));
    FilterMultiset(nodes, SelectedIn(selected));
    var m := multiset(Remaining(nodes, selected)) + multiset(SelectedCards(nodes, selected));
    forall x ensures m[x] == multiset(nodes)[x] {
      assert Unselected(selected)(x) == !SelectedIn(selected)(x);
    }
  }

  /** Removing the elements of `a`, then those of `b`, is removing those of both. */
  lemma {:induction false} RemainingTwice(nodes: seq<Node>, a: set<nat>, b: set<nat>)
    ensures Remaining(Remaining(nodes, a), b) == Remaining(nodes, a + b)
    decreases |nodes|
  {
    if nodes != [] {
      var front, last := nodes[..|nodes| - 1], nodes[|nodes| - 1];
      RemainingTwice(front, a, b);
      var ra := Remaining(front, a);
      FilterAppend(ra, if Unselected(a)(last) then [last] else [], Unselected(b));
    }
  }

  /** Removing no element leaves the grid as it is. */
  lemma {:induction false} RemainingNone(nodes: seq<Node>)
    ensures Remaining(nodes, {}) == nodes
    decreases |nodes|
  {
    if nodes != [] {
      RemainingNone(nodes[..|nodes| - 1]);
      LastSplit(nodes);
    }
  }

  /** The loop of `deleteSelected` over the selected cards: one URL per card that has one. */
  method GatherUrls(cards: seq<Node>) returns (urls: seq<string>)
    ensures urls == CollectUrls(cards)
  {
    urls := [];
    for i := 0 to |cards|
      invariant urls == CollectUrls(cards[..i])
    {
      assert cards[..i + 1][..i] == cards[..i];
      var el := cards[i];
      if el.Card? && DataUrl(el.item) != "" {
        urls := urls + [DataUrl(el.item)];
      }
    }
    assert cards[..|cards|] == cards;
  }

  /**
   * The loop `selectedEls.forEach(el => el.remove())`: each card leaves the document, with its
   * "selected" class.
   */
  method RemoveCards(dom: Dom, cards: seq<Node>)
    requires dom.Valid()
    modifies dom`nodes, dom`selected
    ensures dom.Valid()
    ensures dom.nodes == Remaining(old(dom.nodes), CardEls(cards))
    ensures dom.selected == old(dom.selected) - CardEls(cards)
  {
    ghost var nodes0, selected0 := dom.nodes, dom.selected;
    RemainingNone(nodes0);
    assert CardEls(cards[..0]) == {};
    for i := 0 to |cards|
      invariant dom.nodes == Remaining(nodes0, CardEls(cards[..i]))
      invariant dom.selected == selected0 - CardEls(cards[..i])
      invariant dom.Valid()
    {
      var el := cards[i];
      assert cards[..i + 1] == cards[..i] + [el];
      var gone := if el.Card? then {el.el} else {};
      assert CardEls(cards[..i + 1]) == CardEls(cards[..i]) + gone;
      RemainingTwice(nodes0, CardEls(cards[..i]), gone);
      RemainingCards(dom.nodes, dom.selected, gone);
      FilterKeepsNumbering(dom.nodes, Unselected(gone));
      dom.nodes := Remaining(dom.nodes, gone);
      dom.selected := dom.selected - gone;
    }
    assert cards[..|cards|] == cards;
  }

  /** Removing cards and their numbers from the selection keeps every selected number on a card of the grid. */
  lemma RemainingCards(nodes: seq<Node>, selected: set<nat>, gone: set<nat>)
    requires selected <= CardEls(nodes)
    ensures selected - gone <= CardEls(Remaining(nodes, gone))
  {
    forall x | x in selected - gone ensures x in CardEls(Remaining(nodes, gone)) {
      var n :| n in nodes && n.Card? && n.el == x;
      FilterMember(nodes, Unselected(gone), n);
    }
  }

  /** The selected cards carry exactly the selected numbers, so removing them removes exactly the selected cards. */
  lemma SelectedEls(nodes: seq<Node>, selected: set<nat>)
    requires selected <= CardEls(nodes)
    ensures CardEls(SelectedCards(nodes, selected)) == selected
    ensures Remaining(nodes, CardEls(SelectedCards(nodes, selected))) == Remaining(nodes, selected)
  {
    var sel := SelectedCards(nodes, selected);
    SelectedCardsCover(nodes, selected);
    forall x | x in CardEls(sel) ensures x in selected {
      var n :| n in sel && n.Card? && n.el == x;
      FilterMember(nodes, SelectedIn(selected), n);
    }
  }

  /**
   * A delete request resolves: the store refuses the text "undefined", which is no URL, and
   * answers `deleteOk` for any other.
   */
  predicate DeleteResolves(url: string, deleteOk: string -> bool)
  {
    url != UndefinedText && deleteOk(url)
  }

  /** Every delete request resolved (`Promise.all` resolved). */
  predicate AllSucceed(urls: seq<string>, deleteOk: string -> bool)
  {
    forall i :: 0 <= i < |urls| ==> DeleteResolves(urls[i], deleteOk)
  }

  /**
   * A selected card whose record has no URL sends "undefined" to the store, which refuses it, so
   * `Promise.all` rejects: the alert is raised and no card is removed, whatever the other answers.
   */
  lemma MissingUrlFails(nodes: seq<Node>, selected: set<nat>, deleteOk: string -> bool)
    requires exists n :: n in SelectedCards(nodes, selected) && n.item.url == ""
    ensures !AllSucceed(CollectUrls(SelectedCards(nodes, selected)), deleteOk)
  {
    var cards := SelectedCards(nodes, selected);
    var i :| 0 <= i < |cards| && cards[i].item.url == "";
    OneUrlPerCard(cards);
    assert !DeleteResolves(CollectUrls(cards)[i], deleteOk);
  }

  /**
   * `deleteSelected`.  `prompt` is the count the confirmation showed, `None` when it was not shown;
   * `calls` the URLs a delete was issued for; `alerted` whether the error alert was raised.
   */
  method DeleteSelected(dom: Dom, lasso: LassoEngine, confirmed: bool, deleteOk: string -> bool)
    returns (prompt: Option<nat>, calls: seq<string>, alerted: bool)
    requires dom.Valid() && lasso.dom == dom
    modifies dom`nodes, dom`selected, dom`bar, dom`deleteLabel
    ensures dom.Valid() && dom.deleteLabel == old(dom.deleteLabel)
    ensures var count := |SelectedCards(old(dom.nodes), old(dom.selected))|;
      && prompt == (if count == 0 then None else Some(count))
      && calls == (if count == 0 || !confirmed then [] else CollectUrls(SelectedCards(old(dom.nodes), old(dom.selected))))
      && (alerted <==> count > 0 && confirmed && !AllSucceed(calls, deleteOk))
    ensures var done := prompt.Some? && confirmed && AllSucceed(calls, deleteOk);
      && (done ==> dom.nodes == Remaining(old(dom.nodes), old(dom.selected)) && dom.selected == {}
                   && dom.bar == Refresh(old(dom.bar), 0))
      && (!done ==> dom.nodes == old(dom.nodes) && dom.selected == old(dom.selected) && dom.bar == old(dom.bar))
  {
    var selectedEls := SelectedCards(dom.nodes, dom.selected);
    var count := |selectedEls|;
    if count == 0 {
      return None, [], false;
    }
    prompt := Some(count);
    if !confirmed {
      return prompt, [], false;
    }
    var urlsToDelete := GatherUrls(selectedEls);
    var originalText := dom.deleteLabel;
    dom.deleteLabel := DeletingLabel;
    calls := urlsToDelete;
    if AllSucceed(calls, deleteOk) {
      SelectedEls(dom.nodes, dom.selected);
      RemoveCards(dom, selectedEls);
      lasso.ClearSelection();
      alerted := false;
    } else {
      alerted := true;
    }
    dom.deleteLabel := originalText;
  }
}
