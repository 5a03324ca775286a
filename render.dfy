/**
 * The card page's render engine (js/render.js): the history cache, the grouping mode, the
 * case-insensitive search filter, and the grid in either mode — cards under one header per
 * domain, domains by descending group size, or one flat run of cards.
 */
module Render {
  import opened Wrappers
  import opened History
  import opened Seqs
  import opened Sorting
  import opened Grouping
  import opened Selection
  import opened Page
  import opened Lasso

  /** `currentGrouping`: 'domain' or 'flat'. */
  datatype Mode = ByDomain | Flat

  function Toggle(m: Mode): (r: Mode)
    ensures r != m
  {
    if m == ByDomain then Flat else ByDomain
  }

  lemma ToggleTwice(m: Mode)
    ensures Toggle(Toggle(m)) == m
  {
  }

  /** The one history query of the card page: every text, from the epoch, at most 2000 records. */
  datatype CacheQuery = CacheQuery(text: string, startTime: int, maxResults: nat)

  const CacheQuerySent := CacheQuery("", 0, 2000)

  /** A record matches a query when its title or its URL, both present, contains the query, ignoring case. */
  predicate Matches(x: HistoryItem, query: string)
  {
    || (x.title != "" && Contains(Lower(x.title), Lower(query)))
    || (x.url != "" && Contains(Lower(x.url), Lower(query)))
  }

  function MatchesQuery(query: string): HistoryItem -> bool
  {
    x => Matches(x, query)
  }

  /** The search's filter over the cache. */
  function FilterItems(cache: seq<HistoryItem>, query: string): seq<HistoryItem>
  {
    Filter(cache, MatchesQuery(query))
  }

  /**
   * The search keeps exactly the matching records, each as often as in the cache, in cache order.
   */
  lemma SearchKeepsMatches(cache: seq<HistoryItem>, query: string)
    ensures forall x :: x in FilterItems(cache, query) <==> x in cache && Matches(x, query)
    ensures forall x :: multiset(FilterItems(cache, query))[x] == if Matches(x, query) then multiset(cache)[x] else 0
    ensures IsSubseq(FilterItems(cache, query), cache)
  {
    forall x ensures x in FilterItems(cache, query) <==> x in cache && Matches(x, query) {
      FilterMember(cache, MatchesQuery(query), x);
    }
    FilterMultiset(cache, MatchesQuery(query));
    FilterIsSubseq(cache, MatchesQuery(query));
  }

  /** A record with a title or a URL. */
  function Named(): HistoryItem -> bool
  {
    (x: HistoryItem) => x.title != "" || x.url != ""
  }

  /** The empty query keeps every record that has a title or a URL, and drops those with neither. */
  lemma EmptyQueryKeepsNamed(cache: seq<HistoryItem>)
    ensures FilterItems(cache, "") == Filter(cache, Named())
  {
    assert Lower("") == "";
    forall x | x in cache ensures MatchesQuery("")(x) == Named()(x) {
      ContainsEmpty(Lower(x.title));
      ContainsEmpty(Lower(x.url));
    }
    FilterEquiv(cache, MatchesQuery(""), Named());
  }

  /** One card per record, numbered from `e`: the flat mode, and the cards under one domain header. */
  function CardRun(items: seq<HistoryItem>, e: nat): (r: seq<Node>)
    ensures |r| == |items|
    ensures forall n :: n in r ==> n.Card?
  {
    if items == [] then [] else CardRun(items[..|items| - 1], e) + [Card(e + |items| - 1, items[|items| - 1])]
  }

  lemma {:induction false} CardRunItems(items: seq<HistoryItem>, e: nat)
    ensures CardItems(CardRun(items, e)) == items
    ensures HeaderDomains(CardRun(items, e)) == []
    decreases |items|
  {
    if items != [] {
      var n := |items| - 1;
      var front := CardRun(items[..n], e);
      CardRunItems(items[..n], e);
      assert (front + [Card(e + n, items[n])])[..|front|] == front;
      assert items == items[..n] + [items[n]];
    }
  }

  /** The group of `d`, as the dictionary holds it. */
  function Members(groups: map<string, seq<HistoryItem>>, d: string): seq<HistoryItem>
  {
    if d in groups then groups[d] else []
  }

  /** The groups of `ds`, one after the other. */
  function Grouped(ds: seq<string>, groups: map<string, seq<HistoryItem>>): seq<HistoryItem>
  {
    if ds == [] then [] else Grouped(ds[..|ds| - 1], groups) + Members(groups, ds[|ds| - 1])
  }

  /** One domain's part of the grid: its header, then its cards numbered from `e`. */
  function Block(d: string, groups: map<string, seq<HistoryItem>>, e: nat): seq<Node>
  {
    [GroupHeader(d, |Members(groups, d)|)] + CardRun(Members(groups, d), e)
  }

  /** The domain mode's grid for the domains `ds`: the blocks of the domains, in that order. */
  function DomainGrid(ds: seq<string>, groups: map<string, seq<HistoryItem>>, e: nat): seq<Node>
  {
    if ds == [] then []
    else
      var ds' := ds[..|ds| - 1];
      DomainGrid(ds', groups, e) + Block(ds[|ds| - 1], groups, e + |Grouped(ds', groups)|)
  }

  /** The domains of the headers, in document order. */
  function HeaderDomains(nodes: seq<Node>): seq<string>
  {
    if nodes == [] then []
    else HeaderDomains(nodes[..|nodes| - 1]) + (if nodes[|nodes| - 1].GroupHeader? then [nodes[|nodes| - 1].domain] else [])
  }

  lemma {:induction false} HeaderDomainsAppend(a: seq<Node>, b: seq<Node>)
    ensures HeaderDomains(a + b) == HeaderDomains(a) + HeaderDomains(b)
    decreases |b|
  {
    if b == [] {
      assert a + b == a;
    } else {
      var b' := b[..|b| - 1];
      assert (a + b)[..|a + b| - 1] == a + b';
      HeaderDomainsAppend(a, b');
    }
  }

  /** A block after a grid adds its domain to the headers and its group to the cards. */
  lemma BlockAfter(front: seq<Node>, d: string, groups: map<string, seq<HistoryItem>>, e: nat)
    ensures HeaderDomains(front + Block(d, groups, e)) == HeaderDomains(front) + [d]
    ensures CardItems(front + Block(d, groups, e)) == CardItems(front) + Members(groups, d)
  {
    var block := Block(d, groups, e);
    HeaderDomainsAppend(front, block);
    CardItemsAppend(front, block);
    BlockShape(d, groups, e);
  }

  lemma BlockShape(d: string, groups: map<string, seq<HistoryItem>>, e: nat)
    ensures HeaderDomains(Block(d, groups, e)) == [d]
    ensures CardItems(Block(d, groups, e)) == Members(groups, d)
  {
    var header, cards := [GroupHeader(d, |Members(groups, d)|)], CardRun(Members(groups, d), e);
    HeaderDomainsAppend(header, cards);
    CardItemsAppend(header, cards);
    CardRunItems(Members(groups, d), e);
    assert header[..0] == [];
  }

  /** The domain grid has one header per domain of `ds`, in that order. */
  lemma {:induction false} DomainGridHeaders(ds: seq<string>, groups: map<string, seq<HistoryItem>>, e: nat)
    ensures HeaderDomains(DomainGrid(ds, groups, e)) == ds
    decreases |ds|
  {
    if ds != [] {
      var ds', d := ds[..|ds| - 1], ds[|ds| - 1];
      assert HeaderDomains(DomainGrid(ds, groups, e)) == ds' + [d] by {
        DomainGridHeaders(ds', groups, e);
        BlockAfter(DomainGrid(ds', groups, e), d, groups, e + |Grouped(ds', groups)|);
      }
      LastSplit(ds);
    }
  }

  /** The domain grid's cards are the groups of `ds`, one after the other. */
  lemma {:induction false} DomainGridCards(ds: seq<string>, groups: map<string, seq<HistoryItem>>, e: nat)
    ensures CardItems(DomainGrid(ds, groups, e)) == Grouped(ds, groups)
    decreases |ds|
  {
    if ds != [] {
      var ds', d := ds[..|ds| - 1], ds[|ds| - 1];
      assert CardItems(DomainGrid(ds, groups, e)) == Grouped(ds', groups) + Members(groups, d) by {
        DomainGridCards(ds', groups, e);
        BlockAfter(DomainGrid(ds', groups, e), d, groups, e + |Grouped(ds', groups)|);
      }
    }
  }

  /** A run of cards is numbered consecutively from `e`. */
  lemma {:induction false} CardRunNumbered(items: seq<HistoryItem>, e: nat)
    ensures |CardElSeq(CardRun(items, e))| == |items| && Numbered(CardElSeq(CardRun(items, e)), e)
    decreases |items|
  {
    if items != [] {
      var n := |items| - 1;
      var front := CardRun(items[..n], e);
      CardRunNumbered(items[..n], e);
      assert (front + [Card(e + n, items[n])])[..|front|] == front;
    }
  }

  /** A block's header carries no number; its cards are numbered from `e`. */
  lemma BlockNumbered(d: string, groups: map<string, seq<HistoryItem>>, e: nat)
    ensures |CardElSeq(Block(d, groups, e))| == |Members(groups, d)| && Numbered(CardElSeq(Block(d, groups, e)), e)
  {
    var header, cards := [GroupHeader(d, |Members(groups, d)|)], CardRun(Members(groups, d), e);
    CardElSeqAppend(header, cards);
    CardRunNumbered(Members(groups, d), e);
    assert header[..0] == [];
  }

  /** The domain grid's cards are numbered consecutively from `e`, one number per grouped record. */
  lemma {:induction false} DomainGridNumbered(ds: seq<string>, groups: map<string, seq<HistoryItem>>, e: nat)
    ensures |CardElSeq(DomainGrid(ds, groups, e))| == |Grouped(ds, groups)|
    ensures Numbered(CardElSeq(DomainGrid(ds, groups, e)), e)
    decreases |ds|
  {
    if ds != [] {
      var ds', d := ds[..|ds| - 1], ds[|ds| - 1];
      var front, e' := DomainGrid(ds', groups, e), e + |Grouped(ds', groups)|;
      var a, b := CardElSeq(front), CardElSeq(Block(d, groups, e'));
      assert CardElSeq(DomainGrid(ds, groups, e)) == a + b by {
        CardElSeqAppend(front, Block(d, groups, e'));
      }
      assert Numbered(a + b, e) && |a + b| == |Grouped(ds, groups)| by {
        DomainGridNumbered(ds', groups, e);
        BlockNumbered(d, groups, e');
        NumberedAppend(a, b, e);
      }
    }
  }

  /** Every grid `renderItems` builds has its cards' numbers increasing in document order. */
  lemma LayoutNumbered(items: seq<HistoryItem>, m: Mode, e: nat)
    ensures Increasing(CardElSeq(Layout(items, m, e)))
  {
    if m == Flat {
      CardRunNumbered(items, e);
    } else {
      DomainGridNumbered(SortDesc(DomainOrder(items), BySize(GroupMap(items))), GroupMap(items), e);
    }
  }

  /** One more domain: its block follows the grid of the earlier ones. */
  lemma DomainGridSnoc(ds: seq<string>, i: nat, groups: map<string, seq<HistoryItem>>, e: nat)
    requires i < |ds|
    ensures DomainGrid(ds[..i + 1], groups, e) == DomainGrid(ds[..i], groups, e) + Block(ds[i], groups, e + |Grouped(ds[..i], groups)|)
    ensures Grouped(ds[..i + 1], groups) == Grouped(ds[..i], groups) + Members(groups, ds[i])
  {
    assert ds[..i + 1][..i] == ds[..i];
  }

  /** Each header of the domain grid shows the size of its domain's group. */
  lemma {:induction false} DomainGridSizes(ds: seq<string>, groups: map<string, seq<HistoryItem>>, e: nat)
    ensures forall n :: n in DomainGrid(ds, groups, e) && n.GroupHeader? ==> n.size == |Members(groups, n.domain)|
    decreases |ds|
  {
    if ds != [] {
      var ds', d := ds[..|ds| - 1], ds[|ds| - 1];
      DomainGridSizes(ds', groups, e);
    }
  }

  /** Every domain's group, as the dictionary of the records holds it, is that domain's records. */
  lemma MembersOfGroupMap(items: seq<HistoryItem>, d: string)
    ensures Members(GroupMap(items), d) == ItemsOf(items, d)
  {
    if d !in DomainOrder(items) {
      ItemsOfNonKey(items, d);
    }
  }

  /** With the dictionary of the items' groups, the groups of `ds` one after the other are `Flatten(ds, items)`. */
  lemma {:induction false} GroupedFlatten(ds: seq<string>, items: seq<HistoryItem>)
    ensures Grouped(ds, GroupMap(items)) == Flatten(ds, items)
    decreases |ds|
  {
    if ds != [] {
      var ds', d := ds[..|ds| - 1], ds[|ds| - 1];
      calc {
        Grouped(ds, GroupMap(items));
        Grouped(ds', GroupMap(items)) + Members(GroupMap(items), d);
        { GroupedFlatten(ds', items); MembersOfGroupMap(items, d); }
        Flatten(ds', items) + ItemsOf(items, d);
        { assert Flatten([d], items) == ItemsOf(items, d) + Flatten([], items); }
        Flatten(ds', items) + Flatten([d], items);
        { FlattenAppend(ds', [d], items); }
        Flatten(ds' + [d], items);
        { assert ds' + [d] == ds; }
        Flatten(ds, items);
      }
    }
  }

  /** `renderItems`' grid for `items` in mode `m`, its cards numbered from `e`. */
  ghost function Layout(items: seq<HistoryItem>, m: Mode, e: nat): seq<Node>
  {
    if m == Flat then CardRun(items, e)
    else DomainGrid(SortDesc(DomainOrder(items), BySize(GroupMap(items))), GroupMap(items), e)
  }

  /** The flat grid is one card per record, in input order, with no header. */
  lemma FlatLayout(items: seq<HistoryItem>, e: nat)
    ensures CardItems(Layout(items, Flat, e)) == items
    ensures HeaderDomains(Layout(items, Flat, e)) == []
  {
    CardRunItems(items, e);
  }

  /**
   * The domain grid: one header per domain of the records, domains in non-increasing group size
   * (equal sizes in order of first appearance), each header showing the size of its domain's
   * group, and after the headers the groups in that order, each in input order — so the cards
   * hold every record exactly once.
   */
  lemma DomainLayout(items: seq<HistoryItem>, e: nat)
    ensures var groups := GroupMap(items);
      var ranked := SortDesc(DomainOrder(items), BySize(groups));
      var grid := Layout(items, ByDomain, e);
      && HeaderDomains(grid) == ranked
      && multiset(ranked) == multiset(DomainOrder(items))
      && (forall i, j :: 0 <= i < j < |ranked| ==> |ItemsOf(items, ranked[i])| >= |ItemsOf(items, ranked[j])|)
      && (forall n :: n in grid && n.GroupHeader? ==> n.size == |ItemsOf(items, n.domain)|)
      && CardItems(grid) == Flatten(ranked, items)
      && multiset(CardItems(grid)) == multiset(items)
  {
    var groups := GroupMap(items);
    var ranked := SortDesc(DomainOrder(items), BySize(groups));
    DomainsRanked(items, groups);
    DomainGridHeaders(ranked, groups, e);
    DomainGridCards(ranked, groups, e);
    DomainGridSizes(ranked, groups, e);
    GroupedFlatten(ranked, items);
    forall n | n in Layout(items, ByDomain, e) && n.GroupHeader? ensures n.size == |ItemsOf(items, n.domain)| {
      MembersOfGroupMap(items, n.domain);
    }
  }

  /** The cards of one run, numbered from `e`. */
  method Cards(items: seq<HistoryItem>, e: nat) returns (cards: seq<Node>)
    ensures cards == CardRun(items, e)
  {
    cards := [];
    for i := 0 to |items|
      invariant cards == CardRun(items[..i], e)
    {
      assert items[..i + 1][..i] == items[..i];
      cards := cards + [Card(e + i, items[i])];
    }
    assert items[..|items|] == items;
  }

  /**
   * `renderItems`' document fragment: in domain mode the records are grouped in one pass, the
   * domains sorted by descending group size, and each domain's header and cards appended; in
   * flat mode one card per record.  `next` is the first number not handed out.
   */
  method BuildGrid(items: seq<HistoryItem>, m: Mode, e: nat) returns (fragment: seq<Node>, next: nat)
    ensures fragment == Layout(items, m, e)
    ensures CardItems(fragment) == (if m == Flat then items else Flatten(SortDesc(DomainOrder(items), BySize(GroupMap(items))), items))
    ensures next == e + |items|
  {
    if m == Flat {
      fragment := Cards(items, e);
      FlatLayout(items, e);
      return fragment, e + |items|;
    }
    var keys, groups := GroupItems(items);
    var sortedDomains := SortDesc(keys, BySize(groups));
    RankedAreKeys(items);
    fragment, next := AppendDomains(sortedDomains, groups, e);
    DomainLayout(items, e);
    GroupedFlatten(sortedDomains, items);
    assert |Flatten(sortedDomains, items)| == |items| by {
      assert |multiset(Flatten(sortedDomains, items))| == |multiset(items)|;
    }
  }

  /** The loop over the sorted domains: per domain its header, then its cards. */
  method AppendDomains(ds: seq<string>, groups: map<string, seq<HistoryItem>>, e: nat) returns (fragment: seq<Node>, next: nat)
    requires forall d :: d in ds ==> d in groups
    ensures fragment == DomainGrid(ds, groups, e)
    ensures next == e + |Grouped(ds, groups)|
  {
    fragment, next := [], e;
    for i := 0 to |ds|
      invariant fragment == DomainGrid(ds[..i], groups, e)
      invariant next == e + |Grouped(ds[..i], groups)|
    {
      var domain := ds[i];
      var header := [GroupHeader(domain, |groups[domain]|)];
      var cards := Cards(groups[domain], next);
      assert header + cards == Block(domain, groups, next);
      DomainGridSnoc(ds, i, groups, e);
      fragment := fragment + (header + cards);
      next := next + |groups[domain]|;
    }
    assert ds[..|ds|] == ds;
  }

  /** The ranked domains are keys of the dictionary. */
  lemma RankedAreKeys(items: seq<HistoryItem>)
    ensures var groups := GroupMap(items);
      forall d :: d in SortDesc(DomainOrder(items), BySize(groups)) ==> d in groups
  {
    var groups := GroupMap(items);
    SortDescPermutation(DomainOrder(items), BySize(groups));
    forall d | d in SortDesc(DomainOrder(items), BySize(groups)) ensures d in groups {
      assert d in multiset(SortDesc(DomainOrder(items), BySize(groups)));
    }
  }

  class CardView {
    const dom: Dom
    const lasso: LassoEngine
    /** `allItemsCache`. */
    var cache: seq<HistoryItem>
    /** `currentGrouping`. */
    var mode: Mode

    ghost predicate Valid()
      reads this, dom, lasso
    {
      lasso.dom == dom && dom.Valid() && lasso.Valid()
    }

    constructor (dom: Dom, lasso: LassoEngine)
      requires lasso.dom == dom && dom.Valid() && lasso.Valid()
      ensures Valid()
      ensures this.dom == dom && this.lasso == lasso && cache == [] && mode == ByDomain
    {
      this.dom, this.lasso := dom, lasso;
      cache, mode := [], ByDomain;
    }

    /**
     * `renderItems`: the grid's children are replaced by the fragment for `items` in mode `m`.
     * The old cards leave the document with their "selected" class; the new ones carry none.
     */
    method RenderItems(items: seq<HistoryItem>, m: Mode)
      requires Valid()
      modifies dom`nodes, dom`nextEl, dom`selected
      ensures Valid()
      ensures dom.nodes == Layout(items, m, old(dom.nextEl)) && dom.nextEl == old(dom.nextEl) + |items|
      ensures dom.selected == {}
    {
      var fragment, next := BuildGrid(items, m, dom.nextEl);
      LayoutNumbered(items, m, dom.nextEl);
      dom.nodes, dom.nextEl, dom.selected := fragment, next, {};
    }

    /**
     * `loadHistory`: the cache query is sent; its records (`Some`) fill the cache and are
     * rendered in domain mode; when the call fails (`None`) and the history API is missing, the
     * grid shows the notice instead, and with the API present nothing changes.
     */
    method LoadHistory(result: Option<seq<HistoryItem>>, apiPresent: bool) returns (q: CacheQuery)
      requires Valid() && (!apiPresent ==> result.None?)
      modifies this`cache, dom`nodes, dom`nextEl, dom`selected
      ensures Valid() && q == CacheQuerySent
      ensures result.Some? ==> cache == result.value && dom.nodes == Layout(result.value, ByDomain, old(dom.nextEl)) && dom.selected == {}
      ensures result.None? && !apiPresent ==> cache == old(cache) && dom.nodes == [Notice] && dom.selected == {}
      ensures result.None? && apiPresent ==> cache == old(cache) && dom.nodes == old(dom.nodes) && dom.selected == old(dom.selected)
    {
      q := CacheQuerySent;
      match result
      case Some(items) =>
        cache := items;
        RenderItems(items, ByDomain);
      case None =>
        if !apiPresent {
          dom.nodes, dom.selected := [Notice], {};
        }
    }

    /** `initRender`: the history is loaded, then the lasso set up. */
    method Init(result: Option<seq<HistoryItem>>, apiPresent: bool, selectoLoaded: bool) returns (q: CacheQuery)
      requires Valid() && (!apiPresent ==> result.None?)
      modifies this`cache, dom`nodes, dom`nextEl, dom`selected, lasso
      ensures Valid() && q == CacheQuerySent
      ensures result.Some? ==> cache == result.value && dom.nodes == Layout(result.value, ByDomain, old(dom.nextEl)) && dom.selected == {}
      ensures result.None? && !apiPresent ==> cache == old(cache) && dom.nodes == [Notice] && dom.selected == {}
      ensures result.None? && apiPresent ==> cache == old(cache) && dom.nodes == old(dom.nodes) && dom.selected == old(dom.selected)
      ensures (lasso.instances, lasso.current) == Reinit(old(lasso.instances), old(lasso.current), selectoLoaded)
    {
      q := LoadHistory(result, apiPresent);
      lasso.InitLasso(selectoLoaded);
    }

    /** `toggleGrouping`: the mode flips, the cache is rendered in the new mode, and the lasso made anew. */
    method ToggleGrouping(selectoLoaded: bool)
      requires Valid()
      modifies this`mode, dom`nodes, dom`nextEl, dom`selected, lasso
      ensures Valid()
      ensures mode == Toggle(old(mode))
      ensures dom.nodes == Layout(cache, mode, old(dom.nextEl)) && dom.selected == {}
      ensures (lasso.instances, lasso.current) == Reinit(old(lasso.instances), old(lasso.current), selectoLoaded)
    {
      mode := Toggle(mode);
      RenderItems(cache, mode);
      lasso.InitLasso(selectoLoaded);
    }

    /** `handleSearch`: the matching records of the cache are rendered in the current mode, and the lasso made anew. */
    method HandleSearch(query: string, selectoLoaded: bool)
      requires Valid()
      modifies dom`nodes, dom`nextEl, dom`selected, lasso
      ensures Valid()
      ensures dom.nodes == Layout(FilterItems(cache, query), mode, old(dom.nextEl)) && dom.selected == {}
      ensures (lasso.instances, lasso.current) == Reinit(old(lasso.instances), old(lasso.current), selectoLoaded)
    {
      var filtered := FilterItems(cache, query);
      RenderItems(filtered, mode);
      lasso.InitLasso(selectoLoaded);
    }

    /**
     * A click on the card at `i`: a selected card, or a click with Ctrl or Shift held, stays put;
     * otherwise the page navigates to the record's URL.
     */
    method ClickCard(i: nat, ctrlKey: bool, shiftKey: bool) returns (navigate: Option<string>)
      requires i < |dom.nodes| && dom.nodes[i].Card?
      ensures navigate.Some? <==> dom.nodes[i].el !in dom.selected && !ctrlKey && !shiftKey
      ensures navigate.Some? ==> navigate.value == dom.nodes[i].item.url
    {
      if dom.nodes[i].el in dom.selected || ctrlKey || shiftKey {
        return None;
      }
      return Some(dom.nodes[i].item.url);
    }
  }
}
