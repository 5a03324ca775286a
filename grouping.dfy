/**
 * Grouping of records by domain, shared by the card grid's domain mode (js/render.js) and the
 * list's group view (js/app.js): a `groups` dictionary filled by one pass over the items, and
 * its keys sorted by descending group size with a stable sort.
 */
module Grouping {
  import opened History
  import opened Seqs
  import opened Sorting

  /** The predicate "is grouped under domain `d`". */
  function InDomain(d: string): HistoryItem -> bool
  {
    x => DomainOf(x) == d
  }

  /** The group of domain `d`: its items, in input order. */
  function ItemsOf(items: seq<HistoryItem>, d: string): seq<HistoryItem>
  {
    Filter(items, InDomain(d))
  }

  /** The keys of the `groups` dictionary: every domain of the items once, in order of first appearance. */
  function DomainOrder(items: seq<HistoryItem>): (keys: seq<string>)
    ensures forall i, j :: 0 <= i < j < |keys| ==> keys[i] != keys[j]
    ensures forall k :: 0 <= k < |items| ==> DomainOf(items[k]) in keys
    decreases |items|
  {
    if items == [] then []
    else
      var prefix := items[..|items| - 1];
      var ks := DomainOrder(prefix);
      var d := DomainOf(items[|items| - 1]);
      assert forall k :: 0 <= k < |prefix| ==> items[k] == prefix[k];
      if d in ks then ks else ks + [d]
  }

  /** Every key is the domain of some item: the dictionary has no empty group. */
  lemma {:induction false} DomainOrderHasItems(items: seq<HistoryItem>, d: string)
    requires d in DomainOrder(items)
    ensures ItemsOf(items, d) != []
    decreases |items|
  {
    var s := items[..|items| - 1];
    var x := items[|items| - 1];
    assert items == s + [x];
    ItemsOfSnoc(s, x, d);
    if DomainOf(x) != d {
      DomainOrderHasItems(s, d);
    }
  }

  lemma {:induction false} ItemsOfMember(items: seq<HistoryItem>, d: string, x: HistoryItem)
    ensures x in ItemsOf(items, d) <==> x in items && DomainOf(x) == d
  {
    FilterMember(items, InDomain(d), x);
  }

  /** A domain that is not a key has an empty group. */
  lemma {:induction false} ItemsOfNonKey(items: seq<HistoryItem>, d: string)
    requires d !in DomainOrder(items)
    ensures ItemsOf(items, d) == []
  {
    if ItemsOf(items, d) != [] {
      var x := ItemsOf(items, d)[0];
      ItemsOfMember(items, d, x);
    }
  }

  lemma ItemsOfSnoc(items: seq<HistoryItem>, x: HistoryItem, d: string)
    ensures ItemsOf(items + [x], d) == ItemsOf(items, d) + (if DomainOf(x) == d then [x] else [])
  {
    assert (items + [x])[..|items|] == items;
  }

  /** The dictionary of groups, keyed by the domains that occur. */
  ghost function GroupMap(items: seq<HistoryItem>): map<string, seq<HistoryItem>>
  {
    map d | d in DomainOrder(items) :: ItemsOf(items, d)
  }

  /**
   * One pass over the items fills the dictionary: each domain's group holds exactly that domain's
   * items in input order, and the keys come in order of first appearance.
   */
  method GroupItems(items: seq<HistoryItem>) returns (keys: seq<string>, groups: map<string, seq<HistoryItem>>)
    ensures keys == DomainOrder(items)
    ensures groups == GroupMap(items)
  {
    keys := [];
    groups := map[];
    for i := 0 to |items|
      invariant keys == DomainOrder(items[..i])
      invariant groups == GroupMap(items[..i])
    {
      var x := items[i];
      var d := DomainOf(x);
      assert items[..i + 1] == items[..i] + [x];
      DomainOrderSnoc(items[..i], x);
      GroupMapSnoc(items[..i], x);
      if d in groups {
        groups := groups[d := groups[d] + [x]];
      } else {
        groups := groups[d := [x]];
        keys := keys + [d];
      }
    }
    assert items[..|items|] == items;
  }

  /** One more item: its domain joins the keys if it was not one. */
  lemma DomainOrderSnoc(s: seq<HistoryItem>, x: HistoryItem)
    ensures var d := DomainOf(x);
      DomainOrder(s + [x]) == (if d in DomainOrder(s) then DomainOrder(s) else DomainOrder(s) + [d])
  {
    assert (s + [x])[..|s|] == s;
  }

  /** The dictionary after `x` is pushed onto the group of `d`, which is created empty when missing. */
  function Pushed(g: map<string, seq<HistoryItem>>, d: string, x: HistoryItem): map<string, seq<HistoryItem>>
  {
    if d in g then g[d := g[d] + [x]] else g[d := [x]]
  }

  lemma GroupMapSnocKeys(s: seq<HistoryItem>, x: HistoryItem)
    ensures GroupMap(s + [x]).Keys == Pushed(GroupMap(s), DomainOf(x), x).Keys
  {
    DomainOrderSnoc(s, x);
  }

  lemma GroupMapSnocValues(s: seq<HistoryItem>, x: HistoryItem, k: string)
    requires k in GroupMap(s + [x]) && k in Pushed(GroupMap(s), DomainOf(x), x)
    ensures GroupMap(s + [x])[k] == Pushed(GroupMap(s), DomainOf(x), x)[k]
  {
    ItemsOfSnoc(s, x, k);
    if k == DomainOf(x) && k !in GroupMap(s) {
      ItemsOfNonKey(s, k);
    }
  }

  /** One more item: its domain becomes a key if it was not one, and the item joins the end of that group. */
  lemma GroupMapSnoc(s: seq<HistoryItem>, x: HistoryItem)
    ensures GroupMap(s + [x]) == Pushed(GroupMap(s), DomainOf(x), x)
  {
    GroupMapSnocKeys(s, x);
    forall k | k in GroupMap(s + [x]) ensures GroupMap(s + [x])[k] == Pushed(GroupMap(s), DomainOf(x), x)[k] {
      GroupMapSnocValues(s, x, k);
    }
  }

  /** Each item lies in the group of its own domain and in no other. */
  lemma {:induction false} GroupsPartition(items: seq<HistoryItem>, x: HistoryItem, d: string)
    requires x in items
    ensures x in ItemsOf(items, d) <==> d == DomainOf(x)
    ensures DomainOf(x) in DomainOrder(items)
  {
    ItemsOfMember(items, d, x);
    var k :| 0 <= k < |items| && items[k] == x;
  }

  /** Within a group, items keep their input relative order. */
  lemma GroupKeepsOrder(items: seq<HistoryItem>, d: string)
    ensures IsSubseq(ItemsOf(items, d), items)
  {
    FilterIsSubseq(items, InDomain(d));
  }

  /** The groups of `keys`, one after the other: the cards of the domain view. */
  function Flatten(keys: seq<string>, items: seq<HistoryItem>): seq<HistoryItem>
  {
    if keys == [] then [] else ItemsOf(items, keys[0]) + Flatten(keys[1..], items)
  }

  lemma {:induction false} FlattenAppend(a: seq<string>, b: seq<string>, items: seq<HistoryItem>)
    ensures Flatten(a + b, items) == Flatten(a, items) + Flatten(b, items)
    decreases |a|
  {
    if a == [] {
      assert a + b == b;
    } else {
      assert (a + b)[0] == a[0];
      assert (a + b)[1..] == a[1..] + b;
      FlattenAppend(a[1..], b, items);
    }
  }

  lemma {:induction false} FlattenSnoc(keys: seq<string>, items: seq<HistoryItem>, x: HistoryItem)
    requires forall i, j :: 0 <= i < j < |keys| ==> keys[i] != keys[j]
    ensures multiset(Flatten(keys, items + [x])) ==
            multiset(Flatten(keys, items)) + (if DomainOf(x) in keys then multiset{x} else multiset{})
    decreases |keys|
  {
    if keys != [] {
      DistinctTail(keys);
      FlattenSnoc(keys[1..], items, x);
      FlattenSnocStep(keys[0], keys[1..], items, x);
      FirstSplit(keys);
    }
  }

  /** The step of `FlattenSnoc`: one more key in front of keys that do not contain it. */
  lemma FlattenSnocStep(k: string, rest: seq<string>, items: seq<HistoryItem>, x: HistoryItem)
    requires k !in rest
    requires multiset(Flatten(rest, items + [x])) ==
             multiset(Flatten(rest, items)) + (if DomainOf(x) in rest then multiset{x} else multiset{})
    ensures multiset(Flatten([k] + rest, items + [x])) ==
            multiset(Flatten([k] + rest, items)) + (if DomainOf(x) in [k] + rest then multiset{x} else multiset{})
  {
    FlattenCons(k, rest, items + [x]);
    FlattenCons(k, rest, items);
    ItemsOfSnoc(items, x, k);
  }

  lemma DistinctTail(keys: seq<string>)
    requires keys != [] && forall i, j :: 0 <= i < j < |keys| ==> keys[i] != keys[j]
    ensures keys[0] !in keys[1..]
    ensures forall i, j :: 0 <= i < j < |keys| - 1 ==> keys[1..][i] != keys[1..][j]
  {
    forall j | 0 <= j < |keys| - 1 ensures keys[1..][j] != keys[0] {
      assert keys[1..][j] == keys[j + 1];
    }
  }

  /** The groups together hold every item exactly once. */
  lemma {:induction false} GroupsCoverItems(items: seq<HistoryItem>)
    ensures multiset(Flatten(DomainOrder(items), items)) == multiset(items)
    decreases |items|
  {
    if items != [] {
      var s := items[..|items| - 1];
      var x := items[|items| - 1];
      assert items == s + [x];
      GroupsCoverItems(s);
      var ks := DomainOrder(s);
      var d := DomainOf(x);
      FlattenSnoc(ks, s, x);
      if d !in ks {
        FlattenAppend(ks, [d], items);
        ItemsOfNonKey(s, d);
        ItemsOfSnoc(s, x, d);
        assert Flatten([d], items) == ItemsOf(items, d) + Flatten([], items);
      }
    }
  }

  lemma MultisetRemoveAt<T>(b: seq<T>, i: nat)
    requires i < |b|
    ensures multiset(b[..i] + b[i + 1..]) == multiset(b) - multiset{b[i]}
  {
    assert b == b[..i] + [b[i]] + b[i + 1..];
  }

  lemma MultisetMiddle<T>(x: seq<T>, y: seq<T>, z: seq<T>)
    ensures multiset(x + (y + z)) == multiset(y) + multiset(x + z)
  {
    calc {
      multiset(x + (y + z));
      multiset(x) + multiset(y) + multiset(z);
      multiset(y) + (multiset(x) + multiset(z));
      multiset(y) + multiset(x + z);
    }
  }

  lemma SplitAt<T>(b: seq<T>, i: nat)
    requires i < |b|
    ensures b == b[..i] + ([b[i]] + b[i + 1..])
  {
  }

  lemma FlattenCons(k: string, back: seq<string>, items: seq<HistoryItem>)
    ensures Flatten([k] + back, items) == ItemsOf(items, k) + Flatten(back, items)
  {
    assert ([k] + back)[1..] == back;
  }

  /** Taking one key out of the list takes its group out of the flattened groups. */
  lemma FlattenRemoveAt(b: seq<string>, i: nat, items: seq<HistoryItem>)
    requires i < |b|
    ensures multiset(Flatten(b, items)) ==
            multiset(ItemsOf(items, b[i])) + multiset(Flatten(b[..i] + b[i + 1..], items))
  {
    var k, front, back := b[i], b[..i], b[i + 1..];
    var g, f1, f2 := ItemsOf(items, k), Flatten(front, items), Flatten(back, items);
    calc {
      multiset(Flatten(b, items));
      { SplitAt(b, i); }
      multiset(Flatten(front + ([k] + back), items));
      { FlattenAppend(front, [k] + back, items); FlattenCons(k, back, items); }
      multiset(f1 + (g + f2));
      { MultisetMiddle(f1, g, f2); }
      multiset(g) + multiset(f1 + f2);
      { FlattenAppend(front, back, items); }
      multiset(g) + multiset(Flatten(front + back, items));
    }
  }

  /** Reordering the keys reorders the groups but not what they hold together. */
  lemma {:induction false} FlattenPermutation(a: seq<string>, b: seq<string>, items: seq<HistoryItem>)
    requires multiset(a) == multiset(b)
    ensures multiset(Flatten(a, items)) == multiset(Flatten(b, items))
    decreases |a|
  {
    if a == [] {
      assert |multiset(b)| == |b|;
    } else {
      assert a[0] in multiset(b) by {
        assert a[0] in multiset(a);
      }
      var i :| 0 <= i < |b| && b[i] == a[0];
      PermutationTail(a, b, i);
      FlattenPermutation(a[1..], b[..i] + b[i + 1..], items);
      FlattenRemoveAt(b, i, items);
      FlattenCons(a[0], a[1..], items);
      FirstSplit(a);
    }
  }

  /** Taking the first element out of `a` and the same element out of `b` keeps them permutations of each other. */
  lemma PermutationTail<T>(a: seq<T>, b: seq<T>, i: nat)
    requires multiset(a) == multiset(b) && a != [] && i < |b| && b[i] == a[0]
    ensures multiset(a[1..]) == multiset(b[..i] + b[i + 1..])
  {
    calc {
      multiset(a[1..]);
      { FirstSplit(a); assert multiset(a) == multiset([a[0]]) + multiset(a[1..]); }
      multiset(a) - multiset{a[0]};
      multiset(b) - multiset{b[i]};
      { MultisetRemoveAt(b, i); }
      multiset(b[..i] + b[i + 1..]);
    }
  }


  /** The sort key of the domain list: the size of the domain's group. */
  function BySize(groups: map<string, seq<HistoryItem>>): string -> int
  {
    d => if d in groups then |groups[d]| else 0
  }

  /**
   * The domains of the grouping, ranked: every domain once, group sizes non-increasing, domains
   * of equal size in order of first appearance, and the groups in ranked order still hold every
   * item exactly once.
   */
  lemma {:induction false} DomainsRanked(items: seq<HistoryItem>, groups: map<string, seq<HistoryItem>>)
    requires forall d :: d in groups <==> d in DomainOrder(items)
    requires forall d :: d in groups ==> groups[d] == ItemsOf(items, d)
    ensures var ranked := SortDesc(DomainOrder(items), BySize(groups));
      && multiset(ranked) == multiset(DomainOrder(items))
      && (forall i :: 0 <= i < |ranked| ==> ranked[i] in groups)
      && (forall i, j :: 0 <= i < j < |ranked| ==> |groups[ranked[i]]| >= |groups[ranked[j]]|)
      && (forall n :: Filter(ranked, HasKey(BySize(groups), n)) == Filter(DomainOrder(items), HasKey(BySize(groups), n)))
      && multiset(Flatten(ranked, items)) == multiset(items)
  {
    var keys := DomainOrder(items);
    var ranked := SortDesc(keys, BySize(groups));
    SortDescPermutation(keys, BySize(groups));
    SortDescSorted(keys, BySize(groups));
    forall i | 0 <= i < |ranked| ensures ranked[i] in groups {
      assert ranked[i] in multiset(keys);
    }
    forall n ensures Filter(ranked, HasKey(BySize(groups), n)) == Filter(keys, HasKey(BySize(groups), n)) {
      SortDescStable(keys, BySize(groups), n);
    }
    FlattenPermutation(ranked, keys, items);
    GroupsCoverItems(items);
  }
}
