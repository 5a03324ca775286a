/**
 * The history list of js/app.js: rows rendered batch by batch under date headers, a header
 * tracker (`globalLastDateString`) that survives between scroll batches, the search reset, the
 * row selection with its bar, the bulk delete, and the group-by-site view.
 */
module App {
  import opened Wrappers
  import opened History
  import opened Seqs
  import opened Sorting
  import opened Grouping
  import opened Selection
  import opened Data

  /** Page size of the group view's single fetch.  A scroll batch asks for 100, the loader's default `DefaultPageSize`. */
  const GroupPageSize := 5000
  /** A domain needs at least this many visits to be listed in the group view. */
  const MinGroupSize := 2

  /**
   * A date header, for a calendar day numbered as an integer.  The texts are "Today - <long
   * date>", "Yesterday - <long date>" and "<weekday>, <long date>"; since the long date names the
   * day, two headers have the same text exactly when they are equal as values of this type.
   */
  datatype Label = Today(day: int) | Yesterday(day: int) | Weekday(day: int)

  /** The header of a record visited on calendar day `day`, rendered on calendar day `today`. */
  function LabelFor(day: int, today: int): (l: Label)
    ensures l.day == day
    ensures l.Today? <==> day == today
    ensures l.Yesterday? <==> day == today - 1
  {
    if day == today then Today(day)
    else if day == today - 1 then Yesterday(day)
    else Weekday(day)
  }

  /** A child of the list container before the scroll sentinel, in document order. */
  datatype Entry =
    | Header(date: Label)
    | Row(el: nat, item: HistoryItem)
    | GroupRow(el: nat, domain: string, urls: seq<string>)

  /** Rendered entries, and the tracker after them. */
  datatype Layout = Layout(entries: seq<Entry>, tracker: Option<Label>)

  /**
   * What `renderRows` builds from `items`: for each record, a header when its label differs from
   * the tracker (which then takes that label), then the record's row.  `dayOf` gives the local
   * calendar day of a timestamp; row elements are numbered from `e`.
   */
  function LayoutRows(tracker: Option<Label>, items: seq<HistoryItem>, today: int, dayOf: int -> int, e: nat): Layout
    decreases |items|
  {
    if items == [] then Layout([], tracker)
    else
      var rest := LayoutRows(Some(LabelOf(items[0], today, dayOf)), items[1..], today, dayOf, e + 1);
      Layout(Heading(tracker, items[0], today, dayOf) + [Row(e, items[0])] + rest.entries, rest.tracker)
  }

  /** The header of a record's row. */
  function LabelOf(item: HistoryItem, today: int, dayOf: int -> int): Label
  {
    LabelFor(dayOf(item.lastVisitTime), today)
  }

  /** The header emitted before a record's row: none when its label is the tracker's. */
  function Heading(tracker: Option<Label>, item: HistoryItem, today: int, dayOf: int -> int): seq<Entry>
  {
    var l := LabelOf(item, today, dayOf);
    if Some(l) != tracker then [Header(l)] else []
  }

  function HeadersOf(entries: seq<Entry>): seq<Label>
  {
    if entries == [] then []
    else (if entries[0].Header? then [entries[0].date] else []) + HeadersOf(entries[1..])
  }

  function RowsOf(entries: seq<Entry>): seq<HistoryItem>
  {
    if entries == [] then []
    else (if entries[0].Row? then [entries[0].item] else []) + RowsOf(entries[1..])
  }

  /** The element numbers of the selectable entries (rows and group rows), in document order. */
  function ElSeq(entries: seq<Entry>): seq<nat>
  {
    if entries == [] then []
    else (if entries[0].Header? then [] else [entries[0].el]) + ElSeq(entries[1..])
  }

  lemma {:induction false} HeadersAppend(a: seq<Entry>, b: seq<Entry>)
    ensures HeadersOf(a + b) == HeadersOf(a) + HeadersOf(b)
    decreases |a|
  {
    if a == [] {
      assert a + b == b;
    } else {
      assert (a + b)[0] == a[0];
      assert (a + b)[1..] == a[1..] + b;
      HeadersAppend(a[1..], b);
    }
  }

  lemma {:induction false} RowsAppend(a: seq<Entry>, b: seq<Entry>)
    ensures RowsOf(a + b) == RowsOf(a) + RowsOf(b)
    decreases |a|
  {
    if a == [] {
      assert a + b == b;
    } else {
      assert (a + b)[0] == a[0];
      assert (a + b)[1..] == a[1..] + b;
      RowsAppend(a[1..], b);
    }
  }

  lemma {:induction false} ElsAppend(a: seq<Entry>, b: seq<Entry>)
    ensures ElSeq(a + b) == ElSeq(a) + ElSeq(b)
    decreases |a|
  {
    if a == [] {
      assert a + b == b;
    } else {
      assert (a + b)[0] == a[0];
      assert (a + b)[1..] == a[1..] + b;
      ElsAppend(a[1..], b);
    }
  }

  /**
   * The tracker persists between batches: rendering `a` and then `b`, the second starting from
   * the tracker the first left, gives the same entries and tracker as rendering `a + b` at once.
   */
  lemma {:induction false} BatchesCompose(t: Option<Label>, a: seq<HistoryItem>, b: seq<HistoryItem>, today: int, dayOf: int -> int, e: nat)
    ensures var ra := LayoutRows(t, a, today, dayOf, e);
      var rb := LayoutRows(ra.tracker, b, today, dayOf, e + |a|);
      && LayoutRows(t, a + b, today, dayOf, e).entries == ra.entries + rb.entries
      && LayoutRows(t, a + b, today, dayOf, e).tracker == rb.tracker
    decreases |a|
  {
    if a == [] {
      assert a + b == b;
    } else {
      var ab := a + b;
      assert ab[0] == a[0];
      assert ab[1..] == a[1..] + b;
      var l := LabelOf(a[0], today, dayOf);
      var first := Heading(t, a[0], today, dayOf) + [Row(e, a[0])];
      BatchesCompose(Some(l), a[1..], b, today, dayOf, e + 1);
      var ra' := LayoutRows(Some(l), a[1..], today, dayOf, e + 1);
      var rb := LayoutRows(ra'.tracker, b, today, dayOf, e + |a|);
      assert first + (ra'.entries + rb.entries) == (first + ra'.entries) + rb.entries;
    }
  }

  /** The entries of one step of `LayoutRows`: the first record's heading and row, then the rest's entries. */
  lemma LayoutStep(t: Option<Label>, items: seq<HistoryItem>, today: int, dayOf: int -> int, e: nat)
    requires items != []
    ensures LayoutRows(t, items, today, dayOf, e).entries
      == Heading(t, items[0], today, dayOf) + [Row(e, items[0])] + LayoutRows(Some(LabelOf(items[0], today, dayOf)), items[1..], today, dayOf, e + 1).entries
    ensures LayoutRows(t, items, today, dayOf, e).tracker == LayoutRows(Some(LabelOf(items[0], today, dayOf)), items[1..], today, dayOf, e + 1).tracker
  {
  }

  /** Each record gets exactly one row, in input order. */
  lemma {:induction false} OneRowPerRecord(t: Option<Label>, items: seq<HistoryItem>, today: int, dayOf: int -> int, e: nat)
    ensures RowsOf(LayoutRows(t, items, today, dayOf, e).entries) == items
    decreases |items|
  {
    if items != [] {
      var head := Heading(t, items[0], today, dayOf);
      var row := [Row(e, items[0])];
      var rest := LayoutRows(Some(LabelOf(items[0], today, dayOf)), items[1..], today, dayOf, e + 1);
      assert RowsOf(head + row) == [items[0]] by {
        RowsAppend(head, row);
        assert RowsOf(head) == [];
        assert RowsOf(row) == [items[0]];
      }
      assert RowsOf(rest.entries) == items[1..] by {
        OneRowPerRecord(Some(LabelOf(items[0], today, dayOf)), items[1..], today, dayOf, e + 1);
      }
      calc {
        RowsOf(LayoutRows(t, items, today, dayOf, e).entries);
        { LayoutStep(t, items, today, dayOf, e); }
        RowsOf(head + row + rest.entries);
        { RowsAppend(head + row, rest.entries); }
        [items[0]] + items[1..];
        items;
      }
    }
  }

  /** The rows of a batch are numbered consecutively from `e`. */
  lemma {:induction false} RowsNumbered(t: Option<Label>, items: seq<HistoryItem>, today: int, dayOf: int -> int, e: nat)
    ensures var els := ElSeq(LayoutRows(t, items, today, dayOf, e).entries);
      |els| == |items| && forall i :: 0 <= i < |els| ==> els[i] == e + i
    decreases |items|
  {
    if items != [] {
      var head := Heading(t, items[0], today, dayOf);
      var row := [Row(e, items[0])];
      var rest := LayoutRows(Some(LabelOf(items[0], today, dayOf)), items[1..], today, dayOf, e + 1);
      LayoutStep(t, items, today, dayOf, e);
      RowsNumbered(Some(LabelOf(items[0], today, dayOf)), items[1..], today, dayOf, e + 1);
      ElsAppend(head + row, rest.entries);
      ElsAppend(head, row);
      assert ElSeq(head) == [];
      assert ElSeq(row) == [e];
      var els := [e] + ElSeq(rest.entries);
      forall i | 0 <= i < |els| ensures els[i] == e + i {
        if i > 0 {
          assert els[i] == ElSeq(rest.entries)[i - 1];
        }
      }
    }
  }

  /**
   * Consecutive headers differ, the first differs from the tracker it started from, and the
   * tracker left behind is the last header emitted (or the old tracker when none was).
   */
  lemma {:induction false} HeadersChange(t: Option<Label>, items: seq<HistoryItem>, today: int, dayOf: int -> int, e: nat)
    ensures var r := LayoutRows(t, items, today, dayOf, e);
      var hs := HeadersOf(r.entries);
      && (forall k :: 0 <= k < |hs| - 1 ==> hs[k] != hs[k + 1])
      && (hs != [] && t.Some? ==> hs[0] != t.value)
      && r.tracker == (if hs == [] then t else Some(hs[|hs| - 1]))
    decreases |items|
  {
    if items != [] {
      var l := LabelOf(items[0], today, dayOf);
      HeadersChange(Some(l), items[1..], today, dayOf, e + 1);
      HeadersStep(t, items, today, dayOf, e);
      LayoutStep(t, items, today, dayOf, e);
      if Some(l) != t {
        AdjacentDistinctCons(l, HeadersOf(LayoutRows(Some(l), items[1..], today, dayOf, e + 1).entries));
      }
    }
  }

  lemma AdjacentDistinctCons(l: Label, later: seq<Label>)
    requires forall k :: 0 <= k < |later| - 1 ==> later[k] != later[k + 1]
    requires later != [] ==> later[0] != l
    ensures var hs := [l] + later;
      && (forall k :: 0 <= k < |hs| - 1 ==> hs[k] != hs[k + 1])
      && hs[|hs| - 1] == (if later == [] then l else later[|later| - 1])
  {
    var hs := [l] + later;
    forall k | 0 <= k < |hs| - 1 ensures hs[k] != hs[k + 1] {
      if k > 0 {
        assert hs[k] == later[k - 1] && hs[k + 1] == later[k];
      }
    }
  }

  /** After a reset of the tracker, the first record of the new list is preceded by its header. */
  lemma FirstRecordHeaded(items: seq<HistoryItem>, today: int, dayOf: int -> int, e: nat)
    requires items != []
    ensures LayoutRows(None, items, today, dayOf, e).entries[0] == Header(LabelFor(dayOf(items[0].lastVisitTime), today))
  {
  }

  ghost predicate DaysNonIncreasing(items: seq<HistoryItem>, dayOf: int -> int)
  {
    forall i, j :: 0 <= i < j < |items| ==> dayOf(items[i].lastVisitTime) >= dayOf(items[j].lastVisitTime)
  }

  /** The headers of one step of `LayoutRows`: the first record's header, if emitted, then the rest's. */
  lemma HeadersStep(t: Option<Label>, items: seq<HistoryItem>, today: int, dayOf: int -> int, e: nat)
    requires items != []
    ensures var l := LabelOf(items[0], today, dayOf);
      HeadersOf(LayoutRows(t, items, today, dayOf, e).entries)
        == (if Some(l) != t then [l] else []) + HeadersOf(LayoutRows(Some(l), items[1..], today, dayOf, e + 1).entries)
  {
    var l := LabelOf(items[0], today, dayOf);
    var head := Heading(t, items[0], today, dayOf);
    var row := [Row(e, items[0])];
    var rest := LayoutRows(Some(l), items[1..], today, dayOf, e + 1);
    assert LayoutRows(t, items, today, dayOf, e).entries == head + row + rest.entries;
    HeadersAppend(head + row, rest.entries);
    HeadersAppend(head, row);
    assert HeadersOf(row) == [];
    assert HeadersOf(head) == if Some(l) != t then [l] else [];
  }

  /**
   * On a stream whose days never increase, header days strictly decrease, and all lie below the
   * day of the tracker's label.
   */
  lemma {:induction false} HeaderDaysDecrease(t: Option<Label>, items: seq<HistoryItem>, today: int, dayOf: int -> int, e: nat, dt: int)
    requires DaysNonIncreasing(items, dayOf)
    requires t.Some? ==> t.value == LabelFor(dt, today) && forall i :: 0 <= i < |items| ==> dayOf(items[i].lastVisitTime) <= dt
    ensures var hs := HeadersOf(LayoutRows(t, items, today, dayOf, e).entries);
      forall i, j :: 0 <= i < j < |hs| ==> hs[j].day < hs[i].day
    ensures t.Some? ==> forall h :: h in HeadersOf(LayoutRows(t, items, today, dayOf, e).entries) ==> h.day < dt
    decreases |items|
  {
    if items != [] {
      var d := dayOf(items[0].lastVisitTime);
      var l := LabelFor(d, today);
      var tail := items[1..];
      TailDays(items, dayOf);
      HeaderDaysDecrease(Some(l), tail, today, dayOf, e + 1, d);
      HeadersStep(t, items, today, dayOf, e);
      var later := HeadersOf(LayoutRows(Some(l), tail, today, dayOf, e + 1).entries);
      if Some(l) != t {
        StrictlyDecreasingCons(l, later);
      }
    }
  }

  /** The rest of a stream whose days never increase is such a stream, with days up to the first's. */
  lemma TailDays(items: seq<HistoryItem>, dayOf: int -> int)
    requires items != [] && DaysNonIncreasing(items, dayOf)
    ensures DaysNonIncreasing(items[1..], dayOf)
    ensures forall i :: 0 <= i < |items[1..]| ==> dayOf(items[1..][i].lastVisitTime) <= dayOf(items[0].lastVisitTime)
  {
    var tail := items[1..];
    forall i, j | 0 <= i < j < |tail| ensures dayOf(tail[i].lastVisitTime) >= dayOf(tail[j].lastVisitTime) {
      assert tail[i] == items[i + 1] && tail[j] == items[j + 1];
    }
    forall i | 0 <= i < |tail| ensures dayOf(tail[i].lastVisitTime) <= dayOf(items[0].lastVisitTime) {
      assert tail[i] == items[i + 1];
    }
  }

  lemma StrictlyDecreasingCons(l: Label, later: seq<Label>)
    requires forall i, j :: 0 <= i < j < |later| ==> later[j].day < later[i].day
    requires forall h :: h in later ==> h.day < l.day
    ensures var hs := [l] + later; forall i, j :: 0 <= i < j < |hs| ==> hs[j].day < hs[i].day
  {
    var hs := [l] + later;
    forall i, j | 0 <= i < j < |hs| ensures hs[j].day < hs[i].day {
      assert hs[j] == later[j - 1];
      if i > 0 {
        assert hs[i] == later[i - 1];
      } else {
        assert later[j - 1] in later;
      }
    }
  }

  /**
   * A stream sorted newest first, on a `dayOf` that never runs backwards, gets no header twice:
   * within one batch or across any number of batches (by `BatchesCompose`), every header of the
   * list is distinct.
   */
  lemma SortedStreamHeadersDistinct(items: seq<HistoryItem>, today: int, dayOf: int -> int, e: nat)
    requires SortedDesc(items, VisitTime)
    requires forall t1, t2 :: t1 <= t2 ==> dayOf(t1) <= dayOf(t2)
    ensures var hs := HeadersOf(LayoutRows(None, items, today, dayOf, e).entries);
      forall i, j :: 0 <= i < j < |hs| ==> hs[i] != hs[j]
  {
    assert DaysNonIncreasing(items, dayOf) by {
      forall i, j | 0 <= i < j < |items| ensures dayOf(items[i].lastVisitTime) >= dayOf(items[j].lastVisitTime) {
        assert VisitTime(items[i]) >= VisitTime(items[j]);
      }
    }
    HeaderDaysDecrease(None, items, today, dayOf, e, 0);
  }

  /** `groups[domain].map(i => i.url)`. */
  function UrlsOf(items: seq<HistoryItem>): (urls: seq<string>)
    ensures |urls| == |items| && forall i :: 0 <= i < |items| ==> urls[i] == items[i].url
  {
    seq(|items|, i requires 0 <= i < |items| => items[i].url)
  }

  /**
   * A group's delete list holds the empty string exactly when one of its records has no URL, and
   * then `DeleteGroup` keeps the row.
   */
  lemma MissingUrlKeepsGroup(items: seq<HistoryItem>)
    ensures "" in UrlsOf(items) <==> exists k :: 0 <= k < |items| && items[k].url == ""
  {
    if k :| 0 <= k < |items| && items[k].url == "" {
      assert UrlsOf(items)[k] == "";
    }
  }

  /** A domain the group view lists: one with at least two visits. */
  predicate IsListed(groups: map<string, seq<HistoryItem>>, d: string)
  {
    d in groups && |groups[d]| >= MinGroupSize
  }

  function Listed(groups: map<string, seq<HistoryItem>>): string -> bool
  {
    d => IsListed(groups, d)
  }

  /** The rows of the group view for the ranked domains `ds`: one per listed domain, numbered from `e`. */
  function GroupRows(ds: seq<string>, groups: map<string, seq<HistoryItem>>, e: nat): seq<Entry>
    decreases |ds|
  {
    if ds == [] then []
    else
      var rows := GroupRows(ds[..|ds| - 1], groups, e);
      var d := ds[|ds| - 1];
      if IsListed(groups, d) then rows + [GroupRow(e + |rows|, d, UrlsOf(groups[d]))] else rows
  }

  function DomainsOf(entries: seq<Entry>): seq<string>
  {
    if entries == [] then []
    else (if entries[0].GroupRow? then [entries[0].domain] else []) + DomainsOf(entries[1..])
  }

  lemma {:induction false} DomainsOfAppend(a: seq<Entry>, b: seq<Entry>)
    ensures DomainsOf(a + b) == DomainsOf(a) + DomainsOf(b)
    decreases |a|
  {
    if a == [] {
      assert a + b == b;
    } else {
      assert (a + b)[0] == a[0];
      assert (a + b)[1..] == a[1..] + b;
      DomainsOfAppend(a[1..], b);
    }
  }

  /** The group view lists, in order, exactly the ranked domains with at least two visits. */
  lemma {:induction false} GroupRowsListed(ds: seq<string>, groups: map<string, seq<HistoryItem>>, e: nat)
    ensures DomainsOf(GroupRows(ds, groups, e)) == Filter(ds, Listed(groups))
    decreases |ds|
  {
    if ds != [] {
      var ds' := ds[..|ds| - 1];
      var rows := GroupRows(ds', groups, e);
      var d := ds[|ds| - 1];
      GroupRowsListed(ds', groups, e);
      if Listed(groups)(d) {
        var g := GroupRow(e + |rows|, d, UrlsOf(groups[d]));
        DomainsOfAppend(rows, [g]);
        assert DomainsOf([g]) == [d];
      }
    }
  }

  /** A group row whose domain is a key of `groups` and whose URLs are that group's. */
  ghost predicate CarriesUrls(groups: map<string, seq<HistoryItem>>, r: Entry)
  {
    r.GroupRow? && r.domain in groups && r.urls == UrlsOf(groups[r.domain])
  }

  /** Each group row carries its domain's URLs. */
  lemma {:induction false} GroupRowsCarryUrls(ds: seq<string>, groups: map<string, seq<HistoryItem>>, e: nat)
    ensures forall r :: r in GroupRows(ds, groups, e) ==> CarriesUrls(groups, r)
    decreases |ds|
  {
    if ds != [] {
      var ds' := ds[..|ds| - 1];
      GroupRowsCarryUrls(ds', groups, e);
    }
  }

  /** The group rows are numbered consecutively from `e`. */
  lemma {:induction false} GroupRowsNumbered(ds: seq<string>, groups: map<string, seq<HistoryItem>>, e: nat)
    ensures var els := ElSeq(GroupRows(ds, groups, e));
      |els| == |GroupRows(ds, groups, e)| && forall i :: 0 <= i < |els| ==> els[i] == e + i
    decreases |ds|
  {
    if ds != [] {
      var ds' := ds[..|ds| - 1];
      var rows := GroupRows(ds', groups, e);
      var d := ds[|ds| - 1];
      GroupRowsNumbered(ds', groups, e);
      if IsListed(groups, d) {
        var g := GroupRow(e + |rows|, d, UrlsOf(groups[d]));
        ElsAppend(rows, [g]);
        assert ElSeq([g]) == [e + |rows|];
        var els := ElSeq(rows) + [e + |rows|];
        forall i | 0 <= i < |els| ensures els[i] == e + i {
          if i < |rows| {
            assert els[i] == ElSeq(rows)[i];
          }
        }
      }
    }
  }

  /**
   * In the group view the listed domains come in non-increasing order of visit count and are
   * exactly the domains with at least two visits among the fetched records.
   */
  lemma GroupViewRanked(items: seq<HistoryItem>, groups: map<string, seq<HistoryItem>>, e: nat)
    requires forall d :: d in groups <==> d in DomainOrder(items)
    requires forall d :: d in groups ==> groups[d] == ItemsOf(items, d)
    ensures var shown := DomainsOf(GroupRows(SortDesc(DomainOrder(items), BySize(groups)), groups, e));
      && (forall i, j :: 0 <= i < j < |shown| ==> |ItemsOf(items, shown[i])| >= |ItemsOf(items, shown[j])|)
      && (forall d :: d in shown <==> d in DomainOrder(items) && |ItemsOf(items, d)| >= MinGroupSize)
  {
    var ranked := SortDesc(DomainOrder(items), BySize(groups));
    DomainsRanked(items, groups);
    GroupRowsListed(ranked, groups, e);
    var shown := Filter(ranked, Listed(groups));
    FilterIsSubseq(ranked, Listed(groups));
    SubseqKeepsDescending(shown, ranked, BySize(groups));
    forall d ensures d in shown <==> d in DomainOrder(items) && |ItemsOf(items, d)| >= MinGroupSize {
      FilterMember(ranked, Listed(groups), d);
      assert d in ranked <==> d in multiset(ranked);
      assert d in DomainOrder(items) <==> d in multiset(DomainOrder(items));
    }
    forall i, j | 0 <= i < j < |shown| ensures |ItemsOf(items, shown[i])| >= |ItemsOf(items, shown[j])| {
      assert Listed(groups)(shown[i]) && Listed(groups)(shown[j]);
    }
  }

  lemma {:induction false} SubseqKeepsDescending<T>(a: seq<T>, b: seq<T>, key: T -> int)
    requires IsSubseq(a, b) && SortedDesc(b, key)
    ensures SortedDesc(a, key)
    decreases |b|
  {
    if a != [] {
      var b' := b[..|b| - 1];
      assert SortedDesc(b', key);
      if a[|a| - 1] == b[|b| - 1] && IsSubseq(a[..|a| - 1], b') {
        SubseqKeepsDescending(a[..|a| - 1], b', key);
        SubseqMembers(a[..|a| - 1], b');
        forall i | 0 <= i < |a| - 1 ensures key(a[i]) >= key(a[|a| - 1]) {
          assert a[..|a| - 1][i] in b';
        }
      } else {
        SubseqKeepsDescending(a, b', key);
      }
    }
  }

  lemma {:induction false} SubseqMembers<T>(a: seq<T>, b: seq<T>)
    requires IsSubseq(a, b)
    ensures forall x :: x in a ==> x in b
    decreases |b|
  {
    if a != [] {
      var b' := b[..|b| - 1];
      if a[|a| - 1] == b[|b| - 1] && IsSubseq(a[..|a| - 1], b') {
        SubseqMembers(a[..|a| - 1], b');
        assert a == a[..|a| - 1] + [a[|a| - 1]];
      } else {
        SubseqMembers(a, b');
      }
    }
  }

  /**
   * The `data-url` of each selected element, in document order: a row's is its record's
   * `DataUrl`; a group row has none (`None`).
   */
  function SelectedUrls(entries: seq<Entry>, selected: set<nat>): seq<Option<string>>
  {
    if entries == [] then []
    else
      var e := entries[0];
      (if e.Row? && e.el in selected then [Some(DataUrl(e.item))]
       else if e.GroupRow? && e.el in selected then [None]
       else []) + SelectedUrls(entries[1..], selected)
  }

  /** With distinct element numbers, the delete handler collects one URL slot per selected element. */
  lemma {:induction false} SelectedUrlsCount(entries: seq<Entry>, selected: set<nat>)
    requires Increasing(ElSeq(entries)) && selected <= Elems(ElSeq(entries))
    ensures |SelectedUrls(entries, selected)| == |selected|
    decreases |entries|
  {
    if entries == [] {
      assert selected == {};
    } else {
      var x := entries[0];
      var rest := entries[1..];
      if x.Header? {
        assert ElSeq(entries) == ElSeq(rest);
        SelectedUrlsCount(rest, selected);
      } else {
        assert ElSeq(entries) == [x.el] + ElSeq(rest);
        IncreasingTail(x.el, ElSeq(rest));
        var others := selected - {x.el};
        assert others <= Elems(ElSeq(rest));
        SelectedUrlsCount(rest, others);
        SelectedUrlsIgnores(rest, selected, x.el);
      }
    }
  }

  /**
   * Every selected row sends text to the store, never the empty string: a row whose record has
   * no URL sends "undefined".  Only a group row sends nothing.
   */
  lemma {:induction false} SelectedUrlsNonEmpty(entries: seq<Entry>, selected: set<nat>)
    ensures Some("") !in SelectedUrls(entries, selected)
    ensures forall k :: 0 <= k < |entries| && entries[k].Row? && entries[k].el in selected && entries[k].item.url == "" ==>
                          Some(UndefinedText) in SelectedUrls(entries, selected)
    decreases |entries|
  {
    if entries != [] {
      SelectedUrlsNonEmpty(entries[1..], selected);
      forall k | 0 <= k < |entries| && entries[k].Row? && entries[k].el in selected && entries[k].item.url == ""
        ensures Some(UndefinedText) in SelectedUrls(entries, selected)
      {
        if k > 0 {
          assert entries[1..][k - 1] == entries[k];
        }
      }
    }
  }

  lemma IncreasingTail(v: nat, s: seq<nat>)
    requires Increasing([v] + s)
    ensures Increasing(s) && v !in Elems(s)
  {
    var vs := [v] + s;
    forall i, j | 0 <= i < j < |s| ensures s[i] < s[j] {
      assert vs[i + 1] == s[i] && vs[j + 1] == s[j];
    }
    forall k | 0 <= k < |s| ensures v < s[k] {
      assert vs[0] == v && vs[k + 1] == s[k];
    }
  }

  lemma {:induction false} SelectedUrlsIgnores(entries: seq<Entry>, selected: set<nat>, x: nat)
    requires x !in Elems(ElSeq(entries))
    ensures SelectedUrls(entries, selected) == SelectedUrls(entries, selected - {x})
    decreases |entries|
  {
    if entries != [] {
      assert ElSeq(entries) == (if entries[0].Header? then [] else [entries[0].el]) + ElSeq(entries[1..]);
      SelectedUrlsIgnores(entries[1..], selected, x);
    }
  }

  /**
   * The domain text of a list row: the hostname less its first "www." (the same key the group
   * view uses), or empty when the URL does not parse.  A hostname without "www." is shown as it
   * is, one that starts with it is shown without those four characters, and any other loses
   * exactly four.
   */
  function RowDomain(item: HistoryItem): (d: string)
    ensures item.host.None? ==> d == ""
    ensures item.host.Some? ==> d == DomainOf(item)
    ensures item.host.Some? ==> (d == item.host.value <==> !Contains(item.host.value, WwwPrefix))
    ensures item.host.Some? && Contains(item.host.value, WwwPrefix) ==> |d| == |item.host.value| - 4
    ensures item.host.Some? && |item.host.value| >= 4 && item.host.value[..4] == WwwPrefix ==> d == item.host.value[4..]
  {
    match item.host
    case None => ""
    case Some(h) =>
      RemoveFirstRoundTrip(h, WwwPrefix);
      RemoveFirst(h, WwwPrefix)
  }

  /** Appending a batch numbered from `e0` (above every element present) keeps the numbering increasing. */
  lemma AppendNumbered(front: seq<Entry>, batch: seq<Entry>, e0: nat, n: nat)
    requires Increasing(ElSeq(front)) && forall x :: x in ElSeq(front) ==> x < e0
    requires |ElSeq(batch)| == n && forall i :: 0 <= i < n ==> ElSeq(batch)[i] == e0 + i
    ensures Increasing(ElSeq(front + batch))
    ensures forall x :: x in ElSeq(front + batch) ==> x < e0 + n
    ensures Elems(ElSeq(front)) <= Elems(ElSeq(front + batch))
  {
    ElsAppend(front, batch);
    ConcatIncreasing(ElSeq(front), ElSeq(batch), e0);
    ConcatBelow(ElSeq(front), ElSeq(batch), e0, n);
  }

  lemma ConcatBelow(a: seq<nat>, b: seq<nat>, e0: nat, n: nat)
    requires forall x :: x in a ==> x < e0
    requires |b| == n && forall i :: 0 <= i < n ==> b[i] == e0 + i
    ensures forall x :: x in a + b ==> x < e0 + n
  {
    forall x | x in a + b ensures x < e0 + n {
      if x !in a {
        var k :| 0 <= k < |b| && b[k] == x;
      }
    }
  }

  /** One more record rendered: its heading and row come after what the earlier records produced. */
  lemma LayoutSnoc(t: Option<Label>, items: seq<HistoryItem>, i: nat, today: int, dayOf: int -> int, e: nat)
    requires i < |items|
    ensures var r := LayoutRows(t, items[..i], today, dayOf, e);
      var r' := LayoutRows(t, items[..i + 1], today, dayOf, e);
      && r'.entries == r.entries + Heading(r.tracker, items[i], today, dayOf) + [Row(e + i, items[i])]
      && r'.tracker == Some(LabelOf(items[i], today, dayOf))
  {
    assert items[..i + 1] == items[..i] + [items[i]];
    BatchesCompose(t, items[..i], [items[i]], today, dayOf, e);
    var r := LayoutRows(t, items[..i], today, dayOf, e);
    var last := LayoutRows(r.tracker, [items[i]], today, dayOf, e + i);
    assert [items[i]][1..] == [];
    assert last.entries == Heading(r.tracker, items[i], today, dayOf) + [Row(e + i, items[i])] + [];
  }

  /**
   * The state of the history page.  `entries` are the children of the list container before the
   * scroll sentinel; `sentinelAttached` says whether the sentinel is still in the container (the
   * group view clears the container and leaves it out); elements are numbered in creation order
   * from `nextEl`, and `selected` are those carrying the "selected" class.
   */
  class Feed {
    const loader: HistoryLoader
    var tracker: Option<Label>
    var entries: seq<Entry>
    var sentinelAttached: bool
    var nextEl: nat
    var selected: set<nat>
    var bar: Bar
    var lassoActive: bool
    var groupMode: bool

    /**
     * Element numbers increase in document order and lie below `nextEl`, and only elements in
     * the container carry the class, so `|selected|` is what `querySelectorAll` counts.
     */
    ghost predicate Valid()
      reads this
    {
      && Increasing(ElSeq(entries))
      && (forall x :: x in ElSeq(entries) ==> x < nextEl)
      && selected <= Elems(ElSeq(entries))
    }

    constructor (now: int)
      ensures Valid() && fresh(loader)
      ensures loader.State() == Initial(now)
      ensures tracker == None && entries == [] && sentinelAttached && nextEl == 0
      ensures selected == {} && bar == Bar(false, 0) && !lassoActive && !groupMode
    {
      loader := new HistoryLoader(now);
      tracker := None;
      entries := [];
      sentinelAttached := true;
      nextEl := 0;
      selected := {};
      bar := Bar(false, 0);
      lassoActive := false;
      groupMode := false;
    }

    /** `init`: the tracker is cleared and the first page is requested. */
    method Init() returns (q: Option<StoreQuery>)
      modifies this`tracker, loader
      ensures tracker == None
      ensures (loader.State(), q) == Begin(old(loader.State()), DefaultPageSize)
    {
      tracker := None;
      q := loader.LoadNextBatch(DefaultPageSize);
    }

    /** The scroll sentinel came into view: the next page is requested. */
    method LoadNextBatch() returns (q: Option<StoreQuery>)
      modifies loader
      ensures (loader.State(), q) == Begin(old(loader.State()), DefaultPageSize)
    {
      q := loader.LoadNextBatch(DefaultPageSize);
    }

    /** The store answered the list query `q`: the loader takes the batch and the rows are rendered. */
    method OnListBatch(q: StoreQuery, results: Option<seq<HistoryItem>>, today: int, dayOf: int -> int)
      requires Valid()
      modifies this`tracker, this`entries, this`nextEl, loader
      ensures Valid()
      ensures var (s, batch) := Complete(old(loader.State()), q.maxResults, results);
        var r := LayoutRows(old(tracker), batch, today, dayOf, old(nextEl));
        && loader.State() == s
        && tracker == r.tracker
        && entries == (if sentinelAttached then old(entries) + r.entries else old(entries))
        && nextEl == old(nextEl) + |batch|
    {
      var batch := loader.OnResults(q, results);
      RenderRows(batch, today, dayOf);
    }

    /**
     * `renderRows`: a header before each record whose label differs from the tracker, then its
     * row, the tracker following along; the batch goes in before the sentinel, and when the
     * sentinel is no longer in the container the insertion fails, the tracker having moved anyway.
     */
    method RenderRows(items: seq<HistoryItem>, today: int, dayOf: int -> int)
      requires Valid()
      modifies this`tracker, this`entries, this`nextEl
      ensures Valid()
      ensures var r := LayoutRows(old(tracker), items, today, dayOf, old(nextEl));
        && tracker == r.tracker
        && entries == (if sentinelAttached then old(entries) + r.entries else old(entries))
        && nextEl == old(nextEl) + |items|
    {
      ghost var t0, e0 := tracker, nextEl;
      var fragment := BuildFragment(items, today, dayOf);
      if sentinelAttached {
        RowsNumbered(t0, items, today, dayOf, e0);
        AppendNumbered(entries, fragment, e0, |items|);
        entries := entries + fragment;
      }
    }

    /** The loop of `renderRows`: the batch's headers and rows, built while the tracker and the element counter move on. */
    method BuildFragment(items: seq<HistoryItem>, today: int, dayOf: int -> int) returns (fragment: seq<Entry>)
      modifies this`tracker, this`nextEl
      ensures var r := LayoutRows(old(tracker), items, today, dayOf, old(nextEl));
        fragment == r.entries && tracker == r.tracker && nextEl == old(nextEl) + |items|
    {
      ghost var t0, e0 := tracker, nextEl;
      fragment := [];
      for i := 0 to |items|
        invariant LayoutRows(t0, items[..i], today, dayOf, e0).entries == fragment
        invariant LayoutRows(t0, items[..i], today, dayOf, e0).tracker == tracker
        invariant nextEl == e0 + i
      {
        var item := items[i];
        var header := LabelFor(dayOf(item.lastVisitTime), today);
        LayoutSnoc(t0, items, i, today, dayOf, e0);
        if Some(header) != tracker {
          fragment := fragment + [Header(header)];
          tracker := Some(header);
        }
        fragment := fragment + [Row(nextEl, item)];
        nextEl := nextEl + 1;
      }
      assert items[..|items|] == items;
    }

    /**
     * The search input settled (after its 300 ms debounce): the tracker is cleared, the container
     * emptied down to the sentinel, the loader reset to the query and the first page requested.
     * The selection bar is not refreshed.
     */
    method SearchSettled(query: string, now: int) returns (q: Option<StoreQuery>)
      modifies this`tracker, this`entries, this`sentinelAttached, this`selected, loader
      ensures Valid()
      ensures tracker == None && entries == [] && sentinelAttached && selected == {}
      ensures (loader.State(), q) == Begin(ResetState(old(loader.State()), now, Some(query)), DefaultPageSize)
    {
      tracker := None;
      entries := [];
      sentinelAttached := true;
      selected := {};
      loader.Reset(now, Some(query));
      q := loader.LoadNextBatch(DefaultPageSize);
    }

    /** `updateSelectionState`: the bar is refreshed with the number of selected rows. */
    method UpdateSelectionState()
      modifies this`bar
      ensures bar == Refresh(old(bar), |selected|)
    {
      bar := Refresh(bar, |selected|);
    }

    /** `toggleRowSelection`: the element's class is flipped and the bar refreshed. */
    method ToggleRowSelection(el: nat)
      requires Valid() && el in ElSeq(entries)
      modifies this`selected, this`bar
      ensures Valid()
      ensures selected == Toggled(old(selected), el)
      ensures bar == Refresh(old(bar), |selected|)
    {
      selected := Toggled(selected, el);
      UpdateSelectionState();
    }

    /** `cancelSelection`: every selected element loses the class, one by one, and the bar is refreshed. */
    method CancelSelection()
      requires Valid()
      modifies this`selected, this`bar
      ensures Valid()
      ensures selected == {} && bar == Refresh(old(bar), 0)
    {
      while selected != {}
        invariant selected <= old(selected)
        invariant bar == old(bar)
        decreases |selected|
      {
        var x :| x in selected;
        selected := selected - {x};
      }
      UpdateSelectionState();
    }

    /**
     * A click on the row at `i`: on its checkbox, or anywhere while the lasso is on, it toggles the
     * row; otherwise, without a modifier key, the page navigates to the record's URL.
     */
    method ClickRow(i: nat, onCheckbox: bool, modifierKey: bool) returns (navigate: Option<string>)
      requires Valid() && i < |entries| && entries[i].Row?
      modifies this`selected, this`bar
      ensures Valid()
      ensures onCheckbox || lassoActive ==>
        navigate.None? && selected == Toggled(old(selected), entries[i].el) && bar == Refresh(old(bar), |selected|)
      ensures !onCheckbox && !lassoActive ==>
        navigate == (if modifierKey then None else Some(entries[i].item.url))
        && selected == old(selected) && bar == old(bar)
    {
      ElementOfEntry(entries, i);
      if onCheckbox || lassoActive {
        ToggleRowSelection(entries[i].el);
        return None;
      }
      if !modifierKey {
        return Some(entries[i].item.url);
      }
      return None;
    }

    /** The lasso button: the mode flips; switching it off cancels the selection. */
    method ToggleLasso()
      requires Valid()
      modifies this`lassoActive, this`selected, this`bar
      ensures Valid()
      ensures lassoActive == !old(lassoActive)
      ensures lassoActive ==> selected == old(selected) && bar == old(bar)
      ensures !lassoActive ==> selected == {} && bar == Refresh(old(bar), 0)
    {
      lassoActive := !lassoActive;
      if !lassoActive {
        CancelSelection();
      }
    }

    /**
     * The lasso's select event, while the lasso is on: each of `added` gains the class, then each
     * of `removed` loses it, and the bar is refreshed.
     */
    method OnLassoSelect(added: seq<nat>, removed: seq<nat>)
      requires Valid() && lassoActive
      requires forall x :: x in added ==> x in ElSeq(entries)
      modifies this`selected, this`bar
      ensures Valid()
      ensures selected == AfterSelect(old(selected), added, removed)
      ensures bar == Refresh(old(bar), |selected|)
    {
      MarkAll(added);
      UnmarkAll(removed);
      UpdateSelectionState();
    }

    /** Each element of `xs`, in turn, gains the selected class. */
    method MarkAll(xs: seq<nat>)
      requires Valid()
      requires forall x :: x in xs ==> x in ElSeq(entries)
      modifies this`selected
      ensures Valid()
      ensures selected == old(selected) + Elems(xs)
    {
      ghost var shown, start := Elems(ElSeq(entries)), selected;
      for i := 0 to |xs|
        invariant selected == start + Elems(xs[..i])
        invariant selected <= shown
      {
        assert xs[..i + 1] == xs[..i] + [xs[i]];
        assert xs[i] in shown;
        selected := selected + {xs[i]};
      }
      assert xs[..|xs|] == xs;
    }

    /** Each element of `xs`, in turn, loses the selected class. */
    method UnmarkAll(xs: seq<nat>)
      requires Valid()
      modifies this`selected
      ensures Valid()
      ensures selected == old(selected) - Elems(xs)
    {
      ghost var start := selected;
      for i := 0 to |xs|
        invariant selected == start - Elems(xs[..i])
      {
        assert xs[..i + 1] == xs[..i] + [xs[i]];
        selected := selected - {xs[i]};
      }
      assert xs[..|xs|] == xs;
    }

    /**
     * The delete button: the URL of every selected element in document order (`None` for a group
     * row, which has none).  When there is at least one and the user confirms, a delete request is
     * made per URL; a request without a URL is refused by the history API, which rejects the
     * whole `Promise.all`, so the page reloads only when every selected element had a URL.
     */
    method DeleteSelectedRows(confirmed: bool) returns (calls: seq<Option<string>>, reload: bool)
      requires Valid()
      ensures |SelectedUrls(entries, selected)| == |selected|
      ensures calls == if |selected| > 0 && confirmed then SelectedUrls(entries, selected) else []
      ensures reload <==> |selected| > 0 && confirmed && None !in SelectedUrls(entries, selected)
    {
      var urls := SelectedUrls(entries, selected);
      SelectedUrlsCount(entries, selected);
      if |urls| > 0 && confirmed {
        calls := loader.DeleteItems(Some(urls));
        reload := forall k :: 0 <= k < |calls| ==> calls[k].Some?;
        assert reload <==> None !in calls;
      } else {
        calls, reload := [], false;
      }
    }

    /**
     * The group button.  In the group view it reloads the page.  Otherwise the view is entered: the
     * container is cleared (the sentinel with it) and up to 5000 records are requested through
     * the same loader, from its current cursor.
     */
    method EnterGroupMode() returns (q: Option<StoreQuery>, reload: bool)
      modifies this`groupMode, this`entries, this`sentinelAttached, this`selected, loader
      ensures reload <==> old(groupMode)
      ensures reload ==> (q.None? && groupMode && entries == old(entries) && sentinelAttached == old(sentinelAttached)
        && selected == old(selected) && loader.State() == old(loader.State()))
      ensures !reload ==> (groupMode && entries == [] && !sentinelAttached && selected == {}
        && (loader.State(), q) == Begin(old(loader.State()), GroupPageSize))
    {
      if groupMode {
        return None, true;
      }
      groupMode := true;
      entries := [];
      sentinelAttached := false;
      selected := {};
      q := loader.LoadNextBatch(GroupPageSize);
      reload := false;
    }

    /**
     * The group view's fetch resolved (`q` is the query it issued, `None` when the loader was busy
     * or done and answered with nothing): the records are grouped by domain, the domains ranked by
     * group size, and the container is emptied (the sentinel with it, should a search have put it
     * back meanwhile) and refilled with one row and its "Delete All" button per domain with two
     * records or more.
     */
    method FinishGroupMode(q: Option<StoreQuery>, results: Option<seq<HistoryItem>>)
      modifies this`entries, this`sentinelAttached, this`selected, this`nextEl, loader
      ensures Valid() && !sentinelAttached
      ensures var batch := if q.None? then [] else Complete(old(loader.State()), q.value.maxResults, results).1;
        && (q.Some? ==> loader.State() == Complete(old(loader.State()), q.value.maxResults, results).0)
        && (q.None? ==> loader.State() == old(loader.State()))
        && entries == GroupRows(SortDesc(DomainOrder(batch), BySize(GroupMap(batch))), GroupMap(batch), old(nextEl))
      ensures nextEl == old(nextEl) + |entries| && selected == {}
    {
      var items: seq<HistoryItem> := [];
      if q.Some? {
        items := loader.OnResults(q.value, results);
      }
      var keys, groups := GroupItems(items);
      var ranked := SortDesc(keys, BySize(groups));
      entries := [];
      sentinelAttached := false;
      selected := {};
      ShowGroups(ranked, groups);
    }

    /** The rows of the group view, appended to the emptied container: one per listed domain, in rank order. */
    method ShowGroups(ranked: seq<string>, groups: map<string, seq<HistoryItem>>)
      requires entries == [] && selected == {}
      modifies this`entries, this`nextEl
      ensures Valid()
      ensures entries == GroupRows(ranked, groups, old(nextEl)) && nextEl == old(nextEl) + |entries|
    {
      ghost var e0 := nextEl;
      for i := 0 to |ranked|
        invariant entries == GroupRows(ranked[..i], groups, e0)
        invariant nextEl == e0 + |entries|
      {
        var domain := ranked[i];
        assert ranked[..i + 1][..i] == ranked[..i];
        if domain in groups && |groups[domain]| >= MinGroupSize {
          entries := entries + [GroupRow(nextEl, domain, UrlsOf(groups[domain]))];
          nextEl := nextEl + 1;
        }
      }
      assert ranked[..|ranked|] == ranked;
      GroupRowsNumbered(ranked, groups, e0);
      AppendNumbered([], entries, e0, |entries|);
      assert [] + entries == entries;
    }

    /**
     * The "Delete All" button of the group row at `i`: when confirmed, a delete request for every
     * URL of the group's records, passed as they are.  A record without a URL makes its request
     * throw before it is sent, which rejects the whole `Promise.all`; so the row is removed only
     * when every record has a URL.
     */
    method DeleteGroup(i: nat, confirmed: bool) returns (calls: seq<string>)
      requires Valid() && i < |entries| && entries[i].GroupRow?
      modifies this`entries, this`selected
      ensures Valid()
      ensures confirmed ==> calls == old(entries[i].urls)
      ensures confirmed && "" !in old(entries[i].urls) ==>
        entries == old(entries[..i] + entries[i + 1..]) && selected == old(selected) - {old(entries[i].el)}
      ensures !confirmed ==> calls == []
      ensures !confirmed || "" in old(entries[i].urls) ==> entries == old(entries) && selected == old(selected)
    {
      if !confirmed {
        return [];
      }
      calls := loader.DeleteItems(Some(entries[i].urls));
      if "" in calls {
        return;
      }
      RemoveEntry(entries, i);
      ghost var before := entries;
      selected := selected - {entries[i].el};
      entries := entries[..i] + entries[i + 1..];
      assert entries == before[..i] + before[i + 1..];
      forall x | x in ElSeq(entries) ensures x < nextEl {
        assert x in Elems(ElSeq(entries));
        assert x in Elems(ElSeq(before));
      }
    }
  }

  lemma ElementOfEntry(entries: seq<Entry>, i: nat)
    requires i < |entries| && !entries[i].Header?
    ensures entries[i].el in ElSeq(entries)
  {
    SplitAt(entries, i);
    ElsAppend(entries[..i], [entries[i]] + entries[i + 1..]);
    assert ElSeq([entries[i]] + entries[i + 1..]) == [entries[i].el] + ElSeq(entries[i + 1..]);
  }

  /** Removing a selectable entry removes its element number and keeps the rest in order. */
  lemma RemoveEntry(entries: seq<Entry>, i: nat)
    requires i < |entries| && !entries[i].Header?
    requires Increasing(ElSeq(entries))
    ensures var rest := entries[..i] + entries[i + 1..];
      && Increasing(ElSeq(rest))
      && Elems(ElSeq(rest)) == Elems(ElSeq(entries)) - {entries[i].el}
  {
    var front, back := ElSeq(entries[..i]), ElSeq(entries[i + 1..]);
    SplitAt(entries, i);
    ElsAppend(entries[..i], [entries[i]] + entries[i + 1..]);
    assert ElSeq([entries[i]] + entries[i + 1..]) == [entries[i].el] + back;
    ElsAppend(entries[..i], entries[i + 1..]);
    DropMiddle(front, entries[i].el, back);
  }

  lemma DropMiddle(front: seq<nat>, v: nat, back: seq<nat>)
    requires Increasing(front + ([v] + back))
    ensures Increasing(front + back)
    ensures Elems(front + back) == Elems(front + ([v] + back)) - {v}
  {
    var all := front + ([v] + back);
    var fb := front + back;
    forall i, j | 0 <= i < j < |fb| ensures fb[i] < fb[j] {
      var i' := if i < |front| then i else i + 1;
      var j' := if j < |front| then j else j + 1;
      assert fb[i] == all[i'] && fb[j] == all[j'];
    }
    forall k | 0 <= k < |all| && k != |front| ensures all[k] != v {
      assert all[|front|] == v;
    }
    forall x ensures x in fb <==> x in all && x != v {
      if x in fb {
        var k :| 0 <= k < |fb| && fb[k] == x;
        var k' := if k < |front| then k else k + 1;
        assert all[k'] == x;
      }
      if x in all && x != v {
        var k :| 0 <= k < |all| && all[k] == x;
        assert k != |front|;
        var k' := if k < |front| then k else k - 1;
        assert fb[k'] == x;
      }
    }
  }
}
