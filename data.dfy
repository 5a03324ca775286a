/**
 * The cursor paginator of js/data.js (`HistoryLoader`).  It walks the history store backwards in
 * time: each fetch asks for records older than `cursorTime`, sorts them newest first, moves the
 * cursor one millisecond below the oldest and declares the history finished on an empty or short
 * batch.  The store call is split in two steps: `Begin` issues the query (the code before the
 * callback) and `Complete` is the callback, run with the store's answer.
 */
module Data {
  import opened Wrappers
  import opened History
  import opened Sorting

  /** `loadNextBatch(pageSize = 100)`. */
  const DefaultPageSize := 100

  datatype LoaderState = LoaderState(cursorTime: int, isFinished: bool, isLoading: bool, searchQuery: string)

  /** The arguments of `chrome.history.search`. */
  datatype StoreQuery = StoreQuery(text: string, endTime: int, startTime: int, maxResults: int)

  /** A freshly constructed loader, `now` being `Date.now()`. */
  function Initial(now: int): (s: LoaderState)
    ensures s.cursorTime == now && !s.isFinished && !s.isLoading && s.searchQuery == ""
  {
    LoaderState(now, false, false, "")
  }

  /** `reset(query = '')`; `None` is a call without argument. */
  function ResetState(s: LoaderState, now: int, query: Option<string>): (r: LoaderState)
    ensures r.cursorTime == now && !r.isFinished && !r.isLoading
    ensures r.searchQuery == if query.Some? then query.value else ""
  {
    LoaderState(now, false, false, match query case Some(q) => q case None => "")
  }

  /** The synchronous part of `loadNextBatch`: refuse, or mark the loader busy and query the store. */
  function Begin(s: LoaderState, pageSize: int): (r: (LoaderState, Option<StoreQuery>))
    ensures r.1.None? <==> s.isFinished || s.isLoading
    ensures r.1.None? ==> r.0 == s
    ensures r.1.Some? ==> r.0 == s.(isLoading := true)
    ensures r.1.Some? ==> r.1.value == StoreQuery(s.searchQuery, s.cursorTime, 0, pageSize)
  {
    if s.isFinished || s.isLoading then (s, None)
    else (s.(isLoading := true), Some(StoreQuery(s.searchQuery, s.cursorTime, 0, pageSize)))
  }

  /**
   * The store's callback, run on the loader as it is when the answer arrives, with the page size
   * of the query it answers.  `None` is a missing result.  Returns the new state and the batch.
   */
  function Complete(s: LoaderState, pageSize: int, results: Option<seq<HistoryItem>>): (LoaderState, seq<HistoryItem>)
  {
    var s1 := s.(isLoading := false);
    if results.None? || |results.value| == 0 then (s1.(isFinished := true), [])
    else
      var batch := SortDesc(results.value, VisitTime);
      var last := batch[|batch| - 1];
      var s2 := s1.(cursorTime := last.lastVisitTime - 1);
      (if |batch| < pageSize then s2.(isFinished := true) else s2, batch)
  }

  /** The oldest visit time among the records. */
  function MinVisitTime(rs: seq<HistoryItem>): (m: int)
    requires rs != []
    ensures forall k :: 0 <= k < |rs| ==> m <= rs[k].lastVisitTime
    ensures exists k :: 0 <= k < |rs| && rs[k].lastVisitTime == m
    decreases |rs|
  {
    if |rs| == 1 then rs[0].lastVisitTime
    else
      var m := MinVisitTime(rs[1..]);
      assert forall k :: 1 <= k < |rs| ==> rs[k] == rs[1..][k - 1];
      if rs[0].lastVisitTime <= m then rs[0].lastVisitTime else m
  }

  /** Completing a fetch always releases the loader and never changes its query. */
  lemma CompleteReleases(s: LoaderState, pageSize: int, results: Option<seq<HistoryItem>>)
    ensures !Complete(s, pageSize, results).0.isLoading
    ensures Complete(s, pageSize, results).0.searchQuery == s.searchQuery
  {
  }

  /** An empty or missing answer finishes the loader, yields no records and keeps the cursor. */
  lemma CompleteEmpty(s: LoaderState, pageSize: int, results: Option<seq<HistoryItem>>)
    requires results.None? || results.value == []
    ensures Complete(s, pageSize, results) == (s.(isLoading := false, isFinished := true), [])
  {
  }

  /** After sorting newest first, the last record is the oldest one. */
  lemma {:induction false} SortedLastIsOldest(rs: seq<HistoryItem>)
    requires rs != []
    ensures var batch := SortDesc(rs, VisitTime);
      batch[|batch| - 1].lastVisitTime == MinVisitTime(rs)
  {
    var batch := SortDesc(rs, VisitTime);
    SortDescPermutation(rs, VisitTime);
    SortDescSorted(rs, VisitTime);
    var last := batch[|batch| - 1];
    var m := MinVisitTime(rs);
    var k :| 0 <= k < |rs| && rs[k].lastVisitTime == m;
    assert rs[k] in multiset(batch);
    var j :| 0 <= j < |batch| && batch[j] == rs[k];
    assert VisitTime(batch[j]) >= VisitTime(last);
    assert last in multiset(rs);
    var i :| 0 <= i < |rs| && rs[i] == last;
  }

  /**
   * A non-empty answer is returned as a permutation of the store's records, newest first (records
   * with equal times keep the store's order); the cursor ends one millisecond below the oldest
   * record, so strictly below every returned record; the loader is finished exactly when it was
   * already or the batch is shorter than the page size.
   */
  lemma {:induction false} CompleteBatch(s: LoaderState, pageSize: int, rs: seq<HistoryItem>)
    requires rs != []
    ensures var (s', batch) := Complete(s, pageSize, Some(rs));
      && multiset(batch) == multiset(rs)
      && SortedDesc(batch, VisitTime)
      && (forall t :: Seqs.Filter(batch, HasKey(VisitTime, t)) == Seqs.Filter(rs, HasKey(VisitTime, t)))
      && s'.cursorTime == MinVisitTime(rs) - 1
      && (forall k :: 0 <= k < |batch| ==> batch[k].lastVisitTime > s'.cursorTime)
      && (s'.isFinished <==> s.isFinished || |rs| < pageSize)
      && !s'.isLoading && s'.searchQuery == s.searchQuery
  {
    var batch := SortDesc(rs, VisitTime);
    SortDescPermutation(rs, VisitTime);
    forall t ensures Seqs.Filter(batch, HasKey(VisitTime, t)) == Seqs.Filter(rs, HasKey(VisitTime, t)) {
      SortDescStable(rs, VisitTime, t);
    }
    SortDescSorted(rs, VisitTime);
    SortedLastIsOldest(rs);
    forall k | 0 <= k < |batch| ensures batch[k].lastVisitTime >= MinVisitTime(rs) {
      assert batch[k] in multiset(rs);
    }
  }

  /**
   * When the store honours the exclusive `endTime` of the query (every record is older than the
   * cursor the query was issued with, and the cursor has not moved since), a non-empty batch moves
   * the cursor strictly back in time.
   */
  lemma CursorRecedes(s: LoaderState, pageSize: int, rs: seq<HistoryItem>)
    requires rs != []
    requires forall k :: 0 <= k < |rs| ==> rs[k].lastVisitTime < s.cursorTime
    ensures Complete(s, pageSize, Some(rs)).0.cursorTime < s.cursorTime - 1
  {
    CompleteBatch(s, pageSize, rs);
  }

  /** What happens to the paginator: a call of `loadNextBatch`, or the store answering the pending query. */
  datatype Event = Request(pageSize: int) | Respond(results: Option<seq<HistoryItem>>)

  /** The loader and the store query whose callback has not run yet. */
  datatype Session = Session(loader: LoaderState, pending: Option<StoreQuery>)

  function Step(ss: Session, e: Event): Session
  {
    match e
    case Request(n) =>
      var (s', q) := Begin(ss.loader, n);
      if q.Some? then Session(s', q) else ss
    case Respond(res) =>
      if ss.pending.None? then ss
      else Session(Complete(ss.loader, ss.pending.value.maxResults, res).0, None)
  }

  /** The events applied in order, without any `reset`. */
  function Run(ss: Session, evs: seq<Event>): Session
    decreases |evs|
  {
    if evs == [] then ss else Run(Step(ss, evs[0]), evs[1..])
  }

  /**
   * A query is outstanding exactly while the loader is busy, and it was issued with the current
   * cursor and query text.
   */
  ghost predicate Consistent(ss: Session)
  {
    (ss.pending.Some? <==> ss.loader.isLoading) &&
    (ss.pending.Some? ==> ss.pending.value.endTime == ss.loader.cursorTime && ss.pending.value.text == ss.loader.searchQuery)
  }

  /** Every answer in the trace holds only records older than the `endTime` of the query it answers. */
  ghost predicate StoreHonours(ss: Session, evs: seq<Event>)
    decreases |evs|
  {
    evs == [] ||
    ((evs[0].Respond? && ss.pending.Some? && evs[0].results.Some? ==>
        forall k :: 0 <= k < |evs[0].results.value| ==> evs[0].results.value[k].lastVisitTime < ss.pending.value.endTime) &&
     StoreHonours(Step(ss, evs[0]), evs[1..]))
  }

  /** A request while a query is outstanding issues nothing and changes nothing. */
  lemma OneQueryInFlight(ss: Session, n: int)
    requires Consistent(ss) && ss.pending.Some?
    ensures Step(ss, Request(n)) == ss
  {
  }

  lemma StepConsistent(ss: Session, e: Event)
    requires Consistent(ss)
    ensures Consistent(Step(ss, e))
  {
  }

  /**
   * Without a reset, and with a store that honours `endTime`, at most one query is ever
   * outstanding and the cursor never moves forward in time.
   */
  lemma {:induction false} CursorNeverRises(ss: Session, evs: seq<Event>)
    requires Consistent(ss) && StoreHonours(ss, evs)
    ensures Consistent(Run(ss, evs))
    ensures Run(ss, evs).loader.cursorTime <= ss.loader.cursorTime
    decreases |evs|
  {
    if evs != [] {
      var next := Step(ss, evs[0]);
      StepConsistent(ss, evs[0]);
      if evs[0].Respond? && ss.pending.Some? && evs[0].results.Some? && evs[0].results.value != [] {
        CursorRecedes(ss.loader, ss.pending.value.maxResults, evs[0].results.value);
      }
      CursorNeverRises(next, evs[1..]);
    }
  }

  /** Once finished, with nothing outstanding, the loader ignores every further event. */
  lemma {:induction false} FinishedIsQuiet(ss: Session, evs: seq<Event>)
    requires ss.loader.isFinished && ss.pending.None?
    ensures Run(ss, evs) == ss
    decreases |evs|
  {
    if evs != [] {
      assert Step(ss, evs[0]) == ss;
      FinishedIsQuiet(ss, evs[1..]);
    }
  }

  /**
   * `reset` releases the loader while the old query is still outstanding, and nothing tells the
   * old callback apart: its records are returned for the new session and move the new session's
   * cursor below them, and a second query can be issued while the first is unanswered.
   */
  lemma StaleAnswerIsApplied(s: LoaderState, n: int, now: int, q: string, rs: seq<HistoryItem>)
    requires !s.isFinished && !s.isLoading && rs != []
    ensures var (s1, old_query) := Begin(s, n);
      var s2 := ResetState(s1, now, Some(q));
      var (s3, batch) := Complete(s2, old_query.value.maxResults, Some(rs));
      && old_query.Some?
      && Begin(s2, n).1.Some?
      && multiset(batch) == multiset(rs)
      && s3.searchQuery == q
      && s3.cursorTime == MinVisitTime(rs) - 1
  {
    var (s1, old_query) := Begin(s, n);
    var s2 := ResetState(s1, now, Some(q));
    CompleteBatch(s2, n, rs);
  }

  class HistoryLoader {
    var cursorTime: int
    var isFinished: bool
    var isLoading: bool
    var searchQuery: string

    ghost function State(): LoaderState
      reads this
    {
      LoaderState(cursorTime, isFinished, isLoading, searchQuery)
    }

    constructor (now: int)
      ensures State() == Initial(now)
    {
      cursorTime := now;
      isFinished := false;
      isLoading := false;
      searchQuery := "";
    }

    method Reset(now: int, query: Option<string>)
      modifies this
      ensures State() == ResetState(old(State()), now, query)
    {
      cursorTime := now;
      isFinished := false;
      searchQuery := match query case Some(q) => q case None => "";
      isLoading := false;
    }

    /** `loadNextBatch` up to the store call; `None` is the immediate `[]` of a refused call. */
    method LoadNextBatch(pageSize: int) returns (query: Option<StoreQuery>)
      modifies this
      ensures (State(), query) == Begin(old(State()), pageSize)
    {
      if isFinished || isLoading {
        return None;
      }
      isLoading := true;
      query := Some(StoreQuery(searchQuery, cursorTime, 0, pageSize));
    }

    /**
     * The callback of the store query `query`; `results` is what the store answered (`None` for
     * no answer), sorted newest first when non-empty.
     */
    method OnResults(query: StoreQuery, results: Option<seq<HistoryItem>>) returns (batch: seq<HistoryItem>)
      modifies this
      ensures (State(), batch) == Complete(old(State()), query.maxResults, results)
    {
      isLoading := false;
      if results.None? || |results.value| == 0 {
        isFinished := true;
        return [];
      }
      var sorted := SortDesc(results.value, VisitTime);
      var lastItem := sorted[|sorted| - 1];
      cursorTime := lastItem.lastVisitTime - 1;
      if |sorted| < query.maxResults {
        isFinished := true;
      }
      batch := sorted;
    }

    /** `deleteItems(urls)`: the `deleteUrl` calls it issues, one per element, in order. */
    method DeleteItems<U>(urls: Option<seq<U>>) returns (calls: seq<U>)
      ensures urls.None? ==> calls == []
      ensures urls.Some? ==> |calls| == |urls.value| && forall i :: 0 <= i < |calls| ==> calls[i] == urls.value[i]
    {
      if urls.None? || |urls.value| == 0 {
        return [];
      }
      calls := [];
      for i := 0 to |urls.value|
        invariant calls == urls.value[..i]
      {
        calls := calls + [urls.value[i]];
      }
    }
  }
}
