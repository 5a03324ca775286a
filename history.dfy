/**
 * The visit record the history store hands out, and the string operations the views apply to
 * it: substring search (`String.prototype.includes`), lower-casing (`toLowerCase`) and the
 * domain key `hostname.replace('www.', '')`.
 */
module History {
  import opened Wrappers

  /**
   * A history record.  An empty `title` or `url` stands for a missing one (both are falsy in the
   * source's tests).  `host` is what URL parsing makes of `url`: its hostname, or `None` when
   * `new URL(url)` throws.
   */
  datatype HistoryItem = HistoryItem(id: string, url: string, title: string, lastVisitTime: int, host: Option<string>)

  /** What `String(undefined)` gives: the text an element's `data-url` holds when its record has no URL. */
  const UndefinedText := "undefined"

  /**
   * The `data-url` of an element made for the record (a card, or a list row): the record's URL,
   * or the text "undefined" when it has none, since `dataset` stores every value as text.
   */
  function DataUrl(item: HistoryItem): (u: string)
    ensures u != ""
    ensures item.url != "" ==> u == item.url
  {
    if item.url == "" then UndefinedText else item.url
  }

  /** The sort key of the loader: time of the last visit, in milliseconds. */
  function VisitTime(x: HistoryItem): int
  {
    x.lastVisitTime
  }

  ghost predicate OccursAt(s: string, pat: string, i: int)
  {
    0 <= i && i + |pat| <= |s| && s[i..i + |pat|] == pat
  }

  /** Position of the first occurrence of `pat` in `s`. */
  function IndexOf(s: string, pat: string): (r: Option<nat>)
    ensures r.Some? ==> OccursAt(s, pat, r.value)
    ensures r.Some? ==> forall j :: 0 <= j < r.value ==> !OccursAt(s, pat, j)
    ensures r.None? ==> forall j :: !OccursAt(s, pat, j)
    decreases |s|
  {
    if |s| < |pat| then None
    else if s[..|pat|] == pat then Some(0)
    else match IndexOf(s[1..], pat)
      case None =>
        assert forall j :: OccursAt(s, pat, j) ==> j == 0 || OccursAt(s[1..], pat, j - 1) by {
          forall j | OccursAt(s, pat, j) && j > 0 ensures OccursAt(s[1..], pat, j - 1) {
            OccursShift(s, pat, j);
          }
        }
        None
      case Some(i) =>
        OccursShift(s, pat, i + 1);
        assert forall j :: 0 < j < i + 1 && OccursAt(s, pat, j) ==> OccursAt(s[1..], pat, j - 1) by {
          forall j | 0 < j < i + 1 && OccursAt(s, pat, j) ensures OccursAt(s[1..], pat, j - 1) {
            OccursShift(s, pat, j);
          }
        }
        Some(i + 1)
  }

  /** An occurrence at `j > 0` is an occurrence at `j - 1` of the string less its first character. */
  lemma OccursShift(s: string, pat: string, j: int)
    requires 0 < j && |s| > 0
    ensures OccursAt(s, pat, j) <==> OccursAt(s[1..], pat, j - 1)
  {
    if j + |pat| <= |s| {
      assert s[1..][j - 1..j - 1 + |pat|] == s[j..j + |pat|];
    }
  }

  /** `s.includes(pat)`. */
  predicate Contains(s: string, pat: string)
  {
    IndexOf(s, pat).Some?
  }

  lemma ContainsIffOccurs(s: string, pat: string)
    ensures Contains(s, pat) <==> exists j :: OccursAt(s, pat, j)
  {
  }

  lemma ContainsEmpty(s: string)
    ensures Contains(s, "")
  {
    assert OccursAt(s, "", 0);
  }

  /** Lower-casing of one character, for the ASCII letters. */
  function LowerChar(c: char): (d: char)
    ensures 'A' <= c <= 'Z' ==> 'a' <= d <= 'z' && d as int - c as int == 32
    ensures !('A' <= c <= 'Z') ==> d == c
  {
    if 'A' <= c <= 'Z' then (c as int + 32) as char else c
  }

  /** `s.toLowerCase()`, for ASCII text. */
  function Lower(s: string): (r: string)
    ensures |r| == |s|
    ensures forall i :: 0 <= i < |s| ==> r[i] == LowerChar(s[i])
  {
    seq(|s|, i requires 0 <= i < |s| => LowerChar(s[i]))
  }

  const WwwPrefix := "www."
  const UnknownDomain := "unknown"

  /** `s.replace(pat, '')` with a string pattern: only the first occurrence is removed. */
  function RemoveFirst(s: string, pat: string): (r: string)
  {
    match IndexOf(s, pat)
    case None => s
    case Some(i) => s[..i] + s[i + |pat|..]
  }

  /**
   * Removing the first occurrence is undone by putting `pat` back where it was: the result is
   * `s` exactly when `pat` does not occur, and otherwise `s` with `|pat|` characters fewer.
   */
  lemma RemoveFirstRoundTrip(s: string, pat: string)
    ensures IndexOf(s, pat).None? ==> RemoveFirst(s, pat) == s
    ensures IndexOf(s, pat).Some? ==>
      var i := IndexOf(s, pat).value;
      |RemoveFirst(s, pat)| == |s| - |pat| &&
      RemoveFirst(s, pat)[..i] + pat + RemoveFirst(s, pat)[i..] == s &&
      forall j :: 0 <= j < i ==> !OccursAt(s, pat, j)
  {
    if IndexOf(s, pat).Some? {
      var i := IndexOf(s, pat).value;
      var r := RemoveFirst(s, pat);
      assert r[..i] == s[..i];
      assert r[i..] == s[i + |pat|..];
      assert s == s[..i] + s[i..i + |pat|] + s[i + |pat|..];
    }
  }

  /**
   * The domain under which a record is grouped and shown: the hostname with its first "www."
   * removed, wherever in the hostname it stands, or "unknown" when the URL does not parse.
   */
  function DomainOf(x: HistoryItem): string
  {
    match x.host
    case None => UnknownDomain
    case Some(h) => RemoveFirst(h, WwwPrefix)
  }

  /**
   * The "www." need not lead the hostname: in `p + "www." + q`, where no "www." starts inside
   * `p`, that "www." is the first occurrence and is the one removed (so "news.www.example.com"
   * becomes "news.example.com", and "www.example.com" becomes "example.com").
   */
  lemma {:induction false} WwwRemovedWherever(p: string, q: string)
    requires forall j :: 0 <= j < |p| ==> !OccursAt(p + WwwPrefix + q, WwwPrefix, j)
    ensures RemoveFirst(p + WwwPrefix + q, WwwPrefix) == p + q
  {
    var s := p + WwwPrefix + q;
    assert |WwwPrefix| == 4 && s[|p|..|p| + 4] == WwwPrefix;
    assert OccursAt(s, WwwPrefix, |p|);
    assert IndexOf(s, WwwPrefix) == Some(|p|);
    assert s[..|p|] == p;
    assert s[|p| + 4..] == q;
  }

  /** The example above: a "www." in the middle of the hostname is the one removed. */
  lemma WwwInTheMiddle()
    ensures RemoveFirst("news." + WwwPrefix + "example.com", WwwPrefix) == "news." + "example.com"
  {
    var p, q := "news.", "example.com";
    var s := p + WwwPrefix + q;
    forall j | 0 <= j < |p| ensures !OccursAt(s, WwwPrefix, j) {
      var k := if j == 2 then 3 else j;
      assert s[k] == p[k] && p[k] != 'w';
      assert s[j..j + 4][k - j] == s[k];
    }
    WwwRemovedWherever(p, q);
  }
}
