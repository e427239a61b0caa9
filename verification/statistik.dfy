/** The figures of the admin statistics panel
    (`components/admin/Statistik.jsx`): page labels, the relative time of
    the last visit, the view total, the number of distinct visitors, the
    top languages and the lengths of the shown lists. */
module Statistik {
  import opened Common
  import opened TrackRoute

  // ---- formatPathLabel ----

  /** `formatPathLabel`: '-' for no path, 'landing-page' for the root, a
      relative path as it is, 'layanan-<segment>' for a one-segment path
      and the segments joined by '/' otherwise. */
  function PathLabel(path: Option<string>): string
  {
    if path.None? || path.value == [] then "-"
    else
      var trimmed := Trim(path.value);
      if trimmed == [] || trimmed == "/" then "landing-page"
      else if trimmed[0] != '/' then trimmed
      else
        var segments := NonEmpty(Split(trimmed, '/'));
        if |segments| == 1 then "layanan-" + segments[0] else Join(segments, "/")
  }

  predicate Segment(s: string)
  {
    s != [] && '/' !in s && !IsSpace(s[0]) && !IsSpace(s[|s| - 1])
  }

  /** `trimmed.split("/").filter(Boolean)`. */
  function Segments(trimmed: string): seq<string>
  {
    NonEmpty(Split(trimmed, '/'))
  }

  /** The segments of '/' followed by joined segments are those segments. */
  lemma {:induction false} SegmentsOfJoin(segs: seq<string>)
    requires segs != [] && forall k | 0 <= k < |segs| :: Segment(segs[k])
    ensures Segments("/" + Join(segs, "/")) == segs
  {
    var parts := [""] + segs;
    assert Join(parts, "/") == "/" + Join(segs, "/");
    SplitJoin(parts, '/');
    assert NonEmpty(parts) == NonEmpty(segs);
  }

  /** A trailing '/' adds no segment. */
  lemma {:induction false} SegmentsTrailing(seg: string)
    requires Segment(seg)
    ensures Segments("/" + seg + "/") == [seg]
  {
    var parts := ["", seg, ""];
    assert Join([seg, ""], "/") == seg + "/" + "";
    assert Join(parts, "/") == "/" + seg + "/";
    SplitJoin(parts, '/');
    assert NonEmpty([""]) == [];
    assert NonEmpty(parts) == [seg];
  }

  /** An absolute path that is its own trim, and not the root, is labelled
      from its segments. */
  lemma {:induction false} PathLabelOfAbsolute(p: string)
    requires |p| > 1 && p[0] == '/' && !IsSpace(p[|p| - 1])
    ensures PathLabel(Some(p)) == if |Segments(p)| == 1 then "layanan-" + Segments(p)[0] else Join(Segments(p), "/")
  {
    TrimOfTrimmed(p);
  }

  /** An absolute path of two or more segments is labelled by its
      segments without the leading '/'. */
  lemma {:induction false} PathLabelOfSegments(segs: seq<string>)
    requires |segs| > 1 && forall k | 0 <= k < |segs| :: Segment(segs[k])
    ensures PathLabel(Some("/" + Join(segs, "/"))) == Join(segs, "/")
  {
    JoinEdges(segs);
    SegmentsOfJoin(segs);
    PathLabelOfAbsolute("/" + Join(segs, "/"));
  }

  /** A one-segment path, with or without a trailing '/', is labelled
      'layanan-' and the segment. */
  lemma {:induction false} PathLabelOfOneSegment(seg: string, trailing: bool)
    requires Segment(seg)
    ensures PathLabel(Some("/" + seg + (if trailing then "/" else ""))) == "layanan-" + seg
  {
    if trailing {
      SegmentsTrailing(seg);
      PathLabelOfAbsolute("/" + seg + "/");
    } else {
      assert Join([seg], "/") == seg;
      SegmentsOfJoin([seg]);
      PathLabelOfAbsolute("/" + seg);
    }
  }

  /** A join of segments ends the way its last segment does. */
  lemma {:induction false} JoinEdges(segs: seq<string>)
    requires segs != [] && forall k | 0 <= k < |segs| :: Segment(segs[k])
    ensures var j := Join(segs, "/"); j != [] && !IsSpace(j[|j| - 1])
    decreases |segs|
  {
    if |segs| > 1 {
      JoinEdges(segs[1..]);
    } else {
      assert Segment(segs[0]);
    }
  }

  /** The root and empty paths. */
  lemma PathLabelEdges(path: string)
    ensures PathLabel(None) == "-" && PathLabel(Some([])) == "-"
    ensures path != [] && (IsBlank(path) || Trim(path) == "/") ==> PathLabel(Some(path)) == "landing-page"
    ensures path != [] && !IsBlank(path) && Trim(path)[0] != '/' ==> PathLabel(Some(path)) == Trim(path)
  {
  }

  // ---- formatTimeAgo ----

  /** What `formatTimeAgo` says of a time `diffMs` milliseconds ago. */
  datatype Ago =
    | Soon
    | JustNow
    | Minutes(n: nat)
    | Hours(n: nat)
    | Days(n: nat)
    | Weeks(n: nat)
    | Months(n: nat)
    | Years(n: nat)

  const Minute: nat := 60000
  const Hour: nat := 60 * Minute
  const Day: nat := 24 * Hour

  /** The unit bands as the component writes them, each count derived from
      the previous one by flooring. */
  function TimeAgoAsWritten(diffMs: int): Ago
  {
    if diffMs < 0 then Soon
    else
      var minutes := diffMs / 60000;
      if minutes < 1 then JustNow
      else if minutes < 60 then Minutes(minutes)
      else
        var hours := minutes / 60;
        if hours < 24 then Hours(hours)
        else
          var days := hours / 24;
          if days < 7 then Days(days)
          else if days / 7 < 5 then Weeks(days / 7)
          else if days / 30 < 12 then Months(days / 30)
          else Years(days / 365)
  }

  /** A visit 360 to 364 days ago is reported as "0 tahun lalu": twelve
      months of 30 days end before the first year of 365 days does. */
  lemma ZeroYearsAgo()
    ensures TimeAgoAsWritten(360 * Day) == Years(0)
    ensures TimeAgoAsWritten(365 * Day - 1) == Years(0)
  {
  }

  /** `formatTimeAgo` with the year count kept at one or more. */
  function TimeAgo(diffMs: int): Ago
  {
    var a := TimeAgoAsWritten(diffMs);
    if a == Years(0) then Years(1) else a
  }

  /** The bands, in milliseconds: each label is chosen by the first unit
      whose bound is not reached, and shows the whole number of units. */
  lemma {:induction false} TimeAgoBands(diffMs: int)
    ensures TimeAgo(diffMs) == Soon <==> diffMs < 0
    ensures TimeAgo(diffMs) == JustNow <==> 0 <= diffMs < Minute
    ensures TimeAgo(diffMs).Minutes? <==> Minute <= diffMs < Hour
    ensures TimeAgo(diffMs).Hours? <==> Hour <= diffMs < Day
    ensures TimeAgo(diffMs).Days? <==> Day <= diffMs < 7 * Day
    ensures TimeAgo(diffMs).Weeks? <==> 7 * Day <= diffMs < 35 * Day
    ensures TimeAgo(diffMs).Months? <==> 35 * Day <= diffMs < 360 * Day
    ensures TimeAgo(diffMs).Years? <==> 360 * Day <= diffMs
    ensures TimeAgo(diffMs).Minutes? ==> TimeAgo(diffMs).n == diffMs / Minute
    ensures TimeAgo(diffMs).Hours? ==> TimeAgo(diffMs).n == diffMs / Hour
    ensures TimeAgo(diffMs).Days? || TimeAgo(diffMs).Weeks? || TimeAgo(diffMs).Months? ==>
      TimeAgo(diffMs).n == diffMs / Day / (if TimeAgo(diffMs).Days? then 1 else if TimeAgo(diffMs).Weeks? then 7 else 30)
  {
    if diffMs >= 0 {
      assert diffMs / 60000 / 60 == diffMs / 3600000;
      assert diffMs / 3600000 / 24 == diffMs / 86400000;
    }
  }

  /** Every count the corrected label shows is at least one. */
  lemma {:induction false} TimeAgoCountPositive(diffMs: int)
    ensures var a := TimeAgo(diffMs); !(a.Soon? || a.JustNow?) ==> a.n >= 1
  {
  }

  function Label(a: Ago): string
  {
    match a
    case Soon => "Sebentar lagi"
    case JustNow => "Baru saja"
    case Minutes(n) => NatToString(n) + " menit lalu"
    case Hours(n) => NatToString(n) + " jam lalu"
    case Days(n) => NatToString(n) + " hari lalu"
    case Weeks(n) => NatToString(n) + " minggu lalu"
    case Months(n) => NatToString(n) + " bulan lalu"
    case Years(n) => NatToString(n) + " tahun lalu"
  }

  // ---- totalViews ----

  /** `Number(item?.views) || 0`. */
  function ViewsOf(v: JsNumber): real
  {
    if v.Finite? then v.value else 0.0
  }

  /** `topPages.reduce(...)`. */
  function TotalViews(views: seq<JsNumber>): real
  {
    if views == [] then 0.0 else TotalViews(views[..|views| - 1]) + ViewsOf(views[|views| - 1])
  }

  /** The total of two lists is the sum of their totals; a value that is
      not a number adds nothing. */
  lemma {:induction false} TotalViewsAppend(xs: seq<JsNumber>, ys: seq<JsNumber>)
    ensures TotalViews(xs + ys) == TotalViews(xs) + TotalViews(ys)
    decreases |ys|
  {
    if ys != [] {
      var init := ys[..|ys| - 1];
      var last := ys[|ys| - 1];
      assert xs + ys == (xs + init) + [last];
      assert (xs + ys)[..|xs + ys| - 1] == xs + init && (xs + ys)[|xs + ys| - 1] == last;
      TotalViewsAppend(xs, init);
      assert TotalViews(xs + ys) == TotalViews(xs + init) + ViewsOf(last);
    } else {
      assert xs + ys == xs;
    }
  }

  /** With counts that are never negative, the total is at least every
      single count. */
  lemma {:induction false} TotalViewsBound(views: seq<JsNumber>, k: nat)
    requires forall i | 0 <= i < |views| :: ViewsOf(views[i]) >= 0.0
    requires k < |views|
    ensures ViewsOf(views[k]) <= TotalViews(views)
    decreases |views|
  {
    var init := views[..|views| - 1];
    if k < |init| {
      TotalViewsBound(init, k);
      TotalViewsNonNegative(views[k + 1..]);
      TotalViewsAppend(init, [views[|views| - 1]]);
      assert init + [views[|views| - 1]] == views;
    } else {
      TotalViewsNonNegative(init);
    }
  }

  lemma {:induction false} TotalViewsNonNegative(views: seq<JsNumber>)
    requires forall i | 0 <= i < |views| :: ViewsOf(views[i]) >= 0.0
    ensures TotalViews(views) >= 0.0
    decreases |views|
  {
    if views != [] {
      TotalViewsNonNegative(views[..|views| - 1]);
    }
  }

  // ---- uniqueSources ----

  /** The visitor key of a row: its hostname, else its address. */
  function SourceKey(v: PageView): Option<string>
  {
    if Given(v.hostname) then v.hostname else if Given(v.ip) then v.ip else None
  }

  function Sources(rows: seq<PageView>): (r: set<string>)
    ensures forall k :: k in r <==> exists i | 0 <= i < |rows| :: SourceKey(rows[i]) == Some(k)
  {
    if rows == [] then {}
    else
      var init := rows[..|rows| - 1];
      var key := SourceKey(rows[|rows| - 1]);
      assert forall i | 0 <= i < |init| :: init[i] == rows[i];
      Sources(init) + (if key.Some? then {key.value} else {})
  }

  /** There are never more sources than rows. */
  lemma {:induction false} SourcesBound(rows: seq<PageView>)
    ensures |Sources(rows)| <= |rows|
    decreases |rows|
  {
    if rows != [] {
      SourcesBound(rows[..|rows| - 1]);
    }
  }

  /** `uniqueSources`: the loop over the shown rows into a set. */
  method UniqueSources(rows: seq<PageView>) returns (count: nat)
    ensures count == |Sources(rows)| && count <= |rows|
  {
    var seen: set<string> := {};
    var i := 0;
    while i < |rows|
      invariant 0 <= i <= |rows|
      invariant seen == Sources(rows[..i])
    {
      var key := SourceKey(rows[i]);
      assert rows[..i + 1][..i] == rows[..i];
      if key.Some? {
        seen := seen + {key.value};
      }
      i := i + 1;
    }
    assert rows[..i] == rows;
    SourcesBound(rows);
    count := |seen|;
  }

  // ---- topLanguages ----

  /** `item?.lang?.trim()`, lower-cased; a blank language counts for none. */
  function LangKey(v: PageView): Option<string>
  {
    if v.lang.Some? && Trim(v.lang.value) != [] then Some(Lower(Trim(v.lang.value))) else None
  }

  datatype LangCount = LangCount(lang: string, count: nat)

  /** Counting one more occurrence of `k`, keeping first-seen order. */
  function Bump(cs: seq<LangCount>, k: string): (r: seq<LangCount>)
    ensures |cs| <= |r| <= |cs| + 1
  {
    if cs == [] then [LangCount(k, 1)]
    else if cs[0].lang == k then [LangCount(k, cs[0].count + 1)] + cs[1..]
    else [cs[0]] + Bump(cs[1..], k)
  }

  function Tally(keys: seq<string>): seq<LangCount>
  {
    if keys == [] then [] else Bump(Tally(keys[..|keys| - 1]), keys[|keys| - 1])
  }

  /** The count recorded for `k`, or 0. */
  function CountOf(cs: seq<LangCount>, k: string): nat
  {
    if cs == [] then 0 else if cs[0].lang == k then cs[0].count else CountOf(cs[1..], k)
  }

  /** Some entry counts `x`. */
  predicate HasLang(cs: seq<LangCount>, x: string)
  {
    cs != [] && (cs[0].lang == x || HasLang(cs[1..], x))
  }

  /** No language is counted in two entries. */
  predicate DistinctLangs(cs: seq<LangCount>)
  {
    cs == [] || (!HasLang(cs[1..], cs[0].lang) && DistinctLangs(cs[1..]))
  }

  lemma {:induction false} BumpCount(cs: seq<LangCount>, k: string, x: string)
    ensures CountOf(Bump(cs, k), x) == CountOf(cs, x) + (if x == k then 1 else 0)
  {
    if cs != [] && cs[0].lang != k {
      BumpCount(cs[1..], k, x);
    }
  }

  /** Each language's count is the number of times it occurs. */
  lemma {:induction false} TallyCounts(keys: seq<string>, x: string)
    ensures CountOf(Tally(keys), x) == multiset(keys)[x]
    decreases |keys|
  {
    if keys != [] {
      var init := keys[..|keys| - 1];
      TallyCounts(init, x);
      BumpCount(Tally(init), keys[|keys| - 1], x);
      assert keys == init + [keys[|keys| - 1]];
    }
  }

  lemma {:induction false} BumpLangs(cs: seq<LangCount>, k: string, x: string)
    ensures HasLang(Bump(cs, k), x) <==> x == k || HasLang(cs, x)
  {
    if cs != [] && cs[0].lang != k {
      BumpLangs(cs[1..], k, x);
    }
  }

  lemma {:induction false} BumpDistinct(cs: seq<LangCount>, k: string)
    requires DistinctLangs(cs)
    ensures DistinctLangs(Bump(cs, k))
  {
    if cs != [] {
      if cs[0].lang != k {
        BumpDistinct(cs[1..], k);
        BumpLangs(cs[1..], k, cs[0].lang);
      } else {
        assert Bump(cs, k)[1..] == cs[1..];
      }
    }
  }

  /** No language is counted in two entries. */
  lemma {:induction false} TallyDistinct(keys: seq<string>)
    ensures DistinctLangs(Tally(keys))
    decreases |keys|
  {
    if keys != [] {
      TallyDistinct(keys[..|keys| - 1]);
      BumpDistinct(Tally(keys[..|keys| - 1]), keys[|keys| - 1]);
    }
  }

  function LangKeys(rows: seq<PageView>): seq<string>
  {
    if rows == [] then []
    else
      var k := LangKey(rows[|rows| - 1]);
      LangKeys(rows[..|rows| - 1]) + (if k.Some? then [k.value] else [])
  }

  /** The `forEach` over the shown rows into the language map. */
  method CountLanguages(rows: seq<PageView>) returns (counts: seq<LangCount>)
    ensures counts == Tally(LangKeys(rows))
  {
    counts := [];
    var i := 0;
    while i < |rows|
      invariant 0 <= i <= |rows|
      invariant counts == Tally(LangKeys(rows[..i]))
    {
      ghost var next := rows[..i + 1];
      assert next[..i] == rows[..i] && next[i] == rows[i];
      var k := LangKey(rows[i]);
      if k.Some? {
        assert LangKeys(next) == LangKeys(rows[..i]) + [k.value];
        TallySnoc(LangKeys(rows[..i]), k.value);
        counts := Bump(counts, k.value);
      } else {
        assert LangKeys(next) == LangKeys(rows[..i]);
      }
      assert counts == Tally(LangKeys(next));
      i := i + 1;
      assert next == rows[..i];
    }
    assert rows[..i] == rows;
  }

  lemma TallySnoc(keys: seq<string>, k: string)
    ensures Tally(keys + [k]) == Bump(Tally(keys), k)
  {
    assert (keys + [k])[..|keys|] == keys;
  }

  /** `sort((a, b) => b[1] - a[1])`, stable: each entry goes after every
      entry whose count is not smaller. */
  function InsertDesc(sorted: seq<LangCount>, c: LangCount): (r: seq<LangCount>)
    ensures multiset(r) == multiset(sorted) + multiset{c}
    ensures |r| == |sorted| + 1
  {
    if sorted == [] then [c]
    else if sorted[|sorted| - 1].count >= c.count then sorted + [c]
    else
      var r := InsertDesc(sorted[..|sorted| - 1], c) + [sorted[|sorted| - 1]];
      assert sorted == sorted[..|sorted| - 1] + [sorted[|sorted| - 1]];
      r
  }

  function SortDesc(cs: seq<LangCount>): (r: seq<LangCount>)
    ensures multiset(r) == multiset(cs) && |r| == |cs|
  {
    if cs == [] then []
    else
      assert cs == cs[..|cs| - 1] + [cs[|cs| - 1]];
      InsertDesc(SortDesc(cs[..|cs| - 1]), cs[|cs| - 1])
  }

  predicate NonIncreasing(cs: seq<LangCount>)
  {
    forall i, j | 0 <= i < j < |cs| :: cs[i].count >= cs[j].count
  }

  /** Inserting into counts that are all at least `m` a count of at least
      `m` keeps every count at least `m`. */
  lemma {:induction false} InsertDescAbove(sorted: seq<LangCount>, c: LangCount, m: int)
    requires forall i | 0 <= i < |sorted| :: sorted[i].count >= m
    requires c.count >= m
    ensures forall i | 0 <= i < |InsertDesc(sorted, c)| :: InsertDesc(sorted, c)[i].count >= m
    decreases |sorted|
  {
    if sorted != [] && sorted[|sorted| - 1].count < c.count {
      var init := sorted[..|sorted| - 1];
      InsertDescAbove(init, c, m);
      assert InsertDesc(sorted, c) == InsertDesc(init, c) + [sorted[|sorted| - 1]];
    }
  }

  lemma {:induction false} InsertDescSorted(sorted: seq<LangCount>, c: LangCount)
    requires NonIncreasing(sorted)
    ensures NonIncreasing(InsertDesc(sorted, c))
    decreases |sorted|
  {
    if sorted != [] && sorted[|sorted| - 1].count < c.count {
      var init := sorted[..|sorted| - 1];
      var last := sorted[|sorted| - 1];
      InsertDescSorted(init, c);
      var t := InsertDesc(init, c);
      InsertDescAbove(init, c, last.count);
      var r := t + [last];
      assert InsertDesc(sorted, c) == r;
      forall i, j | 0 <= i < j < |r|
        ensures r[i].count >= r[j].count
      {
        assert r[i] == t[i];
        if j < |t| {
          assert r[j] == t[j];
        }
      }
    }
  }

  /** Sorting orders by count, largest first. */
  lemma {:induction false} SortDescSorted(cs: seq<LangCount>)
    ensures NonIncreasing(SortDesc(cs))
    decreases |cs|
  {
    if cs != [] {
      SortDescSorted(cs[..|cs| - 1]);
      InsertDescSorted(SortDesc(cs[..|cs| - 1]), cs[|cs| - 1]);
    }
  }

  /** `Array.from(store.entries()).sort(...).slice(0, 5)`. */
  function TopLanguages(rows: seq<PageView>): seq<LangCount>
  {
    var sorted := SortDesc(Tally(LangKeys(rows)));
    if |sorted| <= 5 then sorted else sorted[..5]
  }

  /** At most five languages are listed, largest count first. */
  lemma {:induction false} TopLanguagesOrdered(rows: seq<PageView>)
    ensures |TopLanguages(rows)| <= 5 && NonIncreasing(TopLanguages(rows))
  {
    SortDescSorted(Tally(LangKeys(rows)));
  }

  /** Each listed language comes with the number of rows in that language. */
  lemma {:induction false} TopLanguagesCounts(rows: seq<PageView>, i: nat)
    requires i < |TopLanguages(rows)|
    ensures TopLanguages(rows)[i].count == multiset(LangKeys(rows))[TopLanguages(rows)[i].lang]
  {
    var keys := LangKeys(rows);
    var tally := Tally(keys);
    var sorted := SortDesc(tally);
    var e := TopLanguages(rows)[i];
    assert e == sorted[i] && e in multiset(sorted);
    assert e in multiset(tally);
    var j :| 0 <= j < |tally| && tally[j] == e;
    TallyDistinct(keys);
    CountAt(tally, j);
    TallyCounts(keys, e.lang);
  }

  /** A language that occurs but is not listed occurs no more often than
      the fifth one listed. */
  lemma {:induction false} TopLanguagesLeftOut(rows: seq<PageView>, x: string)
    requires multiset(LangKeys(rows))[x] > 0
    requires forall i | 0 <= i < |TopLanguages(rows)| :: TopLanguages(rows)[i].lang != x
    ensures |TopLanguages(rows)| == 5 && multiset(LangKeys(rows))[x] <= TopLanguages(rows)[4].count
  {
    var keys := LangKeys(rows);
    var tally := Tally(keys);
    var sorted := SortDesc(tally);
    TallyCounts(keys, x);
    var j := Present(tally, x);
    assert tally[j] in multiset(sorted);
    var k :| 0 <= k < |sorted| && sorted[k] == tally[j];
    TallyDistinct(keys);
    CountAt(tally, j);
    if |sorted| > 5 {
      SortDescSorted(tally);
    }
  }

  /** With distinct languages, an entry's count is the count of its language. */
  lemma {:induction false} CountAt(cs: seq<LangCount>, j: nat)
    requires DistinctLangs(cs) && j < |cs|
    ensures CountOf(cs, cs[j].lang) == cs[j].count
  {
    if j > 0 {
      CountAt(cs[1..], j - 1);
      HasLangAt(cs[1..], j - 1);
    }
  }

  lemma {:induction false} HasLangAt(cs: seq<LangCount>, j: nat)
    requires j < |cs|
    ensures HasLang(cs, cs[j].lang)
  {
    if j > 0 {
      HasLangAt(cs[1..], j - 1);
    }
  }

  /** A language with a positive count has an entry. */
  lemma {:induction false} Present(cs: seq<LangCount>, x: string) returns (j: nat)
    requires CountOf(cs, x) > 0
    ensures j < |cs| && cs[j].lang == x
  {
    if cs[0].lang == x {
      j := 0;
    } else {
      var t := Present(cs[1..], x);
      j := t + 1;
    }
  }

  // ---- the shown lists ----

  function Take<T>(xs: seq<T>, n: nat): (r: seq<T>)
    ensures |r| <= n && r <= xs && (|xs| >= n ==> |r| == n) && (|xs| < n ==> r == xs)
  {
    if |xs| <= n then xs else xs[..n]
  }

  /** `displayRecent.slice(0, 10)`: the searched listing while a query is
      set (nothing when it is missing), otherwise the recent one. */
  function RecentShown(query: string, list: Option<seq<PageView>>, recent: seq<PageView>): (r: seq<PageView>)
    ensures |r| <= 10
    ensures query != [] ==> r <= (if list.Some? then list.value else [])
    ensures query == [] ==> r <= recent && (|recent| >= 10 ==> |r| == 10)
  {
    Take(if query != [] then (if list.Some? then list.value else []) else recent, 10)
  }
}
