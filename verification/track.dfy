/** The page-view route (`app/api/track/route.js`): the client address,
    the paths that are never tracked, the insert, and the two row listings
    of GET. */
module TrackRoute {
  import opened Common

  /** A `page_views` row; rows are kept in insertion order, so the row at
      index `k` has id `k + 1`. */
  datatype PageView = PageView(path: string, hostname: Option<string>, referrer: Option<string>,
                               userAgent: Option<string>, ip: Option<string>, lang: Option<string>)

  /** A truthy string: present and non-empty. */
  predicate Given(s: Option<string>)
  {
    s.Some? && s.value != []
  }

  // ---- getIpFromReq ----

  /** `getIpFromReq`: the first comma-separated entry of `x-forwarded-for`,
      trimmed, when that header is non-empty; otherwise `x-real-ip`, then
      `req.ip`, else NULL. */
  function IpFromHeaders(forwardedFor: Option<string>, realIp: Option<string>, reqIp: Option<string>): (r: Option<string>)
    ensures Given(forwardedFor) ==> r.Some? && ',' !in r.value
    ensures !Given(forwardedFor) && Given(realIp) ==> r == realIp
    ensures !Given(forwardedFor) && !Given(realIp) && Given(reqIp) ==> r == reqIp
    ensures !Given(forwardedFor) && !Given(realIp) && !Given(reqIp) ==> r.None?
  {
    if Given(forwardedFor) then
      var first := Split(forwardedFor.value, ',')[0];
      TrimInside(first);
      Some(Trim(first))
    else if Given(realIp) then realIp
    else if Given(reqIp) then reqIp
    else None
  }

  /** With a single forwarded entry, the address is that entry, trimmed. */
  lemma {:induction false} SingleForwardedEntry(forwardedFor: string, realIp: Option<string>, reqIp: Option<string>)
    requires forwardedFor != [] && ',' !in forwardedFor
    ensures IpFromHeaders(Some(forwardedFor), realIp, reqIp) == Some(Trim(forwardedFor))
  {
    assert Split(forwardedFor, ',') == [forwardedFor];
  }

  /** `getIpFromReq(req) || body.ip || null`: an empty address from the
      headers falls through to the body's. */
  function ClientIp(forwardedFor: Option<string>, realIp: Option<string>, reqIp: Option<string>,
                    bodyIp: Option<string>): (r: Option<string>)
    ensures Given(IpFromHeaders(forwardedFor, realIp, reqIp)) ==> r == IpFromHeaders(forwardedFor, realIp, reqIp)
    ensures r.Some? ==> r.value != []
  {
    var h := IpFromHeaders(forwardedFor, realIp, reqIp);
    if Given(h) then h else if Given(bodyIp) then bodyIp else None
  }

  // ---- the excluded paths ----

  /** `body.path ? String(body.path) : '/'`. */
  function PathOf(path: Option<string>): string
  {
    if Given(path) then path.value else "/"
  }

  /** `path.split('?')[0]`: everything before the first `?`. */
  function Normalized(path: string): (r: string)
    ensures r <= path && '?' !in r
    ensures '?' in path ==> path[|r|] == '?'
    ensures '?' !in path ==> r == path
  {
    var parts := Split(path, '?');
    if '?' in path then
      SplitFirst(path, '?');
      parts[0]
    else
      assert parts == [path];
      parts[0]
  }

  /** The first part of a split that found its separator ends just before
      the first occurrence of it. */
  lemma {:induction false} SplitFirst(s: string, sep: char)
    requires sep in s
    ensures Split(s, sep)[0] == s[..IndexOf(s, sep)]
  {
  }

  /** `p` is `root` or lies below it. */
  predicate AtOrUnder(p: string, root: string)
  {
    p == root || root + "/" <= p
  }

  /** The admin pages, the dashboard and the order page are never tracked. */
  predicate Excluded(path: string)
  {
    var n := Normalized(path);
    AtOrUnder(n, "/admin") || AtOrUnder(n, "/dashboard-admin") || AtOrUnder(n, "/order")
  }

  /** The excluded roots are not tracked. */
  lemma ExcludedRoots()
    ensures Excluded("/admin") && Excluded("/order") && Excluded("/dashboard-admin")
  {
    forall root | root == "/admin" || root == "/order" || root == "/dashboard-admin"
      ensures Normalized(root) == root
    {
      NormalizedKeepsPrefix(root, root);
    }
  }

  /** Cutting at the first `?` keeps any prefix that holds no `?`. */
  lemma {:induction false} NormalizedKeepsPrefix(pre: string, p: string)
    requires pre <= p && '?' !in pre
    ensures pre <= Normalized(p)
  {
    if '?' in p {
      SplitFirst(p, '?');
    }
  }

  /** Nor is any page below one of them, whatever its query string. */
  lemma {:induction false} PagesBelowExcluded(root: string, rest: string)
    requires root == "/admin" || root == "/order" || root == "/dashboard-admin"
    ensures Excluded(root + "/" + rest)
  {
    var p := root + "/" + rest;
    assert '?' !in root + "/";
    NormalizedKeepsPrefix(root + "/", p);
  }

  /** A path that only starts like an excluded root, continuing with
      something other than `/` or a query, is tracked
      (`/administrator`, `/orders`). */
  lemma {:induction false} LookAlikesTracked(root: string, rest: string)
    requires root == "/admin" || root == "/order" || root == "/dashboard-admin"
    requires rest != [] && rest[0] != '/' && rest[0] != '?'
    ensures !Excluded(root + rest)
  {
    var p := root + rest;
    var pre := root + [rest[0]];
    assert pre <= p;
    assert '?' !in pre;
    NormalizedKeepsPrefix(pre, p);
    var n := Normalized(p);
    assert |n| > |root| && n[|root|] == rest[0] && n[1] == root[1];
    assert !AtOrUnder(n, "/admin") && !AtOrUnder(n, "/order") && !AtOrUnder(n, "/dashboard-admin") by {
      NotAtOrUnder(n, root);
    }
  }

  /** A path that continues a root with a character other than `/`, and
      differs from every other root in its second character, is not at or
      under any of the three roots. */
  lemma {:induction false} NotAtOrUnder(n: string, root: string)
    requires root == "/admin" || root == "/order" || root == "/dashboard-admin"
    requires |n| > |root| && n[|root|] != '/' && n[1] == root[1]
    ensures !AtOrUnder(n, "/admin") && !AtOrUnder(n, "/order") && !AtOrUnder(n, "/dashboard-admin")
  {
    var other := ["/admin", "/order", "/dashboard-admin"];
    forall r | r in other
      ensures !AtOrUnder(n, r)
    {
      if r == root {
        assert (r + "/")[|r|] == '/';
      } else {
        assert r[1] != root[1];
        assert (r + "/")[1] == r[1];
      }
    }
    assert "/admin" in other && "/order" in other && "/dashboard-admin" in other;
  }

  /** A query string never changes whether a path is tracked. */
  lemma {:induction false} QueryIgnored(path: string, query: string)
    requires '?' !in path
    ensures Excluded(path + "?" + query) == Excluded(path)
  {
    var s := path + "?" + query;
    assert s[|path|] == '?';
    assert '?' !in s[..|path|] by {
      assert s[..|path|] == path;
    }
    assert IndexOf(s, '?') == |path|;
    SplitFirst(s, '?');
    assert Normalized(s) == path;
  }

  // ---- the table ----

  class PageViews {
    var rows: seq<PageView>

    constructor ()
      ensures rows == []
    {
      rows := [];
    }
  }

  /** What POST reads from its body; a falsy field is `None`. */
  datatype TrackBody = TrackBody(path: Option<string>, hostname: Option<string>, referrer: Option<string>,
                                 userAgent: Option<string>, lang: Option<string>, ip: Option<string>)

  /** The request headers POST looks at, and `req.ip`. */
  datatype Headers = Headers(forwardedFor: Option<string>, realIp: Option<string>,
                             userAgent: Option<string>, reqIp: Option<string>)

  function Truthy(s: Option<string>): Option<string>
  {
    if Given(s) then s else None
  }

  /** The row POST inserts: the path as sent, query string included. */
  function ViewOf(b: TrackBody, h: Headers): (v: PageView)
    ensures v.path == PathOf(b.path)
  {
    PageView(PathOf(b.path), Truthy(b.hostname), Truthy(b.referrer),
             if Given(b.userAgent) then b.userAgent else Truthy(h.userAgent),
             ClientIp(h.forwardedFor, h.realIp, h.reqIp, b.ip), Truthy(b.lang))
  }

  /** POST: an excluded path is answered with 204 and not stored; any other
      is appended and answered with 201. */
  method Post(t: PageViews, b: TrackBody, h: Headers) returns (status: int)
    modifies t
    ensures Excluded(PathOf(b.path)) ==> status == 204 && t.rows == old(t.rows)
    ensures !Excluded(PathOf(b.path)) ==> status == 201 && t.rows == old(t.rows) + [ViewOf(b, h)]
  {
    var path := PathOf(b.path);
    if Excluded(path) {
      return 204;
    }
    t.rows := t.rows + [ViewOf(b, h)];
    status := 201;
  }

  // ---- GET ----

  /** The rows newest first (`ORDER BY id DESC`). */
  function NewestFirst(rows: seq<PageView>): (r: seq<PageView>)
    ensures |r| == |rows|
    ensures forall k :: 0 <= k < |r| ==> r[k] == rows[|rows| - 1 - k]
  {
    seq(|rows|, k requires 0 <= k < |rows| => rows[|rows| - 1 - k])
  }

  function Take(rows: seq<PageView>, n: nat): (r: seq<PageView>)
    ensures |r| == if |rows| < n then |rows| else n
    ensures r <= rows
  {
    if |rows| < n then rows else rows[..n]
  }

  function HasPath(q: string): PageView -> bool { (v: PageView) => v.path == q }

  /** `WHERE path = ?`: the rows whose path is exactly `q`, in order. */
  function WithPath(rows: seq<PageView>, q: string): (r: seq<PageView>)
    ensures |r| <= |rows|
    ensures forall k :: 0 <= k < |r| ==> r[k].path == q && r[k] in rows
    ensures forall v :: v in rows && v.path == q ==> v in r
  {
    var r := Filter(rows, HasPath(q));
    assert forall k :: 0 <= k < |r| ==> r[k] in r && HasPath(q)(r[k]);
    r
  }

  /** The newest row goes first. */
  lemma NewestFirstSnoc(rows: seq<PageView>, v: PageView)
    ensures NewestFirst(rows + [v]) == [v] + NewestFirst(rows)
  {
  }

  /** Filtering the rows and putting them newest first commute, so
      scanning newest first and keeping the matches lists the matches
      newest first. */
  lemma {:induction false} WithPathNewestFirst(rows: seq<PageView>, q: string)
    ensures WithPath(NewestFirst(rows), q) == NewestFirst(WithPath(rows, q))
    decreases |rows|
  {
    if rows != [] {
      var init, v := rows[..|rows| - 1], rows[|rows| - 1];
      assert rows == init + [v];
      var keep := if v.path == q then [v] else [];
      NewestFirstSnoc(init, v);
      var rev := NewestFirst(init);
      assert ([v] + rev)[1..] == rev;
      assert WithPath([v] + rev, q) == keep + WithPath(rev, q);
      FilterSnoc(init, v, HasPath(q));
      assert WithPath(rows, q) == WithPath(init, q) + keep;
      WithPathNewestFirst(init, q);
      if v.path == q {
        NewestFirstSnoc(WithPath(init, q), v);
      } else {
        assert WithPath(init, q) + keep == WithPath(init, q);
      }
    }
  }

  /** The `recent` listing: the 100 newest rows. */
  function Recent(rows: seq<PageView>): (r: seq<PageView>)
    ensures |r| <= 100 && (|rows| >= 100 ==> |r| == 100) && (|rows| < 100 ==> |r| == |rows|)
    ensures forall k :: 0 <= k < |r| ==> r[k] == rows[|rows| - 1 - k]
  {
    Take(NewestFirst(rows), 100)
  }

  /** The `list` listing: nothing without `q`; otherwise the 500 newest rows
      whose path is `q`. */
  function ListFor(rows: seq<PageView>, q: Option<string>): (r: Option<seq<PageView>>)
    ensures r.None? <==> !Given(q)
    ensures r.Some? ==> |r.value| <= 500 && forall k :: 0 <= k < |r.value| ==> r.value[k].path == q.value
    ensures r.Some? ==> r.value == Take(NewestFirst(WithPath(rows, q.value)), 500)
  {
    if Given(q) then
      WithPathNewestFirst(rows, q.value);
      Some(Take(WithPath(NewestFirst(rows), q.value), 500))
    else None
  }

  /** When fewer than 500 rows have path `q`, every one of them is listed. */
  lemma {:induction false} ListHoldsAllMatches(rows: seq<PageView>, q: string, v: PageView)
    requires q != [] && v in rows && v.path == q
    requires |WithPath(NewestFirst(rows), q)| <= 500
    ensures v in ListFor(rows, Some(q)).value
  {
    var k :| 0 <= k < |rows| && rows[k] == v;
    assert NewestFirst(rows)[|rows| - 1 - k] == v;
  }
}
