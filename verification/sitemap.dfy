/** The sitemap (`app/sitemap.js`): the site's base URL, the two fixed
    entries, one entry per product that has both slugs, and one entry per
    category slug seen. */
module Sitemap {
  import opened Common
  import opened PageSlug

  const DefaultSite: string := "https://www.nareswarigaleri.com"

  predicate Given(s: Option<string>)
  {
    s.Some? && s.value != []
  }

  /** `getBaseUrl`: the first non-empty of the two environment URLs with one
      trailing '/' removed, else the site's own address. */
  function BaseUrl(siteUrl: Option<string>, baseUrl: Option<string>): (r: string)
    ensures !Given(siteUrl) && !Given(baseUrl) ==> r == DefaultSite
    ensures var env := if Given(siteUrl) then siteUrl.value else if Given(baseUrl) then baseUrl.value else [];
      env != [] ==> (if env[|env| - 1] == '/' then r + "/" == env else r == env)
  {
    var env := if Given(siteUrl) then siteUrl.value else if Given(baseUrl) then baseUrl.value else [];
    if env == [] then DefaultSite
    else if env[|env| - 1] == '/' then env[..|env| - 1]
    else env
  }

  /** A product row as the sitemap query returns it. */
  datatype Product = Product(namaPaket: Option<string>, createdAt: Option<string>,
                             namaKategori: Option<string>, subKategori: Option<string>)

  /** An entry's `lastModified`: the generation time, or a row's
      `created_at`. */
  datatype Stamp = Now | At(createdAt: string)

  datatype Entry = Entry(url: string, lastModified: Stamp, changeFrequency: string, priority: real)

  /** `slugify(x || '')`. */
  function SlugOf(f: Option<string>): string
  {
    LooseSlugify(if f.Some? then f.value else "")
  }

  /** `created_at ? new Date(created_at) : now`; a category stores
      `created_at || now.toISOString()`, which reads back as the same two
      cases. */
  function StampOf(p: Product): Stamp
  {
    if Given(p.createdAt) then At(p.createdAt.value) else Now
  }

  /** The entries every sitemap starts with. */
  function Fixed(base: string): seq<Entry>
  {
    [Entry(base + "/", Now, "weekly", 1.0), Entry(base + "/order", Now, "monthly", 0.7)]
  }

  /** The entry of one product: present exactly when the product's slug and
      its parent slug (the sub-category's, else the category's) are both
      non-empty. */
  function ProductEntry(base: string, p: Product): (e: Option<Entry>)
    ensures e.Some? <==> SlugOf(p.namaPaket) != [] && (SlugOf(p.subKategori) != [] || SlugOf(p.namaKategori) != [])
    ensures e.Some? ==>
      var parent := if SlugOf(p.subKategori) != [] then SlugOf(p.subKategori) else SlugOf(p.namaKategori);
      e.value.url == base + "/" + parent + "/" + SlugOf(p.namaPaket) && e.value.lastModified == StampOf(p)
  {
    var catSlug := SlugOf(p.namaKategori);
    var subSlug := SlugOf(p.subKategori);
    var productSlug := SlugOf(p.namaPaket);
    var parentSlug := if subSlug != [] then subSlug else catSlug;
    if productSlug == [] || parentSlug == [] then None
    else Some(Entry(base + "/" + parentSlug + "/" + productSlug, StampOf(p), "monthly", 0.6))
  }

  /** The product entries of a list of products, in order. */
  function ProductEntries(base: string, ps: seq<Product>): (r: seq<Entry>)
    ensures |r| <= |ps|
  {
    if ps == [] then []
    else
      var e := ProductEntry(base, ps[|ps| - 1]);
      ProductEntries(base, ps[..|ps| - 1]) + (if e.Some? then [e.value] else [])
  }

  /** Every product entry comes from a product that has both slugs, and
      every such product contributes its entry. */
  lemma {:induction false} ProductEntriesExactly(base: string, ps: seq<Product>)
    ensures forall e :: e in ProductEntries(base, ps) ==> exists p :: p in ps && ProductEntry(base, p) == Some(e)
    ensures forall p :: p in ps && ProductEntry(base, p).Some? ==> ProductEntry(base, p).value in ProductEntries(base, ps)
    decreases |ps|
  {
    if ps != [] {
      var init, last := ps[..|ps| - 1], ps[|ps| - 1];
      ProductEntriesExactly(base, init);
      assert ps == init + [last];
    }
  }

  // ---- the category map ----

  /** One entry of the insertion-ordered `categoryMap`. */
  datatype Slot = Slot(slug: string, stamp: Stamp)

  /** No slug occurs twice. */
  predicate DistinctSlugs(m: seq<Slot>)
  {
    forall i, j | 0 <= i < j < |m| :: m[i].slug != m[j].slug
  }

  function Lookup(m: seq<Slot>, k: string): Option<Stamp>
  {
    if m == [] then None
    else if m[0].slug == k then Some(m[0].stamp)
    else Lookup(m[1..], k)
  }

  /** `Map.prototype.set`: an existing key keeps its place and takes the new
      value; a new key goes last. */
  function SetSlot(m: seq<Slot>, k: string, v: Stamp): (r: seq<Slot>)
    ensures Lookup(r, k) == Some(v)
  {
    if m == [] then [Slot(k, v)]
    else if m[0].slug == k then [Slot(k, v)] + m[1..]
    else [m[0]] + SetSlot(m[1..], k, v)
  }

  /** Setting one key leaves every other key's value alone. */
  lemma {:induction false} SetSlotOther(m: seq<Slot>, k: string, v: Stamp, j: string)
    requires j != k
    ensures Lookup(SetSlot(m, k, v), j) == Lookup(m, j)
  {
    if m != [] && m[0].slug != k {
      SetSlotOther(m[1..], k, v, j);
    }
  }

  /** A key is found exactly when some entry has it. */
  lemma {:induction false} LookupFinds(m: seq<Slot>, k: string)
    ensures Lookup(m, k).Some? <==> exists i | 0 <= i < |m| :: m[i].slug == k
  {
    if m != [] {
      LookupFinds(m[1..], k);
      if Lookup(m[1..], k).Some? {
        var i :| 0 <= i < |m| - 1 && m[1..][i].slug == k;
        assert m[i + 1].slug == k;
      }
    }
  }

  /** Setting a key keeps the keys already there in their places, and adds
      the key last when it is new. */
  lemma {:induction false} SetSlotKeys(m: seq<Slot>, k: string, v: Stamp)
    ensures var r := SetSlot(m, k, v);
      && |r| == (if Lookup(m, k).Some? then |m| else |m| + 1)
      && (forall i | 0 <= i < |m| :: r[i].slug == m[i].slug)
      && (Lookup(m, k).None? ==> r[|m|].slug == k)
  {
    if m != [] && m[0].slug != k {
      var t := SetSlot(m[1..], k, v);
      SetSlotKeys(m[1..], k, v);
      var r := [m[0]] + t;
      assert SetSlot(m, k, v) == r;
      assert Lookup(m, k) == Lookup(m[1..], k);
      forall i | 0 <= i < |m|
        ensures r[i].slug == m[i].slug
      {
        if i > 0 {
          assert r[i] == t[i - 1] && m[i] == m[1..][i - 1];
        }
      }
      if Lookup(m, k).None? {
        assert r[|m|] == t[|m| - 1];
      }
    }
  }

  /** Setting a key never repeats one. */
  lemma {:induction false} SetSlotDistinct(m: seq<Slot>, k: string, v: Stamp)
    requires DistinctSlugs(m)
    ensures DistinctSlugs(SetSlot(m, k, v))
  {
    SetSlotKeys(m, k, v);
    LookupFinds(m, k);
  }

  /** What one product does to the map: its category slug, then its
      sub-category slug, each when non-empty. */
  function Record(m: seq<Slot>, p: Product): seq<Slot>
  {
    var m1 := if SlugOf(p.namaKategori) != [] then SetSlot(m, SlugOf(p.namaKategori), StampOf(p)) else m;
    if SlugOf(p.subKategori) != [] then SetSlot(m1, SlugOf(p.subKategori), StampOf(p)) else m1
  }

  function CategoryMap(ps: seq<Product>): seq<Slot>
  {
    if ps == [] then [] else Record(CategoryMap(ps[..|ps| - 1]), ps[|ps| - 1])
  }

  /** The stamp of the last product naming `k` as its category or
      sub-category slug. */
  function LastStamp(ps: seq<Product>, k: string): Option<Stamp>
  {
    if ps == [] then None
    else
      var p := ps[|ps| - 1];
      if k != [] && (SlugOf(p.namaKategori) == k || SlugOf(p.subKategori) == k) then Some(StampOf(p))
      else LastStamp(ps[..|ps| - 1], k)
  }

  /** Recording a product sets its non-empty slugs to its stamp. */
  lemma {:induction false} RecordLookup(m: seq<Slot>, p: Product, k: string)
    ensures Lookup(Record(m, p), k) ==
      if k != [] && (SlugOf(p.namaKategori) == k || SlugOf(p.subKategori) == k) then Some(StampOf(p))
      else Lookup(m, k)
  {
    var cat, sub := SlugOf(p.namaKategori), SlugOf(p.subKategori);
    var m1 := if cat != [] then SetSlot(m, cat, StampOf(p)) else m;
    if cat != [] && cat != k {
      SetSlotOther(m, cat, StampOf(p), k);
    }
    if sub != [] && sub != k {
      SetSlotOther(m1, sub, StampOf(p), k);
    }
  }

  /** The map never holds a slug twice. */
  lemma {:induction false} CategoryMapDistinct(ps: seq<Product>)
    ensures DistinctSlugs(CategoryMap(ps))
    decreases |ps|
  {
    if ps != [] {
      var m := CategoryMap(ps[..|ps| - 1]);
      var p := ps[|ps| - 1];
      CategoryMapDistinct(ps[..|ps| - 1]);
      var m1 := if SlugOf(p.namaKategori) != [] then SetSlot(m, SlugOf(p.namaKategori), StampOf(p)) else m;
      if SlugOf(p.namaKategori) != [] {
        SetSlotDistinct(m, SlugOf(p.namaKategori), StampOf(p));
      }
      if SlugOf(p.subKategori) != [] {
        SetSlotDistinct(m1, SlugOf(p.subKategori), StampOf(p));
      }
    }
  }

  /** A slug's value in the map is the stamp of the last product that named
      it, and a slug no product named is absent. */
  lemma {:induction false} CategoryMapLast(ps: seq<Product>, k: string)
    ensures Lookup(CategoryMap(ps), k) == LastStamp(ps, k)
    decreases |ps|
  {
    if ps != [] {
      CategoryMapLast(ps[..|ps| - 1], k);
      RecordLookup(CategoryMap(ps[..|ps| - 1]), ps[|ps| - 1], k);
    }
  }

  /** The category entries, in the map's order. */
  function CategoryEntries(base: string, m: seq<Slot>): (r: seq<Entry>)
    ensures |r| == |m|
    ensures forall k | 0 <= k < |m| :: r[k] == Entry(base + "/" + m[k].slug, m[k].stamp, "weekly", 0.8)
  {
    seq(|m|, k requires 0 <= k < |m| => Entry(base + "/" + m[k].slug, m[k].stamp, "weekly", 0.8))
  }

  /** `sitemap()`; `products` is the query's outcome, and a failed query
      leaves only the two fixed entries. */
  method Generate(siteUrl: Option<string>, baseUrl: Option<string>, products: Result<seq<Product>>)
    returns (entries: seq<Entry>)
    ensures |entries| >= 2 && entries[..2] == Fixed(BaseUrl(siteUrl, baseUrl))
    ensures products.Throw? ==> entries == Fixed(BaseUrl(siteUrl, baseUrl))
    ensures products.Ok? ==>
      var base := BaseUrl(siteUrl, baseUrl);
      entries == Fixed(base) + ProductEntries(base, products.value)
                 + CategoryEntries(base, CategoryMap(products.value))
  {
    var base := BaseUrl(siteUrl, baseUrl);
    entries := Fixed(base);
    if products.Throw? {
      return;
    }
    var lines, categoryMap := ProductLines(base, products.value);
    entries := entries + lines;
    var tail := CategoryLines(base, categoryMap);
    entries := entries + tail;
  }

  /** The first loop of `sitemap()`: the product entries, and the category
      map filled along the way. */
  method ProductLines(base: string, ps: seq<Product>) returns (lines: seq<Entry>, categoryMap: seq<Slot>)
    ensures lines == ProductEntries(base, ps)
    ensures categoryMap == CategoryMap(ps)
  {
    lines := [];
    categoryMap := [];
    var i := 0;
    while i < |ps|
      invariant 0 <= i <= |ps|
      invariant lines == ProductEntries(base, ps[..i])
      invariant categoryMap == CategoryMap(ps[..i])
    {
      var p := ps[i];
      assert ps[..i + 1][..i] == ps[..i] && ps[..i + 1][i] == p;
      categoryMap := RecordProduct(categoryMap, p);
      var e := ProductEntry(base, p);
      ghost var next := ps[..i + 1];
      assert ProductEntries(base, next) == lines + (if e.Some? then [e.value] else []);
      if e.Some? {
        lines := lines + [e.value];
      }
      assert lines == ProductEntries(base, next);
      i := i + 1;
      assert next == ps[..i];
    }
    assert ps[..i] == ps;
  }

  /** The two `categoryMap.set` calls for one product. */
  method RecordProduct(m: seq<Slot>, p: Product) returns (r: seq<Slot>)
    ensures r == Record(m, p)
  {
    r := m;
    var catSlug := SlugOf(p.namaKategori);
    if catSlug != [] {
      r := SetSlot(r, catSlug, StampOf(p));
    }
    var subSlug := SlugOf(p.subKategori);
    if subSlug != [] {
      r := SetSlot(r, subSlug, StampOf(p));
    }
  }

  /** The second loop of `sitemap()`: one entry per map entry, in order. */
  method CategoryLines(base: string, m: seq<Slot>) returns (tail: seq<Entry>)
    ensures tail == CategoryEntries(base, m)
  {
    tail := [];
    var j := 0;
    while j < |m|
      invariant 0 <= j <= |m|
      invariant |tail| == j
      invariant forall k | 0 <= k < j :: tail[k] == Entry(base + "/" + m[k].slug, m[k].stamp, "weekly", 0.8)
    {
      tail := tail + [Entry(base + "/" + m[j].slug, m[j].stamp, "weekly", 0.8)];
      j := j + 1;
    }
  }
}
