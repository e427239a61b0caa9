/** The catalogue list (`components/client/ListProduk.jsx`): which products a
    category page shows, the sub-category choices, the search, price and
    sort controls, and the cards. */
module ListProduk {
  import opened Common
  import opened Slug
  import opened PageSlug

  /** A product as `/api/produk` lists it; `harga` is `None` when null. */
  datatype Item = Item(id: int, namaPaket: Option<string>, namaKategori: Option<string>,
                       subKategori: Option<string>, harga: Option<real>, title: Option<string>,
                       benefits: Option<seq<string>>)

  /** `a || b` on an optional string. */
  function Or(a: Option<string>, b: string): string
  {
    if a.Some? && a.value != [] then a.value else b
  }

  // ---- the category page ----

  /** Whether a product belongs on the page of `categorySlug`. */
  predicate InCategory(categorySlug: string, p: Item)
  {
    var itemCategory := LooseSlugify(Or(p.namaKategori, ""));
    var itemSub := LooseSlugify(Or(p.subKategori, ""));
    if categorySlug == [] then itemCategory != [] || itemSub != []
    else categorySlug == itemCategory || (itemSub != [] && categorySlug == itemSub)
  }

  /** The products kept after loading: without a category, those with any
      category slug; with one, those whose category slug, or non-empty
      sub-category slug, is that slug. */
  function ByCategory(category: Option<string>, data: seq<Item>): (r: seq<Item>)
    ensures var c := LooseSlugify(Or(category, ""));
      forall x :: x in r <==> (x in data &&
        if c == [] then LooseSlugify(Or(x.namaKategori, "")) != [] || LooseSlugify(Or(x.subKategori, "")) != []
        else c == LooseSlugify(Or(x.namaKategori, "")) || (LooseSlugify(Or(x.subKategori, "")) != [] && c == LooseSlugify(Or(x.subKategori, ""))))
  {
    var c := LooseSlugify(Or(category, ""));
    Filter(data, x => InCategory(c, x))
  }

  // ---- the sub-category choices ----

  /** `slugify(sub_kategori || nama_kategori || '')`. */
  function SubValue(x: Item): string
  {
    LooseSlugify(Or(x.subKategori, Or(x.namaKategori, "")))
  }

  /** `sub_kategori || nama_kategori || 'Tanpa Subkategori'`. */
  function Label(x: Item): string
  {
    Or(x.subKategori, Or(x.namaKategori, "Tanpa Subkategori"))
  }

  datatype Choice = Choice(value: string, caption: string)

  function LookupChoice(cs: seq<Choice>, v: string): Option<string>
  {
    if cs == [] then None
    else if cs[0].value == v then Some(cs[0].caption)
    else LookupChoice(cs[1..], v)
  }

  /** What each product offers: its value and its label. */
  function Offers(items: seq<Item>): (r: seq<Choice>)
    ensures |r| == |items| && forall k | 0 <= k < |items| :: r[k] == Choice(SubValue(items[k]), Label(items[k]))
  {
    seq(|items|, k requires 0 <= k < |items| => Choice(SubValue(items[k]), Label(items[k])))
  }

  /** The choices after reading the offers in order: a new non-empty value
      is added with the label that came with it. */
  function Choices(offers: seq<Choice>): seq<Choice>
  {
    if offers == [] then []
    else
      var cs := Choices(offers[..|offers| - 1]);
      var last := offers[|offers| - 1];
      if last.value == [] || LookupChoice(cs, last.value).Some? then cs
      else cs + [last]
  }

  /** The index of the first offer of `v`, or `|offers|`. */
  function FirstWith(offers: seq<Choice>, v: string): (i: nat)
    ensures i <= |offers|
    ensures i < |offers| ==> offers[i].value == v
    ensures forall k | 0 <= k < i :: offers[k].value != v
  {
    if offers == [] then 0
    else if offers[0].value == v then 0
    else 1 + FirstWith(offers[1..], v)
  }

  lemma {:induction false} LookupChoiceSnoc(cs: seq<Choice>, c: Choice, v: string)
    ensures LookupChoice(cs + [c], v) ==
      if LookupChoice(cs, v).Some? then LookupChoice(cs, v) else if c.value == v then Some(c.caption) else None
    decreases |cs|
  {
    if cs != [] {
      LookupChoiceSnoc(cs[1..], c, v);
      assert (cs + [c])[1..] == cs[1..] + [c];
    }
  }

  lemma {:induction false} FirstWithSnoc(offers: seq<Choice>, v: string)
    requires offers != []
    ensures var init := offers[..|offers| - 1];
      FirstWith(offers, v) ==
        if FirstWith(init, v) < |init| then FirstWith(init, v)
        else if offers[|offers| - 1].value == v then |init| else |offers|
  {
    var init := offers[..|offers| - 1];
    var i := FirstWith(init, v);
    if i < |init| {
      FirstWithIs(offers, v, i);
    } else if offers[|offers| - 1].value == v {
      FirstWithIs(offers, v, |init|);
    } else {
      FirstWithIs(offers, v, |offers|);
    }
  }

  lemma {:induction false} FirstWithIs(offers: seq<Choice>, v: string, i: nat)
    requires i <= |offers| && (i < |offers| ==> offers[i].value == v)
    requires forall k | 0 <= k < i :: offers[k].value != v
    ensures FirstWith(offers, v) == i
    decreases |offers|
  {
    if offers != [] && i > 0 {
      FirstWithIs(offers[1..], v, i - 1);
    }
  }

  /** Each non-empty value is offered once, with the label of its first
      offer; no other value is offered. */
  lemma {:induction false} ChoicesFirstLabel(offers: seq<Choice>, v: string)
    ensures LookupChoice(Choices(offers), v) ==
      if v != [] && FirstWith(offers, v) < |offers| then Some(offers[FirstWith(offers, v)].caption) else None
    decreases |offers|
  {
    if offers != [] {
      var init, last := offers[..|offers| - 1], offers[|offers| - 1];
      ChoicesFirstLabel(init, v);
      FirstWithSnoc(offers, v);
      var cs := Choices(init);
      if !(last.value == [] || LookupChoice(cs, last.value).Some?) {
        LookupChoiceSnoc(cs, last, v);
      }
    }
  }

  predicate DistinctValues(cs: seq<Choice>)
  {
    forall i, j | 0 <= i < j < |cs| :: cs[i].value != cs[j].value
  }

  /** No value is offered twice. */
  lemma {:induction false} ChoicesDistinct(offers: seq<Choice>)
    ensures DistinctValues(Choices(offers))
    decreases |offers|
  {
    if offers != [] {
      var init, last := offers[..|offers| - 1], offers[|offers| - 1];
      ChoicesDistinct(init);
      var cs := Choices(init);
      if !(last.value == [] || LookupChoice(cs, last.value).Some?) {
        forall i | 0 <= i < |cs|
          ensures cs[i].value != last.value
        {
          LookupChoiceAt(cs, i);
        }
        var r := cs + [last];
        assert Choices(offers) == r;
        assert DistinctValues(r) by {
          forall i, j | 0 <= i < j < |r|
            ensures r[i].value != r[j].value
          {
            assert r[i] == cs[i];
            if j < |cs| {
              assert r[j] == cs[j];
            }
          }
        }
      }
    }
  }

  /** Looking up a value that occurs finds something. */
  lemma {:induction false} LookupChoiceAt(cs: seq<Choice>, i: nat)
    requires i < |cs|
    ensures LookupChoice(cs, cs[i].value).Some?
    decreases i
  {
    if i > 0 && cs[0].value != cs[i].value {
      LookupChoiceAt(cs[1..], i - 1);
    }
  }

  /** The products' choices, in first-seen order. */
  function SubcategoryChoices(items: seq<Item>): seq<Choice>
  {
    Choices(Offers(items))
  }

  /** `subcategoryOptions`: the loop over the products with a map from value
      to label. */
  method SubcategoryOptions(items: seq<Item>) returns (options: seq<Choice>)
    ensures options == SubcategoryChoices(items)
  {
    ghost var offers := Offers(items);
    options := [];
    var i := 0;
    while i < |items|
      invariant 0 <= i <= |items|
      invariant options == Choices(offers[..i])
    {
      var item := items[i];
      ChoicesStep(offers, i);
      var value := SubValue(item);
      if value != [] {
        var has := Has(options, value);
        if !has {
          options := options + [Choice(value, Label(item))];
        }
      }
      i := i + 1;
    }
    assert offers[..i] == offers;
  }

  /** Reading one more offer: a new non-empty value is appended. */
  lemma {:induction false} ChoicesStep(offers: seq<Choice>, i: nat)
    requires i < |offers|
    ensures var cs := Choices(offers[..i]);
      Choices(offers[..i + 1]) ==
        if offers[i].value == [] || LookupChoice(cs, offers[i].value).Some? then cs else cs + [offers[i]]
  {
    assert offers[..i + 1][..i] == offers[..i];
  }

  /** `map.has(value)`. */
  method Has(cs: seq<Choice>, v: string) returns (found: bool)
    ensures found <==> LookupChoice(cs, v).Some?
  {
    var k := 0;
    while k < |cs|
      invariant 0 <= k <= |cs|
      invariant LookupChoice(cs, v) == LookupChoice(cs[k..], v)
    {
      if cs[k].value == v {
        return true;
      }
      assert cs[k..][1..] == cs[k + 1..];
      k := k + 1;
    }
    return false;
  }

  // ---- search, price and sort ----

  /** The controls above the list, as typed. */
  datatype Controls = Controls(searchTerm: string, selected: string, priceMin: string,
                               priceMax: string, sortBy: string)

  /** `s ? Number(s) : null`; `number` is JavaScript's `Number`. */
  function Bound(s: string, number: string -> JsNumber): Option<JsNumber>
  {
    if s == [] then None else Some(number(s))
  }

  /** `Number(item.harga ?? NaN)`. */
  function PriceOf(x: Item): JsNumber
  {
    if x.harga.Some? then Finite(x.harga.value) else NaN
  }

  /** `priceValue < min` (or `> max` when `upper`): false whenever either
      side is NaN. */
  predicate Beyond(price: JsNumber, bound: JsNumber, upper: bool)
  {
    price.Finite? && bound.Finite? && (if upper then price.value > bound.value else price.value < bound.value)
  }

  /** The test of `filteredProducts` for one product. */
  predicate Matches(x: Item, c: Controls, number: string -> JsNumber)
  {
    var name := Lower(Or(x.namaPaket, ""));
    var min := Bound(c.priceMin, number);
    var max := Bound(c.priceMax, number);
    && (c.searchTerm != [] ==> Contains(name, Lower(c.searchTerm)))
    && (c.selected != "all" ==> SubValue(x) != [] && SubValue(x) == c.selected)
    && (min.Some? ==> PriceOf(x).Finite? && !Beyond(PriceOf(x), min.value, false))
    && (max.Some? ==> PriceOf(x).Finite? && !Beyond(PriceOf(x), max.value, true))
  }

  /** The products that pass the controls, in list order. */
  function Filtered(items: seq<Item>, c: Controls, number: string -> JsNumber): (r: seq<Item>)
    ensures forall x :: x in r <==> x in items && Matches(x, c, number)
  {
    Filter(items, x => Matches(x, c, number))
  }

  /** A product that passes a finite bound has a price on the right side of
      it. */
  lemma PassingRespectsBounds(x: Item, c: Controls, number: string -> JsNumber)
    requires Matches(x, c, number)
    ensures c.priceMin != [] && number(c.priceMin).Finite? ==>
      PriceOf(x).Finite? && PriceOf(x).value >= number(c.priceMin).value
    ensures c.priceMax != [] && number(c.priceMax).Finite? ==>
      PriceOf(x).Finite? && PriceOf(x).value <= number(c.priceMax).value
  {
  }

  /** The sort key: `harga || 0`, negated for the descending sort. */
  function Key(x: Item, desc: bool): real
  {
    var h := if x.harga.Some? then x.harga.value else 0.0;
    if desc then -h else h
  }

  predicate SortedBy(s: seq<Item>, desc: bool)
  {
    forall i, j | 0 <= i < j < |s| :: Key(s[i], desc) <= Key(s[j], desc)
  }

  /** `filtered.sort((a, b) => (a.harga || 0) - (b.harga || 0))`, or the
      reverse comparison, done in place. */
  method SortByPrice(a: array<Item>, desc: bool)
    modifies a
    ensures SortedBy(a[..], desc)
    ensures multiset(a[..]) == multiset(old(a[..]))
  {
    var i := 0;
    while i < a.Length
      invariant 0 <= i <= a.Length
      invariant SortedBy(a[..i], desc)
      invariant multiset(a[..]) == multiset(old(a[..]))
    {
      InsertLast(a, i, desc);
      i := i + 1;
    }
    assert a[..a.Length] == a[..];
  }

  /** Moves `a[i]` down into the sorted prefix `a[..i]`. */
  method InsertLast(a: array<Item>, i: nat, desc: bool)
    requires i < a.Length && SortedBy(a[..i], desc)
    modifies a
    ensures SortedBy(a[..i + 1], desc)
    ensures multiset(a[..]) == multiset(old(a[..]))
  {
    var j := i;
    while j > 0 && Key(a[j - 1], desc) > Key(a[j], desc)
      invariant 0 <= j <= i
      invariant multiset(a[..]) == multiset(old(a[..]))
      invariant forall p, q | 0 <= p < q <= i && q != j :: Key(a[p], desc) <= Key(a[q], desc)
      invariant 0 < j < i ==> Key(a[j - 1], desc) <= Key(a[j + 1], desc)
    {
      Swap(a, j);
      j := j - 1;
    }
  }

  /** Exchanges `a[j - 1]` and `a[j]`. */
  method Swap(a: array<Item>, j: nat)
    requires 0 < j < a.Length
    modifies a
    ensures a[j - 1] == old(a[j]) && a[j] == old(a[j - 1])
    ensures forall k | 0 <= k < a.Length && k != j - 1 && k != j :: a[k] == old(a[k])
    ensures multiset(a[..]) == multiset(old(a[..]))
  {
    a[j - 1], a[j] := a[j], a[j - 1];
  }

  /** `filteredProducts`: the passing products, sorted by price when asked;
      the random order is not modelled and keeps the list order. */
  method FilteredProducts(items: seq<Item>, c: Controls, number: string -> JsNumber) returns (r: seq<Item>)
    ensures multiset(r) == multiset(Filtered(items, c, number))
    ensures c.sortBy == "price-asc" ==> SortedBy(r, false)
    ensures c.sortBy == "price-desc" ==> SortedBy(r, true)
    ensures c.sortBy != "price-asc" && c.sortBy != "price-desc" ==> r == Filtered(items, c, number)
  {
    var filtered := Filtered(items, c, number);
    if c.sortBy == "price-asc" || c.sortBy == "price-desc" {
      var a := new Item[|filtered|](k requires 0 <= k < |filtered| => filtered[k]);
      assert a[..] == filtered;
      SortByPrice(a, c.sortBy == "price-desc");
      return a[..];
    }
    return filtered;
  }

  /** `hasActiveFilters`. */
  predicate HasActiveFilters(c: Controls)
  {
    !IsBlank(c.searchTerm) || !IsBlank(c.priceMin) || !IsBlank(c.priceMax)
    || c.selected != "all" || c.sortBy != "random"
  }

  /** The filters count as inactive when the text fields are blank, yet a
      search of one space still hides every product whose name has no space:
      the list can be emptied while no filter is reported active. */
  lemma {:induction false} BlankSearchStillFilters(x: Item, number: string -> JsNumber)
    requires x.namaPaket == Some("gold")
    ensures var c := Controls(" ", "all", "", "", "random");
      !HasActiveFilters(c) && Filtered([x], c, number) == []
  {
    var c := Controls(" ", "all", "", "", "random");
    assert IsSpace(' ');
    assert Trim(" ") == [];
    assert Lower(" ") == " ";
    assert Lower("gold") == "gold";
    assert !Contains("gold", " ") by {
      forall i | 0 <= i <= 3
        ensures !OccursAt("gold", " ", i)
      {
        assert "gold"[i] != ' ';
      }
    }
    assert !Matches(x, c, number);
  }

  // ---- the cards ----

  datatype Package = Package(id: int, title: string, features: seq<string>, href: string)

  /** `p?.nama_kategori || categorySlug || 'produk'`. */
  function CategorySource(categorySlug: string, p: Item): string
  {
    Or(p.namaKategori, if categorySlug != [] then categorySlug else "produk")
  }

  /** `p?.nama_paket || p?.title || 'paket'`. */
  function NameSource(p: Item): string
  {
    Or(p.namaPaket, Or(p.title, "paket"))
  }

  /** One card: the link is `/<category slug>/<product slug>`, with
      'produk' and 'paket' as the last fallbacks. */
  function PackageOf(categorySlug: string, p: Item): (k: Package)
    ensures exists a, b :: k.href == "/" + a + "/" + b && AllSlugChars(a) && AllSlugChars(b)
    ensures k.title != [] && k.id == p.id
  {
    var a := LooseSlugify(CategorySource(categorySlug, p));
    var b := LooseSlugify(NameSource(p));
    LooseSlugChars(CategorySource(categorySlug, p));
    LooseSlugChars(NameSource(p));
    Package(p.id, Or(p.namaPaket, "Paket"), if p.benefits.Some? then p.benefits.value else [], "/" + a + "/" + b)
  }

  /** The link of a card: the page-local slugs of its two sources. */
  lemma PackageHref(categorySlug: string, p: Item)
    ensures PackageOf(categorySlug, p).href
            == "/" + LooseSlugify(CategorySource(categorySlug, p)) + "/" + LooseSlugify(NameSource(p))
  {
  }

  /** A category and a name that are already slugs are linked as they are. */
  lemma {:induction false} PackageLinksSlugs(categorySlug: string, p: Item)
    requires AllSlugChars(CategorySource(categorySlug, p)) && NoDoubleDash(CategorySource(categorySlug, p))
    requires AllSlugChars(NameSource(p)) && NoDoubleDash(NameSource(p))
    ensures PackageOf(categorySlug, p).href == "/" + CategorySource(categorySlug, p) + "/" + NameSource(p)
  {
    PackageHref(categorySlug, p);
    LooseSlugifyFixes(CategorySource(categorySlug, p));
    LooseSlugifyFixes(NameSource(p));
  }

  /** With no category on the item and no page slug the category part is
      'produk'. */
  lemma {:induction false} CategoryFallback(categorySlug: string, p: Item)
    requires (p.namaKategori.None? || p.namaKategori.value == []) && categorySlug == []
    ensures CategorySource(categorySlug, p) == "produk"
    ensures PackageOf(categorySlug, p).href == "/" + CategorySource(categorySlug, p) + "/" + LooseSlugify(NameSource(p))
  {
    PackageHref(categorySlug, p);
    FallbackSlug(CategorySource(categorySlug, p));
  }

  /** With no name and no title the product part is 'paket'. */
  lemma {:induction false} NameFallback(categorySlug: string, p: Item)
    requires (p.namaPaket.None? || p.namaPaket.value == []) && (p.title.None? || p.title.value == [])
    ensures NameSource(p) == "paket"
    ensures PackageOf(categorySlug, p).href == "/" + LooseSlugify(CategorySource(categorySlug, p)) + "/" + NameSource(p)
  {
    PackageHref(categorySlug, p);
    FallbackSlug(NameSource(p));
  }

  /** The two fallback words are their own slugs. */
  lemma {:induction false} FallbackSlug(w: string)
    requires w == "produk" || w == "paket"
    ensures LooseSlugify(w) == w
  {
    assert forall i | 0 <= i < |w| :: 'a' <= w[i] <= 'z';
    LooseSlugifyFixes(w);
  }

  /** `packages`: one card per listed product, in order. */
  function Packages(categorySlug: string, xs: seq<Item>): (r: seq<Package>)
    ensures |r| == |xs| && forall k | 0 <= k < |xs| :: r[k] == PackageOf(categorySlug, xs[k])
  {
    seq(|xs|, k requires 0 <= k < |xs| => PackageOf(categorySlug, xs[k]))
  }
}
