/** The SQLite catalog tables shared by the product, benefit, product-category
    and media routes, held in memory: one map from id to row per table, the
    set of (produk_id, benefit_id) pairs of `produk_benefit`, the map from
    produk_id to media_id of `cover_media`, and one AUTOINCREMENT counter per
    table. Every SQL statement the routes run is a method of `Db`; a
    statement that would break a foreign key (the connection enables
    `foreign_keys`) or a NOT NULL column answers `Throw` and changes nothing. */
module Store {
  import opened Common

  datatype Category = Category(nama: string, sub: Option<string>, code: Option<string>, desc: Option<string>)
  datatype Product = Product(kategori: int, nama: string, harga: Option<int>)
  datatype Benefit = Benefit(text: string, kb: Option<int>)
  datatype Media = Media(owner: Option<int>, path: string)

  /** The whole database at one instant, as a value (used to undo a
      transaction). */
  datatype Tables = Tables(
    categories: map<int, Category>,
    products: map<int, Product>,
    benefitCategories: map<int, string>,
    benefits: map<int, Benefit>,
    links: set<(int, int)>,
    media: map<int, Media>,
    covers: map<int, int>,
    nextCategory: int,
    nextProduct: int,
    nextBenefitCategory: int,
    nextBenefit: int,
    nextMedia: int)

  /** Every id lies below its table's AUTOINCREMENT counter. */
  predicate IdsBelowCounters(t: Tables)
  {
    && 1 <= t.nextCategory && 1 <= t.nextProduct && 1 <= t.nextBenefitCategory
    && 1 <= t.nextBenefit && 1 <= t.nextMedia
    && (forall k | k in t.categories :: 1 <= k < t.nextCategory)
    && (forall k | k in t.products :: 1 <= k < t.nextProduct)
    && (forall k | k in t.benefitCategories :: 1 <= k < t.nextBenefitCategory)
    && (forall k | k in t.benefits :: 1 <= k < t.nextBenefit)
    && (forall k | k in t.media :: 1 <= k < t.nextMedia)
    && (forall k | k in t.covers :: 1 <= k < t.nextProduct)
  }

  /** The foreign keys of the schema hold. */
  predicate ForeignKeysHold(t: Tables)
  {
    && (forall k | k in t.products :: t.products[k].kategori in t.categories)
    && (forall k | k in t.benefits && t.benefits[k].kb.Some? :: t.benefits[k].kb.value in t.benefitCategories)
    && (forall l | l in t.links :: l.0 in t.products && l.1 in t.benefits)
    && (forall k | k in t.media && t.media[k].owner.Some? :: t.media[k].owner.value in t.products)
  }

  predicate Consistent(t: Tables)
  {
    IdsBelowCounters(t) && ForeignKeysHold(t)
  }

  /** Two snapshots with the same tables and counters are the same. */
  lemma SnapshotOf(s: Tables, t: Tables)
    requires t.categories == s.categories && t.products == s.products && t.benefitCategories == s.benefitCategories
    requires t.benefits == s.benefits && t.links == s.links && t.media == s.media && t.covers == s.covers
    requires t.nextCategory == s.nextCategory && t.nextProduct == s.nextProduct && t.nextBenefitCategory == s.nextBenefitCategory
    requires t.nextBenefit == s.nextBenefit && t.nextMedia == s.nextMedia
    ensures t == s
  {
  }

  /** The tables after deleting category `id`, with the schema's `ON
      DELETE CASCADE`s: its products go, and with them their benefit links
      and the media rows they own. Cover rows have no foreign key and stay. */
  function CategoryDeleted(t: Tables, id: int): Tables
  {
    var products := map k | k in t.products && t.products[k].kategori != id :: t.products[k];
    t.(categories := t.categories - {id},
       products := products,
       links := (set l | l in t.links && l.0 in products),
       media := (map k | k in t.media && (t.media[k].owner.None? || t.media[k].owner.value in products) :: t.media[k]))
  }

  /** The tables after deleting product `id`, cascading to its benefit links
      and to the media rows it owns (`setup.js` declares the media foreign
      key `ON DELETE CASCADE`). Cover rows stay. */
  function ProductDeleted(t: Tables, id: int): Tables
  {
    t.(products := t.products - {id},
       links := (set l | l in t.links && l.0 != id),
       media := (map k | k in t.media && t.media[k].owner != Some(id) :: t.media[k]))
  }

  /** Removing rows (and nothing else) keeps every id below its counter;
      the foreign keys are then what needs checking. */
  lemma SubTablesBelow(t: Tables, r: Tables)
    requires IdsBelowCounters(t)
    requires r.categories.Keys <= t.categories.Keys && r.products.Keys <= t.products.Keys
    requires r.benefitCategories.Keys <= t.benefitCategories.Keys && r.benefits.Keys <= t.benefits.Keys
    requires r.media.Keys <= t.media.Keys && r.covers.Keys <= t.covers.Keys
    requires r.nextCategory == t.nextCategory && r.nextProduct == t.nextProduct && r.nextBenefitCategory == t.nextBenefitCategory
    requires r.nextBenefit == t.nextBenefit && r.nextMedia == t.nextMedia
    ensures IdsBelowCounters(r)
  {
  }

  /** The category cascade keeps every foreign key. */
  lemma CategoryDeletedConsistent(t: Tables, id: int)
    requires Consistent(t)
    ensures Consistent(CategoryDeleted(t, id))
  {
    var r := CategoryDeleted(t, id);
    SubTablesBelow(t, r);
    forall k | k in r.products ensures r.products[k].kategori in r.categories {
      assert r.products[k] == t.products[k];
    }
    forall k | k in r.media && r.media[k].owner.Some? ensures r.media[k].owner.value in r.products {
      assert r.media[k] == t.media[k];
    }
  }

  /** The product cascade keeps every foreign key. */
  lemma ProductDeletedConsistent(t: Tables, id: int)
    requires Consistent(t)
    ensures Consistent(ProductDeleted(t, id))
  {
    var r := ProductDeleted(t, id);
    SubTablesBelow(t, r);
    forall k | k in r.media && r.media[k].owner.Some? ensures r.media[k].owner.value in r.products {
      assert r.media[k] == t.media[k];
    }
  }

  /** `SELECT ... WHERE p LIMIT 1` on a table scanned in rowid order: the
      lowest id in `[lo, hi)` whose row satisfies `p`. */
  function FirstKey<V>(m: map<int, V>, p: V -> bool, lo: int, hi: int): (r: Option<int>)
    ensures r.Some? ==> lo <= r.value < hi && r.value in m && p(m[r.value])
    ensures r.Some? ==> forall k | lo <= k < r.value && k in m :: !p(m[k])
    ensures r.None? ==> forall k | lo <= k < hi && k in m :: !p(m[k])
    decreases hi - lo
  {
    if lo >= hi then None
    else if lo in m && p(m[lo]) then Some(lo)
    else FirstKey(m, p, lo + 1, hi)
  }

  /** `le` orders any two values one way or the other, transitively. */
  ghost predicate TotalPreorder<V(!new)>(le: (V, V) -> bool)
  {
    (forall a, b :: le(a, b) || le(b, a)) &&
    (forall a, b, c :: le(a, b) && le(b, c) ==> le(a, c))
  }

  /** `SELECT ... WHERE p LIMIT 1` answered from a scan of an index whose
      key orders rows by `le`: the first match in index order, that is a
      match no other match comes before, and among equal keys the lowest
      id (SQLite's index entries end with the rowid). */
  function FirstInOrder<V(!new)>(m: map<int, V>, p: V -> bool, le: (V, V) -> bool, lo: int, hi: int): (r: Option<int>)
    requires TotalPreorder(le)
    ensures r.Some? ==> lo <= r.value < hi && r.value in m && p(m[r.value])
    ensures r.None? ==> forall k | lo <= k < hi && k in m :: !p(m[k])
    ensures r.Some? ==> forall k | lo <= k < hi && k in m && p(m[k]) ::
      le(m[r.value], m[k]) && (le(m[k], m[r.value]) ==> r.value <= k)
    decreases hi - lo
  {
    if lo >= hi then None
    else
      var rest := FirstInOrder(m, p, le, lo + 1, hi);
      if lo in m && p(m[lo]) && (rest.None? || le(m[lo], m[rest.value])) then Some(lo) else rest
  }

  /** The sort key of `idx_kategori_benefit_unique(nama_kategori)`. */
  function NameOrder(): (string, string) -> bool { (a: string, b: string) => TextLe(a, b) }

  /** The sort key of `idx_kategori_unique(nama_kategori, sub_kategori)`. */
  function NameSubOrder(): (Category, Category) -> bool
  {
    (x: Category, y: Category) => NameSubLe(x.nama, x.sub, y.nama, y.sub)
  }

  lemma NameOrderIsPreorder()
    ensures TotalPreorder(NameOrder())
  {
    forall a: string, b: string
      ensures NameOrder()(a, b) || NameOrder()(b, a)
    {
      TextLeTotal(a, b);
    }
    forall a: string, b: string, c: string | NameOrder()(a, b) && NameOrder()(b, c)
      ensures NameOrder()(a, c)
    {
      TextLeTransitive(a, b, c);
    }
  }

  lemma NameSubOrderIsPreorder()
    ensures TotalPreorder(NameSubOrder())
  {
    forall x: Category, y: Category
      ensures NameSubOrder()(x, y) || NameSubOrder()(y, x)
    {
      NameSubLeTotal(x.nama, x.sub, y.nama, y.sub);
    }
    forall x: Category, y: Category, z: Category | NameSubOrder()(x, y) && NameSubOrder()(y, z)
      ensures NameSubOrder()(x, z)
    {
      NameSubLeTransitive(x.nama, x.sub, y.nama, y.sub, z.nama, z.sub);
    }
  }

  /** Text whose first character is greater comes after. */
  lemma FirstCharAfter(a: string, b: string)
    requires a != [] && b != [] && a[0] > b[0]
    ensures !TextLe(a, b)
  {
  }

  /** Text that agrees on the first character and is greater on the second
      comes after. */
  lemma SecondCharAfter(a: string, b: string)
    requires |a| >= 2 && |b| >= 2 && a[0] == b[0] && a[1] > b[1]
    ensures !TextLe(a, b)
  {
    assert a[1..][0] == a[1] && b[1..][0] == b[1];
  }

  /** `SELECT ... WHERE p ORDER BY id DESC LIMIT 1`: the highest id in
      `[lo, hi)` whose row satisfies `p`. */
  function LastKey<V>(m: map<int, V>, p: V -> bool, lo: int, hi: int): (r: Option<int>)
    ensures r.Some? ==> lo <= r.value < hi && r.value in m && p(m[r.value])
    ensures r.Some? ==> forall k | r.value < k < hi && k in m :: !p(m[k])
    ensures r.None? ==> forall k | lo <= k < hi && k in m :: !p(m[k])
    decreases hi - lo
  {
    if lo >= hi then None
    else if hi - 1 in m && p(m[hi - 1]) then Some(hi - 1)
    else LastKey(m, p, lo, hi - 1)
  }

  /** Adding rows with ids at or above the old upper bound does not change
      the first match below it. */
  lemma {:induction false} FirstKeyStable<V>(m: map<int, V>, m': map<int, V>, p: V -> bool, lo: int, hi: int, hi': int)
    requires hi <= hi'
    requires forall k | lo <= k < hi :: (k in m <==> k in m') && (k in m ==> m[k] == m'[k])
    requires FirstKey(m, p, lo, hi).Some?
    ensures FirstKey(m', p, lo, hi') == FirstKey(m, p, lo, hi)
    decreases hi - lo
  {
    if lo in m && p(m[lo]) {
    } else {
      FirstKeyStable(m, m', p, lo + 1, hi, hi');
    }
  }

  /** The key in `[lo, hi)` that `FirstKey` answers is the only candidate
      below which no row satisfies `p`. */
  lemma FirstKeyIs<V>(m: map<int, V>, p: V -> bool, lo: int, hi: int, j: int)
    requires lo <= j < hi && j in m && p(m[j])
    requires forall k | lo <= k < j && k in m :: !p(m[k])
    ensures FirstKey(m, p, lo, hi) == Some(j)
  {
  }

  /** `FirstKey` depends only on which rows satisfy the predicate. */
  lemma {:induction false} FirstKeySameMatches<V>(m: map<int, V>, m': map<int, V>, p: V -> bool, lo: int, hi: int)
    requires forall k | lo <= k < hi :: (k in m <==> k in m') && (k in m ==> p(m[k]) == p(m'[k]))
    ensures FirstKey(m', p, lo, hi) == FirstKey(m, p, lo, hi)
    decreases hi - lo
  {
    if lo < hi {
      FirstKeySameMatches(m, m', p, lo + 1, hi);
    }
  }

  /** `SELECT id FROM benefit WHERE benefit = ?` on the rows below `hi`. */
  function BenefitWithText(benefits: map<int, Benefit>, hi: int, text: string): (r: Option<int>)
    ensures r.Some? ==> 1 <= r.value < hi && r.value in benefits && benefits[r.value].text == text
    ensures r.Some? ==> forall k | 1 <= k < r.value && k in benefits :: benefits[k].text != text
    ensures r.None? ==> forall k | 1 <= k < hi && k in benefits :: benefits[k].text != text
  {
    FirstKey(benefits, HasText(text), 1, hi)
  }

  /** `lower(code_kategori) = lower(?)`. */
  predicate CodeMatches(c: Category, code: string)
  {
    c.code.Some? && Lower(c.code.value) == Lower(code)
  }

  /** `lower(nama_kategori) = lower(?) AND (sub_kategori IS ? OR
      lower(sub_kategori) = lower(?))` with the sub bound as `sub || null`:
      the names agree up to ASCII case, and the subs are both NULL or agree
      up to ASCII case. */
  predicate NameSubLike(c: Category, nama: string, sub: Option<string>)
  {
    Lower(c.nama) == Lower(nama) &&
    (if sub.None? then c.sub.None? else c.sub.Some? && Lower(c.sub.value) == Lower(sub.value))
  }

  // The WHERE clauses of the lookups, as row predicates.
  function HasCode(code: string): Category -> bool { (c: Category) => CodeMatches(c, code) }
  function HasNameSub(nama: string, sub: Option<string>): Category -> bool { (c: Category) => c.nama == nama && c.sub == sub }
  function LikeNameSub(nama: string, sub: Option<string>): Category -> bool { (c: Category) => NameSubLike(c, nama, sub) }
  function AnyName(): string -> bool { (n: string) => true }
  function IsName(nama: string): string -> bool { (n: string) => n == nama }
  function HasText(text: string): Benefit -> bool { (b: Benefit) => b.text == text }
  function OwnedBy(pid: int): Media -> bool { (m: Media) => m.owner == Some(pid) }

  class Db {
    var categories: map<int, Category>
    var products: map<int, Product>
    var benefitCategories: map<int, string>
    var benefits: map<int, Benefit>
    var links: set<(int, int)>
    var media: map<int, Media>
    var covers: map<int, int>
    var nextCategory: int
    var nextProduct: int
    var nextBenefitCategory: int
    var nextBenefit: int
    var nextMedia: int

    function Snapshot(): Tables
      reads this
    {
      Tables(categories, products, benefitCategories, benefits, links, media, covers,
             nextCategory, nextProduct, nextBenefitCategory, nextBenefit, nextMedia)
    }

    predicate Valid()
      reads this
    {
      Consistent(Snapshot())
    }

    /** An empty database. */
    constructor ()
      ensures categories == map[] && products == map[] && benefitCategories == map[]
      ensures benefits == map[] && links == {} && media == map[] && covers == map[]
      ensures Valid()
    {
      categories, products, benefitCategories, benefits := map[], map[], map[], map[];
      links, media, covers := {}, map[], map[];
      nextCategory, nextProduct, nextBenefitCategory, nextBenefit, nextMedia := 1, 1, 1, 1, 1;
    }

    /** Rolls back a transaction of the product route to the snapshot `s`
        taken at its start. Those transactions write only the product, link,
        media and cover tables and the product counter, so these are the
        ones put back; every other table already agrees with `s`. */
    method Restore(s: Tables)
      requires Consistent(s)
      requires s.categories == categories && s.benefitCategories == benefitCategories && s.benefits == benefits
      requires s.nextCategory == nextCategory && s.nextBenefitCategory == nextBenefitCategory
      requires s.nextBenefit == nextBenefit && s.nextMedia == nextMedia
      modifies this
      ensures Snapshot() == s
      ensures Valid()
    {
      products, links, media, covers, nextProduct := s.products, s.links, s.media, s.covers, s.nextProduct;
      SnapshotOf(s, Snapshot());
    }

    // ---- kategori_produk ----

    /** `SELECT id FROM kategori_produk WHERE lower(code_kategori) = lower(?)`. */
    function CategoryByCode(code: string): Option<int>
      reads this
    {
      FirstKey(categories, HasCode(code), 1, nextCategory)
    }

    /** `... WHERE nama_kategori = ? AND (sub_kategori IS ? OR sub_kategori = ?)`:
        an exact name match whose sub is the same value or both NULL. */
    function CategoryByNameSub(nama: string, sub: Option<string>): Option<int>
      reads this
    {
      FirstKey(categories, HasNameSub(nama, sub), 1, nextCategory)
    }

    /** The get-or-create lookup of the category route. Its WHERE clause
        cannot use an index, so SQLite scans the smaller covering index
        `idx_kategori_unique(nama_kategori, sub_kategori)`: the answer is the
        first match by name, then sub-category (NULL first), then id. */
    function CategoryLike(nama: string, sub: Option<string>): (r: Option<int>)
      reads this
      ensures r.None? <==> forall k | 1 <= k < nextCategory && k in categories :: !NameSubLike(categories[k], nama, sub)
      ensures r.Some? ==> 1 <= r.value < nextCategory && r.value in categories && NameSubLike(categories[r.value], nama, sub)
      ensures r.Some? ==> var c := categories[r.value];
        forall k | 1 <= k < nextCategory && k in categories && NameSubLike(categories[k], nama, sub) ::
          NameSubLe(c.nama, c.sub, categories[k].nama, categories[k].sub) &&
          (categories[k].nama == c.nama && categories[k].sub == c.sub ==> r.value <= k)
    {
      NameSubOrderIsPreorder();
      FirstInOrder(categories, LikeNameSub(nama, sub), NameSubOrder(), 1, nextCategory)
    }

    /** The same lookup with `AND id != ?`. */
    function OtherCategoryLike(id: int, nama: string, sub: Option<string>): Option<int>
      reads this
    {
      FirstKey(categories - {id}, LikeNameSub(nama, sub), 1, nextCategory)
    }

    method InsertCategory(c: Category) returns (id: int)
      requires Valid()
      modifies this
      ensures id == old(nextCategory) && id !in old(categories)
      ensures Snapshot() == old(Snapshot()).(categories := old(categories)[id := c], nextCategory := id + 1)
      ensures Valid()
    {
      id := nextCategory;
      categories := categories[id := c];
      nextCategory := id + 1;
    }

    /** `UPDATE kategori_produk SET ... WHERE id = ?`: no row, no change. */
    method UpdateCategory(id: int, c: Category)
      requires Valid()
      modifies this
      ensures Snapshot() == old(Snapshot()).(categories := if id in old(categories) then old(categories)[id := c] else old(categories))
      ensures Valid()
    {
      if id in categories {
        categories := categories[id := c];
      }
    }

    /** `DELETE FROM kategori_produk WHERE id = ?`: the tables become
        `CategoryDeleted` of what they were. */
    method DeleteCategory(id: int)
      requires Valid()
      modifies this
      ensures Snapshot() == CategoryDeleted(old(Snapshot()), id)
      ensures Valid()
    {
      var t := CategoryDeleted(Snapshot(), id);
      CategoryDeletedConsistent(Snapshot(), id);
      categories, products, links, media := t.categories, t.products, t.links, t.media;
      SnapshotOf(t, Snapshot());
    }

    // ---- produk ----

    /** `INSERT INTO produk`; the category must exist. */
    method InsertProduct(p: Product) returns (r: Result<int>)
      requires Valid()
      modifies this
      ensures p.kategori !in old(categories) ==> r.Throw? && Snapshot() == old(Snapshot())
      ensures p.kategori in old(categories) ==>
        r == Ok(old(nextProduct)) && old(nextProduct) !in old(products) &&
        Snapshot() == old(Snapshot()).(products := old(products)[old(nextProduct) := p], nextProduct := old(nextProduct) + 1)
      ensures Valid()
    {
      if p.kategori !in categories {
        return Throw("FOREIGN KEY constraint failed");
      }
      var id := nextProduct;
      products := products[id := p];
      nextProduct := id + 1;
      r := Ok(id);
    }

    /** `UPDATE produk SET ... WHERE id = ?` with the new row; no row, no
        change and no constraint check. */
    method UpdateProduct(id: int, p: Product) returns (r: Result<()>)
      requires Valid()
      modifies this
      ensures id in old(products) && p.kategori !in old(categories) ==> r.Throw? && Snapshot() == old(Snapshot())
      ensures id !in old(products) ==> r.Ok? && Snapshot() == old(Snapshot())
      ensures id in old(products) && p.kategori in old(categories) ==>
        r.Ok? && Snapshot() == old(Snapshot()).(products := old(products)[id := p])
      ensures Valid()
    {
      if id !in products {
        return Ok(());
      }
      if p.kategori !in categories {
        return Throw("FOREIGN KEY constraint failed");
      }
      products := products[id := p];
      r := Ok(());
    }

    /** `DELETE FROM produk WHERE id = ?`: the tables become
        `ProductDeleted` of what they were. */
    method DeleteProduct(id: int)
      requires Valid()
      modifies this
      ensures Snapshot() == ProductDeleted(old(Snapshot()), id)
      ensures Valid()
    {
      var t := ProductDeleted(Snapshot(), id);
      ProductDeletedConsistent(Snapshot(), id);
      products, links, media := t.products, t.links, t.media;
      SnapshotOf(t, Snapshot());
    }

    // ---- kategori_benefit and benefit ----

    /** `SELECT id FROM kategori_benefit LIMIT 1`. SQLite answers it from a
        scan of the covering index `idx_kategori_benefit_unique(nama_kategori)`,
        so the default is the category whose name comes first in text order
        (lowest id among equal names), not the oldest row. */
    function AnyBenefitCategory(): (r: Option<int>)
      reads this
      ensures r.None? <==> forall k | 1 <= k < nextBenefitCategory :: k !in benefitCategories
      ensures r.Some? ==> 1 <= r.value < nextBenefitCategory && r.value in benefitCategories
      ensures r.Some? ==> forall k | 1 <= k < nextBenefitCategory && k in benefitCategories ::
        TextLe(benefitCategories[r.value], benefitCategories[k]) &&
        (benefitCategories[k] == benefitCategories[r.value] ==> r.value <= k)
    {
      NameOrderIsPreorder();
      FirstInOrder(benefitCategories, AnyName(), NameOrder(), 1, nextBenefitCategory)
    }

    /** On the four seeded benefit categories, inserted in this order, the
        default is the second row, whose name sorts first. */
    lemma SeededDefaultBenefitCategory()
      requires benefitCategories == map[1 := "Makeup & Busana", 2 := "Dekorasi & Perlengkapan", 3 := "Dokumentasi", 4 := "Entertainment"]
      requires nextBenefitCategory == 5
      ensures AnyBenefitCategory() == Some(2)
    {
      var m := benefitCategories;
      var first := m[2];
      assert first == "Dekorasi & Perlengkapan";
      assert first[0] == 'D' && first[1] == 'e' && |first| >= 2;
      assert m[1][0] == 'M' && m[4][0] == 'E';
      assert m[3][0] == 'D' && m[3][1] == 'o' && |m[3]| >= 2;
      FirstCharAfter(m[1], first);
      SecondCharAfter(m[3], first);
      FirstCharAfter(m[4], first);
      var r := AnyBenefitCategory();
      assert r.Some? && 1 <= r.value < 5 by { assert 1 <= 2 < nextBenefitCategory && 2 in m; }
      assert TextLe(m[r.value], first);
    }

    /** `SELECT id FROM kategori_benefit WHERE nama_kategori = ?`. */
    function BenefitCategoryByName(nama: string): Option<int>
      reads this
    {
      FirstKey(benefitCategories, IsName(nama), 1, nextBenefitCategory)
    }

    method InsertBenefitCategory(nama: string) returns (id: int)
      requires Valid()
      modifies this
      ensures id == old(nextBenefitCategory) && id !in old(benefitCategories)
      ensures Snapshot() == old(Snapshot()).(benefitCategories := old(benefitCategories)[id := nama], nextBenefitCategory := id + 1)
      ensures Valid()
    {
      id := nextBenefitCategory;
      benefitCategories := benefitCategories[id := nama];
      nextBenefitCategory := id + 1;
    }

    /** `SELECT id FROM benefit WHERE benefit = ?`. */
    function BenefitByText(text: string): Option<int>
      reads this
    {
      BenefitWithText(benefits, nextBenefit, text)
    }

    /** `INSERT [OR IGNORE] INTO benefit`: the text column has no unique
        constraint, so the row is always added unless the category is
        missing (a foreign-key failure, which OR IGNORE does not cover). */
    method InsertBenefit(text: string, kb: int) returns (r: Result<int>)
      requires Valid()
      modifies this
      ensures kb !in old(benefitCategories) ==> r.Throw? && Snapshot() == old(Snapshot())
      ensures kb in old(benefitCategories) ==>
        r == Ok(old(nextBenefit)) && old(nextBenefit) !in old(benefits) &&
        Snapshot() == old(Snapshot()).(benefits := old(benefits)[old(nextBenefit) := Benefit(text, Some(kb))], nextBenefit := old(nextBenefit) + 1)
      ensures Valid()
    {
      if kb !in benefitCategories {
        return Throw("FOREIGN KEY constraint failed");
      }
      var id := nextBenefit;
      benefits := benefits[id := Benefit(text, Some(kb))];
      nextBenefit := id + 1;
      r := Ok(id);
    }

    /** `UPDATE benefit SET ... WHERE id = ?` with the new row. */
    method UpdateBenefit(id: int, b: Benefit) returns (r: Result<()>)
      requires Valid()
      modifies this
      ensures id !in old(benefits) ==> r.Ok? && Snapshot() == old(Snapshot())
      ensures id in old(benefits) && b.kb.Some? && b.kb.value !in old(benefitCategories) ==> r.Throw? && Snapshot() == old(Snapshot())
      ensures id in old(benefits) && (b.kb.None? || b.kb.value in old(benefitCategories)) ==>
        r.Ok? && Snapshot() == old(Snapshot()).(benefits := old(benefits)[id := b])
      ensures Valid()
    {
      if id !in benefits {
        return Ok(());
      }
      if b.kb.Some? && b.kb.value !in benefitCategories {
        return Throw("FOREIGN KEY constraint failed");
      }
      benefits := benefits[id := b];
      r := Ok(());
    }

    /** `UPDATE benefit SET kategori_benefit_id = ? WHERE kategori_benefit_id IS NULL`. */
    method BackfillBenefitCategory(kb: int)
      requires Valid() && kb in benefitCategories
      modifies this
      ensures benefits == map k | k in old(benefits) :: if old(benefits)[k].kb.None? then old(benefits)[k].(kb := Some(kb)) else old(benefits)[k]
      ensures Snapshot() == old(Snapshot()).(benefits := benefits)
      ensures Valid()
    {
      benefits := map k | k in benefits :: if benefits[k].kb.None? then benefits[k].(kb := Some(kb)) else benefits[k];
    }

    /** `DELETE FROM benefit WHERE id = ?`, cascading to its links. */
    method DeleteBenefit(id: int)
      requires Valid()
      modifies this
      ensures benefits == old(benefits) - {id}
      ensures links == set l | l in old(links) && l.1 != id
      ensures Snapshot() == old(Snapshot()).(benefits := benefits, links := links)
      ensures Valid()
    {
      benefits := benefits - {id};
      links := set l | l in links && l.1 != id;
    }

    // ---- produk_benefit ----

    /** `DELETE FROM produk_benefit WHERE produk_id = ?`. */
    method DeleteLinksOfProduct(pid: int)
      requires Valid()
      modifies this
      ensures links == set l | l in old(links) && l.0 != pid
      ensures Snapshot() == old(Snapshot()).(links := links)
      ensures Valid()
    {
      links := set l | l in links && l.0 != pid;
    }

    /** `DELETE FROM produk_benefit WHERE benefit_id = ?`. */
    method DeleteLinksOfBenefit(bid: int)
      requires Valid()
      modifies this
      ensures links == set l | l in old(links) && l.1 != bid
      ensures Snapshot() == old(Snapshot()).(links := links)
      ensures Valid()
    {
      links := set l | l in links && l.1 != bid;
    }

    /** `INSERT OR IGNORE INTO produk_benefit`: a pair already present is
        ignored (primary key), a missing product or benefit throws. */
    method InsertLinkOrIgnore(pid: int, bid: int) returns (r: Result<()>)
      requires Valid()
      modifies this
      ensures pid in old(products) && bid in old(benefits) <==> r.Ok?
      ensures r.Ok? ==> Snapshot() == old(Snapshot()).(links := old(links) + {(pid, bid)})
      ensures r.Throw? ==> Snapshot() == old(Snapshot())
      ensures Valid()
    {
      if pid !in products || bid !in benefits {
        return Throw("FOREIGN KEY constraint failed");
      }
      links := links + {(pid, bid)};
      r := Ok(());
    }

    // ---- media ----

    method InsertMedia(owner: Option<int>, path: string) returns (r: Result<int>)
      requires Valid()
      modifies this
      ensures owner.Some? && owner.value !in old(products) ==> r.Throw? && Snapshot() == old(Snapshot())
      ensures owner.None? || owner.value in old(products) ==>
        r == Ok(old(nextMedia)) && old(nextMedia) !in old(media) &&
        Snapshot() == old(Snapshot()).(media := old(media)[old(nextMedia) := Media(owner, path)], nextMedia := old(nextMedia) + 1)
      ensures Valid()
    {
      if owner.Some? && owner.value !in products {
        return Throw("FOREIGN KEY constraint failed");
      }
      var id := nextMedia;
      media := media[id := Media(owner, path)];
      nextMedia := id + 1;
      r := Ok(id);
    }

    /** `UPDATE media SET ... WHERE id = ?` with the new row. */
    method UpdateMedia(id: int, m: Media) returns (r: Result<()>)
      requires Valid()
      modifies this
      ensures id !in old(media) ==> r.Ok? && Snapshot() == old(Snapshot())
      ensures id in old(media) && m.owner.Some? && m.owner.value !in old(products) ==> r.Throw? && Snapshot() == old(Snapshot())
      ensures id in old(media) && (m.owner.None? || m.owner.value in old(products)) ==>
        r.Ok? && Snapshot() == old(Snapshot()).(media := old(media)[id := m])
      ensures Valid()
    {
      if id !in media {
        return Ok(());
      }
      if m.owner.Some? && m.owner.value !in products {
        return Throw("FOREIGN KEY constraint failed");
      }
      media := media[id := m];
      r := Ok(());
    }

    /** `UPDATE media SET produk_id = ? WHERE id = ?`. */
    method SetMediaOwner(id: int, owner: Option<int>) returns (r: Result<()>)
      requires Valid()
      modifies this
      ensures id !in old(media) ==> r.Ok? && Snapshot() == old(Snapshot())
      ensures id in old(media) && owner.Some? && owner.value !in old(products) ==> r.Throw? && Snapshot() == old(Snapshot())
      ensures id in old(media) && (owner.None? || owner.value in old(products)) ==>
        r.Ok? && Snapshot() == old(Snapshot()).(media := old(media)[id := old(media)[id].(owner := owner)])
      ensures Valid()
    {
      if id in media {
        r := UpdateMedia(id, media[id].(owner := owner));
      } else {
        r := Ok(());
      }
    }

    /** `DELETE FROM media WHERE id = ?`; cover rows are not touched. */
    method DeleteMedia(id: int)
      requires Valid()
      modifies this
      ensures Snapshot() == old(Snapshot()).(media := old(media) - {id})
      ensures Valid()
    {
      media := media - {id};
    }

    /** `SELECT id FROM media WHERE produk_id = ? ORDER BY id DESC LIMIT 1`. */
    function NewestMediaOf(pid: int): Option<int>
      reads this
    {
      LastKey(media, OwnedBy(pid), 1, nextMedia)
    }

    // ---- cover_media ----

    /** `DELETE FROM cover_media WHERE produk_id = ?`. */
    method DeleteCover(pid: int)
      requires Valid()
      modifies this
      ensures Snapshot() == old(Snapshot()).(covers := old(covers) - {pid})
      ensures Valid()
    {
      covers := covers - {pid};
    }

    /** `DELETE FROM cover_media WHERE produk_id = ? AND media_id = ?`. */
    method DeleteCoverPair(pid: int, mid: int)
      requires Valid()
      modifies this
      ensures Snapshot() == old(Snapshot()).(covers := if pid in old(covers) && old(covers)[pid] == mid then old(covers) - {pid} else old(covers))
      ensures Valid()
    {
      if pid in covers && covers[pid] == mid {
        covers := covers - {pid};
      }
    }

    /** `INSERT INTO cover_media (produk_id, media_id)` for a product that has
        no cover row yet. */
    method InsertCover(pid: int, mid: int)
      requires Valid() && pid in products && pid !in covers
      modifies this
      ensures Snapshot() == old(Snapshot()).(covers := old(covers)[pid := mid])
      ensures Valid()
    {
      covers := covers[pid := mid];
    }

    /** `INSERT INTO cover_media ... ON CONFLICT(produk_id) DO UPDATE`: the
        product ends with exactly one cover row. */
    method UpsertCover(pid: int, mid: int)
      requires Valid() && pid in products
      modifies this
      ensures Snapshot() == old(Snapshot()).(covers := old(covers)[pid := mid])
      ensures Valid()
    {
      covers := covers[pid := mid];
    }
  }
}
