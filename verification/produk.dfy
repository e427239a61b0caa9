/** The product route (`app/api/produk/route.js`): get-or-create of the
    product's category, get-or-create of its benefits, the per-product cover
    pointer, and the POST/PUT/DELETE handlers that combine them with the
    benefit links and the media ownership updates. */
module ProdukRoute {
  import opened Common
  import opened Store
  import opened ProdukNames
  import opened BenefitRoute

  // ---- ensureCategoryId ----

  /** The category fields of a request body. `code` and `desc` are `None`
      when the field is falsy. */
  datatype CategoryInput = CategoryInput(id: Field<int>, nama: Field<string>, sub: Option<string>, code: Option<string>, desc: Option<string>)

  /** `nama_kategori ? String(nama_kategori).trim() : ''`. */
  function CategoryName(c: CategoryInput): string
  {
    if Falsy(c.nama) then "" else Trim(c.nama.value)
  }

  /** The trimmed sub-category, with an empty one read as NULL. */
  function SubValue(sub: Option<string>): (r: Option<string>)
    ensures r.Some? ==> r.value != [] && sub.Some? && r.value == Trim(sub.value)
    ensures r.None? ==> sub.None? || IsBlank(sub.value)
  {
    if sub.Some? && Trim(sub.value) != [] then Some(Trim(sub.value)) else None
  }

  function CategoryCode(c: CategoryInput): string
  {
    NormalizeKategoriCode(c.code, CategoryName(c), SubValue(c.sub))
  }

  function CategoryDescription(c: CategoryInput): string
  {
    NormalizeKategoriDescription(c.desc, CategoryName(c), SubValue(c.sub))
  }

  /** The second half of `ensureCategoryId`, reached when no row has the
      code: the row with the same name and sub gets the code and description
      (the statement runs when either differs, and with no code match the
      code always differs), or a new row is inserted. Either way the code
      lookup then finds the answered row. */
  method RepairOrInsertCategory(db: Db, nama: string, sub: Option<string>, code: string, desc: string) returns (id: int)
    requires db.Valid() && db.CategoryByCode(code).None?
    modifies db
    ensures id in db.categories && db.CategoryByCode(code) == Some(id)
    ensures old(db.CategoryByNameSub(nama, sub)).Some? ==>
      id == old(db.CategoryByNameSub(nama, sub)).value &&
      db.Snapshot() == old(db.Snapshot()).(categories := old(db.categories)[id := old(db.categories)[id].(code := Some(code), desc := Some(desc))])
    ensures old(db.CategoryByNameSub(nama, sub)).None? ==>
      id == old(db.nextCategory) &&
      db.Snapshot() == old(db.Snapshot()).(categories := old(db.categories)[id := Category(nama, sub, Some(code), Some(desc))], nextCategory := id + 1)
    ensures db.Valid()
  {
    var sel := db.CategoryByNameSub(nama, sub);
    if sel.Some? {
      id := sel.value;
      var row := db.categories[id];
      if row.code != Some(code) || row.desc != Some(desc) {
        db.UpdateCategory(id, row.(code := Some(code), desc := Some(desc)));
      }
    } else {
      id := db.InsertCategory(Category(nama, sub, Some(code), Some(desc)));
    }
    FirstKeyIs(db.categories, HasCode(code), 1, db.nextCategory, id);
  }

  /** `ensureCategoryId`: a truthy id is answered as it is; a blank name
      throws; a row whose code matches case-insensitively is answered
      untouched; a row with the same name and sub has its code and
      description rewritten; otherwise one row is inserted. At most one row
      is written, and afterwards the code lookup finds the answered row, so a
      second call with the same input answers the same id and writes
      nothing. */
  method EnsureCategoryId(db: Db, c: CategoryInput) returns (r: Result<int>)
    requires db.Valid()
    modifies db
    ensures Truthy(c.id) ==> r == Ok(c.id.value) && db.Snapshot() == old(db.Snapshot())
    ensures !Truthy(c.id) && CategoryName(c) == [] ==> r == Throw("nama_kategori required") && db.Snapshot() == old(db.Snapshot())
    ensures !Truthy(c.id) && CategoryName(c) != [] ==>
      r.Ok? && r.value in db.categories && db.CategoryByCode(CategoryCode(c)) == Some(r.value)
    ensures !Truthy(c.id) && CategoryName(c) != [] && old(db.CategoryByCode(CategoryCode(c))).Some? ==>
      r == Ok(old(db.CategoryByCode(CategoryCode(c))).value) && db.Snapshot() == old(db.Snapshot())
    ensures (!Truthy(c.id) && CategoryName(c) != [] && old(db.CategoryByCode(CategoryCode(c))).None? &&
             old(db.CategoryByNameSub(CategoryName(c), SubValue(c.sub))).Some?) ==>
      var k := old(db.CategoryByNameSub(CategoryName(c), SubValue(c.sub))).value;
      r == Ok(k) &&
      db.Snapshot() == old(db.Snapshot()).(categories := old(db.categories)[k := old(db.categories)[k].(code := Some(CategoryCode(c)), desc := Some(CategoryDescription(c)))])
    ensures (!Truthy(c.id) && CategoryName(c) != [] && old(db.CategoryByCode(CategoryCode(c))).None? &&
             old(db.CategoryByNameSub(CategoryName(c), SubValue(c.sub))).None?) ==>
      r == Ok(old(db.nextCategory)) &&
      db.Snapshot() == old(db.Snapshot()).(
        categories := old(db.categories)[old(db.nextCategory) := Category(CategoryName(c), SubValue(c.sub), Some(CategoryCode(c)), Some(CategoryDescription(c)))],
        nextCategory := old(db.nextCategory) + 1)
    ensures db.Valid()
  {
    if Truthy(c.id) {
      return Ok(c.id.value);
    }
    var nama := CategoryName(c);
    if nama == [] {
      return Throw("nama_kategori required");
    }
    var subValue := SubValue(c.sub);
    var code := NormalizeKategoriCode(c.code, nama, subValue);
    var description := NormalizeKategoriDescription(c.desc, nama, subValue);
    var byCode := db.CategoryByCode(code);
    if byCode.Some? {
      return Ok(byCode.value);
    }
    var id := RepairOrInsertCategory(db, nama, subValue, code, description);
    r := Ok(id);
  }

  // ---- ensureBenefitIds ----

  /** One element of a `benefits` array: null, a number, or a text. */
  datatype BenefitItem = NullItem | Num(n: int) | Text(s: string)

  /** The ids one element stands for, once every text has a row: nothing for
      null and '', the number itself, or the lowest-id row with the text. */
  function ResolveItem(item: BenefitItem, benefits: map<int, Benefit>, hi: int): seq<int>
  {
    match item
    case NullItem => []
    case Num(n) => [n]
    case Text(t) =>
      if t == [] then []
      else
        var f := BenefitWithText(benefits, hi, t);
        if f.Some? then [f.value] else []
  }

  /** The ids a whole list stands for, in order; never longer than the list. */
  function ResolveAll(items: seq<BenefitItem>, benefits: map<int, Benefit>, hi: int): (ids: seq<int>)
    ensures |ids| <= |items|
  {
    if items == [] then []
    else ResolveAll(items[..|items| - 1], benefits, hi) + ResolveItem(items[|items| - 1], benefits, hi)
  }

  /** Every non-empty text of the list has a row below `hi`. */
  predicate TextsResolved(items: seq<BenefitItem>, benefits: map<int, Benefit>, hi: int)
  {
    forall j | 0 <= j < |items| && items[j].Text? && items[j].s != [] :: BenefitWithText(benefits, hi, items[j].s).Some?
  }

  /** Once every text of the list has a row, adding rows at or above `hi`
      does not change what the list stands for. */
  lemma {:induction false} ResolveAllStable(items: seq<BenefitItem>, m: map<int, Benefit>, hi: int, m': map<int, Benefit>, hi': int)
    requires hi <= hi'
    requires forall k | 1 <= k < hi :: (k in m <==> k in m') && (k in m ==> m[k] == m'[k])
    requires TextsResolved(items, m, hi)
    ensures ResolveAll(items, m', hi') == ResolveAll(items, m, hi)
  {
    if items != [] {
      var init := items[..|items| - 1];
      assert TextsResolved(init, m, hi) by {
        forall j | 0 <= j < |init| && init[j].Text? && init[j].s != [] ensures BenefitWithText(m, hi, init[j].s).Some? {
          assert init[j] == items[j];
        }
      }
      ResolveAllStable(init, m, hi, m', hi');
      var last := items[|items| - 1];
      if last.Text? && last.s != [] {
        FirstKeyStable(m, m', HasText(last.s), 1, hi, hi');
      }
    }
  }

  lemma TextsResolvedSnoc(items: seq<BenefitItem>, i: nat, m: map<int, Benefit>, hi: int)
    requires i < |items| && TextsResolved(items[..i], m, hi)
    requires items[i].Text? && items[i].s != [] ==> BenefitWithText(m, hi, items[i].s).Some?
    ensures TextsResolved(items[..i + 1], m, hi)
  {
    var pre := items[..i + 1];
    forall j | 0 <= j < |pre| && pre[j].Text? && pre[j].s != [] ensures BenefitWithText(m, hi, pre[j].s).Some? {
      if j < i {
        assert pre[j] == items[..i][j];
      }
    }
  }

  lemma TextsResolvedStable(items: seq<BenefitItem>, m: map<int, Benefit>, hi: int, m': map<int, Benefit>, hi': int)
    requires TextsResolved(items, m, hi)
    requires forall t | BenefitWithText(m, hi, t).Some? :: BenefitWithText(m', hi', t) == BenefitWithText(m, hi, t)
    ensures TextsResolved(items, m', hi')
  {
    forall j | 0 <= j < |items| && items[j].Text? && items[j].s != [] ensures BenefitWithText(m', hi', items[j].s).Some? {
      assert BenefitWithText(m, hi, items[j].s).Some?;
    }
  }

  /** Adding a row for a text that had none: the row is what the text now
      looks up, and every text that had a row keeps it. */
  lemma InsertedTextLookup(m: map<int, Benefit>, hi: int, v: Benefit)
    requires 1 <= hi && forall k | k in m :: 1 <= k < hi
    requires BenefitWithText(m, hi, v.text).None?
    ensures BenefitWithText(m[hi := v], hi + 1, v.text) == Some(hi)
    ensures forall t | BenefitWithText(m, hi, t).Some? :: BenefitWithText(m[hi := v], hi + 1, t) == BenefitWithText(m, hi, t)
  {
    var m' := m[hi := v];
    assert hi in m' && m'[hi].text == v.text;
    assert forall k | 1 <= k < hi && k in m' :: k in m && m'[k] == m[k];
    forall t | BenefitWithText(m, hi, t).Some? ensures BenefitWithText(m', hi + 1, t) == BenefitWithText(m, hi, t) {
      var k := BenefitWithText(m, hi, t).value;
      assert k in m' && m'[k].text == t;
    }
  }

  /** How the benefit table `m` (counter `hi`) has grown from `start`
      (counter `startNext`) while resolving `items`: old rows are kept with
      their lookups, and every new row carries category `kb`, holds a text of
      `items` that had no row, and is what that text now looks up. */
  ghost predicate Extends(start: map<int, Benefit>, startNext: int, m: map<int, Benefit>, hi: int, kb: Option<int>, items: seq<BenefitItem>)
  {
    && startNext <= hi
    && (forall k | k in start :: k in m && m[k] == start[k])
    && (forall t | BenefitWithText(start, startNext, t).Some? :: BenefitWithText(m, hi, t) == BenefitWithText(start, startNext, t))
    && (forall k | k in m && k !in start ::
          m[k].kb == kb && Text(m[k].text) in items &&
          BenefitWithText(start, startNext, m[k].text).None? && BenefitWithText(m, hi, m[k].text) == Some(k))
  }

  lemma ExtendsWiden(start: map<int, Benefit>, startNext: int, m: map<int, Benefit>, hi: int, kb: Option<int>, items: seq<BenefitItem>, more: BenefitItem)
    requires Extends(start, startNext, m, hi, kb, items)
    ensures Extends(start, startNext, m, hi, kb, items + [more])
  {
    forall k | k in m && k !in start ensures Text(m[k].text) in items + [more] {
      assert Text(m[k].text) in items;
    }
  }

  lemma ExtendsInsert(start: map<int, Benefit>, startNext: int, m: map<int, Benefit>, hi: int, kb: int, items: seq<BenefitItem>, t: string)
    requires Extends(start, startNext, m, hi, Some(kb), items)
    requires 1 <= hi && forall k | k in m :: 1 <= k < hi
    requires BenefitWithText(m, hi, t).None? && Text(t) in items
    ensures hi !in m
    ensures Extends(start, startNext, m[hi := Benefit(t, Some(kb))], hi + 1, Some(kb), items)
    ensures BenefitWithText(m[hi := Benefit(t, Some(kb))], hi + 1, t) == Some(hi)
    ensures forall u | BenefitWithText(m, hi, u).Some? :: BenefitWithText(m[hi := Benefit(t, Some(kb))], hi + 1, u) == BenefitWithText(m, hi, u)
  {
    var v := Benefit(t, Some(kb));
    var m' := m[hi := v];
    InsertedTextLookup(m, hi, v);
    assert BenefitWithText(start, startNext, t).None?;
    forall k | k in m' && k !in start
      ensures m'[k].kb == Some(kb) && Text(m'[k].text) in items
      ensures BenefitWithText(start, startNext, m'[k].text).None? && BenefitWithText(m', hi + 1, m'[k].text) == Some(k)
    {
      if k != hi {
        assert BenefitWithText(m, hi, m[k].text) == Some(k);
      }
    }
  }

  /** Adding a row for a text that had none leaves what already-resolved
      items stand for unchanged. */
  lemma InsertKeepsResolved(m: map<int, Benefit>, hi: int, v: Benefit, done: seq<BenefitItem>)
    requires TextsResolved(done, m, hi)
    requires 1 <= hi && forall k | k in m :: 1 <= k < hi
    requires BenefitWithText(m, hi, v.text).None?
    ensures TextsResolved(done, m[hi := v], hi + 1)
    ensures ResolveAll(done, m[hi := v], hi + 1) == ResolveAll(done, m, hi)
  {
    InsertedTextLookup(m, hi, v);
    assert forall k | 1 <= k < hi :: (k in m <==> k in m[hi := v]) && (k in m ==> m[k] == m[hi := v][k]);
    ResolveAllStable(done, m, hi, m[hi := v], hi + 1);
    TextsResolvedStable(done, m, hi, m[hi := v], hi + 1);
  }

  lemma InsertKeeps(start: map<int, Benefit>, startNext: int, m: map<int, Benefit>, hi: int, kb: int,
                    items: seq<BenefitItem>, done: seq<BenefitItem>, t: string)
    requires Extends(start, startNext, m, hi, Some(kb), items) && TextsResolved(done, m, hi)
    requires 1 <= hi && forall k | k in m :: 1 <= k < hi
    requires BenefitWithText(m, hi, t).None? && Text(t) in items
    ensures Extends(start, startNext, m[hi := Benefit(t, Some(kb))], hi + 1, Some(kb), items)
    ensures BenefitWithText(m[hi := Benefit(t, Some(kb))], hi + 1, t) == Some(hi)
    ensures TextsResolved(done, m[hi := Benefit(t, Some(kb))], hi + 1)
    ensures ResolveAll(done, m[hi := Benefit(t, Some(kb))], hi + 1) == ResolveAll(done, m, hi)
  {
    ExtendsInsert(start, startNext, m, hi, kb, items, t);
    InsertKeepsResolved(m, hi, Benefit(t, Some(kb)), done);
  }

  /** One text of `ensureBenefitIds`: the row that has it, or a new row with
      the default category when none has. The items already walked keep the
      ids they stand for. */
  method StoreText(db: Db, t: string, kb: int, ghost start: map<int, Benefit>, ghost startNext: int,
                   ghost items: seq<BenefitItem>, ghost done: seq<BenefitItem>) returns (id: int)
    requires db.Valid() && kb in db.benefitCategories && Text(t) in items
    requires Extends(start, startNext, db.benefits, db.nextBenefit, Some(kb), items)
    requires TextsResolved(done, db.benefits, db.nextBenefit)
    modifies db
    ensures db.Snapshot() == old(db.Snapshot()).(benefits := db.benefits, nextBenefit := db.nextBenefit)
    ensures Extends(start, startNext, db.benefits, db.nextBenefit, Some(kb), items)
    ensures db.BenefitByText(t) == Some(id)
    ensures TextsResolved(done, db.benefits, db.nextBenefit)
    ensures ResolveAll(done, db.benefits, db.nextBenefit) == old(ResolveAll(done, db.benefits, db.nextBenefit))
    ensures db.Valid()
  {
    var existing := db.BenefitByText(t);
    if existing.None? {
      id := InsertText(db, t, kb, start, startNext, items, done);
    } else {
      id := existing.value;
    }
  }

  /** The text has no row yet: insert one with the default category. */
  method InsertText(db: Db, t: string, kb: int, ghost start: map<int, Benefit>, ghost startNext: int,
                    ghost items: seq<BenefitItem>, ghost done: seq<BenefitItem>) returns (id: int)
    requires db.Valid() && kb in db.benefitCategories && Text(t) in items
    requires db.BenefitByText(t).None?
    requires Extends(start, startNext, db.benefits, db.nextBenefit, Some(kb), items)
    requires TextsResolved(done, db.benefits, db.nextBenefit)
    modifies db
    ensures db.Snapshot() == old(db.Snapshot()).(benefits := db.benefits, nextBenefit := db.nextBenefit)
    ensures Extends(start, startNext, db.benefits, db.nextBenefit, Some(kb), items)
    ensures db.BenefitByText(t) == Some(id)
    ensures TextsResolved(done, db.benefits, db.nextBenefit)
    ensures ResolveAll(done, db.benefits, db.nextBenefit) == old(ResolveAll(done, db.benefits, db.nextBenefit))
    ensures db.Valid()
  {
    ghost var m, hi := db.benefits, db.nextBenefit;
    InsertKeeps(start, startNext, m, hi, kb, items, done, t);
    var ins := db.InsertBenefit(t, kb);
    assert db.benefits == m[hi := Benefit(t, Some(kb))] && db.nextBenefit == hi + 1;
    id := ins.value;
  }

  /** One turn of the `ensureBenefitIds` loop: item `i` is resolved and
      appended, and the table keeps growing as `Extends` allows. */
  method ResolveNext(db: Db, items: seq<BenefitItem>, i: nat, kb: int, ghost mid: Tables, ids: seq<int>) returns (ids': seq<int>)
    requires i < |items| && db.Valid() && kb in db.benefitCategories
    requires Extends(mid.benefits, mid.nextBenefit, db.benefits, db.nextBenefit, Some(kb), items[..i])
    requires TextsResolved(items[..i], db.benefits, db.nextBenefit)
    requires ids == ResolveAll(items[..i], db.benefits, db.nextBenefit)
    modifies db
    ensures db.Snapshot() == old(db.Snapshot()).(benefits := db.benefits, nextBenefit := db.nextBenefit)
    ensures Extends(mid.benefits, mid.nextBenefit, db.benefits, db.nextBenefit, Some(kb), items[..i + 1])
    ensures TextsResolved(items[..i + 1], db.benefits, db.nextBenefit)
    ensures ids' == ResolveAll(items[..i + 1], db.benefits, db.nextBenefit)
    ensures db.Valid()
  {
    var item := items[i];
    assert items[..i + 1] == items[..i] + [item];
    assert items[..i + 1][..i] == items[..i];
    ExtendsWiden(mid.benefits, mid.nextBenefit, db.benefits, db.nextBenefit, Some(kb), items[..i], item);
    ids' := ids;
    if item.Text? && item.s != [] {
      var id := StoreText(db, item.s, kb, mid.benefits, mid.nextBenefit, items[..i + 1], items[..i]);
      ids' := ids + [id];
    } else if item.Num? {
      ids' := ids + [item.n];
    }
    TextsResolvedSnoc(items, i, db.benefits, db.nextBenefit);
  }

  /** `ensureBenefitIds`: ensures a default benefit category, then walks the
      list. Null and '' are skipped, numbers are kept, a text is looked up by
      exact match and inserted (with the default category) only when no row
      has it. Rows that existed keep their contents and their lookups; each
      new row is the only row with its text, which came from the list. */
  method EnsureBenefitIds(db: Db, items: seq<BenefitItem>) returns (ids: seq<int>)
    requires db.Valid()
    modifies db
    ensures db.benefitCategories != map[] && db.AnyBenefitCategory().Some?
    ensures old(db.benefitCategories) != map[] ==>
      db.benefitCategories == old(db.benefitCategories) && db.nextBenefitCategory == old(db.nextBenefitCategory)
    ensures old(db.benefitCategories) == map[] ==> db.benefitCategories == map[old(db.nextBenefitCategory) := "Umum"]
    ensures db.Snapshot() == old(db.Snapshot()).(benefitCategories := db.benefitCategories, nextBenefitCategory := db.nextBenefitCategory,
                                                 benefits := db.benefits, nextBenefit := db.nextBenefit)
    ensures ids == ResolveAll(items, db.benefits, db.nextBenefit) && |ids| <= |items|
    ensures TextsResolved(items, db.benefits, db.nextBenefit)
    ensures Extends(old(db.benefits), old(db.nextBenefit), db.benefits, db.nextBenefit, db.AnyBenefitCategory(), items)
    ensures db.Valid()
  {
    var kb := EnsureDefaultKategori(db);
    ghost var mid := db.Snapshot();
    ids := [];
    var i := 0;
    while i < |items|
      invariant 0 <= i <= |items|
      invariant db.Valid()
      invariant db.Snapshot() == mid.(benefits := db.benefits, nextBenefit := db.nextBenefit)
      invariant Extends(mid.benefits, mid.nextBenefit, db.benefits, db.nextBenefit, Some(kb), items[..i])
      invariant TextsResolved(items[..i], db.benefits, db.nextBenefit)
      invariant ids == ResolveAll(items[..i], db.benefits, db.nextBenefit)
    {
      ids := ResolveNext(db, items, i, kb, mid, ids);
      i := i + 1;
    }
    assert items[..i] == items;
  }

  // ---- cover_media ----

  /** `SELECT id FROM media WHERE id = ? AND produk_id = ?` finds a row: the
      number is an integer naming a media row owned by the product. */
  predicate OwnedMedia(media: map<int, Media>, v: real, pid: int)
  {
    v == v.Floor as real && v.Floor in media && media[v.Floor].owner == Some(pid)
  }

  /** `upsertCoverMedia`: null deletes the product's cover row; a media row
      owned by the product becomes its one cover; anything else throws and
      changes nothing. */
  method UpsertCoverMedia(db: Db, pid: int, mediaId: Option<real>) returns (r: Result<Option<int>>)
    requires db.Valid()
    modifies db
    ensures mediaId.None? ==> r == Ok(None) && db.Snapshot() == old(db.Snapshot()).(covers := old(db.covers) - {pid})
    ensures mediaId.Some? && OwnedMedia(old(db.media), mediaId.value, pid) ==>
      r == Ok(Some(mediaId.value.Floor)) && db.Snapshot() == old(db.Snapshot()).(covers := old(db.covers)[pid := mediaId.value.Floor])
    ensures mediaId.Some? && !OwnedMedia(old(db.media), mediaId.value, pid) ==>
      r == Throw("cover_media_id invalid for produk") && db.Snapshot() == old(db.Snapshot())
    ensures db.Valid()
  {
    if mediaId.None? {
      db.DeleteCover(pid);
      return Ok(None);
    }
    if !OwnedMedia(db.media, mediaId.value, pid) {
      return Throw("cover_media_id invalid for produk");
    }
    var k := mediaId.value.Floor;
    db.UpsertCover(pid, k);
    r := Ok(Some(k));
  }

  /** `ensureCoverMedia`: an existing cover row is answered as it is, without
      checking its media; otherwise the newest media row the product owns
      becomes the cover; with none, no cover row remains. */
  method EnsureCoverMedia(db: Db, pid: int) returns (r: Option<int>)
    requires db.Valid()
    modifies db
    ensures pid in old(db.covers) ==> r == Some(old(db.covers)[pid]) && db.Snapshot() == old(db.Snapshot())
    ensures pid !in old(db.covers) ==> r == old(db.NewestMediaOf(pid))
    ensures pid !in old(db.covers) && r.Some? ==>
      r.value in db.media && db.media[r.value].owner == Some(pid) &&
      (forall k | k in db.media && db.media[k].owner == Some(pid) :: k <= r.value) &&
      db.Snapshot() == old(db.Snapshot()).(covers := old(db.covers)[pid := r.value])
    ensures pid !in old(db.covers) && r.None? ==>
      (forall k | k in db.media :: db.media[k].owner != Some(pid)) && db.Snapshot() == old(db.Snapshot())
    ensures r.Some? <==> pid in db.covers
    ensures r.Some? ==> db.covers[pid] == r.value
    ensures db.Valid()
  {
    if pid in db.covers {
      return Some(db.covers[pid]);
    }
    var fallback := db.NewestMediaOf(pid);
    if fallback.Some? {
      db.InsertCover(pid, fallback.value);
      return fallback;
    }
    db.DeleteCover(pid);
    assert db.covers == old(db.covers);
    r := None;
  }

  /** A `cover_media_id` key: not sent, sent as null or '', or sent as
      something `Number` converts. */
  datatype CoverField = NoCover | ClearCover | CoverValue(n: JsNumber)

  /** The cover key was sent and is acceptable. */
  predicate CoverAccepted(media: map<int, Media>, pid: int, cover: CoverField)
  {
    cover.ClearCover? || (cover.CoverValue? && cover.n.Finite? && OwnedMedia(media, cover.n.value, pid))
  }

  /** The `coverProvided` branch of POST and PUT: null or '' clears the
      cover, a number must name a media row the product owns; a rejected
      value changes nothing. */
  method ApplyCover(db: Db, pid: int, cover: CoverField) returns (ok: bool)
    requires db.Valid() && !cover.NoCover?
    modifies db
    ensures ok <==> CoverAccepted(old(db.media), pid, cover)
    ensures !ok ==> db.Snapshot() == old(db.Snapshot())
    ensures ok && cover.ClearCover? ==> db.Snapshot() == old(db.Snapshot()).(covers := old(db.covers) - {pid})
    ensures ok && cover.CoverValue? ==> db.Snapshot() == old(db.Snapshot()).(covers := old(db.covers)[pid := cover.n.value.Floor])
    ensures db.Valid()
  {
    if cover.ClearCover? {
      var _ := UpsertCoverMedia(db, pid, None);
      return true;
    }
    if cover.n.NaN? {
      return false;
    }
    var res := UpsertCoverMedia(db, pid, Some(cover.n.value));
    ok := res.Ok?;
  }

  // ---- media ownership and benefit links ----

  /** The media table after `UPDATE media SET produk_id = ? WHERE id = ?` for
      every id of `ids`. */
  function Reassigned(media: map<int, Media>, ids: seq<int>, owner: Option<int>): (r: map<int, Media>)
    ensures r.Keys == media.Keys
    ensures forall k | k in media :: r[k] == if k in ids then media[k].(owner := owner) else media[k]
  {
    map k | k in media :: if k in ids then media[k].(owner := owner) else media[k]
  }

  lemma ReassignedStep(media: map<int, Media>, ids: seq<int>, i: nat, owner: Option<int>)
    requires i < |ids|
    ensures Reassigned(media, ids[..i + 1], owner) ==
      if ids[i] in media then Reassigned(media, ids[..i], owner)[ids[i] := media[ids[i]].(owner := owner)]
      else Reassigned(media, ids[..i], owner)
  {
    assert forall k :: k in ids[..i + 1] <==> k in ids[..i] || k == ids[i] by {
      assert ids[..i + 1] == ids[..i] + [ids[i]];
    }
  }

  /** The media transaction of POST and PUT: every listed media row is given
      to the product. If the product is missing and some listed row exists,
      the foreign key fails and the transaction is undone. */
  method AssignMedia(db: Db, pid: int, ids: seq<int>) returns (r: Result<()>)
    requires db.Valid()
    modifies db
    ensures r.Ok? <==> pid in old(db.products) || forall j | 0 <= j < |ids| :: ids[j] !in old(db.media)
    ensures r.Ok? ==> db.Snapshot() == old(db.Snapshot()).(media := Reassigned(old(db.media), ids, Some(pid)))
    ensures r.Throw? ==> db.Snapshot() == old(db.Snapshot())
    ensures db.Valid()
  {
    var before := db.Snapshot();
    r := SetOwners(db, pid, ids);
    if r.Throw? {
      db.Restore(before);
    }
  }

  /** The `UPDATE media SET produk_id = ?` statements of the media
      transaction, one per listed id, stopping at the first that throws; the
      rows already updated stay for the caller to undo. */
  method SetOwners(db: Db, pid: int, ids: seq<int>) returns (r: Result<()>)
    requires db.Valid()
    modifies db
    ensures r.Ok? <==> pid in old(db.products) || forall j | 0 <= j < |ids| :: ids[j] !in old(db.media)
    ensures r.Ok? ==> db.Snapshot() == old(db.Snapshot()).(media := Reassigned(old(db.media), ids, Some(pid)))
    ensures db.Snapshot() == old(db.Snapshot()).(media := db.media)
    ensures db.Valid()
  {
    ghost var before := db.Snapshot();
    var i := 0;
    while i < |ids|
      invariant 0 <= i <= |ids|
      invariant db.Valid()
      invariant pid in old(db.products) || forall j | 0 <= j < i :: ids[j] !in old(db.media)
      invariant db.Snapshot() == before.(media := db.media)
      invariant db.media == Reassigned(before.media, ids[..i], Some(pid))
    {
      ReassignedStep(before.media, ids, i, Some(pid));
      var res := db.SetMediaOwner(ids[i], Some(pid));
      if res.Throw? {
        return res;
      }
      i := i + 1;
    }
    assert ids[..i] == ids;
    r := Ok(());
  }

  /** The cover table after `DELETE FROM cover_media WHERE produk_id = ? AND
      media_id = ?` for every id of `ids`. */
  function CoversAfterDetach(covers: map<int, int>, pid: int, ids: seq<int>): map<int, int>
  {
    if pid in covers && covers[pid] in ids then covers - {pid} else covers
  }

  /** The two `removed_media_ids` transactions of PUT: every listed media row
      loses its product, whoever owned it, then only this product's cover
      rows pointing at a listed id are deleted. */
  method DetachMedia(db: Db, pid: int, ids: seq<int>)
    requires db.Valid()
    modifies db
    ensures db.Snapshot() == old(db.Snapshot()).(media := Reassigned(old(db.media), ids, None),
                                                 covers := CoversAfterDetach(old(db.covers), pid, ids))
    ensures db.Valid()
  {
    ClearOwners(db, ids);
    DeleteCoverPairs(db, pid, ids);
  }

  /** The first transaction: `UPDATE media SET produk_id = NULL WHERE id = ?`
      per listed id; clearing an owner never breaks a foreign key. */
  method ClearOwners(db: Db, ids: seq<int>)
    requires db.Valid()
    modifies db
    ensures db.Snapshot() == old(db.Snapshot()).(media := Reassigned(old(db.media), ids, None))
    ensures db.Valid()
  {
    ghost var before := db.Snapshot();
    var i := 0;
    while i < |ids|
      invariant 0 <= i <= |ids|
      invariant db.Valid()
      invariant db.Snapshot() == before.(media := db.media)
      invariant db.media == Reassigned(before.media, ids[..i], None)
    {
      ReassignedStep(before.media, ids, i, None);
      var _ := db.SetMediaOwner(ids[i], None);
      i := i + 1;
    }
    assert ids[..i] == ids;
  }

  /** The second transaction: `DELETE FROM cover_media WHERE produk_id = ?
      AND media_id = ?` per listed id. */
  method DeleteCoverPairs(db: Db, pid: int, ids: seq<int>)
    requires db.Valid()
    modifies db
    ensures db.Snapshot() == old(db.Snapshot()).(covers := CoversAfterDetach(old(db.covers), pid, ids))
    ensures db.Valid()
  {
    ghost var before := db.Snapshot();
    var i := 0;
    while i < |ids|
      invariant 0 <= i <= |ids|
      invariant db.Valid()
      invariant db.Snapshot() == before.(covers := CoversAfterDetach(before.covers, pid, ids[..i]))
    {
      assert ids[..i + 1] == ids[..i] + [ids[i]];
      db.DeleteCoverPair(pid, ids[i]);
      i := i + 1;
    }
    assert ids[..i] == ids;
  }

  /** The `produk_benefit` rows linking `pid` to every id of `bids`. */
  function LinkSet(pid: int, bids: seq<int>): set<(int, int)>
  {
    set b | b in bids :: (pid, b)
  }

  lemma LinkSetSnoc(pid: int, bids: seq<int>, b: int)
    ensures LinkSet(pid, bids + [b]) == LinkSet(pid, bids) + {(pid, b)}
  {
    assert forall x :: x in bids + [b] <==> x in bids || x == b;
  }

  /** The link insertions of a transaction (`INSERT OR IGNORE INTO
      produk_benefit` per id): a pair already present is kept once; a missing
      product or benefit throws, leaving the earlier pairs for the caller to
      undo. */
  method InsertLinks(db: Db, pid: int, bids: seq<int>) returns (r: Result<()>)
    requires db.Valid()
    modifies db
    ensures r.Ok? <==> bids == [] || (pid in old(db.products) && forall j | 0 <= j < |bids| :: bids[j] in old(db.benefits))
    ensures r.Ok? ==> db.Snapshot() == old(db.Snapshot()).(links := old(db.links) + LinkSet(pid, bids))
    ensures db.Snapshot() == old(db.Snapshot()).(links := db.links)
    ensures db.Valid()
  {
    var i := 0;
    while i < |bids|
      invariant 0 <= i <= |bids|
      invariant db.Valid()
      invariant i > 0 ==> pid in old(db.products)
      invariant forall j | 0 <= j < i :: bids[j] in old(db.benefits)
      invariant db.Snapshot() == old(db.Snapshot()).(links := old(db.links) + LinkSet(pid, bids[..i]))
    {
      assert bids[..i + 1] == bids[..i] + [bids[i]];
      LinkSetSnoc(pid, bids[..i], bids[i]);
      var res := db.InsertLinkOrIgnore(pid, bids[i]);
      if res.Throw? {
        return res;
      }
      i := i + 1;
    }
    assert bids[..i] == bids;
    r := Ok(());
  }

  /** The benefit transaction of PUT: all links of the product are deleted,
      then one per id is inserted; a failed insertion undoes both. */
  method ReplaceLinks(db: Db, pid: int, bids: seq<int>) returns (r: Result<()>)
    requires db.Valid()
    modifies db
    ensures r.Ok? <==> bids == [] || (pid in old(db.products) && forall j | 0 <= j < |bids| :: bids[j] in old(db.benefits))
    ensures r.Ok? ==> db.Snapshot() == old(db.Snapshot()).(links := (set l | l in old(db.links) && l.0 != pid) + LinkSet(pid, bids))
    ensures r.Throw? ==> db.Snapshot() == old(db.Snapshot())
    ensures db.Valid()
  {
    var before := db.Snapshot();
    db.DeleteLinksOfProduct(pid);
    r := InsertLinks(db, pid, bids);
    if r.Throw? {
      db.Restore(before);
    }
  }

  // ---- handlers ----

  /** The fields of a POST body; `harga` is NULL when not sent, a missing
      `benefits` or `media_ids` is the empty list. */
  datatype NewProduct = NewProduct(nama: Field<string>, harga: Option<int>, category: CategoryInput,
                                   benefits: seq<BenefitItem>, mediaIds: seq<int>, cover: CoverField)

  /** The benefits of POST followed by its transaction: the benefit list is
      resolved (rows it adds stay), then the product row and one link per
      resolved id are inserted together; a foreign-key failure undoes both. */
  method InsertProductTx(db: Db, kategori: int, nama: string, harga: Option<int>, items: seq<BenefitItem>) returns (r: Result<int>)
    requires db.Valid()
    modifies db
    ensures kategori !in old(db.categories) ==> r.Throw?
    ensures db.categories == old(db.categories) && db.nextCategory == old(db.nextCategory)
    ensures db.media == old(db.media) && db.covers == old(db.covers)
    ensures r.Throw? ==> db.products == old(db.products) && db.links == old(db.links)
    ensures r.Ok? ==>
      r.value == old(db.nextProduct) && r.value !in old(db.products) &&
      db.products == old(db.products)[r.value := Product(kategori, nama, harga)] &&
      db.links == old(db.links) + LinkSet(r.value, ResolveAll(items, db.benefits, db.nextBenefit))
    ensures db.Valid()
  {
    var bids := EnsureBenefitIds(db, items);
    var beforeTx := db.Snapshot();
    var ins := db.InsertProduct(Product(kategori, nama, harga));
    if ins.Throw? {
      return Throw("FOREIGN KEY constraint failed");
    }
    var pid := ins.value;
    var linked := InsertLinks(db, pid, bids);
    if linked.Throw? {
      db.Restore(beforeTx);
      return Throw("FOREIGN KEY constraint failed");
    }
    r := Ok(pid);
  }

  /** The steps of POST after the product exists: the listed media are given
      to it, then a sent cover key is applied, and without one the newest
      media becomes the cover only when media were listed. The answer is
      false when the cover key is rejected (the other writes stay). */
  method AttachToNew(db: Db, pid: int, mediaIds: seq<int>, cover: CoverField) returns (ok: bool)
    requires db.Valid() && pid in db.products && pid !in db.covers
    modifies db
    ensures db.Snapshot() == old(db.Snapshot()).(media := db.media, covers := db.covers)
    ensures db.media == Reassigned(old(db.media), mediaIds, Some(pid))
    ensures forall k | k in old(db.covers) :: k in db.covers && db.covers[k] == old(db.covers)[k]
    ensures ok <==> cover.NoCover? || CoverAccepted(db.media, pid, cover)
    ensures ok && cover.NoCover? && mediaIds == [] ==> pid !in db.covers
    ensures ok && cover.NoCover? && mediaIds != [] ==>
      (pid in db.covers <==> db.NewestMediaOf(pid).Some?) && (pid in db.covers ==> db.covers[pid] == db.NewestMediaOf(pid).value)
    ensures ok && cover.ClearCover? ==> pid !in db.covers
    ensures ok && cover.CoverValue? ==> pid in db.covers && db.covers[pid] as real == cover.n.value
    ensures db.Valid()
  {
    if mediaIds != [] {
      var _ := AssignMedia(db, pid, mediaIds);
    } else {
      assert Reassigned(db.media, [], Some(pid)) == db.media;
    }
    if !cover.NoCover? {
      ok := ApplyCover(db, pid, cover);
    } else {
      if mediaIds != [] {
        var _ := EnsureCoverMedia(db, pid);
      }
      ok := true;
    }
  }

  /** POST. A falsy `nama_paket` is a 422 before any write, a category that
      cannot be resolved or a foreign-key failure a 500. A rejected cover is
      a 422 although the product is stored. */
  method Post(db: Db, body: NewProduct) returns (r: Response<(int, Product)>)
    requires db.Valid()
    modifies db
    ensures Falsy(body.nama) ==> r == Failure(422, "nama_paket required") && db.Snapshot() == old(db.Snapshot())
    ensures !Falsy(body.nama) && !Truthy(body.category.id) && CategoryName(body.category) == [] ==>
      r == Failure(500, "nama_kategori required") && db.Snapshot() == old(db.Snapshot())
    ensures r.Failure? && r.status == 500 ==> db.products == old(db.products) && db.links == old(db.links) && db.media == old(db.media)
    ensures body.cover == CoverValue(NaN) ==> r.Failure?
    ensures r == Failure(422, "cover_media_id invalid") ==> old(db.nextProduct) in db.products
    ensures r.Success? ==>
      var pid := old(db.nextProduct);
      r.status == 201 && r.body.0 == pid && pid !in old(db.products) && db.products == old(db.products)[pid := r.body.1] &&
      r.body.1.nama == body.nama.value && r.body.1.harga == body.harga && r.body.1.kategori in db.categories
    ensures r.Success? && Truthy(body.category.id) ==>
      r.body.1.kategori == body.category.id.value &&
      db.categories == old(db.categories) && db.nextCategory == old(db.nextCategory)
    ensures r.Success? && !Truthy(body.category.id) ==>
      db.CategoryByCode(CategoryCode(body.category)) == Some(r.body.1.kategori)
    ensures r.Success? && !Truthy(body.category.id) && old(db.CategoryByCode(CategoryCode(body.category))).Some? ==>
      r.body.1.kategori == old(db.CategoryByCode(CategoryCode(body.category))).value &&
      db.categories == old(db.categories) && db.nextCategory == old(db.nextCategory)
    ensures (r.Success? && !Truthy(body.category.id) && old(db.CategoryByCode(CategoryCode(body.category))).None? &&
             old(db.CategoryByNameSub(CategoryName(body.category), SubValue(body.category.sub))).Some?) ==>
      var k := old(db.CategoryByNameSub(CategoryName(body.category), SubValue(body.category.sub))).value;
      r.body.1.kategori == k && db.nextCategory == old(db.nextCategory) &&
      db.categories == old(db.categories)[k := old(db.categories)[k].(code := Some(CategoryCode(body.category)),
                                                                  desc := Some(CategoryDescription(body.category)))]
    ensures (r.Success? && !Truthy(body.category.id) && old(db.CategoryByCode(CategoryCode(body.category))).None? &&
             old(db.CategoryByNameSub(CategoryName(body.category), SubValue(body.category.sub))).None?) ==>
      r.body.1.kategori == old(db.nextCategory) && db.nextCategory == old(db.nextCategory) + 1 &&
      db.categories == old(db.categories)[old(db.nextCategory) := Category(CategoryName(body.category), SubValue(body.category.sub),
                                                                      Some(CategoryCode(body.category)), Some(CategoryDescription(body.category)))]
    ensures r.Success? ==>
      db.links == old(db.links) + LinkSet(old(db.nextProduct), ResolveAll(body.benefits, db.benefits, db.nextBenefit))
    ensures r.Success? ==>
      db.media == Reassigned(old(db.media), body.mediaIds, Some(old(db.nextProduct)))
    ensures r.Success? && body.cover.NoCover? && body.mediaIds == [] ==> old(db.nextProduct) !in db.covers
    ensures r.Success? && body.cover.NoCover? && body.mediaIds != [] ==>
      var pid := old(db.nextProduct);
      (pid in db.covers <==> db.NewestMediaOf(pid).Some?) && (pid in db.covers ==> db.covers[pid] == db.NewestMediaOf(pid).value)
    ensures r.Success? && body.cover.ClearCover? ==> old(db.nextProduct) !in db.covers
    ensures r.Success? && body.cover.CoverValue? ==>
      var pid := old(db.nextProduct);
      pid in db.covers && db.covers[pid] in db.media && db.media[db.covers[pid]].owner == Some(pid) &&
      db.covers[pid] as real == body.cover.n.value
    ensures forall k | k in old(db.covers) :: k in db.covers && db.covers[k] == old(db.covers)[k]
    ensures db.Valid()
  {
    if Falsy(body.nama) {
      return Failure(422, "nama_paket required");
    }
    var cat := EnsureCategoryId(db, body.category);
    if cat.Throw? {
      return Failure(500, cat.message);
    }
    ghost var resolved := db.Snapshot();
    var created := InsertProductTx(db, cat.value, body.nama.value, body.harga, body.benefits);
    if created.Throw? {
      return Failure(500, created.message);
    }
    var pid := created.value;
    var ok := AttachToNew(db, pid, body.mediaIds, body.cover);
    if !ok {
      return Failure(422, "cover_media_id invalid");
    }
    assert db.categories == resolved.categories && db.nextCategory == resolved.nextCategory;
    assert db.products[pid].kategori == cat.value;
    r := Success(201, (pid, db.products[pid]));
  }

  /** The fields of a PUT body. A `benefits` value that is not an array is
      `None`; missing `media_ids` and `removed_media_ids` are empty. */
  datatype ProductPatch = ProductPatch(nama: Field<string>, harga: Field<int>, category: CategoryInput,
                                       benefits: Option<seq<BenefitItem>>, mediaIds: seq<int>, removedMediaIds: seq<int>,
                                       cover: CoverField)

  /** The category is re-resolved when either of its two identifying fields
      is sent. */
  predicate CategorySent(c: CategoryInput)
  {
    !c.id.Absent? || !c.nama.Absent?
  }

  /** The product columns PUT writes, or the NOT NULL failure of a sent null
      `nama_paket`. */
  function PatchedRow(row: Product, nama: Field<string>, harga: Field<int>, kategori: Option<int>): (r: Result<Product>)
    ensures nama.Null? <==> r.Throw?
    ensures r.Ok? ==> r.value.nama == (if nama.Present? then nama.value else row.nama)
    ensures r.Ok? ==> r.value.harga == (if harga.Present? then Some(harga.value) else if harga.Null? then None else row.harga)
    ensures r.Ok? ==> r.value.kategori == (if kategori.Some? then kategori.value else row.kategori)
  {
    if nama.Null? then Throw("NOT NULL constraint failed: produk.nama_paket")
    else
      Ok(Product(if kategori.Some? then kategori.value else row.kategori,
                 if nama.Present? then nama.value else row.nama,
                 if harga.Present? then Some(harga.value) else if harga.Null? then None else row.harga))
  }

  /** The first step of PUT: when a product column is sent, the category is
      resolved if needed and the row is rewritten with the sent columns. */
  method PatchProduct(db: Db, pid: int, body: ProductPatch) returns (r: Result<()>)
    requires db.Valid()
    modifies db
    ensures db.Snapshot() == old(db.Snapshot()).(products := db.products, categories := db.categories, nextCategory := db.nextCategory)
    ensures body.nama.Absent? && body.harga.Absent? && !CategorySent(body.category) ==> r.Ok? && db.Snapshot() == old(db.Snapshot())
    ensures !CategorySent(body.category) ==> db.categories == old(db.categories) && db.nextCategory == old(db.nextCategory)
    ensures pid !in old(db.products) ==> db.products == old(db.products)
    ensures r.Ok? && pid in old(db.products) ==>
      pid in db.products && db.products == old(db.products)[pid := db.products[pid]] &&
      db.products[pid].nama == (if body.nama.Present? then body.nama.value else old(db.products)[pid].nama) &&
      db.products[pid].harga == (if body.harga.Present? then Some(body.harga.value) else if body.harga.Null? then None else old(db.products)[pid].harga) &&
      (!CategorySent(body.category) ==> db.products[pid].kategori == old(db.products)[pid].kategori)
    ensures r.Throw? ==> db.products == old(db.products)
    ensures CategorySent(body.category) && Truthy(body.category.id) ==>
      db.categories == old(db.categories) && db.nextCategory == old(db.nextCategory) &&
      (r.Ok? && pid in old(db.products) ==> db.products[pid].kategori == body.category.id.value)
    ensures CategorySent(body.category) && !Truthy(body.category.id) && CategoryName(body.category) != [] ==>
      db.CategoryByCode(CategoryCode(body.category)).Some? &&
      (r.Ok? && pid in old(db.products) ==> db.CategoryByCode(CategoryCode(body.category)) == Some(db.products[pid].kategori))
    ensures CategorySent(body.category) && !Truthy(body.category.id) && CategoryName(body.category) != [] &&
            old(db.CategoryByCode(CategoryCode(body.category))).Some? ==>
      db.categories == old(db.categories) && db.nextCategory == old(db.nextCategory) &&
      (r.Ok? && pid in old(db.products) ==> db.products[pid].kategori == old(db.CategoryByCode(CategoryCode(body.category))).value)
    ensures (CategorySent(body.category) && !Truthy(body.category.id) && CategoryName(body.category) != [] &&
             old(db.CategoryByCode(CategoryCode(body.category))).None? &&
             old(db.CategoryByNameSub(CategoryName(body.category), SubValue(body.category.sub))).Some?) ==>
      var k := old(db.CategoryByNameSub(CategoryName(body.category), SubValue(body.category.sub))).value;
      db.nextCategory == old(db.nextCategory) &&
      db.categories == old(db.categories)[k := old(db.categories)[k].(code := Some(CategoryCode(body.category)),
                                                                  desc := Some(CategoryDescription(body.category)))] &&
      (r.Ok? && pid in old(db.products) ==> db.products[pid].kategori == k)
    ensures (CategorySent(body.category) && !Truthy(body.category.id) && CategoryName(body.category) != [] &&
             old(db.CategoryByCode(CategoryCode(body.category))).None? &&
             old(db.CategoryByNameSub(CategoryName(body.category), SubValue(body.category.sub))).None?) ==>
      db.nextCategory == old(db.nextCategory) + 1 &&
      db.categories == old(db.categories)[old(db.nextCategory) := Category(CategoryName(body.category), SubValue(body.category.sub),
                                                                      Some(CategoryCode(body.category)), Some(CategoryDescription(body.category)))] &&
      (r.Ok? && pid in old(db.products) ==> db.products[pid].kategori == old(db.nextCategory))
    ensures CategorySent(body.category) && !Truthy(body.category.id) && CategoryName(body.category) == [] ==>
      r == Throw("nama_kategori required") && db.Snapshot() == old(db.Snapshot())
    ensures db.Valid()
  {
    if body.nama.Absent? && body.harga.Absent? && !CategorySent(body.category) {
      return Ok(());
    }
    var kategori: Option<int> := None;
    if CategorySent(body.category) {
      var cat := EnsureCategoryId(db, body.category);
      if cat.Throw? {
        return Throw(cat.message);
      }
      kategori := Some(cat.value);
    }
    r := WriteProductRow(db, pid, body.nama, body.harga, kategori);
  }

  /** The `UPDATE produk` of PUT: the row, when there is one, becomes
      `PatchedRow`; a sent null name or a category with no row throws and
      leaves the table as it was. */
  method WriteProductRow(db: Db, pid: int, nama: Field<string>, harga: Field<int>, kategori: Option<int>) returns (r: Result<()>)
    requires db.Valid()
    modifies db
    ensures db.Snapshot() == old(db.Snapshot()).(products := db.products)
    ensures pid !in old(db.products) ==> r.Ok? && db.products == old(db.products)
    ensures pid in old(db.products) && nama.Null? ==> r.Throw?
    ensures r.Ok? && pid in old(db.products) ==>
      PatchedRow(old(db.products)[pid], nama, harga, kategori).Ok? &&
      db.products == old(db.products)[pid := PatchedRow(old(db.products)[pid], nama, harga, kategori).value]
    ensures r.Throw? ==> db.products == old(db.products)
    ensures db.Valid()
  {
    if pid in db.products {
      var row := PatchedRow(db.products[pid], nama, harga, kategori);
      if row.Throw? {
        return Throw(row.message);
      }
      r := db.UpdateProduct(pid, row.value);
    } else {
      r := Ok(());
    }
  }

  /** The benefits step of PUT: the list is resolved (rows it adds stay),
      then the product's links are replaced by one per resolved id in one
      transaction. */
  method RelinkBenefits(db: Db, pid: int, items: seq<BenefitItem>) returns (r: Result<()>)
    requires db.Valid()
    modifies db
    ensures db.categories == old(db.categories) && db.nextCategory == old(db.nextCategory) && db.products == old(db.products)
    ensures db.media == old(db.media) && db.covers == old(db.covers)
    ensures r.Throw? ==> db.links == old(db.links)
    ensures r.Ok? ==> db.links == (set l | l in old(db.links) && l.0 != pid) + LinkSet(pid, ResolveAll(items, db.benefits, db.nextBenefit))
    ensures db.Valid()
  {
    var bids := EnsureBenefitIds(db, items);
    r := ReplaceLinks(db, pid, bids);
  }

  /** The media steps of PUT: the listed media are given to the product,
      then the removed ones lose their owner and the product's cover row
      goes if it points at one of them. A failed first step changes
      nothing. */
  method MoveMedia(db: Db, pid: int, mediaIds: seq<int>, removed: seq<int>) returns (r: Result<()>)
    requires db.Valid()
    modifies db
    ensures db.Snapshot() == old(db.Snapshot()).(media := db.media, covers := db.covers)
    ensures r.Ok? <==> pid in old(db.products) || forall j | 0 <= j < |mediaIds| :: mediaIds[j] !in old(db.media)
    ensures r.Throw? ==> db.Snapshot() == old(db.Snapshot())
    ensures r.Ok? ==>
      db.media == Reassigned(Reassigned(old(db.media), mediaIds, Some(pid)), removed, None) &&
      db.covers == CoversAfterDetach(old(db.covers), pid, removed)
    ensures db.Valid()
  {
    if mediaIds != [] {
      r := AssignMedia(db, pid, mediaIds);
      if r.Throw? {
        return;
      }
    } else {
      assert Reassigned(db.media, [], Some(pid)) == db.media;
      r := Ok(());
    }
    if removed != [] {
      DetachMedia(db, pid, removed);
    } else {
      assert Reassigned(db.media, [], None) == db.media;
      assert CoversAfterDetach(db.covers, pid, []) == db.covers;
    }
  }

  /** The cover step of PUT: a sent key is applied as in POST; without one
      the cover is ensured, which keeps an existing cover row. Only the
      product's own cover row can change. */
  method SettleCover(db: Db, pid: int, cover: CoverField) returns (ok: bool)
    requires db.Valid()
    modifies db
    ensures db.Snapshot() == old(db.Snapshot()).(covers := db.covers)
    ensures forall k | k in old(db.covers) && k != pid :: k in db.covers && db.covers[k] == old(db.covers)[k]
    ensures forall k | k in db.covers && k != pid :: k in old(db.covers)
    ensures ok <==> cover.NoCover? || CoverAccepted(db.media, pid, cover)
    ensures !ok ==> db.covers == old(db.covers)
    ensures ok && cover.ClearCover? ==> pid !in db.covers
    ensures ok && cover.CoverValue? ==> pid in db.covers && db.covers[pid] as real == cover.n.value
    ensures cover.NoCover? ==>
      (pid in db.covers <==> pid in old(db.covers) || db.NewestMediaOf(pid).Some?) &&
      (pid in old(db.covers) ==> db.covers[pid] == old(db.covers)[pid]) &&
      (pid !in old(db.covers) && pid in db.covers ==> db.covers[pid] == db.NewestMediaOf(pid).value)
    ensures db.Valid()
  {
    if !cover.NoCover? {
      ok := ApplyCover(db, pid, cover);
    } else {
      var _ := EnsureCoverMedia(db, pid);
      ok := true;
    }
  }

  /** The steps of PUT after the product columns: links, media and cover,
      each run only when its field is sent (the cover is ensured when its
      key is not). The product rows are not touched. */
  method PutRelations(db: Db, pid: int, body: ProductPatch) returns (r: Response<()>)
    requires db.Valid()
    modifies db
    ensures db.products == old(db.products) && db.categories == old(db.categories) && db.nextCategory == old(db.nextCategory)
    ensures r.Failure? ==> r.status == 500 || r == Failure(422, "cover_media_id invalid")
    ensures r.Success? ==> r == Success(200, ())
    ensures body.benefits.None? ==> db.links == old(db.links)
    ensures r.Success? && body.benefits.Some? ==>
      db.links == (set l | l in old(db.links) && l.0 != pid) + LinkSet(pid, ResolveAll(body.benefits.value, db.benefits, db.nextBenefit))
    ensures r.Success? ==>
      db.media == Reassigned(Reassigned(old(db.media), body.mediaIds, Some(pid)), body.removedMediaIds, None)
    ensures r.Success? && body.cover.ClearCover? ==> pid !in db.covers
    ensures r.Success? && body.cover.CoverValue? ==>
      pid in db.covers && db.covers[pid] in db.media && db.media[db.covers[pid]].owner == Some(pid) &&
      body.cover.n.Finite? && db.covers[pid] as real == body.cover.n.value
    ensures r.Success? && body.cover.NoCover? ==>
      (pid in db.covers <==> (pid in old(db.covers) && old(db.covers)[pid] !in body.removedMediaIds) || db.NewestMediaOf(pid).Some?)
    ensures r.Success? && body.cover.NoCover? && pid in old(db.covers) && old(db.covers)[pid] !in body.removedMediaIds ==>
      db.covers[pid] == old(db.covers)[pid]
    ensures body.cover == CoverValue(NaN) ==> r.Failure?
    ensures forall k | k in old(db.covers) && k != pid :: k in db.covers && db.covers[k] == old(db.covers)[k]
    ensures db.Valid()
  {
    if body.benefits.Some? {
      var relinked := RelinkBenefits(db, pid, body.benefits.value);
      if relinked.Throw? {
        return Failure(500, "FOREIGN KEY constraint failed");
      }
    }
    var moved := MoveMedia(db, pid, body.mediaIds, body.removedMediaIds);
    if moved.Throw? {
      return Failure(500, "FOREIGN KEY constraint failed");
    }
    var ok := SettleCover(db, pid, body.cover);
    if !ok {
      return Failure(422, "cover_media_id invalid");
    }
    r := Success(200, ());
  }

  /** PUT: a missing id is a 422; then the product columns, then
      `PutRelations`. The answer is the product row as read back, which is
      absent for an unknown id. */
  method Put(db: Db, id: Option<int>, body: ProductPatch) returns (r: Response<Option<Product>>)
    requires db.Valid()
    modifies db
    ensures id.None? ==> r == Failure(422, "id query required") && db.Snapshot() == old(db.Snapshot())
    ensures r.Success? ==> id.Some? && r.status == 200 && r.body == (if id.value in db.products then Some(db.products[id.value]) else None)
    ensures r.Success? && id.value in old(db.products) ==>
      id.value in db.products &&
      db.products[id.value].nama == (if body.nama.Present? then body.nama.value else old(db.products)[id.value].nama) &&
      db.products[id.value].harga == (if body.harga.Present? then Some(body.harga.value) else if body.harga.Null? then None else old(db.products)[id.value].harga) &&
      (!CategorySent(body.category) ==> db.products[id.value].kategori == old(db.products)[id.value].kategori)
    ensures id.Some? && id.value !in old(db.products) ==> db.products == old(db.products)
    ensures body.cover == CoverValue(NaN) && id.Some? ==> r.Failure?
    ensures id.Some? && CategorySent(body.category) && Truthy(body.category.id) ==>
      db.categories == old(db.categories) && db.nextCategory == old(db.nextCategory) &&
      (r.Success? && id.value in old(db.products) ==> db.products[id.value].kategori == body.category.id.value)
    ensures id.Some? && CategorySent(body.category) && !Truthy(body.category.id) && CategoryName(body.category) != [] ==>
      db.CategoryByCode(CategoryCode(body.category)).Some? &&
      (r.Success? && id.value in old(db.products) ==> db.CategoryByCode(CategoryCode(body.category)) == Some(db.products[id.value].kategori))
    ensures id.Some? && CategorySent(body.category) && !Truthy(body.category.id) && CategoryName(body.category) != [] &&
            old(db.CategoryByCode(CategoryCode(body.category))).Some? ==>
      db.categories == old(db.categories) && db.nextCategory == old(db.nextCategory) &&
      (r.Success? && id.value in old(db.products) ==> db.products[id.value].kategori == old(db.CategoryByCode(CategoryCode(body.category))).value)
    ensures (id.Some? && CategorySent(body.category) && !Truthy(body.category.id) && CategoryName(body.category) != [] &&
             old(db.CategoryByCode(CategoryCode(body.category))).None? &&
             old(db.CategoryByNameSub(CategoryName(body.category), SubValue(body.category.sub))).Some?) ==>
      var k := old(db.CategoryByNameSub(CategoryName(body.category), SubValue(body.category.sub))).value;
      db.nextCategory == old(db.nextCategory) &&
      db.categories == old(db.categories)[k := old(db.categories)[k].(code := Some(CategoryCode(body.category)),
                                                                  desc := Some(CategoryDescription(body.category)))] &&
      (r.Success? && id.value in old(db.products) ==> db.products[id.value].kategori == k)
    ensures (id.Some? && CategorySent(body.category) && !Truthy(body.category.id) && CategoryName(body.category) != [] &&
             old(db.CategoryByCode(CategoryCode(body.category))).None? &&
             old(db.CategoryByNameSub(CategoryName(body.category), SubValue(body.category.sub))).None?) ==>
      db.nextCategory == old(db.nextCategory) + 1 &&
      db.categories == old(db.categories)[old(db.nextCategory) := Category(CategoryName(body.category), SubValue(body.category.sub),
                                                                      Some(CategoryCode(body.category)), Some(CategoryDescription(body.category)))] &&
      (r.Success? && id.value in old(db.products) ==> db.products[id.value].kategori == old(db.nextCategory))
    ensures id.Some? && !CategorySent(body.category) ==> db.categories == old(db.categories) && db.nextCategory == old(db.nextCategory)
    ensures id.Some? && CategorySent(body.category) && !Truthy(body.category.id) && CategoryName(body.category) == [] ==>
      r == Failure(500, "nama_kategori required") && db.Snapshot() == old(db.Snapshot())
    ensures r.Failure? && id.Some? ==> r.status == 500 || r == Failure(422, "cover_media_id invalid")
    ensures r.Success? && body.benefits.None? ==> db.links == old(db.links)
    ensures r.Success? && body.benefits.Some? ==>
      db.links == (set l | l in old(db.links) && l.0 != id.value) + LinkSet(id.value, ResolveAll(body.benefits.value, db.benefits, db.nextBenefit))
    ensures r.Success? ==>
      db.media == Reassigned(Reassigned(old(db.media), body.mediaIds, Some(id.value)), body.removedMediaIds, None)
    ensures r.Success? && body.cover.ClearCover? ==> id.value !in db.covers
    ensures r.Success? && body.cover.CoverValue? ==>
      id.value in db.covers && db.covers[id.value] in db.media && db.media[db.covers[id.value]].owner == Some(id.value) &&
      body.cover.n.Finite? && db.covers[id.value] as real == body.cover.n.value
    ensures r.Success? && body.cover.NoCover? ==>
      (id.value in db.covers <==> (id.value in old(db.covers) && old(db.covers)[id.value] !in body.removedMediaIds) || db.NewestMediaOf(id.value).Some?)
    ensures r.Success? && body.cover.NoCover? && id.value in old(db.covers) && old(db.covers)[id.value] !in body.removedMediaIds ==>
      db.covers[id.value] == old(db.covers)[id.value]
    ensures id.Some? ==> forall k | k in old(db.covers) && k != id.value :: k in db.covers && db.covers[k] == old(db.covers)[k]
    ensures db.Valid()
  {
    if id.None? {
      return Failure(422, "id query required");
    }
    var pid := id.value;
    var patched := PatchProduct(db, pid, body);
    if patched.Throw? {
      return Failure(500, patched.message);
    }
    var rest := PutRelations(db, pid, body);
    if rest.Failure? {
      return Failure(rest.status, rest.error);
    }
    r := Success(200, if pid in db.products then Some(db.products[pid]) else None);
  }

  /** DELETE: a missing id is a 422; otherwise the product row goes, with its
      links and the media it owns (foreign-key cascades); cover rows stay. */
  method Delete(db: Db, id: Option<int>) returns (r: Response<()>)
    requires db.Valid()
    modifies db
    ensures id.None? ==> r == Failure(422, "id query required") && db.Snapshot() == old(db.Snapshot())
    ensures id.Some? ==>
      r == Success(200, ()) && db.products == old(db.products) - {id.value} &&
      db.links == (set l | l in old(db.links) && l.0 != id.value) &&
      db.media == (map k | k in old(db.media) && old(db.media)[k].owner != id :: old(db.media)[k]) &&
      db.covers == old(db.covers)
    ensures db.Valid()
  {
    if id.None? {
      return Failure(422, "id query required");
    }
    db.DeleteProduct(id.value);
    r := Success(200, ());
  }
}
