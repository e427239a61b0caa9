/** The benefit route (`app/api/benefit/route.js`): the default benefit
    category, get-or-create of a benefit category by name, the backfill of
    benefits without a category, and the POST/PUT/DELETE handlers. Every
    handler first runs the backfill, then the statements of its own body. */
module BenefitRoute {
  import opened Common
  import opened Store

  /** A benefit row joined with the name of its category (`LEFT JOIN
      kategori_benefit`), as the POST and PUT handlers answer it. */
  datatype BenefitView = BenefitView(id: int, text: string, kb: Option<int>, kbName: Option<string>)

  /** `ensureDefaultKategori` (the product route's
      `ensureDefaultKategoriBenefitId` runs the same two statements): the
      benefit category whose name sorts first (the `LIMIT 1` reads the name
      index), or a new one named 'Umum' when the table is empty. The
      returned id is the one a second call would return. */
  method EnsureDefaultKategori(db: Db) returns (id: int)
    requires db.Valid()
    modifies db
    ensures id in db.benefitCategories && db.AnyBenefitCategory() == Some(id)
    ensures old(db.benefitCategories) != map[] ==> db.Snapshot() == old(db.Snapshot())
    ensures old(db.benefitCategories) == map[] ==>
      id == old(db.nextBenefitCategory) &&
      db.Snapshot() == old(db.Snapshot()).(benefitCategories := map[id := "Umum"], nextBenefitCategory := id + 1)
    ensures db.Valid()
  {
    var any := db.AnyBenefitCategory();
    if any.Some? {
      return any.value;
    }
    assert db.benefitCategories == map[];
    id := db.InsertBenefitCategory("Umum");
  }

  /** `ensureKategoriBenefit`: a truthy id is taken as it is, a falsy name
      falls back to the default category, otherwise the category with that
      exact name, created when there is none. */
  method EnsureKategoriBenefit(db: Db, kbId: Field<int>, nama: Field<string>) returns (id: int)
    requires db.Valid()
    modifies db
    ensures Truthy(kbId) ==> id == kbId.value && db.Snapshot() == old(db.Snapshot())
    ensures !Truthy(kbId) && Falsy(nama) ==>
      id in db.benefitCategories && db.AnyBenefitCategory() == Some(id) &&
      (old(db.benefitCategories) != map[] ==> db.Snapshot() == old(db.Snapshot())) &&
      (old(db.benefitCategories) == map[] ==>
         id == old(db.nextBenefitCategory) && db.benefitCategories == map[id := "Umum"] && db.nextBenefitCategory == id + 1)
    ensures !Truthy(kbId) && !Falsy(nama) ==>
      id in db.benefitCategories && db.benefitCategories[id] == nama.value &&
      db.BenefitCategoryByName(nama.value) == Some(id)
    ensures !Truthy(kbId) && !Falsy(nama) && old(db.BenefitCategoryByName(nama.value)).Some? ==>
      id == old(db.BenefitCategoryByName(nama.value)).value && db.Snapshot() == old(db.Snapshot())
    ensures !Truthy(kbId) && !Falsy(nama) && old(db.BenefitCategoryByName(nama.value)).None? ==>
      id == old(db.nextBenefitCategory) &&
      db.Snapshot() == old(db.Snapshot()).(benefitCategories := old(db.benefitCategories)[id := nama.value], nextBenefitCategory := id + 1)
    ensures !Truthy(kbId) ==> db.Snapshot() == old(db.Snapshot()).(benefitCategories := db.benefitCategories, nextBenefitCategory := db.nextBenefitCategory)
    ensures db.Valid()
  {
    if Truthy(kbId) {
      return kbId.value;
    }
    if Falsy(nama) {
      id := EnsureDefaultKategori(db);
      return;
    }
    var sel := db.BenefitCategoryByName(nama.value);
    if sel.Some? {
      return sel.value;
    }
    id := db.InsertBenefitCategory(nama.value);
    FirstKeyIs(db.benefitCategories, IsName(nama.value), 1, db.nextBenefitCategory, id);
  }

  /** Some benefit still has no category. */
  predicate HasUncategorised(benefits: map<int, Benefit>)
  {
    exists k | k in benefits :: benefits[k].kb.None?
  }

  /** The backfill of `migrateBenefitSchemaIfNeeded`: when some benefit has
      no category, the default category is ensured and given to every such
      benefit; texts and ids are kept. */
  method MigrateBenefitSchema(db: Db)
    requires db.Valid()
    modifies db
    ensures !HasUncategorised(db.benefits)
    ensures !HasUncategorised(old(db.benefits)) ==> db.Snapshot() == old(db.Snapshot())
    ensures db.benefits.Keys == old(db.benefits).Keys
    ensures forall k | k in db.benefits ::
      db.benefits[k].text == old(db.benefits)[k].text &&
      db.benefits[k].kb == (if old(db.benefits)[k].kb.Some? then old(db.benefits)[k].kb else db.AnyBenefitCategory())
    ensures old(db.benefitCategories) != map[] ==>
      db.benefitCategories == old(db.benefitCategories) && db.nextBenefitCategory == old(db.nextBenefitCategory)
    ensures db.Snapshot() == old(db.Snapshot()).(benefits := db.benefits, benefitCategories := db.benefitCategories, nextBenefitCategory := db.nextBenefitCategory)
    ensures db.Valid()
  {
    if HasUncategorised(db.benefits) {
      var kb := EnsureDefaultKategori(db);
      db.BackfillBenefitCategory(kb);
    }
  }

  /** The row `SELECT ... WHERE b.id = ?` answers, joined with its category
      name. */
  function View(db: Db, id: int): (v: Option<BenefitView>)
    reads db
    ensures v.Some? <==> id in db.benefits
    ensures v.Some? ==> v.value.id == id && v.value.text == db.benefits[id].text && v.value.kb == db.benefits[id].kb
    ensures v.Some? && v.value.kb.Some? && v.value.kb.value in db.benefitCategories ==> v.value.kbName == Some(db.benefitCategories[v.value.kb.value])
  {
    if id !in db.benefits then None
    else
      var b := db.benefits[id];
      var name := if b.kb.Some? && b.kb.value in db.benefitCategories then Some(db.benefitCategories[b.kb.value]) else None;
      Some(BenefitView(id, b.text, b.kb, name))
  }

  /** The body of POST after the backfill: a missing benefit text is a 422;
      otherwise one row is always added (the text is not unique, so INSERT OR
      IGNORE never ignores it) and the answer is the lowest-id row with that
      text, which is an older duplicate when there is one. A truthy category
      id that does not exist breaks the foreign key: 500. */
  method CreateBenefit(db: Db, benefit: Field<string>, kbId: Field<int>, nama: Field<string>) returns (r: Response<BenefitView>)
    requires db.Valid()
    modifies db
    ensures Falsy(benefit) ==> r == Failure(422, "benefit required") && db.Snapshot() == old(db.Snapshot())
    ensures !Falsy(benefit) && Truthy(kbId) && kbId.value !in old(db.benefitCategories) ==>
      r == Failure(500, "FOREIGN KEY constraint failed") && db.Snapshot() == old(db.Snapshot())
    ensures !Falsy(benefit) && !(Truthy(kbId) && kbId.value !in old(db.benefitCategories)) ==> r.Success?
    ensures r.Success? ==>
      var n := old(db.nextBenefit);
      r.status == 201 && db.nextBenefit == n + 1 && n !in old(db.benefits) && n in db.benefits &&
      db.benefits == old(db.benefits)[n := db.benefits[n]] &&
      db.benefits[n].text == benefit.value && db.benefits[n].kb.Some? &&
      Some(r.body) == View(db, r.body.id) && r.body.text == benefit.value &&
      db.BenefitByText(benefit.value) == Some(r.body.id)
    ensures r.Success? && old(db.BenefitByText(benefit.value)).Some? ==> r.body.id == old(db.BenefitByText(benefit.value)).value
    ensures r.Success? && old(db.BenefitByText(benefit.value)).None? ==> r.body.id == old(db.nextBenefit)
    ensures db.Snapshot() == old(db.Snapshot()).(benefitCategories := db.benefitCategories, nextBenefitCategory := db.nextBenefitCategory,
      benefits := db.benefits, nextBenefit := db.nextBenefit)
    ensures db.Valid()
  {
    if Falsy(benefit) {
      return Failure(422, "benefit required");
    }
    var kb := EnsureKategoriBenefit(db, kbId, nama);
    r := InsertBenefitRow(db, benefit.value, kb);
  }

  /** The `INSERT` of POST and the read-back of the lowest-id row with the
      same text; a category id with no row fails the foreign key. */
  method InsertBenefitRow(db: Db, text: string, kb: int) returns (r: Response<BenefitView>)
    requires db.Valid()
    modifies db
    ensures kb !in old(db.benefitCategories) ==>
      r == Failure(500, "FOREIGN KEY constraint failed") && db.Snapshot() == old(db.Snapshot())
    ensures kb in old(db.benefitCategories) ==> r.Success?
    ensures r.Success? ==>
      var n := old(db.nextBenefit);
      r.status == 201 && db.nextBenefit == n + 1 && n !in old(db.benefits) && n in db.benefits &&
      db.benefits == old(db.benefits)[n := db.benefits[n]] &&
      db.benefits[n].text == text && db.benefits[n].kb.Some? &&
      Some(r.body) == View(db, r.body.id) && r.body.text == text &&
      db.BenefitByText(text) == Some(r.body.id)
    ensures r.Success? && old(db.BenefitByText(text)).Some? ==> r.body.id == old(db.BenefitByText(text)).value
    ensures r.Success? && old(db.BenefitByText(text)).None? ==> r.body.id == old(db.nextBenefit)
    ensures db.Snapshot() == old(db.Snapshot()).(benefits := db.benefits, nextBenefit := db.nextBenefit)
    ensures db.Valid()
  {
    ghost var before := db.benefits;
    var ins := db.InsertBenefit(text, kb);
    if ins.Throw? {
      return Failure(500, "FOREIGN KEY constraint failed");
    }
    var p := HasText(text);
    var n := ins.value;
    if FirstKey(before, p, 1, n).Some? {
      FirstKeyStable(before, db.benefits, p, 1, n, n + 1);
    } else {
      FirstKeyIs(db.benefits, p, 1, n + 1, n);
    }
    var row := db.BenefitByText(text);
    r := Success(201, View(db, row.value).value);
  }

  /** POST: the backfill, then `CreateBenefit`. */
  method Post(db: Db, benefit: Field<string>, kbId: Field<int>, nama: Field<string>) returns (r: Response<BenefitView>)
    requires db.Valid()
    modifies db
    ensures !HasUncategorised(db.benefits)
    ensures Falsy(benefit) ==> r == Failure(422, "benefit required") && db.benefits.Keys == old(db.benefits).Keys
    ensures r.Success? ==>
      r.status == 201 && r.body.text == benefit.value && db.benefits.Keys == old(db.benefits).Keys + {old(db.nextBenefit)} &&
      Some(r.body) == View(db, r.body.id) && db.BenefitByText(benefit.value) == Some(r.body.id)
    ensures r.Success? && old(db.BenefitByText(benefit.value)).Some? ==> r.body.id == old(db.BenefitByText(benefit.value)).value
    ensures db.links == old(db.links) && db.products == old(db.products) && db.media == old(db.media)
    ensures db.Valid()
  {
    MigrateBenefitSchema(db);
    if benefit.Present? {
      FirstKeySameMatches(old(db.benefits), db.benefits, HasText(benefit.value), 1, db.nextBenefit);
    }
    r := CreateBenefit(db, benefit, kbId, nama);
  }

  /** The row PUT writes: the text when the field is sent (a sent null is a
      NOT NULL violation), the category when one was resolved. */
  function UpdatedRow(old_row: Benefit, benefit: Field<string>, kb: Option<int>): (r: Result<Benefit>)
    ensures benefit.Null? <==> r.Throw?
    ensures r.Ok? ==> r.value.text == (if benefit.Present? then benefit.value else old_row.text)
    ensures r.Ok? ==> r.value.kb == (if kb.Some? then kb else old_row.kb)
  {
    if benefit.Null? then Throw("NOT NULL constraint failed: benefit.benefit")
    else
      Ok(Benefit(if benefit.Present? then benefit.value else old_row.text,
                 if kb.Some? then kb else old_row.kb))
  }

  /** The `UPDATE benefit` of PUT, run only when the text or a category is
      sent and the row exists: the row becomes `UpdatedRow`; a NULL text or
      a category id with no row throws with the table unchanged. */
  method WriteBenefit(db: Db, id: int, benefit: Field<string>, kb: Option<int>) returns (r: Result<()>)
    requires db.Valid()
    modifies db
    ensures db.Snapshot() == old(db.Snapshot()).(benefits := db.benefits)
    ensures (benefit.Absent? && kb.None?) || id !in old(db.benefits) ==> r.Ok? && db.benefits == old(db.benefits)
    ensures id in old(db.benefits) && benefit.Null? ==> r.Throw?
    ensures id in old(db.benefits) && kb.Some? && kb.value !in db.benefitCategories ==> r.Throw?
    ensures r.Throw? ==> db.benefits == old(db.benefits)
    ensures db.benefits.Keys == old(db.benefits).Keys
    ensures !HasUncategorised(old(db.benefits)) ==> !HasUncategorised(db.benefits)
    ensures r.Ok? && id in old(db.benefits) && (!benefit.Absent? || kb.Some?) ==>
      UpdatedRow(old(db.benefits)[id], benefit, kb).Ok? &&
      db.benefits == old(db.benefits)[id := UpdatedRow(old(db.benefits)[id], benefit, kb).value]
    ensures db.Valid()
  {
    if !benefit.Absent? || kb.Some? {
      if id in db.benefits {
        var row := UpdatedRow(db.benefits[id], benefit, kb);
        if row.Throw? {
          return Throw(row.message);
        }
        r := db.UpdateBenefit(id, row.value);
        return;
      }
    }
    r := Ok(());
  }

  /** The body of PUT after the backfill. The category is re-resolved (and
      may be created) only when one of its two fields is sent; the row is
      written only when some field is sent; the answer is the row as read
      back, absent when the id matches no row. */
  method UpdateBenefitRow(db: Db, id: Option<int>, benefit: Field<string>, kbId: Field<int>, nama: Field<string>) returns (r: Response<Option<BenefitView>>)
    requires db.Valid()
    modifies db
    ensures id.None? ==> r == Failure(422, "id required") && db.Snapshot() == old(db.Snapshot())
    ensures id.Some? && benefit.Absent? && kbId.Absent? && nama.Absent? ==>
      r == Success(200, View(db, id.value)) && db.Snapshot() == old(db.Snapshot())
    ensures id.Some? && kbId.Absent? && nama.Absent? ==>
      db.benefitCategories == old(db.benefitCategories) && db.nextBenefitCategory == old(db.nextBenefitCategory)
    ensures id.Some? && id.value !in old(db.benefits) ==> db.benefits == old(db.benefits) && r == Success(200, None)
    ensures id.Some? && id.value in old(db.benefits) && benefit.Null? ==> r.Failure? && r.status == 500 && db.benefits == old(db.benefits)
    ensures r.Success? && id.Some? && id.value in old(db.benefits) ==>
      id.value in db.benefits && r.body == View(db, id.value) &&
      db.benefits == old(db.benefits)[id.value := db.benefits[id.value]] &&
      db.benefits[id.value].text == (if benefit.Present? then benefit.value else old(db.benefits)[id.value].text) &&
      (kbId.Absent? && nama.Absent? ==> db.benefits[id.value].kb == old(db.benefits)[id.value].kb)
    ensures id.Some? && (!kbId.Absent? || !nama.Absent?) && Truthy(kbId) ==>
      db.benefitCategories == old(db.benefitCategories) && db.nextBenefitCategory == old(db.nextBenefitCategory) &&
      (r.Success? && id.value in old(db.benefits) ==> db.benefits[id.value].kb == Some(kbId.value))
    ensures id.Some? && (!kbId.Absent? || !nama.Absent?) && !Truthy(kbId) && Falsy(nama) ==>
      (r.Success? && id.value in old(db.benefits) ==>
         db.benefits[id.value].kb.Some? && db.benefits[id.value].kb.value in db.benefitCategories &&
         db.AnyBenefitCategory() == db.benefits[id.value].kb) &&
      (old(db.benefitCategories) != map[] ==>
         db.benefitCategories == old(db.benefitCategories) && db.nextBenefitCategory == old(db.nextBenefitCategory))
    ensures id.Some? && (!kbId.Absent? || !nama.Absent?) && !Truthy(kbId) && !Falsy(nama) ==>
      (r.Success? && id.value in old(db.benefits) ==>
         db.benefits[id.value].kb.Some? && db.benefits[id.value].kb.value in db.benefitCategories &&
         db.benefitCategories[db.benefits[id.value].kb.value] == nama.value &&
         db.BenefitCategoryByName(nama.value) == db.benefits[id.value].kb)
    ensures id.Some? && (!kbId.Absent? || !nama.Absent?) && !Truthy(kbId) && !Falsy(nama) &&
            old(db.BenefitCategoryByName(nama.value)).Some? ==>
      db.benefitCategories == old(db.benefitCategories) && db.nextBenefitCategory == old(db.nextBenefitCategory) &&
      (r.Success? && id.value in old(db.benefits) ==> db.benefits[id.value].kb == old(db.BenefitCategoryByName(nama.value)))
    ensures id.Some? && (!kbId.Absent? || !nama.Absent?) && !Truthy(kbId) && !Falsy(nama) &&
            old(db.BenefitCategoryByName(nama.value)).None? ==>
      db.benefitCategories == old(db.benefitCategories)[old(db.nextBenefitCategory) := nama.value] &&
      db.nextBenefitCategory == old(db.nextBenefitCategory) + 1 &&
      (r.Success? && id.value in old(db.benefits) ==> db.benefits[id.value].kb == Some(old(db.nextBenefitCategory)))
    ensures id.Some? && (!kbId.Absent? || !nama.Absent?) && !Truthy(kbId) && Falsy(nama) && old(db.benefitCategories) == map[] ==>
      db.benefitCategories == map[old(db.nextBenefitCategory) := "Umum"] && db.nextBenefitCategory == old(db.nextBenefitCategory) + 1
    ensures db.benefits.Keys == old(db.benefits).Keys
    ensures !HasUncategorised(old(db.benefits)) ==> !HasUncategorised(db.benefits)
    ensures db.Snapshot() == old(db.Snapshot()).(benefits := db.benefits, benefitCategories := db.benefitCategories, nextBenefitCategory := db.nextBenefitCategory)
    ensures db.Valid()
  {
    if id.None? {
      return Failure(422, "id required");
    }
    var kb: Option<int> := None;
    if !kbId.Absent? || !nama.Absent? {
      var k := EnsureKategoriBenefit(db, kbId, nama);
      kb := Some(k);
    }
    var w := WriteBenefit(db, id.value, benefit, kb);
    if w.Throw? {
      return Failure(500, w.message);
    }
    r := Success(200, View(db, id.value));
  }

  /** PUT: the backfill, then `UpdateBenefitRow`. */
  method Put(db: Db, id: Option<int>, benefit: Field<string>, kbId: Field<int>, nama: Field<string>) returns (r: Response<Option<BenefitView>>)
    requires db.Valid()
    modifies db
    ensures !HasUncategorised(db.benefits)
    ensures id.None? ==> r == Failure(422, "id required")
    ensures db.benefits.Keys == old(db.benefits).Keys
    ensures r.Success? && id.Some? ==> r.body == View(db, id.value)
    ensures r.Success? && id.Some? && id.value in old(db.benefits) ==>
      id.value in db.benefits &&
      db.benefits[id.value].text == (if benefit.Present? then benefit.value else old(db.benefits)[id.value].text) &&
      (kbId.Absent? && nama.Absent? ==>
         db.benefits[id.value].kb == (if old(db.benefits)[id.value].kb.Some? then old(db.benefits)[id.value].kb else db.AnyBenefitCategory()))
    ensures id.Some? && id.value !in old(db.benefits) ==> r == Success(200, None)
    ensures id.Some? && id.value in old(db.benefits) && benefit.Null? ==> r.Failure? && r.status == 500
    ensures id.Some? && (!kbId.Absent? || !nama.Absent?) && Truthy(kbId) ==>
      (old(db.benefitCategories) != map[] ==>
         db.benefitCategories == old(db.benefitCategories) && db.nextBenefitCategory == old(db.nextBenefitCategory)) &&
      (r.Success? && id.value in old(db.benefits) ==> db.benefits[id.value].kb == Some(kbId.value))
    ensures id.Some? && (!kbId.Absent? || !nama.Absent?) && !Truthy(kbId) && Falsy(nama) ==>
      (r.Success? && id.value in old(db.benefits) ==>
         db.benefits[id.value].kb.Some? && db.benefits[id.value].kb.value in db.benefitCategories &&
         db.AnyBenefitCategory() == db.benefits[id.value].kb) &&
      (old(db.benefitCategories) != map[] ==>
         db.benefitCategories == old(db.benefitCategories) && db.nextBenefitCategory == old(db.nextBenefitCategory))
    ensures id.Some? && (!kbId.Absent? || !nama.Absent?) && !Truthy(kbId) && !Falsy(nama) ==>
      (r.Success? && id.value in old(db.benefits) ==>
         db.benefits[id.value].kb.Some? && db.benefits[id.value].kb.value in db.benefitCategories &&
         db.benefitCategories[db.benefits[id.value].kb.value] == nama.value &&
         db.BenefitCategoryByName(nama.value) == db.benefits[id.value].kb)
    ensures old(db.benefitCategories) != map[] && id.Some? && (!kbId.Absent? || !nama.Absent?) && !Truthy(kbId) && !Falsy(nama) &&
            old(db.BenefitCategoryByName(nama.value)).Some? ==>
      db.benefitCategories == old(db.benefitCategories) && db.nextBenefitCategory == old(db.nextBenefitCategory) &&
      (r.Success? && id.value in old(db.benefits) ==> db.benefits[id.value].kb == old(db.BenefitCategoryByName(nama.value)))
    ensures old(db.benefitCategories) != map[] && id.Some? && (!kbId.Absent? || !nama.Absent?) && !Truthy(kbId) && !Falsy(nama) &&
            old(db.BenefitCategoryByName(nama.value)).None? ==>
      db.benefitCategories == old(db.benefitCategories)[old(db.nextBenefitCategory) := nama.value] &&
      db.nextBenefitCategory == old(db.nextBenefitCategory) + 1 &&
      (r.Success? && id.value in old(db.benefits) ==> db.benefits[id.value].kb == Some(old(db.nextBenefitCategory)))
    ensures db.links == old(db.links) && db.products == old(db.products) && db.media == old(db.media)
    ensures db.Valid()
  {
    MigrateBenefitSchema(db);
    r := UpdateBenefitRow(db, id, benefit, kbId, nama);
  }

  /** DELETE: the backfill, then the benefit's links, then the benefit. */
  method Delete(db: Db, id: Option<int>) returns (r: Response<()>)
    requires db.Valid()
    modifies db
    ensures !HasUncategorised(db.benefits)
    ensures id.None? ==> r == Failure(422, "id required") && db.benefits.Keys == old(db.benefits).Keys && db.links == old(db.links)
    ensures id.Some? ==>
      r == Success(200, ()) &&
      db.benefits.Keys == old(db.benefits).Keys - {id.value} &&
      db.links == set l | l in old(db.links) && l.1 != id.value
    ensures db.products == old(db.products) && db.media == old(db.media) && db.categories == old(db.categories)
    ensures db.Valid()
  {
    MigrateBenefitSchema(db);
    if id.None? {
      return Failure(422, "id required");
    }
    ghost var migrated := db.benefits;
    db.DeleteLinksOfBenefit(id.value);
    db.DeleteBenefit(id.value);
    assert db.benefits == migrated - {id.value};
    assert db.benefits.Keys == migrated.Keys - {id.value};
    r := Success(200, ());
  }
}
