/** The product-category route (`app/api/kategori-produk/route.js`): a
    case-insensitive get-or-create, a search filter built on SQLite's `LIKE`,
    an update that refuses to create a case-insensitive duplicate, and a
    delete that cascades to the category's products. */
module KategoriProdukRoute {
  import opened Common
  import opened Store

  /** The columns the route answers with. */
  datatype CategoryRow = CategoryRow(id: int, nama: string, sub: Option<string>)

  function RowOf(id: int, c: Category): (r: CategoryRow)
    ensures r.id == id && r.nama == c.nama && r.sub == c.sub
  {
    CategoryRow(id, c.nama, c.sub)
  }

  // ---- POST ----

  /** `body.nama_kategori ? String(body.nama_kategori).trim() : ''`. */
  function PostName(nama: Field<string>): (r: string)
    ensures r == [] <==> Falsy(nama) || IsBlank(nama.value)
    ensures r != [] ==> !IsSpace(r[0]) && !IsSpace(r[|r| - 1]) && OccursAt(nama.value, r, SkipSpaces(nama.value, 0))
  {
    if Falsy(nama) then "" else Trim(nama.value)
  }

  /** The sub-category as POST binds it: not sent is NULL, otherwise
      `String(x || '').trim()`, and then `|| null` turns '' into NULL. */
  function PostSub(sub: Field<string>): (r: Option<string>)
    ensures r.None? <==> sub.Absent? || sub.Null? || IsBlank(sub.value)
    ensures r.Some? ==> r.value != [] && !IsSpace(r.value[0]) && !IsSpace(r.value[|r.value| - 1])
  {
    if sub.Present? && Trim(sub.value) != [] then Some(Trim(sub.value)) else None
  }

  /** POST: a blank name is a 422; a row with the same name and sub up to
      ASCII case is answered with 200 and nothing is written; otherwise one
      row is inserted and answered with 201. Either way, a repeated POST
      with the same fields finds the answered row. */
  method Post(db: Db, nama: Field<string>, sub: Field<string>) returns (r: Response<CategoryRow>)
    requires db.Valid()
    modifies db
    ensures PostName(nama) == [] ==> r == Failure(422, "nama_kategori required") && db.Snapshot() == old(db.Snapshot())
    ensures PostName(nama) != [] && old(db.CategoryLike(PostName(nama), PostSub(sub))).Some? ==>
      var k := old(db.CategoryLike(PostName(nama), PostSub(sub))).value;
      r == Success(200, RowOf(k, old(db.categories)[k])) && db.Snapshot() == old(db.Snapshot())
    ensures PostName(nama) != [] && old(db.CategoryLike(PostName(nama), PostSub(sub))).None? ==>
      var k := old(db.nextCategory);
      r == Success(201, CategoryRow(k, PostName(nama), PostSub(sub))) &&
      db.Snapshot() == old(db.Snapshot()).(categories := old(db.categories)[k := Category(PostName(nama), PostSub(sub), None, None)], nextCategory := k + 1)
    ensures r.Success? ==>
      r.body.id in db.categories && NameSubLike(db.categories[r.body.id], PostName(nama), PostSub(sub)) &&
      db.CategoryLike(PostName(nama), PostSub(sub)) == Some(r.body.id)
    ensures db.Valid()
  {
    var n := PostName(nama);
    var s := PostSub(sub);
    if n == [] {
      return Failure(422, "nama_kategori required");
    }
    var existing := db.CategoryLike(n, s);
    if existing.Some? {
      return Success(200, RowOf(existing.value, db.categories[existing.value]));
    }
    var id := db.InsertCategory(Category(n, s, None, None));
    r := Success(201, RowOf(id, db.categories[id]));
  }

  // ---- GET ----

  /** SQLite's `LIKE` without an ESCAPE clause: `%` matches any run of
      characters, `_` any one character, and other characters match up to
      ASCII case. */
  predicate Like(s: string, p: string)
    decreases |p|, |s|
  {
    if p == [] then s == []
    else if p[0] == '%' then Like(s, p[1..]) || (s != [] && Like(s[1..], p))
    else s != [] && (p[0] == '_' || LowerChar(s[0]) == LowerChar(p[0])) && Like(s[1..], p[1..])
  }

  /** The term holds neither of `LIKE`'s wildcards. */
  predicate NoWildcards(t: string)
  {
    forall i | 0 <= i < |t| :: t[i] != '%' && t[i] != '_'
  }

  /** `lower(COALESCE(sub_kategori, ''))`. */
  function SubText(c: Category): string
  {
    if c.sub.Some? then Lower(c.sub.value) else ""
  }

  /** The rows `GET ?q=` answers: the lowered name or sub is `LIKE` the
      lowered term wrapped in `%`. */
  function SearchIds(categories: map<int, Category>, q: string): (r: set<int>)
    ensures r <= categories.Keys
  {
    set k | k in categories && (Like(Lower(categories[k].nama), "%" + Lower(q) + "%") || Like(SubText(categories[k]), "%" + Lower(q) + "%"))
  }

  /** `GET ?id=`: the row, or a 404. */
  function GetById(categories: map<int, Category>, id: int): (r: Response<CategoryRow>)
    ensures r.Success? <==> id in categories
    ensures r.Success? ==> r == Success(200, RowOf(id, categories[id]))
    ensures r.Failure? ==> r == Failure(404, "Kategori tidak ditemukan")
  {
    if id in categories then Success(200, RowOf(id, categories[id])) else Failure(404, "Kategori tidak ditemukan")
  }

  // ---- ORDER BY nama_kategori, sub_kategori ----

  /** `ORDER BY nama_kategori, sub_kategori`: by name, then by sub-category. */
  predicate RowLe(x: CategoryRow, y: CategoryRow)
  {
    NameSubLe(x.nama, x.sub, y.nama, y.sub)
  }

  predicate SortedRows(s: seq<CategoryRow>)
  {
    forall i, j | 0 <= i < j < |s| :: RowLe(s[i], s[j])
  }

  /** One row put into an ordered listing at its place. */
  function InsertRow(x: CategoryRow, s: seq<CategoryRow>): (r: seq<CategoryRow>)
    requires SortedRows(s)
    ensures SortedRows(r) && |r| == |s| + 1
    ensures forall y :: y in r <==> y == x || y in s
  {
    if s == [] then [x]
    else if RowLe(x, s[0]) then
      assert forall j | 0 <= j < |s| :: RowLe(x, s[j]) by {
        forall j | 0 <= j < |s|
          ensures RowLe(x, s[j])
        {
          if j > 0 { NameSubLeTransitive(x.nama, x.sub, s[0].nama, s[0].sub, s[j].nama, s[j].sub); }
        }
      }
      [x] + s
    else
      NameSubLeTotal(x.nama, x.sub, s[0].nama, s[0].sub);
      var t := InsertRow(x, s[1..]);
      assert forall y | y in t :: RowLe(s[0], y);
      [s[0]] + t
  }

  lemma NonEmptyHasMember(ids: set<int>)
    requires ids != {}
    ensures exists k :: k in ids
  {
    if forall k :: k !in ids {
      assert false;
    }
  }

  /** The answer of a listing: the rows with the given ids, each once, in
      the order of `ORDER BY nama_kategori, sub_kategori`. Rows that tie on
      both columns may come in any order. */
  ghost function Listing(categories: map<int, Category>, ids: set<int>): (r: seq<CategoryRow>)
    requires ids <= categories.Keys
    ensures SortedRows(r) && |r| == |ids|
    ensures forall y :: y in r <==> y.id in ids && y == RowOf(y.id, categories[y.id])
    decreases ids
  {
    if ids == {} then []
    else
      NonEmptyHasMember(ids);
      var k :| k in ids;
      InsertRow(RowOf(k, categories[k]), Listing(categories, ids - {k}))
  }

  /** GET without `id`: the rows the term `q` finds, or every row when no
      term is given, in name and sub-category order. */
  ghost function List(categories: map<int, Category>, q: Option<string>): (r: seq<CategoryRow>)
    ensures SortedRows(r)
    ensures q.None? || q.value == [] ==> |r| == |categories|
    ensures forall y :: y in r <==> y.id in categories && y == RowOf(y.id, categories[y.id])
                                    && (q.None? || q.value == [] || y.id in SearchIds(categories, q.value))
  {
    if q.Some? && q.value != [] then Listing(categories, SearchIds(categories, q.value))
    else
      assert |categories.Keys| == |categories|;
      Listing(categories, categories.Keys)
  }

  lemma {:induction false} LikeAnything(s: string)
    ensures Like(s, "%")
    decreases |s|
  {
    if s != [] {
      LikeAnything(s[1..]);
    }
  }

  /** Lowering text that has no upper-case ASCII letter changes nothing. */
  lemma LowerOfLowered(s: string)
    requires forall i | 0 <= i < |s| :: !IsUpperAscii(s[i])
    ensures Lower(s) == s
  {
  }

  /** A wildcard-free term followed by `%` matches exactly the texts that
      start with it, up to ASCII case. */
  lemma {:induction false} LikePrefix(s: string, t: string)
    requires NoWildcards(t)
    ensures Like(s, t + "%") <==> |t| <= |s| && Lower(s[..|t|]) == Lower(t)
    decreases |t|
  {
    if t == [] {
      LikeAnything(s);
      assert t + "%" == "%";
    } else {
      assert (t + "%")[0] == t[0] && (t + "%")[1..] == t[1..] + "%";
      if s == [] {
      } else {
        LikePrefix(s[1..], t[1..]);
        if |t| <= |s| {
          assert s[..|t|] == [s[0]] + s[1..][..|t| - 1];
          assert t == [t[0]] + t[1..];
          assert Lower(s[..|t|])[0] == LowerChar(s[0]) && Lower(t)[0] == LowerChar(t[0]);
          assert Lower(s[..|t|])[1..] == Lower(s[1..][..|t| - 1]);
          assert Lower(t)[1..] == Lower(t[1..]);
        }
      }
    }
  }

  /** `t` occurs in `s` at index `i` up to ASCII case. */
  predicate MatchesAt(s: string, t: string, i: int)
  {
    0 <= i <= |s| - |t| && Lower(s[i..i + |t|]) == Lower(t)
  }

  predicate ContainsIgnoringCase(s: string, t: string)
  {
    exists i | 0 <= i <= |s| - |t| :: MatchesAt(s, t, i)
  }

  lemma ContainsIgnoringCaseStep(s: string, t: string)
    requires s != []
    ensures ContainsIgnoringCase(s, t) <==> MatchesAt(s, t, 0) || ContainsIgnoringCase(s[1..], t)
  {
    if ContainsIgnoringCase(s, t) {
      var i :| 0 <= i <= |s| - |t| && MatchesAt(s, t, i);
      if i > 0 {
        assert s[1..][i - 1..i - 1 + |t|] == s[i..i + |t|];
        assert MatchesAt(s[1..], t, i - 1);
      }
    }
    if ContainsIgnoringCase(s[1..], t) {
      var j :| 0 <= j <= |s[1..]| - |t| && MatchesAt(s[1..], t, j);
      assert s[1..][j..j + |t|] == s[j + 1..j + 1 + |t|];
      assert MatchesAt(s, t, j + 1);
    }
  }

  /** `%t%` with a wildcard-free `t` matches exactly the texts that contain
      `t` somewhere, up to ASCII case. */
  lemma {:induction false} LikeInfix(s: string, t: string)
    requires NoWildcards(t)
    ensures Like(s, "%" + t + "%") <==> ContainsIgnoringCase(s, t)
    decreases |s|
  {
    var p := "%" + t + "%";
    assert p[0] == '%' && p[1..] == t + "%";
    LikePrefix(s, t);
    if |t| <= |s| {
      assert s[..|t|] == s[0..0 + |t|];
    }
    if s != [] {
      LikeInfix(s[1..], t);
      ContainsIgnoringCaseStep(s, t);
    } else {
      if t == [] {
        assert MatchesAt(s, t, 0);
      }
      if ContainsIgnoringCase(s, t) {
        var i :| 0 <= i <= |s| - |t| && MatchesAt(s, t, i);
        assert i == 0;
      }
    }
  }

  /** For a search term without `%` or `_`, `GET ?q=` answers exactly the
      rows whose lowered name or lowered sub (NULL read as '') contains the
      lowered term. */
  lemma SearchIsContains(categories: map<int, Category>, q: string, k: int)
    requires NoWildcards(q)
    ensures k in SearchIds(categories, q) <==>
      k in categories && (Contains(Lower(categories[k].nama), Lower(q)) || Contains(SubText(categories[k]), Lower(q)))
  {
    var t := Lower(q);
    assert NoWildcards(t);
    if k in categories {
      var name := Lower(categories[k].nama);
      var sub := SubText(categories[k]);
      LikeInfix(name, t);
      LikeInfix(sub, t);
      ContainsLowered(name, t);
      ContainsLowered(sub, t);
    }
  }

  /** On lowered text, matching up to ASCII case is plain containment. */
  lemma ContainsLowered(s: string, t: string)
    requires forall i | 0 <= i < |s| :: !IsUpperAscii(s[i])
    requires forall i | 0 <= i < |t| :: !IsUpperAscii(t[i])
    ensures ContainsIgnoringCase(s, t) <==> Contains(s, t)
  {
    LowerOfLowered(t);
    if Contains(s, t) {
      var i :| 0 <= i <= |s| - |t| && OccursAt(s, t, i);
      assert MatchesAt(s, t, i);
    }
    if ContainsIgnoringCase(s, t) {
      var i :| 0 <= i <= |s| - |t| && MatchesAt(s, t, i);
      LowerOfLowered(s[i..i + |t|]);
      assert OccursAt(s, t, i);
    }
  }

  // ---- PUT ----

  /** A field PUT reads with `hasOwnProperty`: not sent is `undefined`,
      otherwise `String(x || '').trim()`. */
  function PutText(f: Field<string>): (r: Option<string>)
    ensures r.None? <==> f.Absent?
    ensures r.Some? ==> (r.value == [] <==> f.Null? || IsBlank(f.value))
  {
    if f.Absent? then None else if f.Null? then Some("") else Some(Trim(f.value))
  }

  /** `x || null` on a possibly NULL text. */
  function NullIfEmpty(s: Option<string>): (r: Option<string>)
    ensures r.Some? ==> r.value != [] && r == s
    ensures s.Some? && s.value != [] ==> r == s
  {
    if s.Some? && s.value == [] then None else s
  }

  /** The row PUT writes: a sent name replaces the name, a sent sub replaces
      the sub (an empty one is NULL); code and description are kept. */
  function PutRow(current: Category, nama: Option<string>, sub: Option<string>): (r: Category)
    ensures r.nama == (if nama.Some? then nama.value else current.nama)
    ensures sub.None? ==> r.sub == current.sub
    ensures sub.Some? ==> r.sub == NullIfEmpty(sub)
    ensures r.code == current.code && r.desc == current.desc
  {
    current.(nama := if nama.Some? then nama.value else current.nama,
             sub := if sub.Some? then NullIfEmpty(sub) else current.sub)
  }

  /** PUT, with its checks in the source's order: a missing id (422), an
      unknown id (404), a sent but blank name (422), another row with the
      resulting name and sub up to ASCII case (409), and only then no field
      sent (422). A successful update leaves no other row clashing with the
      updated one. */
  method Put(db: Db, id: Option<int>, nama: Field<string>, sub: Field<string>) returns (r: Response<CategoryRow>)
    requires db.Valid()
    modifies db
    ensures db.Snapshot() == old(db.Snapshot()).(categories := db.categories)
    ensures r.Failure? ==> db.categories == old(db.categories)
    ensures id.None? ==> r == Failure(422, "id required")
    ensures id.Some? && id.value !in old(db.categories) ==> r == Failure(404, "Kategori tidak ditemukan")
    ensures id.Some? && id.value in old(db.categories) && PutText(nama) == Some("") ==> r == Failure(422, "nama_kategori required")
    ensures id.Some? && id.value in old(db.categories) && PutText(nama) != Some("") ==>
      var row := PutRow(old(db.categories)[id.value], PutText(nama), PutText(sub));
      (old(db.OtherCategoryLike(id.value, row.nama, NullIfEmpty(row.sub))).Some? ==> r == Failure(409, "Kategori sudah ada")) &&
      (old(db.OtherCategoryLike(id.value, row.nama, NullIfEmpty(row.sub))).None? && nama.Absent? && sub.Absent? ==>
         r == Failure(422, "Tidak ada perubahan")) &&
      (old(db.OtherCategoryLike(id.value, row.nama, NullIfEmpty(row.sub))).None? && !(nama.Absent? && sub.Absent?) ==>
         r == Success(200, RowOf(id.value, row)) && db.categories == old(db.categories)[id.value := row])
    ensures r.Success? ==>
      var k := r.body.id;
      k in db.categories &&
      forall j | j in db.categories && j != k :: !NameSubLike(db.categories[j], db.categories[k].nama, NullIfEmpty(db.categories[k].sub))
    ensures db.Valid()
  {
    if id.None? {
      return Failure(422, "id required");
    }
    var k := id.value;
    if k !in db.categories {
      return Failure(404, "Kategori tidak ditemukan");
    }
    var current := db.categories[k];
    var n := PutText(nama);
    var s := PutText(sub);
    if n == Some("") {
      return Failure(422, "nama_kategori required");
    }
    var row := PutRow(current, n, s);
    var duplicate := db.OtherCategoryLike(k, row.nama, NullIfEmpty(row.sub));
    if duplicate.Some? {
      return Failure(409, "Kategori sudah ada");
    }
    if n.None? && s.None? {
      return Failure(422, "Tidak ada perubahan");
    }
    forall j | j in db.categories && j != k ensures !NameSubLike(db.categories[j], row.nama, NullIfEmpty(row.sub)) {
      assert j in db.categories - {k} && 1 <= j < db.nextCategory;
      assert !LikeNameSub(row.nama, NullIfEmpty(row.sub))((db.categories - {k})[j]);
    }
    db.UpdateCategory(k, row);
    r := Success(200, RowOf(k, row));
  }

  // ---- DELETE ----

  /** DELETE: a missing id is a 422 and an unknown one a 404; otherwise the
      row goes, and with it (foreign-key cascades) its products, their
      benefit links and the media they own. */
  method Delete(db: Db, id: Option<int>) returns (r: Response<()>)
    requires db.Valid()
    modifies db
    ensures id.None? ==> r == Failure(422, "id required") && db.Snapshot() == old(db.Snapshot())
    ensures id.Some? && id.value !in old(db.categories) ==> r == Failure(404, "Kategori tidak ditemukan") && db.Snapshot() == old(db.Snapshot())
    ensures id.Some? && id.value in old(db.categories) ==>
      r == Success(200, ()) && db.Snapshot() == CategoryDeleted(old(db.Snapshot()), id.value)
    ensures forall k | k in db.products :: db.products[k].kategori in db.categories
    ensures db.Valid()
  {
    if id.None? {
      return Failure(422, "id required");
    }
    if id.value !in db.categories {
      return Failure(404, "Kategori tidak ditemukan");
    }
    db.DeleteCategory(id.value);
    r := Success(200, ());
  }
}
