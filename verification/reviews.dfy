/** The review route (`app/api/reviews/route.js`): the rating clamp, the
    POST checks, the field-by-field PUT and the DELETE existence check. */
module ReviewsRoute {
  import opened Common

  /** A `reviews` row. */
  datatype Review = Review(nama: string, rating: int, isi: string,
                           href: Option<string>, sumber: Option<string>)

  datatype Stored = Stored(id: int, row: Review)

  /** `Math.round`: the nearest integer, halves rounded up. */
  function Round(x: real): (n: int)
    ensures x - 0.5 < n as real <= x + 0.5
  {
    (x + 0.5).Floor
  }

  /** `normalizeRating`, applied to `Number(value)`: NaN has no rating,
      anything below 1 is 1, anything above 5 is 5, and the rest is
      rounded. */
  function NormalizeRating(n: JsNumber): (r: Option<int>)
    ensures r.None? <==> n.NaN?
    ensures r.Some? ==> 1 <= r.value <= 5
    ensures n.Finite? && n.value < 1.0 ==> r == Some(1)
    ensures n.Finite? && n.value > 5.0 ==> r == Some(5)
    ensures n.Finite? && 1.0 <= n.value <= 5.0 ==> n.value - 0.5 < r.value as real <= n.value + 0.5
  {
    if n.NaN? then None
    else if n.value < 1.0 then Some(1)
    else if n.value > 5.0 then Some(5)
    else Some(Round(n.value))
  }

  /** An integer rating from 1 to 5 is kept as it is. */
  lemma RatingKeepsInRange(k: int)
    requires 1 <= k <= 5
    ensures NormalizeRating(Finite(k as real)) == Some(k)
  {
  }

  /** A larger input never gets a smaller rating. */
  lemma RatingMonotone(a: real, b: real)
    requires a <= b
    ensures NormalizeRating(Finite(a)).value <= NormalizeRating(Finite(b)).value
  {
  }

  /** Normalising a rating again changes nothing. */
  lemma RatingIdempotent(n: JsNumber)
    requires n.Finite?
    ensures var r := NormalizeRating(n).value;
      NormalizeRating(Finite(r as real)) == Some(r)
  {
    RatingKeepsInRange(NormalizeRating(n).value);
  }

  class ReviewTable {
    var rows: map<int, Review>
    var nextId: int

    predicate Valid()
      reads this
    {
      0 < nextId && forall id :: id in rows ==> 0 < id < nextId
    }

    constructor ()
      ensures rows == map[] && nextId == 1
      ensures Valid()
    {
      rows := map[];
      nextId := 1;
    }
  }

  // ---- POST ----

  /** A request body as POST reads it: each text is `None` when absent or
      falsy; `rating` is `Number(body.rating)` (NaN when absent, 0 when
      `null`). */
  datatype PostBody = PostBody(nama: Option<string>, isi: Option<string>,
                               href: Option<string>, sumber: Option<string>, rating: JsNumber)

  /** `body?.x ? String(body.x).trim() : ''`. */
  function TrimmedOr(f: Option<string>): string
  {
    if f.Some? && f.value != [] then Trim(f.value) else ""
  }

  /** `body?.x ? String(body.x).trim() : null`; a blank string trims to "". */
  function TrimmedOrNull(f: Option<string>): Option<string>
  {
    if f.Some? && f.value != [] then Some(Trim(f.value)) else None
  }

  /** POST: blank `nama`, then blank `isi`, then an invalid rating give 422
      and write nothing; otherwise one row is inserted. */
  method Post(t: ReviewTable, b: PostBody) returns (r: Response<Stored>)
    requires t.Valid()
    modifies t
    ensures TrimmedOr(b.nama) == [] ==> r == Failure(422, "nama diperlukan")
    ensures TrimmedOr(b.nama) != [] && TrimmedOr(b.isi) == [] ==> r == Failure(422, "isi diperlukan")
    ensures TrimmedOr(b.nama) != [] && TrimmedOr(b.isi) != [] && b.rating.NaN? ==>
              r == Failure(422, "rating tidak valid")
    ensures r.Failure? ==> t.rows == old(t.rows) && t.nextId == old(t.nextId)
    ensures r.Success? <==> TrimmedOr(b.nama) != [] && TrimmedOr(b.isi) != [] && b.rating.Finite?
    ensures r.Success? ==>
      var row := Review(TrimmedOr(b.nama), NormalizeRating(b.rating).value, TrimmedOr(b.isi),
                        TrimmedOrNull(b.href), TrimmedOrNull(b.sumber));
      && r == Success(201, Stored(old(t.nextId), row))
      && t.rows == old(t.rows)[old(t.nextId) := row] && t.nextId == old(t.nextId) + 1
    ensures r.Success? ==> 1 <= r.body.row.rating <= 5 && r.body.row.nama != [] && r.body.row.isi != []
    ensures t.Valid()
  {
    var nama := TrimmedOr(b.nama);
    var isi := TrimmedOr(b.isi);
    var rating := NormalizeRating(b.rating);
    if nama == [] {
      return Failure(422, "nama diperlukan");
    }
    if isi == [] {
      return Failure(422, "isi diperlukan");
    }
    if rating.None? {
      return Failure(422, "rating tidak valid");
    }
    var row := Review(nama, rating.value, isi, TrimmedOrNull(b.href), TrimmedOrNull(b.sumber));
    var id := t.nextId;
    t.rows := t.rows[id := row];
    t.nextId := id + 1;
    r := Success(201, Stored(id, row));
  }

  // ---- PUT ----

  /** A request body as PUT reads it: `Absent` is a key left out (`undefined`);
      `rating` is `None` when left out and `Number(body.rating)` otherwise. */
  datatype PutBody = PutBody(nama: Field<string>, isi: Field<string>,
                             href: Field<string>, sumber: Field<string>, rating: Option<JsNumber>)

  /** `String(x).trim()` of a key that was sent; `String(null)` is "null". */
  function SentText(f: Field<string>): string
    requires !f.Absent?
  {
    if f.Null? then "null" else Trim(f.value)
  }

  /** `x === null ? null : String(x).trim()`, then `|| null`. */
  function SentLink(f: Field<string>): Option<string>
    requires !f.Absent?
  {
    if f.Null? || Trim(f.value) == [] then None else Some(Trim(f.value))
  }

  /** The `fields` object PUT assembles: one entry per key that was sent. */
  datatype Changes = Changes(nama: Option<string>, isi: Option<string>, href: Option<Option<string>>,
                             sumber: Option<Option<string>>, rating: Option<int>)

  predicate NoChanges(c: Changes)
  {
    c.nama.None? && c.isi.None? && c.href.None? && c.sumber.None? && c.rating.None?
  }

  /** The row after `UPDATE reviews SET <fields> WHERE id = ?`. */
  function Applied(c: Changes, e: Review): (r: Review)
    ensures c.nama.None? ==> r.nama == e.nama
    ensures c.isi.None? ==> r.isi == e.isi
    ensures c.href.None? ==> r.href == e.href
    ensures c.sumber.None? ==> r.sumber == e.sumber
    ensures c.rating.None? ==> r.rating == e.rating
    ensures NoChanges(c) ==> r == e
  {
    Review(if c.nama.Some? then c.nama.value else e.nama,
           if c.rating.Some? then c.rating.value else e.rating,
           if c.isi.Some? then c.isi.value else e.isi,
           if c.href.Some? then c.href.value else e.href,
           if c.sumber.Some? then c.sumber.value else e.sumber)
  }

  /** Applying the same changes twice is applying them once. */
  lemma AppliedIdempotent(c: Changes, e: Review)
    ensures Applied(c, Applied(c, e)) == Applied(c, e)
  {
  }

  /** The PUT checks, in the source's order, with the changes they accept. */
  function PutChanges(b: PutBody): (r: Result<Changes>)
    ensures r.Ok? ==> (r.value.nama.Some? <==> !b.nama.Absent?) && (r.value.isi.Some? <==> !b.isi.Absent?)
    ensures r.Ok? ==> (r.value.href.Some? <==> !b.href.Absent?) && (r.value.sumber.Some? <==> !b.sumber.Absent?)
    ensures r.Ok? ==> (r.value.rating.Some? <==> b.rating.Some?)
    ensures r.Ok? && r.value.nama.Some? ==> r.value.nama.value != []
    ensures r.Ok? && r.value.isi.Some? ==> r.value.isi.value != []
    ensures r.Ok? && r.value.rating.Some? ==> 1 <= r.value.rating.value <= 5
    ensures r.Ok? && r.value.href.Some? && r.value.href.value.Some? ==> r.value.href.value.value != []
    ensures r.Ok? && r.value.sumber.Some? && r.value.sumber.value.Some? ==> r.value.sumber.value.value != []
  {
    if !b.nama.Absent? && SentText(b.nama) == [] then Throw("nama tidak boleh kosong")
    else if !b.isi.Absent? && SentText(b.isi) == [] then Throw("isi tidak boleh kosong")
    else if b.rating.Some? && b.rating.value.NaN? then Throw("rating tidak valid")
    else Ok(Changes(if b.nama.Absent? then None else Some(SentText(b.nama)),
                    if b.isi.Absent? then None else Some(SentText(b.isi)),
                    if b.href.Absent? then None else Some(SentLink(b.href)),
                    if b.sumber.Absent? then None else Some(SentLink(b.sumber)),
                    if b.rating.Some? then NormalizeRating(b.rating.value) else None))
  }

  /** PUT: a missing id, a sent-but-blank `nama` or `isi`, an invalid rating
      or a body that changes nothing give 422; only then is the update run,
      and an id without a row is reported as 404 after it (the update having
      matched nothing). Otherwise exactly the sent fields are written. */
  method Put(t: ReviewTable, id: Option<int>, b: PutBody) returns (r: Response<Stored>)
    requires t.Valid()
    modifies t
    ensures t.nextId == old(t.nextId)
    ensures id.None? ==> r == Failure(422, "id diperlukan") && t.rows == old(t.rows)
    ensures id.Some? && PutChanges(b).Throw? ==> r == Failure(422, PutChanges(b).message) && t.rows == old(t.rows)
    ensures id.Some? && PutChanges(b).Ok? && NoChanges(PutChanges(b).value) ==>
              r == Failure(422, "Tidak ada perubahan") && t.rows == old(t.rows)
    ensures id.Some? && PutChanges(b).Ok? && !NoChanges(PutChanges(b).value) && id.value !in old(t.rows) ==>
              r == Failure(404, "Data tidak ditemukan") && t.rows == old(t.rows)
    ensures id.Some? && PutChanges(b).Ok? && !NoChanges(PutChanges(b).value) && id.value in old(t.rows) ==>
              var row := Applied(PutChanges(b).value, old(t.rows)[id.value]);
              r == Success(200, Stored(id.value, row)) && t.rows == old(t.rows)[id.value := row]
    ensures t.Valid()
  {
    if id.None? {
      return Failure(422, "id diperlukan");
    }
    var nama: Option<string> := None;
    var isi: Option<string> := None;
    var href: Option<Option<string>> := None;
    var sumber: Option<Option<string>> := None;
    var rating: Option<int> := None;
    if !b.nama.Absent? {
      var n := SentText(b.nama);
      if n == [] {
        return Failure(422, "nama tidak boleh kosong");
      }
      nama := Some(n);
    }
    if !b.isi.Absent? {
      var s := SentText(b.isi);
      if s == [] {
        return Failure(422, "isi tidak boleh kosong");
      }
      isi := Some(s);
    }
    if !b.href.Absent? {
      href := Some(SentLink(b.href));
    }
    if !b.sumber.Absent? {
      sumber := Some(SentLink(b.sumber));
    }
    if b.rating.Some? {
      var k := NormalizeRating(b.rating.value);
      if k.None? {
        return Failure(422, "rating tidak valid");
      }
      rating := Some(k.value);
    }
    var fields := Changes(nama, isi, href, sumber, rating);
    assert PutChanges(b) == Ok(fields);
    if NoChanges(fields) {
      return Failure(422, "Tidak ada perubahan");
    }
    if id.value in t.rows {
      t.rows := t.rows[id.value := Applied(fields, t.rows[id.value])];
    }
    if id.value !in t.rows {
      return Failure(404, "Data tidak ditemukan");
    }
    r := Success(200, Stored(id.value, t.rows[id.value]));
  }

  // ---- DELETE ----

  /** DELETE: a missing id is a 422 and an unknown one a 404; otherwise
      exactly that row is removed. */
  method Delete(t: ReviewTable, id: Option<int>) returns (r: Response<()>)
    requires t.Valid()
    modifies t
    ensures id.None? ==> r == Failure(422, "id diperlukan") && t.rows == old(t.rows)
    ensures id.Some? && id.value !in old(t.rows) ==> r == Failure(404, "Data tidak ditemukan") && t.rows == old(t.rows)
    ensures id.Some? && id.value in old(t.rows) ==> r == Success(200, ()) && t.rows == old(t.rows) - {id.value}
    ensures t.nextId == old(t.nextId)
    ensures t.Valid()
  {
    if id.None? {
      return Failure(422, "id diperlukan");
    }
    if id.value !in t.rows {
      return Failure(404, "Data tidak ditemukan");
    }
    t.rows := t.rows - {id.value};
    r := Success(200, ());
  }
}
