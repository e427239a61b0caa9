/** The booking route (`app/api/booking/route.js`): field coercion, the
    validation order and the single insert of POST. */
module BookingRoute {
  import opened Common

  /** A `booking` row; `produkId` is `Number(body.produk_id)` or NULL. */
  datatype Booking = Booking(produkId: Option<JsNumber>, nama: string, email: string,
                             telepon: string, tanggal: string, catatan: string)

  datatype Stored = Stored(id: int, row: Booking)

  /** A request body: each field is `None` when absent or falsy;
      `produkId` holds `Number(body.produk_id)` for a truthy value. */
  datatype BookingBody = BookingBody(produkId: Option<JsNumber>, nama: Option<string>,
                                     email: Option<string>, telepon: Option<string>,
                                     tanggal: Option<string>, catatan: Option<string>)

  /** `body?.x ? String(body.x).trim() : ''`. */
  function TrimmedOr(f: Option<string>): string
  {
    if f.Some? && f.value != [] then Trim(f.value) else ""
  }

  /** The first failing check, in the source's order: name, e-mail present,
      e-mail format, telephone, date. */
  function BookingError(b: BookingBody): Option<string>
  {
    if TrimmedOr(b.nama) == [] then Some("nama diperlukan")
    else if TrimmedOr(b.email) == [] then Some("email diperlukan")
    else if !IsEmail(TrimmedOr(b.email)) then Some("format email tidak valid")
    else if TrimmedOr(b.telepon) == [] then Some("telepon diperlukan")
    else if TrimmedOr(b.tanggal) == [] then Some("tanggal diperlukan")
    else None
  }

  /** A booking passes exactly when its name, telephone and date are
      non-blank and its e-mail matches the pattern; a blank e-mail, which
      never matches, is reported as missing rather than malformed. */
  lemma {:induction false} BookingAcceptedExactly(b: BookingBody)
    ensures BookingError(b).None? <==>
      TrimmedOr(b.nama) != [] && EmailPattern(TrimmedOr(b.email)) && TrimmedOr(b.telepon) != [] && TrimmedOr(b.tanggal) != []
    ensures TrimmedOr(b.nama) != [] && TrimmedOr(b.email) == [] ==> BookingError(b) == Some("email diperlukan")
  {
    IsEmailMatchesPattern(TrimmedOr(b.email));
  }

  class BookingTable {
    var rows: map<int, Booking>
    var nextId: int

    predicate Valid()
      reads this
    {
      0 < nextId && forall id :: id in rows ==> 0 < id < nextId
    }

    constructor ()
      ensures rows == map[] && nextId == 1
      ensures Valid()
    {
      rows := map[];
      nextId := 1;
    }
  }

  /** POST: the first failing check is a 422 and writes nothing; otherwise
      exactly one row with the trimmed values is inserted and answered with
      201. A falsy product is stored as NULL and a missing note as "". */
  method Post(t: BookingTable, b: BookingBody) returns (r: Response<Stored>)
    requires t.Valid()
    modifies t
    ensures BookingError(b).Some? ==>
      r == Failure(422, BookingError(b).value) && t.rows == old(t.rows) && t.nextId == old(t.nextId)
    ensures BookingError(b).None? ==>
      var row := Booking(b.produkId, TrimmedOr(b.nama), TrimmedOr(b.email), TrimmedOr(b.telepon),
                         TrimmedOr(b.tanggal), TrimmedOr(b.catatan));
      && r == Success(201, Stored(old(t.nextId), row))
      && t.rows == old(t.rows)[old(t.nextId) := row] && t.nextId == old(t.nextId) + 1
    ensures t.Valid()
  {
    var nama := TrimmedOr(b.nama);
    var email := TrimmedOr(b.email);
    var telepon := TrimmedOr(b.telepon);
    var tanggal := TrimmedOr(b.tanggal);
    var catatan := TrimmedOr(b.catatan);
    var error := BookingError(b);
    if error.Some? {
      return Failure(422, error.value);
    }
    var row := Booking(b.produkId, nama, email, telepon, tanggal, catatan);
    var id := t.nextId;
    t.rows := t.rows[id := row];
    t.nextId := id + 1;
    r := Success(201, Stored(id, row));
  }
}
