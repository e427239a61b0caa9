/** The discount route (`app/api/diskon/route.js`): the `diskon` table,
    the activation window that decides its `aktif` flag, and the
    GET/POST/PUT/DELETE handlers. Date parsing, ISO formatting and the
    clock are passed in. */
module DiskonRoute {
  import opened Common

  /** The date functions the route relies on: `now` is `Date.now()` in
      milliseconds, `parse(s)` is `new Date(s).getTime()` (`None` for an
      Invalid Date) and `iso(t)` is `toISOString()`. `sqlTime(s)` is the
      moment SQLite's `datetime(s)` names, in whole seconds since the epoch
      (`None` where `datetime` gives NULL, as for ''); `datetime('now')` is
      the same clock truncated to the second. */
  datatype Clock = Clock(now: int, parse: string -> Option<int>, iso: int -> string,
                         sqlTime: string -> Option<int>)

  /** A `diskon` row. */
  datatype Diskon = Diskon(nama: string, produkId: real, deskripsi: Option<string>,
                           persentase: Option<JsNumber>, nominal: Option<JsNumber>,
                           mulai: Option<string>, berakhir: Option<string>, aktif: int)

  /** A row with its id, as the handlers answer with it. */
  datatype Stored = Stored(id: int, row: Diskon)

  /** A request body. `None` is a field that is absent or `null`; numbers are
      given as `Number(x)` makes them. For `mulai` and `berakhir` the route
      also tells an absent key from one sent as `null`. */
  datatype DiskonBody = DiskonBody(nama: Option<string>, produkId: Option<JsNumber>,
                                   persentase: Option<JsNumber>, nominal: Option<JsNumber>,
                                   deskripsi: Option<string>, mulai: Field<string>,
                                   berakhir: Field<string>)

  // ---- the activation window ----

  /** Inside the window: no valid start lies in the future and no valid end
      in the past. */
  predicate InWindow(now: int, start: Option<int>, end: Option<int>)
  {
    (start.None? || now >= start.value) && (end.None? || now <= end.value)
  }

  function ActiveOf(now: int, start: Option<int>, end: Option<int>): int
  {
    if InWindow(now, start, end) then 1 else 0
  }

  /** `let aktif = 1`, then each bound that is present and valid may reset it
      to 0. */
  method ActiveFlag(now: int, start: Option<int>, end: Option<int>) returns (aktif: int)
    ensures aktif == ActiveOf(now, start, end)
    ensures aktif == 1 || aktif == 0
  {
    aktif := 1;
    if start.Some? && now < start.value {
      aktif := 0;
    }
    if end.Some? && now > end.value {
      aktif := 0;
    }
  }

  /** The time a stored or sent date string stands for, if it is a valid
      date; an empty string is falsy and never parsed. */
  function TimeOf(parse: string -> Option<int>, s: Option<string>): Option<int>
  {
    if s.Some? && s.value != [] then parse(s.value) else None
  }

  /** `datetime('now')`: the current time in whole seconds. */
  function SqlNow(clock: Clock): int
  {
    clock.now / 1000
  }

  /** `datetime(s)` of a stored column; a NULL column is no bound. */
  function SqlTimeOf(clock: Clock, s: Option<string>): Option<int>
  {
    if s.Some? then clock.sqlTime(s.value) else None
  }

  /** The flag the GET re-sync gives a row: the `CASE` compares whole
      seconds in SQL, and a bound `datetime` cannot read is no bound. */
  function RowActive(clock: Clock, d: Diskon): int
  {
    ActiveOf(SqlNow(clock), SqlTimeOf(clock, d.mulai), SqlTimeOf(clock, d.berakhir))
  }

  /** The flag the JavaScript handlers compute for a row's stored dates, in
      milliseconds. */
  function ClockActive(clock: Clock, d: Diskon): int
  {
    ActiveOf(clock.now, TimeOf(clock.parse, d.mulai), TimeOf(clock.parse, d.berakhir))
  }

  // ---- the table ----

  class DiskonTable {
    var rows: map<int, Diskon>
    var nextId: int

    /** Every id was handed out by the counter. */
    predicate Valid()
      reads this
    {
      0 < nextId && forall id :: id in rows ==> 0 < id < nextId
    }

    constructor ()
      ensures rows == map[] && nextId == 1
      ensures Valid()
    {
      rows := map[];
      nextId := 1;
    }

    /** The `UPDATE diskon SET aktif = CASE ... END` run before every read:
        each row's flag is recomputed from its own dates, nothing else
        changes. */
    method Resync(clock: Clock)
      requires Valid()
      modifies this
      ensures rows == map id | id in old(rows) :: old(rows)[id].(aktif := RowActive(clock, old(rows)[id]))
      ensures nextId == old(nextId)
      ensures Valid()
    {
      rows := map id | id in rows :: rows[id].(aktif := RowActive(clock, rows[id]));
    }
  }

  // ---- GET ----

  /** The row filter of GET: the requested product, if any, and only active
      rows unless `include_all=1`. */
  predicate Listed(d: Diskon, produkId: Option<real>, includeAll: bool)
  {
    (produkId.None? || d.produkId == produkId.value) && (includeAll || d.aktif == 1)
  }

  function Selected(rows: map<int, Diskon>, produkId: Option<real>, includeAll: bool): (r: map<int, Diskon>)
    ensures forall id :: id in r <==> id in rows && Listed(rows[id], produkId, includeAll)
    ensures forall id :: id in r ==> r[id] == rows[id]
  {
    map id | id in rows && Listed(rows[id], produkId, includeAll) :: rows[id]
  }

  /** GET: re-sync the flags, then answer with the selected rows.
      `produkId` is `None` when the parameter is missing or empty. */
  method Get(t: DiskonTable, clock: Clock, produkId: Option<real>, includeAll: Option<string>)
    returns (r: Response<map<int, Diskon>>)
    requires t.Valid()
    modifies t
    ensures t.rows == map id | id in old(t.rows) :: old(t.rows)[id].(aktif := RowActive(clock, old(t.rows)[id]))
    ensures r == Success(200, Selected(t.rows, produkId, includeAll == Some("1")))
    ensures t.Valid()
  {
    t.Resync(clock);
    r := Success(200, Selected(t.rows, produkId, includeAll == Some("1")));
  }

  /** Without `include_all=1` every row answered lies inside its window at the
      second of the request, as SQLite reads its dates. */
  lemma {:induction false} ActiveListingInWindow(rows: map<int, Diskon>, clock: Clock, produkId: Option<real>, id: int)
    requires id in rows
    requires forall k :: k in rows ==> rows[k].aktif == RowActive(clock, rows[k])
    requires id in Selected(rows, produkId, false)
    ensures InWindow(SqlNow(clock), SqlTimeOf(clock, rows[id].mulai), SqlTimeOf(clock, rows[id].berakhir))
  {
    assert rows[id].aktif == 1;
  }

  // ---- POST ----

  /** `body?.nama_diskon ? String(body.nama_diskon).trim() : ''`. */
  function PostName(b: DiskonBody): string
  {
    if b.nama.Some? && b.nama.value != [] then Trim(b.nama.value) else ""
  }

  /** JavaScript truthiness of a number: neither NaN nor zero. */
  predicate TruthyNumber(n: Option<JsNumber>)
  {
    n.Some? && n.value.Finite? && n.value.value != 0.0
  }

  predicate PercentInvalid(p: Option<JsNumber>)
  {
    p.Some? && (p.value.NaN? || p.value.value < 0.0 || p.value.value > 100.0)
  }

  predicate NominalInvalid(n: Option<JsNumber>)
  {
    n.Some? && (n.value.NaN? || n.value.value < 0.0)
  }

  /** A date as POST reads it: a truthy string, kept only when it parses. */
  function PostTime(clock: Clock, f: Field<string>): Option<int>
  {
    if f.Present? && f.value != [] then clock.parse(f.value) else None
  }

  function IsoOf(clock: Clock, t: Option<int>): Option<string>
  {
    if t.Some? then Some(clock.iso(t.value)) else None
  }

  /** The row POST inserts. */
  function PostedRow(b: DiskonBody, clock: Clock): Diskon
    requires TruthyNumber(b.produkId)
  {
    var start := PostTime(clock, b.mulai);
    var end := PostTime(clock, b.berakhir);
    Diskon(PostName(b), b.produkId.value.value,
           if b.deskripsi.Some? && b.deskripsi.value != [] then b.deskripsi else None,
           b.persentase, b.nominal, IsoOf(clock, start), IsoOf(clock, end),
           ActiveOf(clock.now, start, end))
  }

  /** POST: the checks run in the order name, product, percentage, nominal;
      the first failure is a 422 and writes nothing. Otherwise exactly one
      row is inserted under the next id. */
  method Post(t: DiskonTable, b: DiskonBody, clock: Clock) returns (r: Response<Stored>)
    requires t.Valid()
    modifies t
    ensures PostName(b) == [] ==> r == Failure(422, "nama_diskon required")
    ensures PostName(b) != [] && !TruthyNumber(b.produkId) ==> r == Failure(422, "produk_id required")
    ensures PostName(b) != [] && TruthyNumber(b.produkId) && PercentInvalid(b.persentase) ==>
              r == Failure(422, "persentase invalid")
    ensures (PostName(b) != [] && TruthyNumber(b.produkId) && !PercentInvalid(b.persentase)
             && NominalInvalid(b.nominal)) ==> r == Failure(422, "nominal invalid")
    ensures r.Failure? ==> t.rows == old(t.rows) && t.nextId == old(t.nextId)
    ensures r.Success? <==> PostName(b) != [] && TruthyNumber(b.produkId)
                            && !PercentInvalid(b.persentase) && !NominalInvalid(b.nominal)
    ensures r.Success? ==> r == Success(201, Stored(old(t.nextId), PostedRow(b, clock)))
                           && t.rows == old(t.rows)[old(t.nextId) := PostedRow(b, clock)]
                           && t.nextId == old(t.nextId) + 1
    ensures t.Valid()
  {
    var nama := PostName(b);
    if nama == [] {
      return Failure(422, "nama_diskon required");
    }
    if !TruthyNumber(b.produkId) {
      return Failure(422, "produk_id required");
    }
    if PercentInvalid(b.persentase) {
      return Failure(422, "persentase invalid");
    }
    if NominalInvalid(b.nominal) {
      return Failure(422, "nominal invalid");
    }
    var start := PostTime(clock, b.mulai);
    var end := PostTime(clock, b.berakhir);
    var aktif := ActiveFlag(clock.now, start, end);
    var row := Diskon(nama, b.produkId.value.value,
                      if b.deskripsi.Some? && b.deskripsi.value != [] then b.deskripsi else None,
                      b.persentase, b.nominal, IsoOf(clock, start), IsoOf(clock, end), aktif);
    var id := t.nextId;
    t.rows := t.rows[id := row];
    t.nextId := id + 1;
    r := Success(201, Stored(id, row));
  }

  /** A posted row carries a percentage in [0, 100] and a non-negative
      nominal when they are given, and its flag is 1 exactly inside the
      window of the dates that parsed. */
  lemma PostedRowIsValid(b: DiskonBody, clock: Clock)
    requires PostName(b) != [] && TruthyNumber(b.produkId)
    requires !PercentInvalid(b.persentase) && !NominalInvalid(b.nominal)
    ensures var d := PostedRow(b, clock);
      && d.nama != [] && d.produkId != 0.0
      && (d.persentase.Some? ==> d.persentase.value.Finite? && 0.0 <= d.persentase.value.value <= 100.0)
      && (d.nominal.Some? ==> d.nominal.value.Finite? && 0.0 <= d.nominal.value.value)
      && (d.aktif == 1 <==> InWindow(clock.now, PostTime(clock, b.mulai), PostTime(clock, b.berakhir)))
  {
  }

  /** SQLite reads the ISO string of `t` as the second `t` falls in. */
  predicate SqlReadsIso(clock: Clock, t: Option<int>)
  {
    t.Some? ==> clock.sqlTime(clock.iso(t.value)) == Some(t.value / 1000)
  }

  /** Two moments in different seconds compare as their seconds do. */
  lemma SecondsOrder(a: int, b: int)
    requires a / 1000 != b / 1000
    ensures a <= b <==> a / 1000 <= b / 1000
  {
    if a <= b {
      assert a / 1000 <= b / 1000;
    } else {
      assert b / 1000 <= a / 1000;
    }
  }

  /** When SQLite reads the stored ISO dates as the seconds they came from
      and neither bound falls in the current second, the GET re-sync at the
      same moment keeps a freshly posted row's flag. */
  lemma {:induction false} ResyncAgreesWithPost(b: DiskonBody, clock: Clock)
    requires TruthyNumber(b.produkId)
    requires SqlReadsIso(clock, PostTime(clock, b.mulai))
    requires SqlReadsIso(clock, PostTime(clock, b.berakhir))
    requires PostTime(clock, b.mulai).Some? ==> PostTime(clock, b.mulai).value / 1000 != SqlNow(clock)
    requires PostTime(clock, b.berakhir).Some? ==> PostTime(clock, b.berakhir).value / 1000 != SqlNow(clock)
    ensures RowActive(clock, PostedRow(b, clock)) == PostedRow(b, clock).aktif
  {
    var start := PostTime(clock, b.mulai);
    var end := PostTime(clock, b.berakhir);
    if start.Some? {
      SecondsOrder(start.value, clock.now);
    }
    if end.Some? {
      SecondsOrder(clock.now, end.value);
    }
  }

  /** Within one second the two clocks disagree: a row posted at 0.5 s with
      an end at 0.2 s is stored inactive, and the GET re-sync in the same
      second, which reads both as second 0, marks it active. */
  lemma SameSecondResyncDiffers()
    ensures var clock := Clock(500, s => Some(200), t => "1970-01-01T00:00:00.200Z", s => Some(0));
      var b := DiskonBody(Some("promo"), Some(Finite(1.0)), None, None, None, Absent, Present("x"));
      && SqlReadsIso(clock, PostTime(clock, b.berakhir))
      && PostedRow(b, clock).aktif == 0
      && RowActive(clock, PostedRow(b, clock)) == 1
  {
  }

  // ---- PUT ----

  /** A date as PUT reads it: an absent key keeps the stored string, a key
      sent falsy clears it, and a truthy string replaces it. */
  function PutRaw(f: Field<string>, existing: Option<string>): Option<string>
  {
    if f.Absent? then existing
    else if f.Present? && f.value != [] then Some(f.value)
    else None
  }

  /** What PUT stores for a date: the ISO form when the string parses, the
      string itself otherwise. */
  function PutStored(clock: Clock, raw: Option<string>): Option<string>
  {
    var t := TimeOf(clock.parse, raw);
    if t.Some? then Some(clock.iso(t.value)) else raw
  }

  /** The name, product and row PUT would write over `e`; each field absent
      from the body keeps its stored value. */
  function PutName(b: DiskonBody, e: Diskon): string
  {
    if b.nama.Some? && b.nama.value != [] then Trim(b.nama.value) else e.nama
  }

  function PutProduk(b: DiskonBody, e: Diskon): JsNumber
  {
    if b.produkId.Some? then b.produkId.value else Finite(e.produkId)
  }

  function UpdatedRow(b: DiskonBody, e: Diskon, clock: Clock): Diskon
  {
    var rawStart := PutRaw(b.mulai, e.mulai);
    var rawEnd := PutRaw(b.berakhir, e.berakhir);
    var prod := PutProduk(b, e);
    Diskon(PutName(b, e), if prod.Finite? then prod.value else e.produkId,
           if b.deskripsi.Some? then b.deskripsi else e.deskripsi,
           if b.persentase.Some? then b.persentase else e.persentase,
           if b.nominal.Some? then b.nominal else e.nominal,
           PutStored(clock, rawStart), PutStored(clock, rawEnd),
           ActiveOf(clock.now, TimeOf(clock.parse, rawStart), TimeOf(clock.parse, rawEnd)))
  }

  /** PUT: a missing id is a 422 and an unknown one a 404; a blank resulting
      name or a falsy resulting product is a 422; otherwise the row is
      overwritten. The percentage and nominal ranges are not checked. */
  method Put(t: DiskonTable, id: Option<int>, b: DiskonBody, clock: Clock) returns (r: Response<Stored>)
    requires t.Valid()
    modifies t
    ensures id.None? ==> r == Failure(422, "id required")
    ensures id.Some? && id.value !in old(t.rows) ==> r == Failure(404, "Diskon not found")
    ensures id.Some? && id.value in old(t.rows) ==>
      var e := old(t.rows)[id.value];
      && (PutName(b, e) == [] ==> r == Failure(422, "nama_diskon required"))
      && (PutName(b, e) != [] && !TruthyNumber(Some(PutProduk(b, e))) ==> r == Failure(422, "produk_id required"))
      && (PutName(b, e) != [] && TruthyNumber(Some(PutProduk(b, e))) ==>
            r == Success(200, Stored(id.value, UpdatedRow(b, e, clock)))
            && t.rows == old(t.rows)[id.value := UpdatedRow(b, e, clock)])
    ensures r.Failure? ==> t.rows == old(t.rows)
    ensures t.nextId == old(t.nextId)
    ensures t.Valid()
  {
    if id.None? {
      return Failure(422, "id required");
    }
    if id.value !in t.rows {
      return Failure(404, "Diskon not found");
    }
    var e := t.rows[id.value];
    var nama := PutName(b, e);
    var prod := PutProduk(b, e);
    var rawStart := PutRaw(b.mulai, e.mulai);
    var rawEnd := PutRaw(b.berakhir, e.berakhir);
    var aktif := ActiveFlag(clock.now, TimeOf(clock.parse, rawStart), TimeOf(clock.parse, rawEnd));
    if nama == [] {
      return Failure(422, "nama_diskon required");
    }
    if !TruthyNumber(Some(prod)) {
      return Failure(422, "produk_id required");
    }
    var row := Diskon(nama, prod.value,
                      if b.deskripsi.Some? then b.deskripsi else e.deskripsi,
                      if b.persentase.Some? then b.persentase else e.persentase,
                      if b.nominal.Some? then b.nominal else e.nominal,
                      PutStored(clock, rawStart), PutStored(clock, rawEnd), aktif);
    t.rows := t.rows[id.value := row];
    r := Success(200, Stored(id.value, row));
  }

  /** A PUT whose body sends nothing, on a row whose dates are stored in
      their ISO form, only recomputes the flag, by the JavaScript clock. */
  lemma {:induction false} EmptyPutOnlyResyncs(e: Diskon, clock: Clock)
    requires e.mulai.Some? ==> e.mulai.value != [] && clock.parse(e.mulai.value).Some?
                               && clock.iso(clock.parse(e.mulai.value).value) == e.mulai.value
    requires e.berakhir.Some? ==> e.berakhir.value != [] && clock.parse(e.berakhir.value).Some?
                                  && clock.iso(clock.parse(e.berakhir.value).value) == e.berakhir.value
    ensures UpdatedRow(DiskonBody(None, None, None, None, None, Absent, Absent), e, clock)
            == e.(aktif := ClockActive(clock, e))
  {
  }

  /** PUT accepts a percentage POST would refuse. */
  lemma PutSkipsRangeChecks(e: Diskon, clock: Clock)
    requires e.nama != [] && e.produkId != 0.0
    ensures var b := DiskonBody(None, None, Some(Finite(150.0)), Some(Finite(-1.0)), None, Absent, Absent);
      && PutName(b, e) != [] && TruthyNumber(Some(PutProduk(b, e)))
      && UpdatedRow(b, e, clock).persentase == Some(Finite(150.0))
      && PercentInvalid(b.persentase) && NominalInvalid(b.nominal)
  {
  }

  // ---- DELETE ----

  /** DELETE: a missing id is a 422 and an unknown one a 404; otherwise
      exactly that row is removed. */
  method Delete(t: DiskonTable, id: Option<int>) returns (r: Response<()>)
    requires t.Valid()
    modifies t
    ensures id.None? ==> r == Failure(422, "id required") && t.rows == old(t.rows)
    ensures id.Some? && id.value !in old(t.rows) ==> r == Failure(404, "Diskon tidak ditemukan") && t.rows == old(t.rows)
    ensures id.Some? && id.value in old(t.rows) ==> r == Success(200, ()) && t.rows == old(t.rows) - {id.value}
    ensures t.nextId == old(t.nextId)
    ensures t.Valid()
  {
    if id.None? {
      return Failure(422, "id required");
    }
    if id.value !in t.rows {
      return Failure(404, "Diskon tidak ditemukan");
    }
    t.rows := t.rows - {id.value};
    r := Success(200, ());
  }
}
