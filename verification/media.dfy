/** The media route (`app/api/media/route.js`): the stored file name of an
    upload, the content type a file is served with, the file lookup that
    only ever uses the last path segment, and the handlers over the `media`
    table. File contents and the directory itself are inputs; the file
    system writes are not modelled. */
module MediaRoute {
  import opened Common
  import opened Store

  // ---- POSIX path helpers (Node's `path.basename` and `path.extname`) ----

  /** The path without its trailing slashes. */
  function TrimSlashes(p: string): (r: string)
    ensures |r| <= |p| && r == p[..|r|]
    ensures r == [] || r[|r| - 1] != '/'
    ensures forall k | |r| <= k < |p| :: p[k] == '/'
  {
    if p != [] && p[|p| - 1] == '/' then TrimSlashes(p[..|p| - 1]) else p
  }

  /** `path.basename(p)`: the last segment, ignoring trailing slashes. */
  function BaseName(p: string): (r: string)
    ensures '/' !in r
    ensures '/' !in p ==> r == p
  {
    var q := TrimSlashes(p);
    if '/' in q then q[LastIndexOf(q, '/') + 1..] else q
  }

  /** `path.extname(p)`: from the last '.' of the last segment, unless that
      '.' starts the segment or the segment is '..'. */
  function ExtName(p: string): (r: string)
    ensures r != [] ==> r[0] == '.' && '.' !in r[1..] && '/' !in r
    ensures r != [] ==> |r| < |BaseName(p)| && EndsWith(BaseName(p), r)
  {
    var b := BaseName(p);
    if '.' !in b || b == ".." then ""
    else
      var i := LastIndexOf(b, '.');
      if i == 0 then "" else b[i..]
  }

  /** `path.basename(p, suffix)`: the last segment, without `suffix` when it
      ends with it and is longer; a path equal to the suffix gives ''. */
  function BaseNameWithout(p: string, suffix: string): (r: string)
    ensures '/' !in r
  {
    if suffix != [] && p == suffix then ""
    else
      var b := BaseName(p);
      if EndsWith(b, suffix) && b != suffix then b[..|b| - |suffix|] else b
  }

  /** A name whose only '.' starts its extension has that extension. */
  lemma ExtNameOfSuffix(head: string, ext: string)
    requires head != [] && forall i | 0 <= i < |head| :: head[i] != '.' && head[i] != '/'
    requires ext != [] && ext[0] == '.' && '.' !in ext[1..] && '/' !in ext
    ensures BaseName(head + ext) == head + ext
    ensures ExtName(head + ext) == ext
  {
    var s := head + ext;
    assert '/' !in s by {
      assert forall i | 0 <= i < |s| :: s[i] == if i < |head| then head[i] else ext[i - |head|];
    }
    assert s[|head|] == '.';
    assert s[|head| + 1..] == ext[1..];
    assert LastIndexOf(s, '.') == |head|;
    assert s != ".." by {
      assert s[0] == head[0];
    }
  }

  // ---- guessContentType ----

  /** `guessContentType`: the lowered extension picks an image type;
      anything else is `application/octet-stream`. */
  function GuessContentType(p: string): string
  {
    TypeOfExt(Lower(ExtName(p)))
  }

  function TypeOfExt(e: string): string
  {
    if e == ".jpg" || e == ".jpeg" then "image/jpeg"
    else if e == ".png" then "image/png"
    else if e == ".webp" then "image/webp"
    else if e == ".gif" then "image/gif"
    else "application/octet-stream"
  }

  /** Which extension gives which type; the type depends on the extension
      only, and only up to ASCII case. */
  lemma ContentTypes(p: string)
    ensures GuessContentType(p) == "image/jpeg" <==> Lower(ExtName(p)) == ".jpg" || Lower(ExtName(p)) == ".jpeg"
    ensures GuessContentType(p) == "image/png" <==> Lower(ExtName(p)) == ".png"
    ensures GuessContentType(p) == "image/webp" <==> Lower(ExtName(p)) == ".webp"
    ensures GuessContentType(p) == "image/gif" <==> Lower(ExtName(p)) == ".gif"
    ensures GuessContentType(p) == "application/octet-stream" <==>
      Lower(ExtName(p)) !in {".jpg", ".jpeg", ".png", ".webp", ".gif"}
  {
  }

  // ---- upload names ----

  predicate IsSafeChar(c: char)
  {
    IsUpperAscii(c) || IsLowerAscii(c) || IsDigit(c) || c == '_' || c == '-'
  }

  /** `.replace(/[^a-zA-Z0-9_-]/g, '')`. */
  function KeepSafe(s: string): (r: string)
    ensures |r| <= |s|
    ensures forall i | 0 <= i < |r| :: IsSafeChar(r[i])
    ensures (forall i | 0 <= i < |s| :: IsSafeChar(s[i])) ==> r == s
  {
    if s == [] then []
    else (if IsSafeChar(s[0]) then [s[0]] else []) + KeepSafe(s[1..])
  }

  /** `.slice(0, 40) || 'file'` after the filter. */
  function SafeBase(stem: string): (r: string)
    ensures 1 <= |r| <= 40
    ensures forall i | 0 <= i < |r| :: IsSafeChar(r[i])
    ensures KeepSafe(stem) != [] ==> r == KeepSafe(stem)[..if |KeepSafe(stem)| > 40 then 40 else |KeepSafe(stem)|]
    ensures KeepSafe(stem) == [] ==> r == "file"
  {
    var kept := KeepSafe(stem);
    if kept == [] then "file" else if |kept| > 40 then kept[..40] else kept
  }

  /** `file.name || 'upload'`. */
  function Original(name: string): string
  {
    if name == [] then "upload" else name
  }

  /** `path.extname(original) || '.bin'`. */
  function UploadExt(name: string): (r: string)
    ensures r != [] && r[0] == '.' && '.' !in r[1..] && '/' !in r
    ensures ExtName(Original(name)) != [] ==> r == ExtName(Original(name))
  {
    if ExtName(Original(name)) == [] then ".bin" else ExtName(Original(name))
  }

  /** The characters of `Math.random().toString(36).slice(2, 8)`. */
  predicate IsRandomTag(rand: string)
  {
    forall i | 0 <= i < |rand| :: IsDigit(rand[i]) || IsLowerAscii(rand[i])
  }

  /** The part of a stored name before its extension holds no '.' and no
      '/'. */
  lemma StoredHeadPlain(base: string, digits: string, rand: string)
    requires forall i | 0 <= i < |base| :: IsSafeChar(base[i])
    requires forall i | 0 <= i < |digits| :: IsDigit(digits[i])
    requires IsRandomTag(rand)
    ensures var head := base + "_" + digits + "_" + rand;
      forall i | 0 <= i < |head| :: head[i] != '.' && head[i] != '/'
  {
    var head := base + "_" + digits + "_" + rand;
    forall i | 0 <= i < |head|
      ensures head[i] != '.' && head[i] != '/'
    {
      if i < |base| {
        assert head[i] == base[i];
      } else if i == |base| || i == |base| + 1 + |digits| {
      } else if i < |base| + 1 + |digits| {
        assert head[i] == digits[i - |base| - 1];
      } else {
        assert head[i] == rand[i - |base| - 2 - |digits|];
      }
    }
  }

  /** The shape of a stored name: one segment, with the given extension,
      starting with the base and an underscore. */
  lemma StoredShape(base: string, digits: string, rand: string, ext: string)
    requires base != [] && forall i | 0 <= i < |base| :: IsSafeChar(base[i])
    requires forall i | 0 <= i < |digits| :: IsDigit(digits[i])
    requires IsRandomTag(rand)
    requires ext != [] && ext[0] == '.' && '.' !in ext[1..] && '/' !in ext
    ensures var r := base + "_" + digits + "_" + rand + ext;
      '/' !in r && BaseName(r) == r && ExtName(r) == ext &&
      |base| < |r| && r[..|base|] == base && r[|base|] == '_'
  {
    var head := base + "_" + digits + "_" + rand;
    StoredHeadPlain(base, digits, rand);
    ExtNameOfSuffix(head, ext);
    var r := head + ext;
    assert r == base + "_" + digits + "_" + rand + ext;
    assert r[..|base|] == base by {
      assert forall i | 0 <= i < |base| :: r[i] == head[i] == base[i];
    }
  }

  /** The stored name `${safeBase}_${Date.now()}_${random}${ext}`; the clock
      and the random tag are parameters. It is a single path segment that
      starts with the safe base and keeps the upload's extension (or
      '.bin'), so it is served with the type the upload's name implies. */
  function StoredName(name: string, now: nat, rand: string): (r: string)
    requires IsRandomTag(rand)
    ensures '/' !in r && BaseName(r) == r
    ensures ExtName(r) == UploadExt(name)
    ensures var base := SafeBase(BaseNameWithout(Original(name), UploadExt(name)));
      |base| < |r| && r[..|base|] == base && r[|base|] == '_'
  {
    var ext := UploadExt(name);
    var base := SafeBase(BaseNameWithout(Original(name), ext));
    StoredShape(base, NatToString(now), rand, ext);
    base + "_" + NatToString(now) + "_" + rand + ext
  }

  /** What was uploaded is served with the content type of the upload's own
      name: a name without an extension is stored as '.bin' and served as
      `application/octet-stream`, just as its own name would be. */
  lemma StoredNameKeepsType(name: string, now: nat, rand: string)
    requires IsRandomTag(rand)
    ensures GuessContentType(StoredName(name, now, rand)) == GuessContentType(Original(name))
  {
    SameTypeWhenExt(StoredName(name, now, rand), Original(name));
  }

  /** Two paths with the same extension, or '.bin' and none, get the same
      type. */
  lemma SameTypeWhenExt(p: string, q: string)
    requires ExtName(p) == ExtName(q) || (ExtName(p) == ".bin" && ExtName(q) == [])
    ensures GuessContentType(p) == GuessContentType(q)
  {
    if ExtName(p) != ExtName(q) {
      OctetExts();
    }
  }

  lemma OctetExts()
    ensures TypeOfExt(Lower(".bin")) == "application/octet-stream"
    ensures TypeOfExt(Lower([])) == "application/octet-stream"
  {
    assert Lower(".bin") == ".bin";
    assert Lower([]) == [];
  }

  // ---- GET ----

  /** The name `GET ?file=` reads inside the media directory:
      `path.basename(file)`, which never holds a '/'. */
  function ServedName(file: string): (r: string)
    ensures '/' !in r
  {
    BaseName(file)
  }

  /** `GET ?file=` over the files of the media directory, for a non-empty
      `file`. The base names '', '.' and '..' (of `/`, `.` or `a/..`, say)
      join to the directory itself or its parent, which exist and cannot be
      read as a file (a 500). Anything else is a file directly inside the
      directory, answered with the type of its own name. */
  function GetFile(files: map<string, seq<bv8>>, file: string): (r: Response<(string, seq<bv8>)>)
    requires file != []
    ensures r.Success? <==> ServedName(file) in files && ServedName(file) !in {"", ".", ".."}
    ensures r.Success? ==> r.status == 200 && r.body == (GuessContentType(ServedName(file)), files[ServedName(file)])
    ensures r.Failure? ==> r.status == 404 || ServedName(file) in {"", ".", ".."}
  {
    var name := ServedName(file);
    if name == "" || name == "." || name == ".." then Failure(500, "EISDIR: illegal operation on a directory, read")
    else if name !in files then Failure(404, "Not found")
    else Success(200, (GuessContentType(name), files[name]))
  }

  /** The absolute path `path.join(MEDIA_DIR, name)` of a served file has
      the served name as its last segment, so the type is the name's. */
  lemma JoinedPathType(dir: string, name: string)
    requires name != [] && '/' !in name
    ensures BaseName(dir + "/" + name) == name
    ensures GuessContentType(dir + "/" + name) == GuessContentType(name)
  {
    BaseNameJoined(dir, name);
  }

  lemma BaseNameJoined(dir: string, name: string)
    requires name != [] && '/' !in name
    ensures BaseName(dir + "/" + name) == name
  {
    var p := dir + "/" + name;
    assert TrimSlashes(p) == p;
    assert p[|dir|] == '/' && p[|dir| + 1..] == name;
    assert LastIndexOf(p, '/') == |dir|;
  }

  /** `/api/media?file=${encodeURIComponent(path)}`. */
  function MediaUrl(path: string): (r: string)
    ensures |r| >= 16 && r[..16] == "/api/media?file="
    ensures forall i | 16 <= i < |r| :: r[i] != '&' && r[i] != '#' && r[i] != '/' && r[i] != '?'
  {
    var e := EncodeUriComponent(path);
    var r := "/api/media?file=" + e;
    assert forall i | 16 <= i < |r| :: r[i] == e[i - 16];
    r
  }

  /** A media row as the route answers it, with its URL. */
  datatype MediaAnswer = MediaAnswer(id: int, owner: Option<int>, path: string, url: string)

  /** `GET ?id=`: the row with its URL, or a 404. */
  function GetById(media: map<int, Media>, id: int): (r: Response<MediaAnswer>)
    ensures r.Success? <==> id in media
    ensures r.Success? ==> r == Success(200, MediaAnswer(id, media[id].owner, media[id].path, MediaUrl(media[id].path)))
    ensures r.Failure? ==> r == Failure(404, "Not found")
  {
    if id !in media then Failure(404, "Not found")
    else Success(200, MediaAnswer(id, media[id].owner, media[id].path, MediaUrl(media[id].path)))
  }

  /** The ids `GET` lists (`ORDER BY id DESC`), below `hi`: every row, or
      only those owned by `filter` when `produk_id` is given. */
  function ListIds(media: map<int, Media>, filter: Option<int>, hi: int): (r: seq<int>)
    ensures forall k :: k in r <==> 1 <= k < hi && k in media && (filter.None? || media[k].owner == filter)
    ensures forall i, j | 0 <= i < j < |r| :: r[i] > r[j]
    ensures forall i | 0 <= i < |r| :: r[i] < hi
    decreases hi
  {
    if hi <= 1 then []
    else
      var k := hi - 1;
      var rest := ListIds(media, filter, k);
      if k in media && (filter.None? || media[k].owner == filter) then [k] + rest else rest
  }

  /** A row of the listing, with its URL. */
  function AnswerOf(media: map<int, Media>, k: int): MediaAnswer
    requires k in media
  {
    MediaAnswer(k, media[k].owner, media[k].path, MediaUrl(media[k].path))
  }

  /** The three answers of GET. */
  datatype MediaReply =
    | FileReply(file: Response<(string, seq<bv8>)>)
    | RowReply(row: Response<MediaAnswer>)
    | ListReply(rows: seq<MediaAnswer>)

  /** GET: a truthy `file` is served from the directory; otherwise a truthy
      `id` answers one row; otherwise the rows, newest first, of the product
      when `produk_id` is truthy. Each parameter is `None` when it is absent
      or empty; an `id` that names no row (one that is not a number, say)
      is a key missing from `media`. Every row id lies in [1, `hi`). */
  function Get(files: map<string, seq<bv8>>, media: map<int, Media>, hi: int,
               file: Option<string>, id: Option<int>, produkId: Option<int>): (r: MediaReply)
    requires forall k | k in media :: 1 <= k < hi
    ensures r.FileReply? <==> file.Some? && file.value != []
    ensures r.FileReply? ==> r.file == GetFile(files, file.value)
    ensures r.RowReply? <==> (file.None? || file.value == []) && id.Some?
    ensures r.RowReply? ==> r.row == GetById(media, id.value)
    ensures r.ListReply? ==>
      && (forall i | 0 <= i < |r.rows| :: r.rows[i].id in media && r.rows[i] == AnswerOf(media, r.rows[i].id))
      && (forall i, j | 0 <= i < j < |r.rows| :: r.rows[i].id > r.rows[j].id)
      && (forall k | k in media :: (produkId.None? || media[k].owner == produkId) <==> exists i | 0 <= i < |r.rows| :: r.rows[i].id == k)
  {
    if file.Some? && file.value != [] then FileReply(GetFile(files, file.value))
    else if id.Some? then RowReply(GetById(media, id.value))
    else
      var ids := ListIds(media, produkId, hi);
      var rows := seq(|ids|, i requires 0 <= i < |ids| => AnswerOf(media, ids[i]));
      ListedRows(media, produkId, ids, rows);
      ListReply(rows)
  }

  /** The answers built from the listed ids hold exactly the listed rows. */
  lemma {:induction false} ListedRows(media: map<int, Media>, produkId: Option<int>, ids: seq<int>, rows: seq<MediaAnswer>)
    requires forall k | k in media :: k in ids <==> produkId.None? || media[k].owner == produkId
    requires forall i | 0 <= i < |ids| :: ids[i] in media
    requires |rows| == |ids| && forall i | 0 <= i < |ids| :: rows[i] == AnswerOf(media, ids[i])
    ensures forall k | k in media :: (produkId.None? || media[k].owner == produkId) <==> exists i | 0 <= i < |rows| :: rows[i].id == k
  {
    forall k | k in media
      ensures (produkId.None? || media[k].owner == produkId) <==> exists i | 0 <= i < |rows| :: rows[i].id == k
    {
      if k in ids {
        var i :| 0 <= i < |ids| && ids[i] == k;
        assert rows[i].id == k;
      }
    }
  }

  /** `GET ?file=` with an empty value is not a file request: the route
      goes on to the listing. */
  lemma EmptyFileLists(files: map<string, seq<bv8>>, media: map<int, Media>, hi: int, produkId: Option<int>)
    requires forall k | k in media :: 1 <= k < hi
    ensures Get(files, media, hi, Some(""), None, produkId).ListReply?
  {
  }

  // ---- POST, PUT, DELETE ----

  /** An uploaded file part: its name as sent. A missing part, or a text
      field where a file was expected, is `None`. */
  datatype Upload = Upload(name: string)

  /** POST: a missing file is a 422; otherwise a row is inserted with the
      stored name and the sent product (NULL when none or '' was sent). A
      product id with no row is a foreign-key failure (500). */
  method Post(db: Db, file: Option<Upload>, produkId: Option<int>, now: nat, rand: string) returns (r: Response<MediaAnswer>)
    requires db.Valid() && IsRandomTag(rand)
    modifies db
    ensures file.None? ==> r == Failure(422, "file required") && db.Snapshot() == old(db.Snapshot())
    ensures file.Some? && produkId.Some? && produkId.value !in old(db.products) ==>
      r.Failure? && r.status == 500 && db.Snapshot() == old(db.Snapshot())
    ensures file.Some? && (produkId.None? || produkId.value in old(db.products)) ==>
      var id := old(db.nextMedia);
      var name := StoredName(file.value.name, now, rand);
      r == Success(201, MediaAnswer(id, produkId, name, MediaUrl(name))) &&
      db.Snapshot() == old(db.Snapshot()).(media := old(db.media)[id := Media(produkId, name)], nextMedia := id + 1)
    ensures db.Valid()
  {
    if file.None? {
      return Failure(422, "file required");
    }
    var name := StoredName(file.value.name, now, rand);
    var ins := db.InsertMedia(produkId, name);
    if ins.Throw? {
      return Failure(500, ins.message);
    }
    r := Success(201, MediaAnswer(ins.value, produkId, name, MediaUrl(name)));
  }

  /** The row PUT writes: a sent `produk_id` replaces the owner ('' is
      NULL), and a new upload replaces the path. */
  function PutRow(current: Media, produkId: Field<int>, newPath: Option<string>): (r: Media)
    ensures r.owner == (if produkId.Absent? then current.owner else if produkId.Null? then None else Some(produkId.value))
    ensures r.path == (if newPath.Some? then newPath.value else current.path)
  {
    Media(if produkId.Absent? then current.owner else if produkId.Null? then None else Some(produkId.value),
          if newPath.Some? then newPath.value else current.path)
  }

  /** PUT: a missing id is a 422 and an unknown one a 404. The row is
      written only when `produk_id` is sent or the path changed; a product
      id with no row is a foreign-key failure (500). Cover rows are never
      touched. */
  method Put(db: Db, id: Option<int>, file: Option<Upload>, produkId: Field<int>, now: nat, rand: string) returns (r: Response<MediaAnswer>)
    requires db.Valid() && IsRandomTag(rand)
    modifies db
    ensures db.Snapshot() == old(db.Snapshot()).(media := db.media)
    ensures id.None? ==> r == Failure(422, "id query required") && db.media == old(db.media)
    ensures id.Some? && id.value !in old(db.media) ==> r == Failure(404, "Not found") && db.media == old(db.media)
    ensures id.Some? && id.value in old(db.media) ==>
      var current := old(db.media)[id.value];
      var row := PutRow(current, produkId, if file.Some? then Some(StoredName(file.value.name, now, rand)) else None);
      (produkId.Absent? && row.path == current.path ==> r == Success(200, MediaAnswer(id.value, current.owner, current.path, MediaUrl(current.path))) && db.media == old(db.media)) &&
      (!(produkId.Absent? && row.path == current.path) && row.owner.Some? && row.owner.value !in old(db.products) ==>
         r.Failure? && r.status == 500 && db.media == old(db.media)) &&
      (!(produkId.Absent? && row.path == current.path) && (row.owner.None? || row.owner.value in old(db.products)) ==>
         r == Success(200, MediaAnswer(id.value, row.owner, row.path, MediaUrl(row.path))) && db.media == old(db.media)[id.value := row])
    ensures db.Valid()
  {
    if id.None? {
      return Failure(422, "id query required");
    }
    var k := id.value;
    if k !in db.media {
      return Failure(404, "Not found");
    }
    var current := db.media[k];
    var newPath: Option<string> := None;
    if file.Some? {
      newPath := Some(StoredName(file.value.name, now, rand));
    }
    var row := PutRow(current, produkId, newPath);
    if !produkId.Absent? || row.path != current.path {
      var upd := db.UpdateMedia(k, row);
      if upd.Throw? {
        return Failure(500, upd.message);
      }
    }
    r := Success(200, MediaAnswer(k, db.media[k].owner, db.media[k].path, MediaUrl(db.media[k].path)));
  }

  /** DELETE: a missing id is a 422 and an unknown one a 404; otherwise the
      row goes and nothing else changes (a cover row naming it stays). */
  method Delete(db: Db, id: Option<int>) returns (r: Response<()>)
    requires db.Valid()
    modifies db
    ensures id.None? ==> r == Failure(422, "id query required") && db.Snapshot() == old(db.Snapshot())
    ensures id.Some? && id.value !in old(db.media) ==> r == Failure(404, "Not found") && db.Snapshot() == old(db.Snapshot())
    ensures id.Some? && id.value in old(db.media) ==>
      r == Success(200, ()) && db.Snapshot() == old(db.Snapshot()).(media := old(db.media) - {id.value})
    ensures db.covers == old(db.covers)
    ensures db.Valid()
  {
    if id.None? {
      return Failure(422, "id query required");
    }
    if id.value !in db.media {
      return Failure(404, "Not found");
    }
    db.DeleteMedia(id.value);
    r := Success(200, ());
  }
}
