/** The expression chains of the product route: the category code and
    description that `ensureCategoryId` writes, and the cover URL the GET
    answers carry. */
module ProdukNames {
  import opened Common

  predicate IsCodeChar(c: char) { IsUpperAscii(c) || IsDigit(c) }

  predicate NoDoubleUnderscore(s: string)
  {
    forall i, j | 0 <= i < |s| && 0 <= j < |s| && j == i + 1 :: !(s[i] == '_' && s[j] == '_')
  }

  /** A code as the normaliser leaves it: non-empty, only `[A-Z0-9_]`, no
      `__`, and no `_` at either end. */
  predicate IsCleanCode(s: string)
  {
    && s != []
    && (forall i | 0 <= i < |s| :: IsCodeChar(s[i]) || s[i] == '_')
    && NoDoubleUnderscore(s)
    && s[0] != '_' && s[|s| - 1] != '_'
  }

  /** Drops the leading characters outside `[A-Z0-9]`. */
  function SkipNonCode(s: string): (r: string)
    ensures |r| <= |s|
    ensures r != [] ==> IsCodeChar(r[0])
    decreases |s|
  {
    if s != [] && !IsCodeChar(s[0]) then SkipNonCode(s[1..]) else s
  }

  /** `replace(/[^A-Z0-9]+/g, '_')`: every maximal run of characters outside
      `[A-Z0-9]` becomes one `_`. */
  function Underscore(s: string): (r: string)
    ensures r == [] <==> s == []
    ensures r != [] ==> (IsCodeChar(r[0]) <==> IsCodeChar(s[0]))
    ensures forall i | 0 <= i < |r| :: IsCodeChar(r[i]) || r[i] == '_'
    ensures NoDoubleUnderscore(r)
    decreases |s|
  {
    if s == [] then []
    else if IsCodeChar(s[0]) then [s[0]] + Underscore(s[1..])
    else "_" + Underscore(SkipNonCode(s[1..]))
  }

  /** `replace(/_+/g, '_')`. */
  function SquashUnderscores(s: string): (r: string)
    decreases |s|
  {
    if s == [] then []
    else if s[0] == '_' && |s| > 1 && s[1] == '_' then SquashUnderscores(s[1..])
    else [s[0]] + SquashUnderscores(s[1..])
  }

  /** The squash step changes nothing after `Underscore`, which never leaves
      two `_` side by side. */
  lemma {:induction false} SquashIsIdentity(s: string)
    requires NoDoubleUnderscore(s)
    ensures SquashUnderscores(s) == s
    decreases |s|
  {
    if s != [] {
      assert NoDoubleUnderscore(s[1..]) by {
        var t := s[1..];
        forall i, j | 0 <= i < |t| && 0 <= j < |t| && j == i + 1 ensures !(t[i] == '_' && t[j] == '_') {
          assert t[i] == s[i + 1] && t[j] == s[j + 1];
        }
      }
      SquashIsIdentity(s[1..]);
    }
  }

  /** `replace(/^_|_$/g, '')`: one `_` off each end. */
  function StripEdgeUnderscores(s: string): (r: string)
    ensures |r| <= |s|
    ensures NoDoubleUnderscore(s) && r != [] ==> r[0] != '_' && r[|r| - 1] != '_'
    ensures var off := if s != [] && s[0] == '_' then 1 else 0; off + |r| <= |s| && r == s[off..off + |r|]
  {
    var a := if s != [] && s[0] == '_' then s[1..] else s;
    assert NoDoubleUnderscore(s) && a != [] ==> a[0] != '_' by {
      if NoDoubleUnderscore(s) && a != [] && s != [] && s[0] == '_' {
        assert a[0] == s[1];
      }
    }
    if a != [] && a[|a| - 1] == '_' then
      assert NoDoubleUnderscore(s) && |a| > 1 ==> a[|a| - 2] != '_' by {
        if NoDoubleUnderscore(s) && |a| > 1 {
          var off := |s| - |a|;
          assert a[|a| - 2] == s[off + |a| - 2] && a[|a| - 1] == s[off + |a| - 1];
        }
      }
      a[..|a| - 1]
    else a
  }

  /** The normalising tail of `normalizeKategoriCode`: upper-case, replace
      runs outside `[A-Z0-9]` by `_`, trim `_`, fall back to `KATEGORI`. The
      NFKD step sits between the upper-casing and the replacement and is the
      identity on the ASCII text this model handles. */
  function CleanCode(candidate: string): (r: string)
    ensures IsCleanCode(r)
    ensures (forall i | 0 <= i < |candidate| :: !IsCodeChar(UpperChar(candidate[i]))) ==> r == "KATEGORI"
  {
    var u := Underscore(Upper(candidate));
    SquashIsIdentity(u);
    var stripped := StripEdgeUnderscores(SquashUnderscores(u));
    StrippedHasNoDouble(u);
    NoCodeStripsToEmpty(candidate);
    if stripped == [] then "KATEGORI" else stripped
  }

  lemma StrippedHasNoDouble(u: string)
    requires NoDoubleUnderscore(u)
    requires forall i | 0 <= i < |u| :: IsCodeChar(u[i]) || u[i] == '_'
    ensures var r := StripEdgeUnderscores(u); r != [] ==> IsCleanCode(r)
  {
    var r := StripEdgeUnderscores(u);
    var off := if u != [] && u[0] == '_' then 1 else 0;
    forall i, j | 0 <= i < |r| && 0 <= j < |r| && j == i + 1 ensures !(r[i] == '_' && r[j] == '_') {
      assert r[i] == u[off + i] && r[j] == u[off + j];
    }
    forall i | 0 <= i < |r| ensures IsCodeChar(r[i]) || r[i] == '_' {
      assert r[i] == u[off + i];
    }
  }

  lemma NoCodeStripsToEmpty(candidate: string)
    ensures (forall i | 0 <= i < |candidate| :: !IsCodeChar(UpperChar(candidate[i]))) ==>
      StripEdgeUnderscores(SquashUnderscores(Underscore(Upper(candidate)))) == []
  {
    if forall i | 0 <= i < |candidate| :: !IsCodeChar(UpperChar(candidate[i])) {
      var up := Upper(candidate);
      assert forall i | 0 <= i < |up| :: !IsCodeChar(up[i]);
      var u := UnderscoreOfNoCode(up);
      SquashIsIdentity(u);
      assert |StripEdgeUnderscores(u)| == 0;
    }
  }

  /** Without any `[A-Z0-9]` character the replacement leaves nothing or a
      single `_`. */
  lemma UnderscoreOfNoCode(s: string) returns (u: string)
    requires forall i | 0 <= i < |s| :: !IsCodeChar(s[i])
    ensures u == Underscore(s) && (u == [] || u == "_")
  {
    u := Underscore(s);
    UnderscoreKeepsNoCode(s);
    if u != [] {
      assert !IsCodeChar(s[0]);
      assert u == "_" + Underscore(SkipNonCode(s[1..]));
    }
  }

  /** Without any `[A-Z0-9]` character the replacement leaves at most one `_`. */
  lemma {:induction false} UnderscoreKeepsNoCode(s: string)
    requires forall i | 0 <= i < |s| :: !IsCodeChar(s[i])
    ensures |Underscore(s)| <= 1
  {
    if s != [] {
      SkipAllNonCode(s[1..]);
    }
  }

  lemma {:induction false} SkipAllNonCode(s: string)
    requires forall i | 0 <= i < |s| :: !IsCodeChar(s[i])
    ensures SkipNonCode(s) == []
    decreases |s|
  {
    if s != [] {
      SkipAllNonCode(s[1..]);
    }
  }

  /** `[nama, sub].filter(Boolean)`. */
  function NameParts(nama: string, sub: Option<string>): seq<string>
  {
    (if nama != [] then [nama] else []) + (if sub.Some? && sub.value != [] then [sub.value] else [])
  }

  /** The string `code ? String(code).trim() : ''`. */
  function ExplicitText(x: Option<string>): string
  {
    if x.Some? then Trim(x.value) else ""
  }

  /** `normalizeKategoriCode(code, nama, sub)`: the trimmed explicit code,
      else the name and sub joined by a space, else `KATEGORI`, normalised. */
  function NormalizeKategoriCode(code: Option<string>, nama: string, sub: Option<string>): (r: string)
    ensures IsCleanCode(r)
  {
    var base := ExplicitText(code);
    var joined := Join(NameParts(nama, sub), " ");
    var candidate := if base != [] then base else if joined != [] then joined else if nama != [] then nama else "KATEGORI";
    CleanCode(Trim(candidate))
  }

  /** An explicit non-blank code wins over the name and sub; without one the
      name and sub decide, and an empty pair gives `KATEGORI`. */
  lemma NormalizeKategoriCodeCases(code: Option<string>, nama: string, sub: Option<string>)
    ensures ExplicitText(code) != [] ==> NormalizeKategoriCode(code, nama, sub) == CleanCode(ExplicitText(code))
    ensures ExplicitText(code) == [] ==> NormalizeKategoriCode(code, nama, sub) == CleanCode(Trim(Join(NameParts(nama, sub), " ")))
  {
    var base := ExplicitText(code);
    var joined := Join(NameParts(nama, sub), " ");
    if base != [] {
      TrimOfTrimmed(base);
    } else if joined == [] {
      FallbackCode();
    }
  }

  /** The `KATEGORI` fallback is what an empty candidate normalises to. */
  lemma FallbackCode()
    ensures CleanCode(Trim("KATEGORI")) == "KATEGORI" == CleanCode(Trim([]))
  {
    TrimOfTrimmed("KATEGORI");
    CleanCodeIdempotent("KATEGORI");
    assert Trim([]) == [];
  }

  /** On a clean code the replacement step is the identity. */
  lemma {:induction false} UnderscoreOfClean(s: string)
    requires forall i | 0 <= i < |s| :: IsCodeChar(s[i]) || s[i] == '_'
    requires NoDoubleUnderscore(s)
    requires s != [] ==> s[|s| - 1] != '_'
    ensures Underscore(s) == s
    decreases |s|
  {
    if s != [] {
      var t := s[1..];
      assert forall i | 0 <= i < |t| :: IsCodeChar(t[i]) || t[i] == '_' by {
        forall i | 0 <= i < |t| ensures IsCodeChar(t[i]) || t[i] == '_' { assert t[i] == s[i + 1]; }
      }
      assert NoDoubleUnderscore(t) by {
        forall i, j | 0 <= i < |t| && 0 <= j < |t| && j == i + 1 ensures !(t[i] == '_' && t[j] == '_') { assert t[i] == s[i + 1] && t[j] == s[j + 1]; }
      }
      UnderscoreOfClean(t);
      assert s == [s[0]] + t;
      if IsCodeChar(s[0]) {
        assert Underscore(s) == [s[0]] + Underscore(t);
      } else {
        assert t != [] && t[0] == s[1] && t[0] != '_';
        assert SkipNonCode(t) == t;
        assert Underscore(s) == "_" + Underscore(t);
      }
    }
  }

  lemma CodeCharIsNotSpace(c: char)
    requires IsCodeChar(c) || c == '_'
    ensures !IsSpace(c)
  {
  }

  /** Normalising a clean code gives it back. */
  lemma CleanCodeIdempotent(s: string)
    requires IsCleanCode(s)
    ensures CleanCode(s) == s
  {
    UpperOfCode(s);
    UnderscoreOfClean(s);
    SquashIsIdentity(s);
    StripEdgeOfClean(s);
  }

  lemma UpperOfCode(s: string)
    requires forall i | 0 <= i < |s| :: IsCodeChar(s[i]) || s[i] == '_'
    ensures Upper(s) == s
  {
    forall i | 0 <= i < |s| ensures Upper(s)[i] == s[i] { assert !IsLowerAscii(s[i]); }
  }

  lemma StripEdgeOfClean(s: string)
    requires s != [] && s[0] != '_' && s[|s| - 1] != '_'
    ensures StripEdgeUnderscores(s) == s
  {
  }

  /** Feeding a normalised code back in as the explicit code returns it
      unchanged, whatever the name and sub. */
  lemma NormalizeKategoriCodeIdempotent(code: Option<string>, nama: string, sub: Option<string>, nama': string, sub': Option<string>)
    ensures var r := NormalizeKategoriCode(code, nama, sub);
      NormalizeKategoriCode(Some(r), nama', sub') == r
  {
    var r := NormalizeKategoriCode(code, nama, sub);
    CodeCharIsNotSpace(r[0]);
    CodeCharIsNotSpace(r[|r| - 1]);
    TrimOfTrimmed(r);
    assert ExplicitText(Some(r)) == r;
    NormalizeKategoriCodeCases(Some(r), nama', sub');
    CleanCodeIdempotent(r);
  }

  /** With no explicit code and nothing but separators in the name and sub,
      the code falls back to `KATEGORI`. */
  lemma BlankCodeFallsBack(nama: string, sub: Option<string>)
    requires forall i | 0 <= i < |nama| :: !IsCodeChar(UpperChar(nama[i]))
    requires sub.Some? ==> forall i | 0 <= i < |sub.value| :: !IsCodeChar(UpperChar(sub.value[i]))
    ensures NormalizeKategoriCode(None, nama, sub) == "KATEGORI"
  {
    NormalizeKategoriCodeCases(None, nama, sub);
    var parts := NameParts(nama, sub);
    var j := Join(parts, " ");
    JoinOfNoCode(parts, nama, sub, j);
    TrimOfNoCode(j);
  }

  lemma TrimOfNoCode(j: string)
    requires forall i | 0 <= i < |j| :: !IsCodeChar(UpperChar(j[i]))
    ensures var t := Trim(j); forall i | 0 <= i < |t| :: !IsCodeChar(UpperChar(t[i]))
  {
    var t := Trim(j);
    forall i | 0 <= i < |t| ensures !IsCodeChar(UpperChar(t[i])) {
      assert t[i] == j[SkipSpaces(j, 0) + i];
    }
  }

  lemma JoinOfNoCode(parts: seq<string>, nama: string, sub: Option<string>, j: string)
    requires parts == NameParts(nama, sub) && j == Join(parts, " ")
    requires forall i | 0 <= i < |nama| :: !IsCodeChar(UpperChar(nama[i]))
    requires sub.Some? ==> forall i | 0 <= i < |sub.value| :: !IsCodeChar(UpperChar(sub.value[i]))
    ensures forall i | 0 <= i < |j| :: !IsCodeChar(UpperChar(j[i]))
  {
    if |parts| == 2 {
      JoinTwo(nama, sub.value, " ");
      forall i | 0 <= i < |j| ensures !IsCodeChar(UpperChar(j[i])) {
        if i < |nama| { assert j[i] == nama[i]; }
        else if i == |nama| { assert j[i] == ' '; }
        else { assert j[i] == sub.value[i - |nama| - 1]; }
      }
    }
  }

  lemma JoinTwo(a: string, b: string, sep: string)
    ensures Join([a, b], sep) == a + sep + b
  {
    assert [a, b][1..] == [b];
  }

  /** The separator `normalizeKategoriDescription` writes between name and
      sub, as the source file spells it: the three characters that the UTF-8
      bytes of an em dash read as in Windows-1252, between two spaces. */
  const DescSeparator: string := " \U{E2}\U{20AC}\U{201D} "

  /** `normalizeKategoriDescription(desc, nama, sub)`: the trimmed explicit
      description, else the name followed by the sub, else `Kategori`. */
  function NormalizeKategoriDescription(desc: Option<string>, nama: string, sub: Option<string>): (r: string)
    ensures r != []
    ensures ExplicitText(desc) != [] ==> r == ExplicitText(desc)
    ensures ExplicitText(desc) == [] && nama != [] ==> |nama| <= |r| && r[..|nama|] == nama
    ensures ExplicitText(desc) == [] && nama != [] && (sub.None? || sub.value == []) ==> r == nama
    ensures ExplicitText(desc) == [] && sub.Some? && sub.value != [] ==>
      |sub.value| <= |r| && r[|r| - |sub.value|..] == sub.value
    ensures ExplicitText(desc) == [] && nama == [] && (sub.None? || sub.value == []) ==> r == "Kategori"
    ensures ExplicitText(desc) == [] && nama != [] && sub.Some? && sub.value != [] ==>
      r == nama + DescSeparator + sub.value
    ensures ExplicitText(desc) == [] && nama == [] && sub.Some? && sub.value != [] ==> r == sub.value
  {
    var base := ExplicitText(desc);
    if base != [] then base
    else
      var joined := Join(NameParts(nama, sub), DescSeparator);
      assert nama != [] && sub.Some? && sub.value != [] ==> joined == nama + DescSeparator + sub.value by {
        if nama != [] && sub.Some? && sub.value != [] { JoinTwo(nama, sub.value, DescSeparator); }
      }
      assert nama == [] && sub.Some? && sub.value != [] ==> joined == sub.value by {
        if nama == [] && sub.Some? && sub.value != [] { assert NameParts(nama, sub) == [sub.value]; }
      }
      if joined != [] then joined else if nama != [] then nama else "Kategori"
  }

  /** `coverUrlFromPath(path)`: no path, no URL; otherwise the media file
      endpoint with the path percent-encoded as its `file` parameter. */
  function CoverUrlFromPath(path: Option<string>): (r: Option<string>)
    ensures r.Some? <==> path.Some? && path.value != []
    ensures r.Some? ==> var prefix := "/api/media?file=";
      |prefix| <= |r.value| && r.value[..|prefix|] == prefix
      && (forall i | |prefix| <= i < |r.value| :: r.value[i] != '&' && r.value[i] != '#' && r.value[i] != '/')
  {
    if path.Some? && path.value != [] then Some("/api/media?file=" + EncodeUriComponent(path.value)) else None
  }
}
