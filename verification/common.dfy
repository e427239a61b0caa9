/** Values and string operations shared by every module: the JavaScript
    notions of "absent", "null" and NaN, the whitespace class that `\s` and
    `String.prototype.trim` use, ASCII case mapping, and `split`/`join` on a
    single character. */
module Common {

  datatype Option<+T> = None | Some(value: T)

  /** A field of a loosely typed request body: not sent (`undefined`), sent as
      `null`, or sent with a value. */
  datatype Field<+T> = Absent | Null | Present(value: T)

  /** The result of JavaScript's `Number(x)`: NaN or a finite value (the two
      infinities are not modelled). */
  datatype JsNumber = NaN | Finite(value: real)

  /** What a route handler answers: a success status with a body, or an error
      status with the message of the `{ error }` JSON body. */
  datatype Response<+T> = Success(status: int, body: T) | Failure(status: int, error: string)

  /** The outcome of a helper that may throw; a thrown error reaches the
      handler's `catch` and becomes a 500 answer. */
  datatype Result<+T> = Ok(value: T) | Throw(message: string)

  /** JavaScript truthiness of an id sent in a request body. */
  predicate Truthy(f: Field<int>)
  {
    f.Present? && f.value != 0
  }

  /** JavaScript falsiness of a text sent in a request body. */
  predicate Falsy(f: Field<string>)
  {
    f.Absent? || f.Null? || f.value == []
  }

  /** The characters matched by the regular-expression class `\s` and removed
      by `String.prototype.trim` (WhiteSpace and LineTerminator). */
  predicate IsSpace(c: char)
  {
    c == ' ' || c == '\t' || c == '\n' || c == '\r' || c == '\U{B}' || c == '\U{C}'
    || c == '\U{A0}' || c == '\U{1680}' || ('\U{2000}' <= c <= '\U{200A}')
    || c == '\U{2028}' || c == '\U{2029}' || c == '\U{202F}' || c == '\U{205F}'
    || c == '\U{3000}' || c == '\U{FEFF}'
  }

  predicate AllSpace(s: string)
  {
    forall i :: 0 <= i < |s| ==> IsSpace(s[i])
  }

  predicate IsDigit(c: char) { '0' <= c <= '9' }
  predicate IsUpperAscii(c: char) { 'A' <= c <= 'Z' }
  predicate IsLowerAscii(c: char) { 'a' <= c <= 'z' }

  /** Index of the first non-whitespace character at or after `i`. */
  function SkipSpaces(s: string, i: nat): (j: nat)
    requires i <= |s|
    ensures i <= j <= |s|
    ensures forall k | i <= k < j :: IsSpace(s[k])
    ensures j < |s| ==> !IsSpace(s[j])
    decreases |s| - i
  {
    if i < |s| && IsSpace(s[i]) then SkipSpaces(s, i + 1) else i
  }

  /** Index just after the last non-whitespace character of `s[lo..j]`, or
      `lo` when there is none. */
  function BackSpaces(s: string, lo: nat, j: nat): (h: nat)
    requires lo <= j <= |s|
    ensures lo <= h <= j
    ensures forall k | h <= k < j :: IsSpace(s[k])
    ensures h > lo ==> !IsSpace(s[h - 1])
    decreases j
  {
    if j > lo && IsSpace(s[j - 1]) then BackSpaces(s, lo, j - 1) else j
  }

  /** `String.prototype.trimStart`. */
  function TrimStart(s: string): (r: string)
    ensures |r| <= |s| && r == s[|s| - |r|..]
    ensures forall k | 0 <= k < |s| - |r| :: IsSpace(s[k])
    ensures r != [] ==> !IsSpace(r[0])
  {
    s[SkipSpaces(s, 0)..]
  }

  /** `String.prototype.trimEnd`. */
  function TrimEnd(s: string): (r: string)
    ensures |r| <= |s| && r == s[..|r|]
    ensures forall k | |r| <= k < |s| :: IsSpace(s[k])
    ensures r != [] ==> !IsSpace(r[|r| - 1])
  {
    s[..BackSpaces(s, 0, |s|)]
  }

  /** `t` occurs in `s` at index `i`. */
  predicate OccursAt(s: string, t: string, i: int)
  {
    0 <= i <= |s| - |t| && s[i..i + |t|] == t
  }

  /** `String.prototype.trim`: an infix of `s` that neither starts nor ends
      with whitespace, obtained by removing only whitespace. */
  function Trim(s: string): (r: string)
    ensures |r| <= |s|
    ensures OccursAt(s, r, SkipSpaces(s, 0))
    ensures forall k | 0 <= k < SkipSpaces(s, 0) || SkipSpaces(s, 0) + |r| <= k < |s| :: IsSpace(s[k])
    ensures r != [] ==> !IsSpace(r[0]) && !IsSpace(r[|r| - 1])
    ensures r == [] <==> AllSpace(s)
  {
    var lo := SkipSpaces(s, 0);
    s[lo..BackSpaces(s, lo, |s|)]
  }

  /** Trimming keeps only characters of the trimmed string. */
  lemma TrimInside(s: string)
    ensures forall c :: c in Trim(s) ==> c in s
  {
    var lo := SkipSpaces(s, 0);
    assert Trim(s) == s[lo..lo + |Trim(s)|];
  }

  /** A string that neither starts nor ends with whitespace is its own trim. */
  lemma TrimOfTrimmed(s: string)
    requires s != [] ==> !IsSpace(s[0]) && !IsSpace(s[|s| - 1])
    ensures Trim(s) == s
  {
    if s != [] {
      assert SkipSpaces(s, 0) == 0;
      assert BackSpaces(s, 0, |s|) == |s|;
    }
  }

  /** JavaScript truthiness of a trimmed string: `!s.trim()`. */
  predicate IsBlank(s: string) { Trim(s) == [] }

  /** `toLowerCase` restricted to ASCII letters; other characters are kept. */
  function LowerChar(c: char): (r: char)
    ensures !IsUpperAscii(r)
    ensures IsUpperAscii(c) || r == c
  {
    if IsUpperAscii(c) then (c as int + 32) as char else c
  }

  /** `toUpperCase` restricted to ASCII letters; other characters are kept. */
  function UpperChar(c: char): (r: char)
    ensures !IsLowerAscii(r)
    ensures IsLowerAscii(c) || r == c
  {
    if IsLowerAscii(c) then (c as int - 32) as char else c
  }

  function Lower(s: string): (r: string)
    ensures |r| == |s|
    ensures forall i :: 0 <= i < |s| ==> r[i] == LowerChar(s[i])
  {
    seq(|s|, i requires 0 <= i < |s| => LowerChar(s[i]))
  }

  function Upper(s: string): (r: string)
    ensures |r| == |s|
    ensures forall i :: 0 <= i < |s| ==> r[i] == UpperChar(s[i])
  {
    seq(|s|, i requires 0 <= i < |s| => UpperChar(s[i]))
  }

  /** `s.includes(t)`. */
  predicate Contains(s: string, t: string)
  {
    exists i | 0 <= i <= |s| - |t| :: OccursAt(s, t, i)
  }

  /** `s.endsWith(t)`. */
  predicate EndsWith(s: string, t: string)
  {
    |t| <= |s| && s[|s| - |t|..] == t
  }

  /** Index of the first occurrence of `c` in `s`. */
  function IndexOf(s: string, c: char): (i: nat)
    requires c in s
    ensures i < |s| && s[i] == c && c !in s[..i]
  {
    if s[0] == c then 0 else 1 + IndexOf(s[1..], c)
  }

  /** Index of the last occurrence of `c` in `s`. */
  function LastIndexOf(s: string, c: char): (i: nat)
    requires c in s
    ensures i < |s| && s[i] == c && c !in s[i + 1..]
  {
    if s[|s| - 1] == c then |s| - 1 else LastIndexOf(s[..|s| - 1], c)
  }

  /** No whitespace and no `@`: the characters of the class `[^\s@]`. */
  predicate NoSpaceOrAt(t: string)
  {
    forall k :: 0 <= k < |t| ==> !IsSpace(t[k]) && t[k] != '@'
  }

  /** The e-mail pattern `^[^\s@]+@[^\s@]+\.[^\s@]+$`, read off the
      pattern: three non-empty runs of `[^\s@]`, the first two separated by
      `@` and the last two by a dot. */
  predicate EmailPattern(s: string)
  {
    exists i, j :: 0 < i && i + 1 < j && j + 1 < |s| && s[i] == '@' && s[j] == '.'
      && NoSpaceOrAt(s[..i]) && NoSpaceOrAt(s[i + 1..j]) && NoSpaceOrAt(s[j + 1..])
  }

  /** The pattern test as a scan: one `@`, not first, no whitespace, and a
      dot strictly inside the part after the `@` (the middle run may itself
      hold dots, so any such dot will do). */
  function IsEmail(s: string): bool
  {
    '@' in s &&
    var i := IndexOf(s, '@');
    0 < i && i + 2 < |s| && NoSpaceOrAt(s[..i]) && NoSpaceOrAt(s[i + 1..]) && '.' in s[i + 2..|s| - 1]
  }

  /** Every slice of a `[^\s@]` run is one. */
  lemma NoSpaceOrAtSlice(t: string, a: nat, b: nat)
    requires NoSpaceOrAt(t) && a <= b <= |t|
    ensures NoSpaceOrAt(t[a..b])
  {
    assert forall k :: 0 <= k < b - a ==> t[a..b][k] == t[a + k];
  }

  /** Three `[^\s@]` runs joined by `@` and a dot have no other `@` and no
      whitespace after the `@`. */
  lemma NoSpaceOrAtJoin(x: string, y: string)
    requires NoSpaceOrAt(x) && NoSpaceOrAt(y)
    ensures NoSpaceOrAt(x + "." + y)
  {
    var t := x + "." + y;
    forall k | 0 <= k < |t|
      ensures !IsSpace(t[k]) && t[k] != '@'
    {
      if k < |x| {
        assert t[k] == x[k];
      } else if k > |x| {
        assert t[k] == y[k - |x| - 1];
      }
    }
  }

  lemma {:induction false} ScanMatchesPattern(s: string)
    requires IsEmail(s)
    ensures EmailPattern(s)
  {
    var i := IndexOf(s, '@');
    var m := s[i + 2..|s| - 1];
    var j := i + 2 + IndexOf(m, '.');
    assert s[j] == m[j - i - 2];
    var rest := s[i + 1..];
    NoSpaceOrAtSlice(rest, 0, j - i - 1);
    NoSpaceOrAtSlice(rest, j - i, |rest|);
    assert s[i + 1..j] == rest[0..j - i - 1];
    assert s[j + 1..] == rest[j - i..|rest|];
  }

  /** The tail after the `@` of a pattern match is one `[^\s@]` run with a
      dot strictly inside it. */
  lemma {:induction false} PatternTail(s: string, i: nat, j: nat)
    requires i + 1 < j && j + 1 < |s| && s[j] == '.'
    requires NoSpaceOrAt(s[i + 1..j]) && NoSpaceOrAt(s[j + 1..])
    ensures NoSpaceOrAt(s[i + 1..]) && '.' in s[i + 2..|s| - 1]
  {
    NoSpaceOrAtJoin(s[i + 1..j], s[j + 1..]);
    assert s[j..] == [s[j]] + s[j + 1..];
    assert s[i + 1..] == s[i + 1..j] + s[j..];
    assert s[i + 2..|s| - 1][j - i - 2] == '.';
  }

  lemma {:induction false} PatternAt(s: string, i: nat, j: nat)
    requires 0 < i && i + 1 < j && j + 1 < |s| && s[i] == '@' && s[j] == '.'
    requires NoSpaceOrAt(s[..i]) && NoSpaceOrAt(s[i + 1..j]) && NoSpaceOrAt(s[j + 1..])
    ensures IsEmail(s)
  {
    assert '@' !in s[..i] by {
      assert forall k :: 0 <= k < i ==> s[..i][k] != '@';
    }
    assert IndexOf(s, '@') == i;
    PatternTail(s, i, j);
  }

  lemma {:induction false} PatternMatchesScan(s: string)
    requires EmailPattern(s)
    ensures IsEmail(s)
  {
    var i, j :| 0 < i && i + 1 < j && j + 1 < |s| && s[i] == '@' && s[j] == '.'
      && NoSpaceOrAt(s[..i]) && NoSpaceOrAt(s[i + 1..j]) && NoSpaceOrAt(s[j + 1..]);
    PatternAt(s, i, j);
  }

  /** The scan accepts exactly the strings the pattern matches. */
  lemma {:induction false} IsEmailMatchesPattern(s: string)
    ensures IsEmail(s) <==> EmailPattern(s)
  {
    if IsEmail(s) {
      ScanMatchesPattern(s);
    }
    if EmailPattern(s) {
      PatternMatchesScan(s);
    }
  }

  /** `parts.join(sep)`. */
  function Join(parts: seq<string>, sep: string): string
  {
    if parts == [] then []
    else if |parts| == 1 then parts[0]
    else parts[0] + sep + Join(parts[1..], sep)
  }

  /** `s.split(sep)` with a one-character separator: never empty, no part
      contains the separator, and joining the parts gives back `s`. */
  function Split(s: string, sep: char): (r: seq<string>)
    ensures |r| >= 1
    ensures forall k :: 0 <= k < |r| ==> sep !in r[k]
    ensures Join(r, [sep]) == s
    decreases |s|
  {
    if sep !in s then [s]
    else
      var i := IndexOf(s, sep);
      var rest := Split(s[i + 1..], sep);
      assert s == s[..i] + [sep] + s[i + 1..];
      [s[..i]] + rest
  }

  /** Joining parts that hold no separator and splitting again gives the
      parts back. */
  lemma {:induction false} SplitJoin(parts: seq<string>, sep: char)
    requires parts != [] && forall k | 0 <= k < |parts| :: sep !in parts[k]
    ensures Split(Join(parts, [sep]), sep) == parts
    decreases |parts|
  {
    var s := Join(parts, [sep]);
    if |parts| > 1 {
      var rest := Join(parts[1..], [sep]);
      var n := |parts[0]|;
      assert s == parts[0] + [sep] + rest;
      assert s[..n] == parts[0];
      IndexOfIs(s, sep, n);
      assert s[n + 1..] == rest;
      SplitJoin(parts[1..], sep);
      assert Split(s, sep) == [s[..n]] + Split(s[n + 1..], sep);
      assert parts == [parts[0]] + parts[1..];
    } else {
      assert s == parts[0];
    }
  }

  /** The first index holding `c`, with none before it, is `IndexOf`'s. */
  lemma IndexOfIs(s: string, c: char, n: nat)
    requires n < |s| && s[n] == c && c !in s[..n]
    ensures IndexOf(s, c) == n
  {
  }

  /** `xs.filter(Boolean)` on strings: the non-empty ones, in order. */
  function NonEmpty(xs: seq<string>): (r: seq<string>)
    ensures |r| <= |xs|
    ensures forall k :: 0 <= k < |r| ==> r[k] != []
    ensures (forall k :: 0 <= k < |xs| ==> xs[k] != []) ==> r == xs
  {
    if xs == [] then []
    else if xs[0] == [] then NonEmpty(xs[1..])
    else [xs[0]] + NonEmpty(xs[1..])
  }

  /** `xs.filter(p)`: the elements satisfying `p`, in order. */
  function Filter<T(!new)>(xs: seq<T>, p: T -> bool): (r: seq<T>)
    ensures |r| <= |xs|
    ensures forall x :: x in r <==> x in xs && p(x)
  {
    if xs == [] then [] else (if p(xs[0]) then [xs[0]] else []) + Filter(xs[1..], p)
  }

  /** Filtering keeps the order: filtering a longer list extends the result
      by the new element when it passes. */
  lemma {:induction false} FilterSnoc<T(!new)>(xs: seq<T>, x: T, p: T -> bool)
    ensures Filter(xs + [x], p) == Filter(xs, p) + (if p(x) then [x] else [])
    decreases |xs|
  {
    if xs != [] {
      FilterSnoc(xs[1..], x, p);
      assert (xs + [x])[1..] == xs[1..] + [x];
    }
  }

  /** The index of the first element satisfying `p`, or `|xs|` when none
      does (`Array.prototype.findIndex` with -1 read as `|xs|`). */
  function FirstIndex<T>(xs: seq<T>, p: T -> bool): (r: nat)
    ensures r <= |xs|
    ensures r < |xs| ==> p(xs[r])
    ensures forall j | 0 <= j < r :: !p(xs[j])
    decreases |xs|
  {
    if xs == [] then 0
    else if p(xs[0]) then 0
    else 1 + FirstIndex(xs[1..], p)
  }

  /** The first index is the only index that satisfies `p` with no earlier
      one that does. */
  lemma {:induction false} FirstIndexIs<T>(xs: seq<T>, p: T -> bool, i: nat)
    requires i <= |xs| && (i < |xs| ==> p(xs[i]))
    requires forall j | 0 <= j < i :: !p(xs[j])
    ensures FirstIndex(xs, p) == i
  {
  }

  /** An element before the first index does not satisfy `p`, and one
      that does not satisfy it at or before the first index lies before
      it. */
  lemma {:induction false} FirstIndexPast<T>(xs: seq<T>, p: T -> bool, i: nat)
    requires i < |xs| && i <= FirstIndex(xs, p) && !p(xs[i])
    ensures i < FirstIndex(xs, p)
  {
  }

  /** The decimal digits of a natural number, as `String(n)` prints it. */
  function NatToString(n: nat): (r: string)
    ensures r != [] && forall i :: 0 <= i < |r| ==> IsDigit(r[i])
    ensures |r| > 1 ==> r[0] != '0'
  {
    if n < 10 then [('0' as int + n) as char]
    else NatToString(n / 10) + [('0' as int + n % 10) as char]
  }

  /** `String(n)` for an integer. */
  function IntToString(n: int): (r: string)
    ensures r != []
  {
    if n < 0 then "-" + NatToString(-n) else NatToString(n)
  }

  /** A non-empty string of decimal digits. */
  predicate IsDecimal(s: string)
  {
    s != [] && forall i :: 0 <= i < |s| ==> IsDigit(s[i])
  }

  /** The value of a string of decimal digits. */
  function DigitsValue(s: string): nat
    requires forall i :: 0 <= i < |s| ==> IsDigit(s[i])
  {
    if s == [] then 0
    else
      assert IsDigit(s[|s| - 1]);
      DigitsValue(s[..|s| - 1]) * 10 + (s[|s| - 1] as int - '0' as int)
  }

  /** Reading back the digits `String(n)` prints gives `n`. */
  lemma {:induction false} NatToStringRoundTrip(n: nat)
    ensures IsDecimal(NatToString(n)) && DigitsValue(NatToString(n)) == n
  {
    if n >= 10 {
      NatToStringRoundTrip(n / 10);
      var s := NatToString(n);
      assert s[..|s| - 1] == NatToString(n / 10);
    }
  }

  /** The characters `encodeURIComponent` leaves as they are. */
  predicate IsUriUnreserved(c: char)
  {
    IsUpperAscii(c) || IsLowerAscii(c) || IsDigit(c)
    || c == '-' || c == '_' || c == '.' || c == '!' || c == '~' || c == '*' || c == '\'' || c == '(' || c == ')'
  }

  predicate IsUpperHex(c: char) { IsDigit(c) || 'A' <= c <= 'F' }

  function HexDigit(n: int): (c: char)
    requires 0 <= n < 16
    ensures IsUpperHex(c)
  {
    if n < 10 then ('0' as int + n) as char else ('A' as int + n - 10) as char
  }

  /** `%XX` for one byte. */
  function PercentByte(b: int): (r: string)
    requires 0 <= b < 256
    ensures |r| == 3 && r[0] == '%' && IsUpperHex(r[1]) && IsUpperHex(r[2])
  {
    ['%', HexDigit(b / 16), HexDigit(b % 16)]
  }

  /** The UTF-8 bytes of one code point. */
  function Utf8(c: char): (bytes: seq<int>)
    ensures 1 <= |bytes| <= 4
    ensures forall i | 0 <= i < |bytes| :: 0 <= bytes[i] < 256
    ensures (c as int < 0x80) <==> |bytes| == 1
  {
    var n := c as int;
    if n < 0x80 then [n]
    else if n < 0x800 then [0xC0 + n / 0x40, 0x80 + n % 0x40]
    else if n < 0x10000 then [0xE0 + n / 0x1000, 0x80 + (n / 0x40) % 0x40, 0x80 + n % 0x40]
    else [0xF0 + n / 0x40000, 0x80 + (n / 0x1000) % 0x40, 0x80 + (n / 0x40) % 0x40, 0x80 + n % 0x40]
  }

  function PercentBytes(bytes: seq<int>): (r: string)
    requires forall i | 0 <= i < |bytes| :: 0 <= bytes[i] < 256
    ensures |r| == 3 * |bytes|
    ensures forall i | 0 <= i < |r| :: r[i] == '%' || IsUpperHex(r[i])
  {
    if bytes == [] then [] else PercentByte(bytes[0]) + PercentBytes(bytes[1..])
  }

  /** `encodeURIComponent(s)`: unreserved characters are kept, every other
      character becomes the `%XX` escapes of its UTF-8 bytes, so the result
      only holds unreserved characters, `%` and upper-case hex digits. */
  function EncodeUriComponent(s: string): (r: string)
    ensures |r| >= |s|
    ensures forall i | 0 <= i < |r| :: IsUriUnreserved(r[i]) || r[i] == '%' || IsUpperHex(r[i])
    ensures (forall i | 0 <= i < |s| :: IsUriUnreserved(s[i])) ==> r == s
  {
    if s == [] then []
    else
      var head := if IsUriUnreserved(s[0]) then [s[0]] else PercentBytes(Utf8(s[0]));
      head + EncodeUriComponent(s[1..])
  }

  // ---- string length as JavaScript counts it ----

  /** A character outside the Basic Multilingual Plane, which UTF-16 stores
      as a surrogate pair. */
  predicate IsAstral(c: char)
  {
    c as int > 0xFFFF
  }

  /** `s.length`: the number of UTF-16 code units, two for each astral
      character. */
  function JsLength(s: string): (n: nat)
    ensures |s| <= n <= 2 * |s|
    ensures (forall i | 0 <= i < |s| :: !IsAstral(s[i])) ==> n == |s|
    ensures (forall i | 0 <= i < |s| :: IsAstral(s[i])) ==> n == 2 * |s|
  {
    if s == [] then 0 else (if IsAstral(s[0]) then 2 else 1) + JsLength(s[1..])
  }

  /** A character put in front of a concatenation. */
  lemma ConsAssoc(c: char, t: string, u: string)
    ensures [c] + (t + u) == ([c] + t) + u
  {
  }

  // ---- SQLite's BINARY order on text ----

  /** SQLite's BINARY collation: character by character, a prefix before
      any longer text. */
  predicate TextLe(a: string, b: string)
    decreases |a|
  {
    a == [] || (b != [] && (a[0] < b[0] || (a[0] == b[0] && TextLe(a[1..], b[1..]))))
  }

  /** In ascending order a NULL comes before any text. */
  predicate SubLe(a: Option<string>, b: Option<string>)
  {
    a.None? || (b.Some? && TextLe(a.value, b.value))
  }

  /** Ascending order on a (name, sub-category) pair: by name, then by
      sub-category, as `ORDER BY nama_kategori, sub_kategori` and the index
      on those two columns sort category rows. */
  predicate NameSubLe(nama1: string, sub1: Option<string>, nama2: string, sub2: Option<string>)
  {
    TextLe(nama1, nama2) && (nama1 == nama2 ==> SubLe(sub1, sub2))
  }

  lemma {:induction false} TextLeTotal(a: string, b: string)
    ensures TextLe(a, b) || TextLe(b, a)
    decreases |a|
  {
    if a != [] && b != [] && a[0] == b[0] {
      TextLeTotal(a[1..], b[1..]);
    }
  }

  lemma {:induction false} TextLeAntisymmetric(a: string, b: string)
    requires TextLe(a, b) && TextLe(b, a)
    ensures a == b
    decreases |a|
  {
    if a != [] {
      TextLeAntisymmetric(a[1..], b[1..]);
      assert a == [a[0]] + a[1..] && b == [b[0]] + b[1..];
    }
  }

  lemma {:induction false} TextLeTransitive(a: string, b: string, c: string)
    requires TextLe(a, b) && TextLe(b, c)
    ensures TextLe(a, c)
    decreases |a|
  {
    if a != [] && a[0] == b[0] && b[0] == c[0] {
      TextLeTransitive(a[1..], b[1..], c[1..]);
    }
  }

  /** Any two pairs are ordered one way or the other. */
  lemma NameSubLeTotal(nama1: string, sub1: Option<string>, nama2: string, sub2: Option<string>)
    ensures NameSubLe(nama1, sub1, nama2, sub2) || NameSubLe(nama2, sub2, nama1, sub1)
  {
    TextLeTotal(nama1, nama2);
    if nama1 == nama2 && sub1.Some? && sub2.Some? {
      TextLeTotal(sub1.value, sub2.value);
    }
    if TextLe(nama1, nama2) && TextLe(nama2, nama1) {
      TextLeAntisymmetric(nama1, nama2);
    }
  }

  lemma NameSubLeTransitive(nama1: string, sub1: Option<string>, nama2: string, sub2: Option<string>, nama3: string, sub3: Option<string>)
    requires NameSubLe(nama1, sub1, nama2, sub2) && NameSubLe(nama2, sub2, nama3, sub3)
    ensures NameSubLe(nama1, sub1, nama3, sub3)
  {
    TextLeTransitive(nama1, nama2, nama3);
    if nama1 == nama3 {
      TextLeAntisymmetric(nama1, nama2);
      if sub1.Some? {
        TextLeTransitive(sub1.value, sub2.value, sub3.value);
      }
    }
  }
}
