/** Session tokens and text sanitising (`lib/auth.js`). The HMAC-SHA256
    signature of the encoded payload, the base64url/JSON encoding of the
    payload and the clock are parameters: `sign`, `encode` and `decode` are
    arbitrary functions and `now` is the caller's `Date.now()`. */
module Auth {
  import opened Common

  /** `SESSION_TTL_SECONDS * 1000`: four hours, in milliseconds. */
  const SessionTtlMs: int := 4 * 60 * 60 * 1000

  /** Who logs in: the `{ userId, username, name }` argument of `createSession`. */
  datatype User = User(userId: int, username: string, name: string)

  /** The payload carried by a token, as the decoder gives it back; an
      `expiresAt` that is not a number is `None`. */
  datatype Payload = Payload(user: User, issuedAt: int, expiresAt: Option<int>)

  /** What `createSession` returns. */
  datatype Session = Session(token: string, expiresAt: int)

  // ---------------------------------------------------------------------
  // safeCompare

  /** Compares two strings without stopping at the first difference. The
      source ORs together the XOR of every pair of character codes; that
      XOR is non-zero exactly when the two characters differ and the OR is
      non-zero once any term was, so the accumulator is kept here as the
      boolean "some pair differed". */
  method SafeCompare(a: string, b: string) returns (same: bool)
    ensures same <==> |a| == |b| && forall i :: 0 <= i < |a| ==> a[i] == b[i]
    ensures same <==> a == b
  {
    if |a| != |b| {
      return false;
    }
    var mismatch := false;
    var i := 0;
    while i < |a|
      invariant 0 <= i <= |a|
      invariant !mismatch <==> forall j :: 0 <= j < i ==> a[j] == b[j]
    {
      mismatch := mismatch || a[i] != b[i];
      i := i + 1;
    }
    same := !mismatch;
    assert same ==> a == b;
  }

  // ---------------------------------------------------------------------
  // createSession / verifySession

  /** The token of `createSession`: the encoded payload, a dot, and the
      signature of the encoded payload. */
  function CreateSession(user: User, issuedAt: int, sign: string -> string,
                         encode: Payload -> string): (s: Session)
    ensures s.expiresAt == issuedAt + SessionTtlMs
    ensures s.token == encode(Payload(user, issuedAt, Some(s.expiresAt)))
                       + "." + sign(encode(Payload(user, issuedAt, Some(s.expiresAt))))
  {
    var payload := Payload(user, issuedAt, Some(issuedAt + SessionTtlMs));
    var encoded := encode(payload);
    Session(encoded + "." + sign(encoded), issuedAt + SessionTtlMs)
  }

  /** The second part of `token.split(".")`, or "" when there is none
      (destructuring gives `undefined`, which is falsy like ""). */
  function SecondPart(parts: seq<string>): string
  {
    if |parts| >= 2 then parts[1] else ""
  }

  /** `verifySession`: the payload of a well-formed, correctly signed and
      unexpired token, otherwise `None` (the source's `null`). */
  function Verified(token: Option<string>, now: int, sign: string -> string,
                    decode: string -> Option<Payload>): Option<Payload>
  {
    if token.None? || token.value == [] then None
    else
      var parts := Split(token.value, '.');
      var encoded := parts[0];
      var signature := SecondPart(parts);
      if encoded == [] || signature == [] then None
      else if signature != sign(encoded) then None
      else match decode(encoded)
        case None => None
        case Some(payload) =>
          if payload.expiresAt.None? || now > payload.expiresAt.value then None
          else Some(payload)
  }

  /** `verifySession` as the source runs it, comparing signatures with
      `SafeCompare`. */
  method VerifySession(token: Option<string>, now: int, sign: string -> string,
                       decode: string -> Option<Payload>) returns (r: Option<Payload>)
    ensures r == Verified(token, now, sign, decode)
  {
    if token.None? || token.value == [] {
      return None;
    }
    var parts := Split(token.value, '.');
    var encoded := parts[0];
    var signature := SecondPart(parts);
    if encoded == [] || signature == [] {
      return None;
    }
    var expected := sign(encoded);
    var same := SafeCompare(signature, expected);
    if !same {
      return None;
    }
    var payload := decode(encoded);
    if payload.None? {
      return None;
    }
    if payload.value.expiresAt.None? || now > payload.value.expiresAt.value {
      return None;
    }
    r := payload;
  }

  /** Joining puts the first part at the front. */
  lemma {:induction false} JoinStartsWith(parts: seq<string>, sep: string)
    requires |parts| >= 1
    ensures parts[0] <= Join(parts, sep)
  {
  }

  /** The first two parts of a split, with the separator between them, start
      the split string. */
  lemma {:induction false} SplitPrefix(s: string, sep: char)
    requires |Split(s, sep)| >= 2
    ensures Split(s, sep)[0] + [sep] + Split(s, sep)[1] <= s
  {
    var r := Split(s, sep);
    assert Join(r, [sep]) == r[0] + [sep] + Join(r[1..], [sep]);
    JoinStartsWith(r[1..], [sep]);
  }

  /** Splitting `a + [sep] + b`, where neither half holds the separator,
      gives exactly the two halves. */
  lemma {:induction false} SplitTwo(a: string, sep: char, b: string)
    requires sep !in a && sep !in b
    ensures Split(a + [sep] + b, sep) == [a, b]
  {
    var s := a + [sep] + b;
    assert s[|a|] == sep;
    assert s[..|a|] == a;
    var i := IndexOf(s, sep);
    assert i == |a|;
    assert s[i + 1..] == b;
  }

  /** A session token created at `issuedAt` verifies, before it expires, to
      the payload it was created with, when the encoder round-trips and
      neither the encoding nor the signature contains a dot or is empty
      (base64url output never contains a dot). */
  lemma {:induction false} CreatedSessionVerifies(user: User, issuedAt: int, now: int,
                                                  sign: string -> string,
                                                  encode: Payload -> string,
                                                  decode: string -> Option<Payload>)
    requires var p := Payload(user, issuedAt, Some(issuedAt + SessionTtlMs));
      && encode(p) != [] && '.' !in encode(p)
      && sign(encode(p)) != [] && '.' !in sign(encode(p))
      && decode(encode(p)) == Some(p)
    requires now <= issuedAt + SessionTtlMs
    ensures Verified(Some(CreateSession(user, issuedAt, sign, encode).token), now, sign, decode)
            == Some(Payload(user, issuedAt, Some(issuedAt + SessionTtlMs)))
  {
    var p := Payload(user, issuedAt, Some(issuedAt + SessionTtlMs));
    var e := encode(p);
    SplitTwo(e, '.', sign(e));
    assert CreateSession(user, issuedAt, sign, encode).token == e + ['.'] + sign(e);
  }

  /** Once it has expired, the same token is refused. */
  lemma {:induction false} ExpiredSessionRefused(user: User, issuedAt: int, now: int,
                                                 sign: string -> string,
                                                 encode: Payload -> string,
                                                 decode: string -> Option<Payload>)
    requires var p := Payload(user, issuedAt, Some(issuedAt + SessionTtlMs));
      && encode(p) != [] && '.' !in encode(p)
      && sign(encode(p)) != [] && '.' !in sign(encode(p))
      && decode(encode(p)) == Some(p)
    requires now > issuedAt + SessionTtlMs
    ensures Verified(Some(CreateSession(user, issuedAt, sign, encode).token), now, sign, decode) == None
  {
    var p := Payload(user, issuedAt, Some(issuedAt + SessionTtlMs));
    var e := encode(p);
    SplitTwo(e, '.', sign(e));
    assert CreateSession(user, issuedAt, sign, encode).token == e + ['.'] + sign(e);
  }

  /** What an accepted token looks like: it starts with a dot-free,
      non-empty part `e` that decodes to the returned payload, followed by a
      dot and the signature of `e`; and the payload has not expired. */
  lemma {:induction false} VerifiedMeansSigned(token: Option<string>, now: int,
                                               sign: string -> string,
                                               decode: string -> Option<Payload>)
    requires Verified(token, now, sign, decode).Some?
    ensures token.Some?
    ensures var e := Split(token.value, '.')[0];
      && e != [] && '.' !in e && sign(e) != []
      && e + "." + sign(e) <= token.value
      && decode(e) == Verified(token, now, sign, decode)
    ensures var p := Verified(token, now, sign, decode).value;
      p.expiresAt.Some? && now <= p.expiresAt.value
  {
    SplitPrefix(token.value, '.');
  }

  /** An absent or empty token, or one with a missing part, is refused. */
  lemma {:induction false} MalformedTokenRefused(token: Option<string>, now: int,
                                                 sign: string -> string,
                                                 decode: string -> Option<Payload>)
    requires token.None? || token.value == [] || '.' !in token.value
             || token.value[0] == '.'
    ensures Verified(token, now, sign, decode) == None
  {
    if token.Some? && token.value != [] {
      var parts := Split(token.value, '.');
      if '.' !in token.value {
        assert parts == [token.value];
      } else {
        assert token.value[0] == '.';
        assert IndexOf(token.value, '.') == 0;
        assert parts[0] == [];
      }
    }
  }

  // ---------------------------------------------------------------------
  // sanitizeText / sanitizeUsername

  /** How far a tag-like fragment `<[^>]*>?` reaches in `s` (which starts just
      after the `<`): through the first `>`, or to the end. */
  function TagLength(s: string): (n: nat)
    ensures n <= |s|
    ensures '>' in s ==> n == IndexOf(s, '>') + 1
    ensures '>' !in s ==> n == |s|
  {
    if '>' in s then IndexOf(s, '>') + 1 else |s|
  }

  /** `replace(/<[^>]*>?/g, "")`: every `<` and the tag-like fragment it
      opens are removed; everything outside such fragments is kept. */
  function StripTags(s: string): (r: string)
    ensures |r| <= |s|
    ensures '<' !in r
    ensures '<' !in s ==> r == s
    decreases |s|
  {
    if s == [] then []
    else if s[0] == '<' then StripTags(s[1 + TagLength(s[1..])..])
    else [s[0]] + StripTags(s[1..])
  }

  /** Text before the first `<` is kept as it is. */
  lemma {:induction false} StripTagsKeepsPlain(a: string, b: string)
    requires '<' !in a
    ensures StripTags(a + b) == a + StripTags(b)
    decreases |a|
  {
    if a == [] {
      assert a + b == b;
    } else {
      var c, t := a[0], a[1..];
      assert '<' !in t && c != '<' by {
        assert a == [c] + t;
      }
      assert a + b == [c] + (t + b);
      StripTagsCons(c, t + b);
      StripTagsKeepsPlain(t, b);
      ConsAssoc(c, t, StripTags(b));
    }
  }

  lemma StripTagsCons(c: char, t: string)
    requires c != '<'
    ensures StripTags([c] + t) == [c] + StripTags(t)
  {
    assert ([c] + t)[1..] == t;
  }

  /** A closed fragment `<...>` goes, and so does everything after an
      unclosed `<`. */
  lemma {:induction false} StripTagsDropsFragment(t: string, b: string)
    requires '>' !in t
    ensures StripTags(['<'] + t + ['>'] + b) == StripTags(b)
    ensures StripTags(['<'] + t) == []
  {
    var s := ['<'] + t + ['>'] + b;
    assert s[1..] == t + ['>'] + b;
    IndexOfAfter(t, b);
    assert s[1 + |t| + 1..] == b;
    var u := ['<'] + t;
    assert u[1..] == t;
  }

  lemma {:induction false} IndexOfAfter(t: string, b: string)
    requires '>' !in t
    ensures '>' in t + ['>'] + b && IndexOf(t + ['>'] + b, '>') == |t|
  {
    var s := t + ['>'] + b;
    assert s[|t|] == '>' && s[..|t|] == t;
    IndexOfIs(s, '>', |t|);
  }

  /** The characters `replace(/["'`;(){}]/g, "")` removes. */
  predicate IsScriptChar(c: char)
  {
    c == '"' || c == '\'' || c == '`' || c == ';' || c == '(' || c == ')' || c == '{' || c == '}'
  }

  predicate NotScriptChar(c: char)
  {
    !IsScriptChar(c)
  }

  /** Removes every script character, keeping the rest in order. */
  function DropScriptChars(s: string): (r: string)
    ensures |r| <= |s|
    ensures forall i :: 0 <= i < |r| ==> !IsScriptChar(r[i]) && r[i] in s
    ensures (forall i :: 0 <= i < |s| ==> !IsScriptChar(s[i])) ==> r == s
  {
    if s == [] then []
    else if IsScriptChar(s[0]) then DropScriptChars(s[1..])
    else [s[0]] + DropScriptChars(s[1..])
  }

  /** Every character that is not a script character is kept, in order. */
  lemma {:induction false} DropScriptCharsFilters(s: string)
    ensures DropScriptChars(s) == Filter(s, NotScriptChar)
    decreases |s|
  {
    if s != [] {
      DropScriptCharsFilters(s[1..]);
    }
  }

  /** `sanitizeText`; an absent value (`undefined`/`null`) reads as "". */
  function SanitizeText(value: Option<string>): string
  {
    Trim(DropScriptChars(StripTags(if value.Some? then value.value else "")))
  }

  /** The output of `sanitizeText` holds no `<`, no script character and no
      whitespace at either end. */
  lemma {:induction false} SanitizedTextIsClean(value: Option<string>)
    ensures var r := SanitizeText(value);
      && '<' !in r
      && (forall i :: 0 <= i < |r| ==> !IsScriptChar(r[i]))
      && (r != [] ==> !IsSpace(r[0]) && !IsSpace(r[|r| - 1]))
  {
    var d := DropScriptChars(StripTags(if value.Some? then value.value else ""));
    var r := SanitizeText(value);
    TrimInside(d);
    forall i | 0 <= i < |r|
      ensures r[i] != '<' && !IsScriptChar(r[i])
    {
      assert r[i] in d;
      var j :| 0 <= j < |d| && d[j] == r[i];
    }
  }

  /** `sanitizeText` is idempotent. */
  lemma {:induction false} SanitizeTextIdempotent(value: Option<string>)
    ensures SanitizeText(Some(SanitizeText(value))) == SanitizeText(value)
  {
    var r := SanitizeText(value);
    SanitizedTextIsClean(value);
    assert StripTags(r) == r;
    assert DropScriptChars(r) == r;
    TrimOfTrimmed(r);
  }

  /** The characters `sanitizeUsername` keeps: `[a-zA-Z0-9@._-]`. */
  predicate IsUsernameChar(c: char)
  {
    IsLowerAscii(c) || IsUpperAscii(c) || IsDigit(c) || c == '@' || c == '.' || c == '_' || c == '-'
  }

  /** `replace(/[^a-zA-Z0-9@._-]/g, "")`: the username characters, in order. */
  function KeepUsernameChars(s: string): (r: string)
    ensures |r| <= |s|
    ensures forall i :: 0 <= i < |r| ==> IsUsernameChar(r[i])
    ensures (forall i :: 0 <= i < |s| ==> IsUsernameChar(s[i])) ==> r == s
  {
    if s == [] then []
    else if IsUsernameChar(s[0]) then [s[0]] + KeepUsernameChars(s[1..])
    else KeepUsernameChars(s[1..])
  }

  /** Every username character is kept, in order. */
  lemma {:induction false} KeepUsernameCharsFilters(s: string)
    ensures KeepUsernameChars(s) == Filter(s, IsUsernameChar)
    decreases |s|
  {
    if s != [] {
      KeepUsernameCharsFilters(s[1..]);
    }
  }

  /** `sanitizeUsername`: the sanitised text, reduced to username characters. */
  function SanitizeUsername(value: Option<string>): (r: string)
    ensures forall i :: 0 <= i < |r| ==> IsUsernameChar(r[i])
  {
    KeepUsernameChars(SanitizeText(value))
  }

  /** A string of username characters passes `sanitizeText` unchanged. */
  lemma {:induction false} UsernameCharsSanitized(s: string)
    requires forall i :: 0 <= i < |s| ==> IsUsernameChar(s[i])
    ensures SanitizeText(Some(s)) == s
  {
    assert forall i :: 0 <= i < |s| ==> !IsScriptChar(s[i]);
    if s != [] {
      assert IsUsernameChar(s[0]) && IsUsernameChar(s[|s| - 1]);
    }
    TrimOfTrimmed(s);
  }

  /** `sanitizeUsername` is idempotent. */
  lemma {:induction false} SanitizeUsernameIdempotent(value: Option<string>)
    ensures SanitizeUsername(Some(SanitizeUsername(value))) == SanitizeUsername(value)
  {
    UsernameCharsSanitized(SanitizeUsername(value));
  }
}
