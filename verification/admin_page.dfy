/** The admin login page (`app/admin/page.js`): the client-side clean-up
    of what was typed, the checks made before a request is sent, and what
    the page does with the answer. */
module AdminPage {
  import opened Common

  const MissingFields: string := "Username dan password wajib diisi."
  const LoginFailed: string := "Login gagal. Silakan periksa kembali."
  const Unreachable: string := "Tidak dapat terhubung ke server. Coba beberapa saat lagi."
  const SessionEnded: string := "Sesi Anda berakhir. Silakan login kembali."
  const Dashboard: string := "/dashboard-admin"

  predicate NotAngle(c: char)
  {
    c != '<' && c != '>'
  }

  /** `replace(/[<>]/g, "")`: every other character is kept, in order
      (`DropAnglesFilters`). */
  function DropAngles(s: string): (r: string)
    ensures |r| <= |s|
    ensures '<' !in r && '>' !in r
    ensures forall i :: 0 <= i < |r| ==> r[i] in s
    ensures '<' !in s && '>' !in s ==> r == s
  {
    if s == [] then []
    else if s[0] == '<' || s[0] == '>' then DropAngles(s[1..])
    else [s[0]] + DropAngles(s[1..])
  }

  lemma {:induction false} DropAnglesFilters(s: string)
    ensures DropAngles(s) == Filter(s, NotAngle)
    decreases |s|
  {
    if s != [] {
      DropAnglesFilters(s[1..]);
    }
  }

  /** No two neighbouring characters are both whitespace. */
  predicate NoDoubleSpace(s: string)
  {
    forall i :: 0 <= i < |s| - 1 ==> !(IsSpace(s[i]) && IsSpace(s[i + 1]))
  }

  /** `replace(/\s{2,}/g, " ")`: scanning from the left, every run of two or
      more whitespace characters becomes one space; a lone whitespace
      character is kept as it is. */
  function CollapseSpaces(s: string): (r: string)
    ensures |r| <= |s|
    ensures r == [] <==> s == []
    ensures s != [] && !IsSpace(s[0]) ==> r[0] == s[0]
    ensures r != [] && IsSpace(r[0]) ==> IsSpace(s[0])
    ensures NoDoubleSpace(r)
    ensures forall i :: 0 <= i < |r| ==> r[i] in s || r[i] == ' '
    decreases |s|
  {
    if s == [] then []
    else if |s| >= 2 && IsSpace(s[0]) && IsSpace(s[1]) then
      var rest := s[SkipSpaces(s, 0)..];
      [' '] + CollapseSpaces(rest)
    else [s[0]] + CollapseSpaces(s[1..])
  }

  /** Runs never cross a non-whitespace character: text that ends in one is
      collapsed on its own. */
  lemma {:induction false} CollapseSpacesAppend(a: string, b: string)
    requires a != [] && !IsSpace(a[|a| - 1])
    ensures CollapseSpaces(a + b) == CollapseSpaces(a) + CollapseSpaces(b)
    decreases |a|
  {
    var s := a + b;
    if |a| == 1 {
      assert s == [a[0]] + b && a == [a[0]] + [];
      assert CollapseSpaces(s) == [a[0]] + CollapseSpaces(b) by { assert s[1..] == b; }
      assert CollapseSpaces(a) == [a[0]] by { assert a[1..] == []; }
    } else if IsSpace(a[0]) && IsSpace(a[1]) {
      var k := SkipSpaces(a, 0);
      var t := a[k..];
      assert k < |a|;
      assert SkipSpaces(s, 0) == k by {
        SkipSpacesPrefix(a, b, 0);
      }
      assert s[k..] == t + b;
      assert CollapseSpaces(s) == [' '] + CollapseSpaces(t + b);
      assert CollapseSpaces(a) == [' '] + CollapseSpaces(t);
      CollapseSpacesAppend(t, b);
      ConsAssoc(' ', CollapseSpaces(t), CollapseSpaces(b));
    } else {
      var t := a[1..];
      assert s[1..] == t + b && s[1] == a[1];
      assert CollapseSpaces(s) == [a[0]] + CollapseSpaces(t + b);
      assert CollapseSpaces(a) == [a[0]] + CollapseSpaces(t);
      CollapseSpacesAppend(t, b);
      ConsAssoc(a[0], CollapseSpaces(t), CollapseSpaces(b));
    }
  }

  /** Skipping whitespace inside a prefix that holds a non-whitespace
      character ends inside that prefix. */
  lemma {:induction false} SkipSpacesPrefix(a: string, b: string, i: nat)
    requires i < |a| && !IsSpace(a[|a| - 1])
    ensures SkipSpaces(a + b, i) == SkipSpaces(a, i) < |a|
    decreases |a| - i
  {
    if IsSpace(a[i]) {
      SkipSpacesPrefix(a, b, i + 1);
    }
  }

  /** A run of two or more whitespace characters becomes one space. */
  lemma {:induction false} CollapseSpacesRun(w: string, b: string)
    requires |w| >= 2 && forall i | 0 <= i < |w| :: IsSpace(w[i])
    requires b == [] || !IsSpace(b[0])
    ensures CollapseSpaces(w + b) == [' '] + CollapseSpaces(b)
  {
    var s := w + b;
    SkipSpacesRun(w, b, 0);
    assert s[|w|..] == b;
  }

  lemma {:induction false} SkipSpacesRun(w: string, b: string, i: nat)
    requires i <= |w| && forall k | 0 <= k < |w| :: IsSpace(w[k])
    requires b == [] || !IsSpace(b[0])
    ensures SkipSpaces(w + b, i) == |w|
    decreases |w| - i
  {
    if i < |w| {
      SkipSpacesRun(w, b, i + 1);
    }
  }

  /** A string without neighbouring whitespace is left alone. */
  lemma {:induction false} CollapseSpacesKeeps(s: string)
    requires NoDoubleSpace(s)
    ensures CollapseSpaces(s) == s
    decreases |s|
  {
    if s != [] {
      NoDoubleSpaceTail(s);
      CollapseSpacesKeeps(s[1..]);
      assert !(|s| >= 2 && IsSpace(s[0]) && IsSpace(s[1]));
      assert CollapseSpaces(s) == [s[0]] + CollapseSpaces(s[1..]);
    }
  }

  lemma NoDoubleSpaceTail(s: string)
    requires s != [] && NoDoubleSpace(s)
    ensures NoDoubleSpace(s[1..])
  {
    forall i | 0 <= i < |s[1..]| - 1
      ensures !(IsSpace(s[1..][i]) && IsSpace(s[1..][i + 1]))
    {
      assert s[1..][i] == s[i + 1] && s[1..][i + 1] == s[i + 2];
    }
  }

  /** `sanitizeClientInput`. */
  function SanitizeClientInput(value: string): string
  {
    Trim(CollapseSpaces(DropAngles(value)))
  }

  /** Trimming keeps the absence of angle brackets and of neighbouring
      whitespace. */
  lemma {:induction false} TrimKeepsClean(c: string)
    requires '<' !in c && '>' !in c && NoDoubleSpace(c)
    ensures '<' !in Trim(c) && '>' !in Trim(c) && NoDoubleSpace(Trim(c))
  {
    var r := Trim(c);
    var lo := SkipSpaces(c, 0);
    assert r == c[lo..lo + |r|];
    assert forall i :: 0 <= i < |r| ==> r[i] == c[lo + i];
  }

  /** The cleaned input has no angle bracket, no neighbouring whitespace and
      no whitespace at either end. */
  lemma {:induction false} SanitizedInputIsClean(value: string)
    ensures var r := SanitizeClientInput(value);
      && '<' !in r && '>' !in r && NoDoubleSpace(r)
      && (r != [] ==> !IsSpace(r[0]) && !IsSpace(r[|r| - 1]))
  {
    var d := DropAngles(value);
    var c := CollapseSpaces(d);
    assert '<' !in c && '>' !in c by {
      forall i | 0 <= i < |c|
        ensures c[i] != '<' && c[i] != '>'
      {
        assert c[i] in d || c[i] == ' ';
      }
    }
    TrimKeepsClean(c);
  }

  /** Cleaning twice is cleaning once. */
  lemma {:induction false} SanitizeClientInputIdempotent(value: string)
    ensures SanitizeClientInput(SanitizeClientInput(value)) == SanitizeClientInput(value)
  {
    var r := SanitizeClientInput(value);
    SanitizedInputIsClean(value);
    assert DropAngles(r) == r;
    CollapseSpacesKeeps(r);
    TrimOfTrimmed(r);
  }

  /** Lower-casing adds no angle bracket and leaves no upper-case letter. */
  lemma LowerKeepsAngleFree(c: string)
    requires '<' !in c && '>' !in c
    ensures '<' !in Lower(c) && '>' !in Lower(c)
    ensures forall i :: 0 <= i < |c| ==> !IsUpperAscii(Lower(c)[i])
  {
    assert forall i :: 0 <= i < |c| ==> Lower(c)[i] == LowerChar(c[i]) && c[i] != '<' && c[i] != '>';
  }

  /** What pressing "login" does: nothing is sent and an error is shown, or
      the cleaned pair is posted to the login endpoint. */
  datatype Submission = Blocked(error: string) | Send(username: string, password: string)

  /** `handleSubmit` up to the request: the username is cleaned and
      lower-cased, the password only trimmed; a blank one of either stops
      the submission with an error. */
  function HandleSubmit(username: string, password: string): (s: Submission)
    ensures s.Blocked? <==> Lower(SanitizeClientInput(username)) == [] || IsBlank(password)
    ensures s.Blocked? ==> s.error == MissingFields
  {
    var u := Lower(SanitizeClientInput(username));
    var p := Trim(password);
    if u == [] || p == [] then Blocked(MissingFields) else Send(u, p)
  }

  /** What is sent is clean: a non-empty lower-case username without angle
      brackets, and the password with only its surrounding whitespace
      removed. */
  lemma {:induction false} HandleSubmitSendsClean(username: string, password: string)
    ensures var s := HandleSubmit(username, password);
      s.Send? ==> s.username != [] && '<' !in s.username && '>' !in s.username
                  && (forall i :: 0 <= i < |s.username| ==> !IsUpperAscii(s.username[i]))
                  && s.password != [] && !IsSpace(s.password[0])
                  && !IsSpace(s.password[|s.password| - 1])
                  && OccursAt(password, s.password, SkipSpaces(password, 0))
  {
    var c := SanitizeClientInput(username);
    SanitizedInputIsClean(username);
    LowerKeepsAngleFree(c);
  }

  /** The server's answer as the page sees it: its `ok` flag and the
      `message` and `redirect` fields of its JSON body (absent when the body
      does not parse). */
  datatype Reply = Reply(ok: bool, message: Option<string>, redirect: Option<string>)

  /** What the page ends with: an error message, or navigation. */
  datatype Outcome = ShowError(message: string) | Navigate(target: string)

  /** The answer handling of `handleSubmit`; `reply` is `None` when the
      request itself failed. */
  function AfterReply(reply: Option<Reply>): (o: Outcome)
    ensures reply.None? ==> o == ShowError(Unreachable)
    ensures o.Navigate? <==> reply.Some? && reply.value.ok
    ensures o.Navigate? && reply.value.redirect.None? ==> o.target == Dashboard
    ensures o.ShowError? ==> o.message != []
  {
    if reply.None? then ShowError(Unreachable)
    else if !reply.value.ok then
      var m := reply.value.message;
      ShowError(if m.Some? && m.value != [] then m.value else LoginFailed)
    else Navigate(if reply.value.redirect.Some? then reply.value.redirect.value else Dashboard)
  }

  /** The status line shown on arrival: a truthy `redirectTo` parameter means
      the session ran out. */
  function InitialStatus(redirectTo: Option<string>): (m: string)
    ensures m != [] <==> redirectTo.Some? && redirectTo.value != []
  {
    if redirectTo.Some? && redirectTo.value != [] then SessionEnded else ""
  }
}
