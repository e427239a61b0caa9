/** Category slugs (`lib/slug.js`): `slugify`, the slug of a category code,
    the canonical slug and the alias set of a category, the resolution of a
    slug to its canonical form, and the title shown for a slug. */
module Slug {
  import opened Common

  // ---- slugify, step by step ----

  predicate IsSlugChar(c: char)
  {
    IsLowerAscii(c) || IsDigit(c) || c == '-'
  }

  predicate NoDoubleDash(s: string)
  {
    forall i, j | 0 <= i < |s| && 0 <= j < |s| && j == i + 1 :: !(s[i] == '-' && s[j] == '-')
  }

  /** What `slugify` produces: `[a-z0-9-]` only, no '-' at either end and no
      two '-' in a row. */
  predicate IsSlug(s: string)
  {
    AllSlugChars(s) && NoDoubleDash(s) &&
    (s == [] || (s[0] != '-' && s[|s| - 1] != '-'))
  }

  predicate NoSpace(s: string)
  {
    forall i | 0 <= i < |s| :: !IsSpace(s[i])
  }

  predicate AllSlugChars(s: string)
  {
    forall i | 0 <= i < |s| :: IsSlugChar(s[i])
  }

  predicate SlugOrSpace(s: string)
  {
    forall i | 0 <= i < |s| :: IsSlugChar(s[i]) || IsSpace(s[i])
  }

  /** `.replace(/[^a-z0-9\s-]/g, "")`. */
  function KeepSlugChars(s: string): string
  {
    if s == [] then []
    else (if IsSlugChar(s[0]) || IsSpace(s[0]) then [s[0]] else []) + KeepSlugChars(s[1..])
  }

  lemma {:induction false} KeepSlugCharsOnly(s: string)
    ensures SlugOrSpace(KeepSlugChars(s))
    decreases |s|
  {
    if s != [] {
      KeepSlugCharsOnly(s[1..]);
    }
  }

  lemma {:induction false} KeepSlugCharsKeeps(s: string)
    requires SlugOrSpace(s)
    ensures KeepSlugChars(s) == s
    decreases |s|
  {
    if s != [] {
      assert SlugOrSpace(s[1..]) by {
        assert forall i | 0 <= i < |s| - 1 :: s[1..][i] == s[i + 1];
      }
      KeepSlugCharsKeeps(s[1..]);
      assert s == [s[0]] + s[1..];
    }
  }

  /** `.replace(/\s+/g, "-")`. */
  function SpacesToDash(s: string): string
    decreases |s|
  {
    if s == [] then []
    else if IsSpace(s[0]) then "-" + SpacesToDash(s[SkipSpaces(s, 0)..])
    else [s[0]] + SpacesToDash(s[1..])
  }

  lemma {:induction false} SpacesToDashNoSpace(s: string)
    ensures NoSpace(SpacesToDash(s))
    decreases |s|
  {
    if s != [] {
      SpacesToDashNoSpace(if IsSpace(s[0]) then s[SkipSpaces(s, 0)..] else s[1..]);
    }
  }

  lemma {:induction false} SpacesToDashSlugChars(s: string)
    requires SlugOrSpace(s)
    ensures AllSlugChars(SpacesToDash(s))
    decreases |s|
  {
    if s != [] {
      var t := if IsSpace(s[0]) then s[SkipSpaces(s, 0)..] else s[1..];
      assert SlugOrSpace(t) by {
        assert forall i | 0 <= i < |t| :: t[i] == s[|s| - |t| + i];
      }
      SpacesToDashSlugChars(t);
    }
  }

  lemma {:induction false} SpacesToDashKeeps(s: string)
    requires NoSpace(s)
    ensures SpacesToDash(s) == s
    decreases |s|
  {
    if s != [] {
      assert NoSpace(s[1..]) by {
        assert forall i | 0 <= i < |s| - 1 :: s[1..][i] == s[i + 1];
      }
      SpacesToDashKeeps(s[1..]);
      assert s == [s[0]] + s[1..];
    }
  }

  /** The string without its leading '-' characters. */
  function DropDashes(s: string): (r: string)
    ensures |r| <= |s| && r == s[|s| - |r|..]
    ensures r == [] || r[0] != '-'
  {
    if s != [] && s[0] == '-' then DropDashes(s[1..]) else s
  }

  /** Putting a character in front keeps "no two '-' in a row" unless both
      are '-'. */
  lemma {:induction false} NoDoubleDashCons(c: char, t: string)
    requires NoDoubleDash(t) && (c == '-' ==> t == [] || t[0] != '-')
    ensures NoDoubleDash([c] + t)
  {
    var r := [c] + t;
    forall i, j | 0 <= i < |r| && 0 <= j < |r| && j == i + 1
      ensures !(r[i] == '-' && r[j] == '-')
    {
      if i > 0 {
        assert r[i] == t[i - 1] && r[j] == t[j - 1];
      }
    }
  }

  /** `.replace(/-+/g, "-")`. */
  function SqueezeDashes(s: string): string
    decreases |s|
  {
    if s == [] then []
    else if s[0] == '-' then "-" + SqueezeDashes(DropDashes(s[1..]))
    else [s[0]] + SqueezeDashes(s[1..])
  }

  lemma {:induction false} SqueezeDashesNoDouble(s: string)
    ensures NoDoubleDash(SqueezeDashes(s))
    ensures (SqueezeDashes(s) != [] && SqueezeDashes(s)[0] == '-') <==> (s != [] && s[0] == '-')
    decreases |s|
  {
    if s != [] {
      var rest := if s[0] == '-' then DropDashes(s[1..]) else s[1..];
      SqueezeDashesNoDouble(rest);
      NoDoubleDashCons(s[0], SqueezeDashes(rest));
    }
  }

  lemma {:induction false} SqueezeDashesSlugChars(s: string)
    requires AllSlugChars(s)
    ensures AllSlugChars(SqueezeDashes(s))
    decreases |s|
  {
    if s != [] {
      var rest := if s[0] == '-' then DropDashes(s[1..]) else s[1..];
      assert AllSlugChars(rest) by {
        assert forall i | 0 <= i < |rest| :: rest[i] == s[|s| - |rest| + i];
      }
      SqueezeDashesSlugChars(rest);
    }
  }

  lemma {:induction false} SqueezeDashesKeeps(s: string)
    requires NoDoubleDash(s)
    ensures SqueezeDashes(s) == s
    decreases |s|
  {
    if s != [] {
      if s[0] == '-' && |s| > 1 {
        assert !(s[0] == '-' && s[1] == '-');
      }
      var rest := s[1..];
      assert NoDoubleDash(rest) by {
        forall i, j | 0 <= i < |rest| && 0 <= j < |rest| && j == i + 1
          ensures !(rest[i] == '-' && rest[j] == '-')
        {
          assert rest[i] == s[i + 1] && rest[j] == s[j + 1];
        }
      }
      SqueezeDashesKeeps(rest);
      assert s == [s[0]] + rest;
    }
  }

  /** `.replace(/^-|-$/g, "")`: one leading and one trailing '-' go. */
  function StripDashEdges(s: string): string
  {
    s[DashLo(s)..DashHi(s)]
  }

  function DashLo(s: string): nat
  {
    if s != [] && s[0] == '-' then 1 else 0
  }

  function DashHi(s: string): (hi: nat)
    ensures DashLo(s) <= hi <= |s|
  {
    if |s| > DashLo(s) && s[|s| - 1] == '-' then |s| - 1 else |s|
  }

  /** A slice keeps the slug characters and the absence of '--'. */
  lemma {:induction false} SliceKeeps(s: string, lo: nat, hi: nat)
    requires lo <= hi <= |s|
    ensures NoDoubleDash(s) ==> NoDoubleDash(s[lo..hi])
    ensures AllSlugChars(s) ==> AllSlugChars(s[lo..hi])
  {
    var r := s[lo..hi];
    assert forall i | 0 <= i < |r| :: r[i] == s[lo + i];
  }

  /** Without '--', dropping one edge '-' on each side leaves none. */
  lemma {:induction false} StripDashEdgesFacts(s: string)
    requires NoDoubleDash(s)
    ensures var r := StripDashEdges(s);
      NoDoubleDash(r) && (r == [] || (r[0] != '-' && r[|r| - 1] != '-')) &&
      (AllSlugChars(s) ==> AllSlugChars(r))
  {
    var lo, hi := DashLo(s), DashHi(s);
    SliceKeeps(s, lo, hi);
    if lo == 1 && |s| > 1 {
      assert !(s[0] == '-' && s[1] == '-');
    }
    if lo < hi < |s| {
      var before, last := s[|s| - 2], s[|s| - 1];
      assert !(before == '-' && last == '-');
    }
  }

  lemma {:induction false} StripDashEdgesKeeps(s: string)
    requires s == [] || (s[0] != '-' && s[|s| - 1] != '-')
    ensures StripDashEdges(s) == s
  {
  }

  /** Trimming keeps only characters of the string. */
  lemma {:induction false} TrimSlugOrSpace(s: string)
    requires SlugOrSpace(s)
    ensures SlugOrSpace(Trim(s))
  {
    var lo := SkipSpaces(s, 0);
    var r := Trim(s);
    assert forall i | 0 <= i < |r| :: r[i] == s[lo + i];
  }

  /** `slugify`: lower-case, keep `[a-z0-9]`, whitespace and '-', trim, turn
      whitespace runs into '-', squeeze '-' runs and drop an edge '-'. */
  function Slugify(text: string): string
  {
    SlugOfLowered(Lower(text))
  }

  /** Every step of `slugify` after lower-casing. */
  function SlugOfLowered(t: string): string
  {
    StripDashEdges(SqueezeDashes(SpacesToDash(Trim(KeepSlugChars(t)))))
  }

  /** The result of `slugify` is always a slug. */
  lemma {:induction false} SlugifyIsSlug(text: string)
    ensures IsSlug(Slugify(text))
  {
    var kept := KeepSlugChars(Lower(text));
    KeepSlugCharsOnly(Lower(text));
    TrimSlugOrSpace(kept);
    var spaced := SpacesToDash(Trim(kept));
    SpacesToDashSlugChars(Trim(kept));
    SqueezeDashesNoDouble(spaced);
    SqueezeDashesSlugChars(spaced);
    StripDashEdgesFacts(SqueezeDashes(spaced));
  }

  /** Trimming a string with no whitespace keeps it. */
  lemma {:induction false} TrimNoSpace(s: string)
    requires NoSpace(s)
    ensures Trim(s) == s
  {
    assert SkipSpaces(s, 0) == 0;
  }

  /** A slug is its own slug. */
  lemma {:induction false} SlugifySlug(s: string)
    requires IsSlug(s)
    ensures Slugify(s) == s
  {
    SlugCharsFixed(s);
    KeepSlugCharsKeeps(s);
    TrimNoSpace(s);
    SpacesToDashKeeps(s);
    SqueezeDashesKeeps(s);
    StripDashEdgesKeeps(s);
  }

  /** Slug characters are lower case and are not whitespace. */
  lemma {:induction false} SlugCharsFixed(s: string)
    requires AllSlugChars(s)
    ensures Lower(s) == s && NoSpace(s) && SlugOrSpace(s)
  {
    forall i | 0 <= i < |s|
      ensures LowerChar(s[i]) == s[i] && !IsSpace(s[i])
    {
      assert IsSlugChar(s[i]);
    }
  }

  /** `slugify` is idempotent. */
  lemma {:induction false} SlugifyIdempotent(text: string)
    ensures Slugify(Slugify(text)) == Slugify(text)
  {
    SlugifyIsSlug(text);
    SlugifySlug(Slugify(text));
  }

  // ---- words joined by one separator ----

  predicate IsAlnum(c: char)
  {
    IsUpperAscii(c) || IsLowerAscii(c) || IsDigit(c)
  }

  /** Non-empty ASCII letter-and-digit words. */
  predicate Words(parts: seq<string>)
  {
    forall k | 0 <= k < |parts| :: IsWord(parts[k])
  }

  predicate IsWord(w: string)
  {
    w != [] && forall i | 0 <= i < |w| :: IsAlnum(w[i])
  }

  function LowerAll(parts: seq<string>): (r: seq<string>)
    ensures |r| == |parts| && forall k | 0 <= k < |parts| :: r[k] == Lower(parts[k])
  {
    seq(|parts|, k requires 0 <= k < |parts| => Lower(parts[k]))
  }

  lemma {:induction false} LowerConcat(a: string, b: string)
    ensures Lower(a + b) == Lower(a) + Lower(b)
  {
  }

  lemma {:induction false} LowerJoin(parts: seq<string>, sep: string)
    requires Lower(sep) == sep
    ensures Lower(Join(parts, sep)) == Join(LowerAll(parts), sep)
    decreases |parts|
  {
    if |parts| > 1 {
      LowerJoin(parts[1..], sep);
      assert LowerAll(parts)[1..] == LowerAll(parts[1..]);
      LowerConcat(parts[0] + sep, Join(parts[1..], sep));
      LowerConcat(parts[0], sep);
    }
  }

  lemma {:induction false} SpacesToDashPlain(a: string, b: string)
    requires NoSpace(a)
    ensures SpacesToDash(a + b) == a + SpacesToDash(b)
    decreases |a|
  {
    if a != [] {
      assert (a + b)[0] == a[0] && !IsSpace(a[0]);
      assert (a + b)[1..] == a[1..] + b;
      assert NoSpace(a[1..]);
      SpacesToDashPlain(a[1..], b);
      assert SpacesToDash(a + b) == [a[0]] + SpacesToDash(a[1..] + b);
      assert a == [a[0]] + a[1..];
    } else {
      assert a + b == b;
    }
  }

  /** Words joined by single spaces become the same words joined by '-'. */
  lemma {:induction false} SpacesToDashJoin(parts: seq<string>)
    requires forall k | 0 <= k < |parts| :: parts[k] != [] && NoSpace(parts[k])
    ensures SpacesToDash(Join(parts, " ")) == Join(parts, "-")
    decreases |parts|
  {
    if |parts| == 1 {
      SpacesToDashKeeps(parts[0]);
    } else if |parts| > 1 {
      var rest := Join(parts[1..], " ");
      SpacesToDashJoin(parts[1..]);
      assert rest != [] && !IsSpace(rest[0]) by {
        JoinStartsWithFirst(parts[1..], " ");
      }
      assert Join(parts, " ") == parts[0] + (" " + rest);
      SpacesToDashPlain(parts[0], " " + rest);
      assert SkipSpaces(" " + rest, 0) == 1;
      assert (" " + rest)[1..] == rest;
      assert Join(parts, "-") == parts[0] + "-" + Join(parts[1..], "-");
    }
  }

  lemma {:induction false} JoinStartsWithFirst(parts: seq<string>, sep: string)
    requires |parts| >= 1 && parts[0] != []
    ensures Join(parts, sep) != [] && Join(parts, sep)[0] == parts[0][0]
  {
  }

  lemma {:induction false} JoinEndsWithLast(parts: seq<string>, sep: string)
    requires |parts| >= 1 && parts[|parts| - 1] != []
    ensures Join(parts, sep) != [] && Join(parts, sep)[|Join(parts, sep)| - 1] == parts[|parts| - 1][|parts[|parts| - 1]| - 1]
    decreases |parts|
  {
    if |parts| > 1 {
      JoinEndsWithLast(parts[1..], sep);
    }
  }

  /** Every character of a join is a separator character or a part's. */
  lemma {:induction false} JoinChars(parts: seq<string>, sep: string, P: char -> bool)
    requires forall i | 0 <= i < |sep| :: P(sep[i])
    requires forall k | 0 <= k < |parts| :: forall i | 0 <= i < |parts[k]| :: P(parts[k][i])
    ensures forall i | 0 <= i < |Join(parts, sep)| :: P(Join(parts, sep)[i])
    decreases |parts|
  {
    if |parts| > 1 {
      JoinChars(parts[1..], sep, P);
      var j := Join(parts, sep);
      assert j == parts[0] + sep + Join(parts[1..], sep);
      forall i | 0 <= i < |j|
        ensures P(j[i])
      {
        if i < |parts[0]| {
        } else if i < |parts[0]| + |sep| {
          assert j[i] == sep[i - |parts[0]|];
        } else {
          assert j[i] == Join(parts[1..], sep)[i - |parts[0]| - |sep|];
        }
      }
    }
  }

  /** Two '-' are never adjacent in words joined by '-'. */
  lemma {:induction false} JoinDashNoDouble(parts: seq<string>)
    requires forall k | 0 <= k < |parts| :: parts[k] != [] && '-' !in parts[k]
    ensures NoDoubleDash(Join(parts, "-"))
    decreases |parts|
  {
    if |parts| > 1 {
      JoinDashNoDouble(parts[1..]);
      JoinStartsWithFirst(parts[1..], "-");
      var j := Join(parts, "-");
      var rest := Join(parts[1..], "-");
      assert j == parts[0] + "-" + rest;
      forall i, k | 0 <= i < |j| && 0 <= k < |j| && k == i + 1
        ensures !(j[i] == '-' && j[k] == '-')
      {
        if i < |parts[0]| {
          assert j[i] == parts[0][i];
        } else if i == |parts[0]| {
          assert j[k] == rest[0];
        } else {
          assert j[i] == rest[i - |parts[0]| - 1] && j[k] == rest[k - |parts[0]| - 1];
        }
      }
    }
  }

  /** Words joined by single spaces slugify to the lowered words joined by
      '-'. */
  lemma {:induction false} SlugifyWords(parts: seq<string>)
    requires |parts| >= 1 && Words(parts)
    ensures Slugify(Join(parts, " ")) == Join(LowerAll(parts), "-")
  {
    LowerJoin(parts, " ");
    LowerWordsOf(parts);
    SlugOfLowWords(LowerAll(parts));
  }

  /** The steps after lower-casing take lowered words joined by spaces to
      the same words joined by '-'. */
  lemma {:induction false} SlugOfLowWords(low: seq<string>)
    requires |low| >= 1 && forall k | 0 <= k < |low| :: IsLowWord(low[k])
    ensures SlugOfLowered(Join(low, " ")) == Join(low, "-")
  {
    LowWordsKeepTrim(low);
    LowWordsDashes(low);
    StepsKeep(Join(low, " "), Join(low, "-"));
  }

  /** The steps after lower-casing, when each of them leaves its input as
      it is (but the one from spaces to dashes). */
  lemma StepsKeep(s: string, d: string)
    requires KeepSlugChars(s) == s && Trim(s) == s && SpacesToDash(s) == d
    requires SqueezeDashes(d) == d && StripDashEdges(d) == d
    ensures SlugOfLowered(s) == d
  {
  }

  lemma {:induction false} LowWordsKeepTrim(low: seq<string>)
    requires |low| >= 1 && forall k | 0 <= k < |low| :: IsLowWord(low[k])
    ensures KeepSlugChars(Join(low, " ")) == Join(low, " ") && Trim(Join(low, " ")) == Join(low, " ")
  {
    var s := Join(low, " ");
    LowWordChars(low);
    JoinChars(low, " ", (c: char) => IsSlugChar(c) || IsSpace(c));
    KeepSlugCharsKeeps(s);
    JoinLowWordsEdges(low, " ");
    TrimOfTrimmed(s);
  }

  lemma {:induction false} LowWordsDashes(low: seq<string>)
    requires |low| >= 1 && forall k | 0 <= k < |low| :: IsLowWord(low[k])
    ensures SpacesToDash(Join(low, " ")) == Join(low, "-")
    ensures SqueezeDashes(Join(low, "-")) == Join(low, "-") && StripDashEdges(Join(low, "-")) == Join(low, "-")
  {
    var d := Join(low, "-");
    LowWordChars(low);
    SpacesToDashJoin(low);
    JoinDashNoDouble(low);
    SqueezeDashesKeeps(d);
    JoinLowWordsEdges(low, "-");
    StripDashEdgesKeeps(d);
  }

  /** A lowered word: non-empty, lower-case ASCII letters and digits. */
  predicate IsLowWord(w: string)
  {
    w != [] && forall i | 0 <= i < |w| :: IsLowerAscii(w[i]) || IsDigit(w[i])
  }

  lemma {:induction false} LowerWordsOf(parts: seq<string>)
    requires Words(parts)
    ensures forall k | 0 <= k < |parts| :: IsLowWord(LowerAll(parts)[k])
  {
    forall k | 0 <= k < |parts|
      ensures IsLowWord(LowerAll(parts)[k])
    {
      var w := parts[k];
      assert w != [] && forall i | 0 <= i < |w| :: IsAlnum(w[i]);
      assert forall i | 0 <= i < |w| :: Lower(w)[i] == LowerChar(w[i]);
    }
  }

  /** Lowered words joined by anything start and end with a letter or a
      digit. */
  lemma {:induction false} JoinLowWordsEdges(low: seq<string>, sep: string)
    requires |low| >= 1 && forall k | 0 <= k < |low| :: IsLowWord(low[k])
    ensures var j := Join(low, sep);
      j != [] && (IsLowerAscii(j[0]) || IsDigit(j[0])) &&
      (IsLowerAscii(j[|j| - 1]) || IsDigit(j[|j| - 1]))
  {
    var first, last := low[0], low[|low| - 1];
    assert IsLowWord(first) && IsLowWord(last);
    JoinStartsWithFirst(low, sep);
    JoinEndsWithLast(low, sep);
  }

  lemma {:induction false} LowWordChars(low: seq<string>)
    requires forall k | 0 <= k < |low| :: IsLowWord(low[k])
    ensures forall k | 0 <= k < |low| :: low[k] != [] && NoSpace(low[k]) && '-' !in low[k]
    ensures forall k | 0 <= k < |low| :: forall i | 0 <= i < |low[k]| :: IsSlugChar(low[k][i]) || IsSpace(low[k][i])
  {
  }

  // ---- slugFromCode ----

  predicate IsCodeGap(c: char)
  {
    c == '_' || IsSpace(c)
  }

  /** The string without its leading '_' and whitespace characters. */
  function DropGap(s: string): (r: string)
    ensures |r| <= |s| && r == s[|s| - |r|..]
    ensures r == [] || !IsCodeGap(r[0])
  {
    if s != [] && IsCodeGap(s[0]) then DropGap(s[1..]) else s
  }

  /** `.replace(/[_\s]+/g, " ")`. */
  function GapsToSpace(s: string): (r: string)
    decreases |s|
  {
    if s == [] then []
    else if IsCodeGap(s[0]) then " " + GapsToSpace(DropGap(s[1..]))
    else [s[0]] + GapsToSpace(s[1..])
  }

  /** `slugFromCode` on a string: blank gives '', otherwise the slug of the
      code with every run of '_' and whitespace read as one space. */
  function SlugFromCode(raw: string): (r: string)
    ensures IsSlug(r)
    ensures IsBlank(raw) ==> r == []
  {
    if IsBlank(raw) then ""
    else
      SlugifyIsSlug(GapsToSpace(raw));
      Slugify(GapsToSpace(raw))
  }

  lemma {:induction false} GapsToSpacePlain(a: string, b: string)
    requires forall i | 0 <= i < |a| :: !IsCodeGap(a[i])
    ensures GapsToSpace(a + b) == a + GapsToSpace(b)
    decreases |a|
  {
    if a != [] {
      assert (a + b)[0] == a[0];
      assert (a + b)[1..] == a[1..] + b;
      GapsToSpacePlain(a[1..], b);
      assert GapsToSpace(a + b) == [a[0]] + GapsToSpace(a[1..] + b);
      assert a == [a[0]] + a[1..];
    } else {
      assert a + b == b;
    }
  }

  lemma {:induction false} GapsToSpaceJoin(parts: seq<string>)
    requires Words(parts)
    ensures GapsToSpace(Join(parts, "_")) == Join(parts, " ")
    decreases |parts|
  {
    if |parts| == 1 {
      assert IsWord(parts[0]);
      GapsToSpacePlain(parts[0], []);
      assert parts[0] + [] == parts[0];
    } else if |parts| > 1 {
      var rest := Join(parts[1..], "_");
      assert IsWord(parts[0]) && IsWord(parts[1]);
      assert Words(parts[1..]);
      GapsToSpaceJoin(parts[1..]);
      JoinStartsWithFirst(parts[1..], "_");
      assert Join(parts, "_") == parts[0] + ("_" + rest);
      GapsToSpacePlain(parts[0], "_" + rest);
      AlnumNotGap(parts[1][0]);
      GapsToSpaceOneGap(rest);
      assert Join(parts, " ") == parts[0] + " " + Join(parts[1..], " ");
    }
  }

  lemma AlnumNotGap(c: char)
    requires IsAlnum(c)
    ensures !IsCodeGap(c) && !IsSpace(c) && c != '-'
  {
  }

  lemma {:induction false} GapsToSpaceOneGap(rest: string)
    requires rest != [] && !IsCodeGap(rest[0])
    ensures GapsToSpace("_" + rest) == " " + GapsToSpace(rest)
  {
    assert ("_" + rest)[1..] == rest;
  }

  /** A code made of words joined by single '_' (as `WEDDING_VENUE`) gives
      the lowered words joined by '-' (`wedding-venue`). */
  lemma {:induction false} SlugFromUnderscoredCode(parts: seq<string>)
    requires |parts| >= 1 && Words(parts)
    ensures SlugFromCode(Join(parts, "_")) == Join(LowerAll(parts), "-")
  {
    var code := Join(parts, "_");
    JoinStartsWithFirst(parts, "_");
    assert !IsBlank(code) by {
      assert !IsSpace(code[0]);
      assert !AllSpace(code);
    }
    GapsToSpaceJoin(parts);
    SlugifyWords(parts);
  }

  // ---- titleFromSlug ----

  /** `part.charAt(0).toUpperCase() + part.slice(1)`. */
  function Capitalize(part: string): (r: string)
    ensures |r| == |part|
  {
    if part == [] then [] else [UpperChar(part[0])] + part[1..]
  }

  function CapitalizeAll(parts: seq<string>): (r: seq<string>)
    ensures |r| == |parts| && forall k | 0 <= k < |parts| :: r[k] == Capitalize(parts[k])
  {
    seq(|parts|, k requires 0 <= k < |parts| => Capitalize(parts[k]))
  }

  /** `titleFromSlug`: the non-empty '-'-separated parts, each with its first
      character upper-cased, joined by single spaces. */
  function TitleFromSlug(slug: string): string
  {
    Join(CapitalizeAll(NonEmpty(Split(slug, '-'))), " ")
  }

  /** The parts of a non-empty slug are non-empty lower-case words. */
  lemma {:induction false} SlugParts(s: string)
    requires IsSlug(s) && s != []
    ensures forall k | 0 <= k < |Split(s, '-')| :: IsLowWord(Split(s, '-')[k])
    decreases |s|
  {
    if '-' in s {
      var i := IndexOf(s, '-');
      SlugHead(s, i);
      SlugAfterDash(s, i);
      SlugParts(s[i + 1..]);
      assert Split(s, '-') == [s[..i]] + Split(s[i + 1..], '-');
    } else {
      SlugHead(s, |s|);
      assert s[..|s|] == s;
      assert Split(s, '-') == [s];
    }
  }

  /** The slug characters before the first '-' form a lowered word. */
  lemma {:induction false} SlugHead(s: string, i: nat)
    requires IsSlug(s) && 0 < |s| && i <= |s| && '-' !in s[..i]
    requires i < |s| ==> s[i] == '-'
    ensures IsLowWord(s[..i])
  {
    var w := s[..i];
    forall j | 0 <= j < |w|
      ensures IsLowerAscii(w[j]) || IsDigit(w[j])
    {
      assert w[j] == s[j] && IsSlugChar(s[j]);
    }
    assert i > 0 by {
      assert s[0] != '-';
    }
  }

  /** What follows a '-' in a slug is a non-empty slug. */
  lemma {:induction false} SlugAfterDash(s: string, i: nat)
    requires IsSlug(s) && i < |s| && s[i] == '-'
    ensures s[i + 1..] != [] && IsSlug(s[i + 1..])
  {
    var rest := s[i + 1..];
    assert i < |s| - 1;
    assert forall j | 0 <= j < |rest| :: rest[j] == s[i + 1 + j];
    assert rest[0] != '-' by {
      var a, b := s[i], s[i + 1];
      assert !(a == '-' && b == '-');
    }
  }

  /** Reading a title back as a slug gives the slug it came from. */
  lemma {:induction false} SlugifyTitle(s: string)
    requires IsSlug(s)
    ensures Slugify(TitleFromSlug(s)) == s
  {
    if s == [] {
      assert Split(s, '-') == [s];
      assert NonEmpty([s]) == [];
      assert TitleFromSlug(s) == [];
      SlugifySlug(s);
    } else {
      var parts := Split(s, '-');
      SlugParts(s);
      assert NonEmpty(parts) == parts;
      var caps := CapitalizeAll(parts);
      forall k | 0 <= k < |caps|
        ensures IsWord(caps[k]) && Lower(caps[k]) == parts[k]
      {
        CapitalizeLowWord(parts[k]);
      }
      SlugifyWords(caps);
      assert LowerAll(caps) == parts;
    }
  }

  /** Capitalizing a lowered word gives a word whose lower case is the
      lowered word. */
  lemma {:induction false} CapitalizeLowWord(w: string)
    requires IsLowWord(w)
    ensures IsWord(Capitalize(w)) && Lower(Capitalize(w)) == w
  {
    var cap := Capitalize(w);
    forall i | 0 <= i < |w|
      ensures IsAlnum(cap[i]) && LowerChar(cap[i]) == w[i]
    {
      if i > 0 {
        assert cap[i] == w[i];
      }
    }
  }

  // ---- categories ----

  /** The keys `lib/slug.js` reads from a category object; each is a string
      or null/undefined (`None`). `labelKey` is the `label` key. */
  datatype SlugCategory = SlugCategory(
    code_kategori: Option<string>, codeKategori: Option<string>, code: Option<string>,
    nama_kategori: Option<string>, nama: Option<string>, labelKey: Option<string>,
    sub_kategori: Option<string>, subKategori: Option<string>, sub: Option<string>)

  /** `a ?? b`. */
  function Or(a: Option<string>, b: Option<string>): Option<string>
  {
    if a.Some? then a else b
  }

  /** `x ?? ""`. */
  function OrEmpty(a: Option<string>): string
  {
    if a.Some? then a.value else ""
  }

  function CodeValue(c: SlugCategory): string { OrEmpty(Or(c.code_kategori, Or(c.codeKategori, c.code))) }
  function NameValue(c: SlugCategory): string { OrEmpty(Or(c.nama_kategori, Or(c.nama, c.labelKey))) }
  function SubValue(c: SlugCategory): string { OrEmpty(Or(c.sub_kategori, Or(c.subKategori, c.sub))) }

  /** `canonicalCategorySlug`: the code's slug when it is non-empty, else the
      slug of the non-empty ones of name and sub joined by a space. */
  function CanonicalSlug(c: SlugCategory): (r: string)
    ensures IsSlug(r)
  {
    var fromCode := SlugFromCode(CodeValue(c));
    if fromCode != [] then fromCode
    else
      var combined := Join(NonEmpty([NameValue(c), SubValue(c)]), " ");
      SlugifyIsSlug(if combined != [] then combined else NameValue(c));
      Slugify(if combined != [] then combined else NameValue(c))
  }

  /** The canonical slug is the code's slug when that is non-empty, and
      otherwise the slug of the name and sub joined by a space, of the name
      alone or of the sub alone, whichever of them are non-empty. */
  lemma {:induction false} CanonicalSlugCases(c: SlugCategory)
    ensures SlugFromCode(CodeValue(c)) != [] ==> CanonicalSlug(c) == SlugFromCode(CodeValue(c))
    ensures SlugFromCode(CodeValue(c)) == [] && NameValue(c) != [] && SubValue(c) != [] ==>
      CanonicalSlug(c) == Slugify(NameValue(c) + " " + SubValue(c))
    ensures SlugFromCode(CodeValue(c)) == [] && SubValue(c) == [] ==> CanonicalSlug(c) == Slugify(NameValue(c))
    ensures SlugFromCode(CodeValue(c)) == [] && NameValue(c) == [] ==> CanonicalSlug(c) == Slugify(SubValue(c))
  {
    var name, sub := NameValue(c), SubValue(c);
    var combined := Join(NonEmpty([name, sub]), " ");
    assert NonEmpty([name, sub]) == (if name != [] then [name] else []) + (if sub != [] then [sub] else []) by {
      assert [name, sub][1..] == [sub];
      assert [sub][1..] == [];
    }
    assert combined == (if name != [] && sub != [] then name + " " + sub else if name != [] then name else sub) by {
      if name != [] && sub != [] {
        assert [name, sub][1..] == [sub];
        assert Join([sub], " ") == sub;
      }
    }
  }


  /** `hasName && hasSub`: `nama_kategori ?? nama` (not `label`) and the sub
      are both non-empty strings. */
  predicate HasNameAndSub(c: SlugCategory)
  {
    Or(c.nama_kategori, c.nama).Some? && Or(c.nama_kategori, c.nama).value != [] &&
    Or(c.sub_kategori, Or(c.subKategori, c.sub)).Some? && Or(c.sub_kategori, Or(c.subKategori, c.sub)).value != []
  }

  /** The slug of the name and sub joined by a space, when both are
      present. */
  function PairAlias(c: SlugCategory): Option<string>
  {
    if HasNameAndSub(c)
    then Some(Slugify(Or(c.nama_kategori, c.nama).value + " " + Or(c.sub_kategori, Or(c.subKategori, c.sub)).value))
    else None
  }

  /** `{s}` when `s` is non-empty, else nothing. */
  function IfNonEmpty(s: string): set<string>
  {
    if s != [] then {s} else {}
  }

  function OptionSet(o: Option<string>): set<string>
  {
    if o.Some? then {o.value} else {}
  }

  /** The alias candidates before empty ones are dropped. */
  function AliasCandidates(c: SlugCategory): set<string>
  {
    {CanonicalSlug(c), SlugFromCode(CodeValue(c)), Slugify(NameValue(c)), Slugify(SubValue(c))} + OptionSet(PairAlias(c))
  }

  /** The alias set of a category: its non-empty candidate slugs. */
  function Aliases(c: SlugCategory): set<string>
  {
    AliasCandidates(c) - {[]}
  }

  /** Every alias is a non-empty slug. */
  lemma {:induction false} AliasesAreSlugs(c: SlugCategory)
    ensures forall a | a in Aliases(c) :: a != [] && IsSlug(a)
  {
    SlugifyIsSlug(NameValue(c));
    SlugifyIsSlug(SubValue(c));
    PairAliasIsSlug(c);
    CandidatesSlugs(CanonicalSlug(c), SlugFromCode(CodeValue(c)), Slugify(NameValue(c)), Slugify(SubValue(c)), PairAlias(c));
  }

  /** The canonical slug is an alias when it is non-empty, and the combined
      name-sub slug is an alias exactly when both name and sub are present
      and it is non-empty. */
  lemma {:induction false} AliasesHold(c: SlugCategory)
    ensures CanonicalSlug(c) != [] ==> CanonicalSlug(c) in Aliases(c)
    ensures !HasNameAndSub(c) ==>
      Aliases(c) <= {CanonicalSlug(c), SlugFromCode(CodeValue(c)), Slugify(NameValue(c)), Slugify(SubValue(c))}
    ensures HasNameAndSub(c) && PairAlias(c).value != [] ==> PairAlias(c).value in Aliases(c)
  {
    CandidatesHold(CanonicalSlug(c), SlugFromCode(CodeValue(c)), Slugify(NameValue(c)), Slugify(SubValue(c)), PairAlias(c));
  }

  lemma CandidatesHold(canonical: string, code: string, name: string, sub: string, pair: Option<string>)
    ensures canonical != [] ==> canonical in {canonical, code, name, sub} + OptionSet(pair) - {[]}
    ensures pair.None? ==> {canonical, code, name, sub} + OptionSet(pair) - {[]} <= {canonical, code, name, sub}
    ensures pair.Some? && pair.value != [] ==> pair.value in {canonical, code, name, sub} + OptionSet(pair) - {[]}
  {
  }

  lemma {:induction false} PairAliasIsSlug(c: SlugCategory)
    ensures PairAlias(c).Some? ==> IsSlug(PairAlias(c).value)
  {
    if HasNameAndSub(c) {
      SlugifyIsSlug(Or(c.nama_kategori, c.nama).value + " " + Or(c.sub_kategori, Or(c.subKategori, c.sub)).value);
    }
  }

  lemma {:induction false} CandidatesSlugs(canonical: string, code: string, name: string, sub: string, pair: Option<string>)
    requires IsSlug(canonical) && IsSlug(code) && IsSlug(name) && IsSlug(sub)
    requires pair.Some? ==> IsSlug(pair.value)
    ensures forall a | a in {canonical, code, name, sub} + OptionSet(pair) :: IsSlug(a)
  {
  }

  /** Dropping '' from the candidates keeps each non-empty one. */
  lemma {:induction false} DropEmpty(canonical: string, code: string, name: string, sub: string, pair: Option<string>)
    ensures pair.None? ==> ({canonical, code, name, sub} + OptionSet(pair) - {[]} ==
      {} + IfNonEmpty(canonical) + IfNonEmpty(code) + IfNonEmpty(name) + IfNonEmpty(sub))
    ensures pair.Some? ==> ({canonical, code, name, sub} + OptionSet(pair) - {[]} ==
      {} + IfNonEmpty(canonical) + IfNonEmpty(code) + IfNonEmpty(name) + IfNonEmpty(sub) + IfNonEmpty(pair.value))
  {
  }

  /** `if (s) aliases.add(s)`. */
  method AddAlias(aliases: set<string>, s: string) returns (r: set<string>)
    ensures r == aliases + IfNonEmpty(s)
    ensures s in r <==> s != [] || s in aliases
  {
    r := aliases;
    if s != [] {
      r := r + {s};
    }
  }

  /** `collectCategoryAliases`, adding each non-empty slug in turn. */
  method CollectCategoryAliases(c: SlugCategory) returns (aliases: set<string>)
    ensures aliases == Aliases(c)
  {
    aliases := {};
    var canonical := CanonicalSlug(c);
    aliases := AddAlias(aliases, canonical);
    var codeAlias := SlugFromCode(CodeValue(c));
    aliases := AddAlias(aliases, codeAlias);
    var nameAlias := Slugify(NameValue(c));
    aliases := AddAlias(aliases, nameAlias);
    var subAlias := Slugify(SubValue(c));
    aliases := AddAlias(aliases, subAlias);
    var pair := PairAlias(c);
    if HasNameAndSub(c) {
      var combined := Slugify(Or(c.nama_kategori, c.nama).value + " " + Or(c.sub_kategori, Or(c.subKategori, c.sub)).value);
      aliases := AddAlias(aliases, combined);
    }
    DropEmpty(canonical, codeAlias, nameAlias, subAlias, pair);
  }

  /** `categoryMatchesSlug`: the slug of the input is a non-empty alias. */
  function CategoryMatchesSlug(c: SlugCategory, slug: string): bool
  {
    var normalized := Slugify(slug);
    normalized != [] && normalized in Aliases(c)
  }

  /** A category matches its own canonical slug when it has one. */
  lemma {:induction false} MatchesCanonical(c: SlugCategory)
    ensures CanonicalSlug(c) != [] ==> CategoryMatchesSlug(c, CanonicalSlug(c))
  {
    SlugifySlug(CanonicalSlug(c));
    AliasesHold(c);
  }

  /** A category matches a slug exactly when it matches that slug's slug. */
  lemma {:induction false} MatchesSlugified(c: SlugCategory, slug: string)
    ensures CategoryMatchesSlug(c, slug) <==> CategoryMatchesSlug(c, Slugify(slug))
  {
    SlugifyIdempotent(slug);
  }

  /** The category that decides the resolution of `target`: `target` is
      one of its aliases and its canonical slug is non-empty. */
  predicate Decides(target: string, c: SlugCategory)
  {
    target in Aliases(c) && CanonicalSlug(c) != []
  }

  function DecidesFor(target: string): SlugCategory -> bool
  {
    c => Decides(target, c)
  }

  /** The canonical slug of the first category that decides `target`. */
  function FirstCanonical(target: string, categories: seq<SlugCategory>): (r: Option<string>)
    ensures r.Some? ==> r.value != [] && IsSlug(r.value)
  {
    var i := FirstIndex(categories, DecidesFor(target));
    if i < |categories| then Some(CanonicalSlug(categories[i])) else None
  }

  /** What `resolveCanonicalCategorySlug` answers. */
  function ResolvedSlug(input: string, categories: seq<SlugCategory>): (r: string)
    ensures IsSlug(r)
    ensures r == [] <==> Slugify(input) == []
  {
    var target := Slugify(input);
    SlugifyIsSlug(input);
    if target == [] then ""
    else
      var found := FirstCanonical(target, categories);
      if found.Some? then found.value else target
  }

  /** `resolveCanonicalCategorySlug`: the loop with its early return. */
  method ResolveCanonicalCategorySlug(input: string, categories: seq<SlugCategory>) returns (r: string)
    ensures r == ResolvedSlug(input, categories)
  {
    var target := Slugify(input);
    if target == [] {
      return "";
    }
    var i := 0;
    while i < |categories|
      invariant 0 <= i <= |categories|
      invariant forall j | 0 <= j < i :: !Decides(target, categories[j])
    {
      var c := categories[i];
      var aliases := CollectCategoryAliases(c);
      if target in aliases {
        var canonical := CanonicalSlug(c);
        if canonical != [] {
          FirstCanonicalAt(target, categories, i);
          return canonical;
        }
      }
      NoneDecideStep(target, categories, i);
      i := i + 1;
    }
    FirstCanonicalAt(target, categories, i);
    r := target;
  }

  /** One more category that does not decide extends the undecided prefix. */
  lemma NoneDecideStep(target: string, categories: seq<SlugCategory>, i: nat)
    requires i < |categories| && !Decides(target, categories[i])
    requires forall j | 0 <= j < i :: !Decides(target, categories[j])
    ensures forall j | 0 <= j < i + 1 :: !Decides(target, categories[j])
  {
  }

  /** The first deciding category, at index `i` (or none when `i` is the
      length), gives the canonical slug. */
  lemma {:induction false} FirstCanonicalAt(target: string, categories: seq<SlugCategory>, i: nat)
    requires i <= |categories|
    requires i < |categories| ==> Decides(target, categories[i])
    requires forall j | 0 <= j < i :: !Decides(target, categories[j])
    ensures FirstCanonical(target, categories) ==
      if i < |categories| then Some(CanonicalSlug(categories[i])) else None
  {
    FirstIndexIs(categories, DecidesFor(target), i);
  }

  lemma {:induction false} ResolveFirstMatch(input: string, categories: seq<SlugCategory>, i: int)
    requires 0 <= i < |categories|
    requires CategoryMatchesSlug(categories[i], input) && CanonicalSlug(categories[i]) != []
    requires forall j | 0 <= j < i :: !(CategoryMatchesSlug(categories[j], input) && CanonicalSlug(categories[j]) != [])
    ensures ResolvedSlug(input, categories) == CanonicalSlug(categories[i])
  {
    var target := Slugify(input);
    assert target != [];
    forall j | 0 <= j < i
      ensures !Decides(target, categories[j])
    {
      assert !(CategoryMatchesSlug(categories[j], input) && CanonicalSlug(categories[j]) != []);
    }
    FirstCanonicalAt(target, categories, i);
  }

  lemma {:induction false} ResolveNoMatch(input: string, categories: seq<SlugCategory>)
    requires forall j | 0 <= j < |categories| :: !(CategoryMatchesSlug(categories[j], input) && CanonicalSlug(categories[j]) != [])
    ensures ResolvedSlug(input, categories) == Slugify(input)
  {
    var target := Slugify(input);
    if target != [] {
      forall j | 0 <= j < |categories|
        ensures !Decides(target, categories[j])
      {
        assert !(CategoryMatchesSlug(categories[j], input) && CanonicalSlug(categories[j]) != []);
      }
      FirstCanonicalAt(target, categories, |categories|);
    }
  }
}
