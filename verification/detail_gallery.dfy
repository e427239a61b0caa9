/** The media gallery of the client product page
    (`components/client/DetailProduk.jsx`): the cover-first ordering of
    fetched media, the synthetic cover entry, and the lightbox navigation
    of `activeIdx`. */
module DetailGallery {
  import opened Common

  /** A media entry as the page keeps it; `isCover` is already
      `Boolean(item.is_cover)`. */
  datatype Media = Media(id: string, url: string, isCover: bool)

  /** The index of the first cover entry, or `|ms|` (`findIndex`, with
      `-1` written as `|ms|`). */
  function FirstCover(ms: seq<Media>): (c: nat)
    ensures c <= |ms|
    ensures c < |ms| ==> ms[c].isCover
    ensures forall i | 0 <= i < c :: !ms[i].isCover
  {
    if ms == [] then 0 else if ms[0].isCover then 0 else 1 + FirstCover(ms[1..])
  }

  /** The list with its first cover entry moved to the front. */
  function CoverFirst(ms: seq<Media>): seq<Media>
  {
    var c := FirstCover(ms);
    if 0 < c < |ms| then [ms[c]] + ms[..c] + ms[c + 1..] else ms
  }

  /** Reordering keeps every entry and the length. */
  lemma {:induction false} CoverFirstPermutes(ms: seq<Media>)
    ensures |CoverFirst(ms)| == |ms| && multiset(CoverFirst(ms)) == multiset(ms)
  {
    var c := FirstCover(ms);
    if 0 < c < |ms| {
      assert ms == ms[..c] + [ms[c]] + ms[c + 1..];
    }
  }

  /** When there is a cover, the first one leads and the others follow in
      their old order. */
  lemma {:induction false} CoverFirstLeads(ms: seq<Media>, i: nat)
    requires i < |ms| && ms[i].isCover
    ensures var c := FirstCover(ms);
      c <= i && CoverFirst(ms)[0] == ms[c] && CoverFirst(ms)[1..] == ms[..c] + ms[c + 1..]
  {
    var c := FirstCover(ms);
    if c == 0 {
      assert ms[1..] == ms[..0] + ms[1..];
    }
  }

  /** Without a cover nothing moves. */
  lemma {:induction false} CoverFirstWithoutCover(ms: seq<Media>)
    requires forall i | 0 <= i < |ms| :: !ms[i].isCover
    ensures CoverFirst(ms) == ms
  {
  }

  /** Reordering twice is reordering once. */
  lemma {:induction false} CoverFirstIdempotent(ms: seq<Media>)
    ensures CoverFirst(CoverFirst(ms)) == CoverFirst(ms)
  {
    var r := CoverFirst(ms);
    var c := FirstCover(ms);
    if 0 < c < |ms| {
      assert r[0] == ms[c] && r[0].isCover;
      assert FirstCover(r) == 0;
    }
  }

  /** The splice-and-unshift of the fetched list, on the array itself. */
  method MoveCoverFirst(a: array<Media>)
    modifies a
    ensures a[..] == CoverFirst(old(a[..]))
  {
    ghost var ms := a[..];
    var c := 0;
    while c < a.Length && !a[c].isCover
      invariant 0 <= c <= a.Length
      invariant forall i | 0 <= i < c :: !a[i].isCover
    {
      c := c + 1;
    }
    FirstCoverIs(ms, c);
    if 0 < c < a.Length {
      Unshift(a, c);
    }
  }

  /** Moves `a[c]` to the front, shifting `a[..c]` up by one. */
  method Unshift(a: array<Media>, c: nat)
    requires c < a.Length
    modifies a
    ensures a[..] == [old(a[c])] + old(a[..c]) + old(a[c + 1..])
  {
    ghost var ms := a[..];
    var cover := a[c];
    var j := c;
    while j > 0
      invariant 0 <= j <= c
      invariant forall k | 0 <= k < j :: a[k] == ms[k]
      invariant forall k | j < k <= c :: a[k] == ms[k - 1]
      invariant forall k | c < k < a.Length :: a[k] == ms[k]
    {
      a[j] := a[j - 1];
      j := j - 1;
    }
    a[0] := cover;
    ghost var want := [cover] + ms[..c] + ms[c + 1..];
    assert forall k | 0 <= k < a.Length :: a[k] == want[k];
  }

  /** The first index whose entry is a cover, with none before it, is the
      one `FirstCover` names. */
  lemma {:induction false} FirstCoverIs(ms: seq<Media>, c: nat)
    requires c <= |ms| && (c < |ms| ==> ms[c].isCover)
    requires forall i | 0 <= i < c :: !ms[i].isCover
    ensures FirstCover(ms) == c
  {
    if ms != [] && c > 0 {
      FirstCoverIs(ms[1..], c - 1);
    }
  }

  /** `cover-${prod?.id ?? 'temp'}`. */
  function SyntheticId(produkId: Option<int>): string
  {
    "cover-" + if produkId.Some? then IntToString(produkId.value) else "temp"
  }

  /** The largest index the lightbox may show: `(media.length || 1) - 1`. */
  function LastIndex(ms: seq<Media>): nat
  {
    if |ms| == 0 then 0 else |ms| - 1
  }

  function Min(a: int, b: int): int
  {
    if a < b then a else b
  }

  function Max(a: int, b: int): int
  {
    if a < b then b else a
  }

  class Gallery {
    var media: seq<Media>
    var activeIdx: int

    /** The index in view is a position of the list, or 0 when it is empty. */
    predicate InRange()
      reads this
    {
      0 <= activeIdx <= LastIndex(media)
    }

    constructor ()
      ensures media == [] && activeIdx == 0
      ensures InRange()
    {
      media := [];
      activeIdx := 0;
    }

    /** The media fetch: a non-array answer is ignored; a list is stored
        cover first, and the view returns to the first entry unless the list
        is empty. */
    method LoadMedia(fetched: Option<seq<Media>>)
      modifies this
      ensures fetched.None? ==> media == old(media) && activeIdx == old(activeIdx)
      ensures fetched.Some? ==> media == CoverFirst(fetched.value)
      ensures fetched.Some? && fetched.value != [] ==> activeIdx == 0
      ensures fetched.Some? && fetched.value == [] ==> activeIdx == old(activeIdx)
      ensures fetched.Some? && fetched.value != [] ==> InRange()
    {
      if fetched.None? {
        return;
      }
      var a := new Media[|fetched.value|](i requires 0 <= i < |fetched.value| => fetched.value[i]);
      assert a[..] == fetched.value;
      MoveCoverFirst(a);
      media := a[..];
      if a.Length > 0 {
        activeIdx := 0;
      }
    }

    /** The `cover_url` fallback: with a cover URL, an empty list becomes
        the single synthetic cover entry, a non-empty one is kept, and the
        view returns to the first entry. Without one nothing changes. */
    method ApplyCoverUrl(produkId: Option<int>, coverUrl: Option<string>)
      modifies this
      ensures !(coverUrl.Some? && coverUrl.value != []) ==> media == old(media) && activeIdx == old(activeIdx)
      ensures coverUrl.Some? && coverUrl.value != [] ==>
        && media == (if old(media) == [] then [Media(SyntheticId(produkId), coverUrl.value, true)] else old(media))
        && activeIdx == 0 && InRange()
    {
      if !(coverUrl.Some? && coverUrl.value != []) {
        return;
      }
      if media == [] {
        media := [Media(SyntheticId(produkId), coverUrl.value, true)];
      }
      activeIdx := 0;
    }

    /** The ArrowRight key: one step on, never past the last entry. */
    method ArrowRight()
      modifies this
      ensures media == old(media)
      ensures activeIdx == Min(LastIndex(media), old(activeIdx) + 1)
      ensures old(InRange()) ==> InRange()
    {
      activeIdx := Min(LastIndex(media), activeIdx + 1);
    }

    /** The ArrowLeft key and the Previous button: one step back, never
        below 0. */
    method Previous()
      modifies this
      ensures media == old(media)
      ensures activeIdx == Max(0, old(activeIdx) - 1)
      ensures old(InRange()) ==> InRange()
    {
      activeIdx := Max(0, activeIdx - 1);
    }

    /** The Next button, shown only for more than one entry. */
    method Next()
      requires |media| > 1
      modifies this
      ensures media == old(media)
      ensures activeIdx == Min(|media| - 1, old(activeIdx) + 1)
      ensures old(InRange()) ==> InRange()
    {
      activeIdx := Min(|media| - 1, activeIdx + 1);
    }

    /** A thumbnail click. */
    method Select(i: int)
      requires 0 <= i < |media|
      modifies this
      ensures media == old(media) && activeIdx == i && InRange()
    {
      activeIdx := i;
    }
  }

  /** Stepping on from the last entry stays there, and stepping back from
      the first stays there; elsewhere each moves by one. */
  lemma NavigationClamps(ms: seq<Media>, idx: int)
    requires 0 <= idx <= LastIndex(ms)
    ensures Min(LastIndex(ms), idx + 1) == (if idx == LastIndex(ms) then idx else idx + 1)
    ensures Max(0, idx - 1) == (if idx == 0 then 0 else idx - 1)
    ensures |ms| > 1 ==> Min(|ms| - 1, idx + 1) == Min(LastIndex(ms), idx + 1)
  {
  }
}
