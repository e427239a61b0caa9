/** The slug helper that the sitemap and the catalogue components each
    define for themselves (`app/sitemap.js`, `components/client/ListProduk.jsx`,
    `components/client/ListPernikahan.jsx`): `slugify` of `lib/slug.js`
    without its last step, so a '-' may remain at either end. */
module PageSlug {
  import opened Common
  import opened Slug

  /** Lower-case, keep `[a-z0-9]`, whitespace and '-', trim, turn whitespace
      runs into '-' and squeeze '-' runs. */
  function LooseSlugify(text: string): string
  {
    SqueezeDashes(SpacesToDash(Trim(KeepSlugChars(Lower(text)))))
  }

  /** The result holds only `[a-z0-9-]` and never two '-' in a row. */
  lemma {:induction false} LooseSlugChars(text: string)
    ensures AllSlugChars(LooseSlugify(text)) && NoDoubleDash(LooseSlugify(text))
  {
    var kept := KeepSlugChars(Lower(text));
    KeepSlugCharsOnly(Lower(text));
    TrimSlugOrSpace(kept);
    var spaced := SpacesToDash(Trim(kept));
    SpacesToDashSlugChars(Trim(kept));
    SqueezeDashesNoDouble(spaced);
    SqueezeDashesSlugChars(spaced);
  }

  /** The library's `slugify` is this one with one edge '-' removed on each
      side, so the two agree exactly when the loose slug has no edge '-'. */
  lemma {:induction false} LibrarySlugStripsEdges(text: string)
    ensures Slugify(text) == StripDashEdges(LooseSlugify(text))
    ensures var s := LooseSlugify(text);
      (s == [] || (s[0] != '-' && s[|s| - 1] != '-')) ==> Slugify(text) == s
  {
    var s := LooseSlugify(text);
    if s == [] || (s[0] != '-' && s[|s| - 1] != '-') {
      StripDashEdgesKeeps(s);
    }
  }

  /** A slug of `[a-z0-9-]` without doubled '-' is its own loose slug. */
  lemma {:induction false} LooseSlugifyFixes(s: string)
    requires AllSlugChars(s) && NoDoubleDash(s)
    ensures LooseSlugify(s) == s
  {
    SlugCharsFixed(s);
    KeepSlugCharsKeeps(s);
    TrimNoSpace(s);
    SpacesToDashKeeps(s);
    SqueezeDashesKeeps(s);
  }

  /** A leading '-' survives here, while the library drops it. */
  lemma {:induction false} EdgeHyphenKept(s: string)
    requires AllSlugChars(s) && NoDoubleDash(s)
    requires |s| >= 2 && s[0] == '-' && s[|s| - 1] != '-'
    ensures LooseSlugify(s) == s && Slugify(s) == s[1..]
  {
    LooseSlugifyFixes(s);
    LibrarySlugStripsEdges(s);
  }

  /** Applying the loose slug twice is applying it once. */
  lemma {:induction false} LooseSlugifyIdempotent(text: string)
    ensures LooseSlugify(LooseSlugify(text)) == LooseSlugify(text)
  {
    LooseSlugChars(text);
    LooseSlugifyFixes(LooseSlugify(text));
  }
}
