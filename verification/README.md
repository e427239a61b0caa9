# project-nareswari in Dafny

project-nareswari is the catalog site of a wedding and event organiser. It
is a Next.js application: API routes keep products, categories, benefits,
media, discounts, reviews, bookings and page views in SQLite, and client
components render and filter that catalog. This project models its core
and proves what the code promises about it.

- **Catalog store** (`store.dfy`). The SQLite tables become one `Db` object
  holding a map per table and an AUTOINCREMENT counter per table. Every SQL
  statement is a method on it, with the schema's foreign keys and
  `ON DELETE CASCADE` rules. A route's `db.transaction` is a sequence of
  those methods; a foreign-key failure is a 500 that leaves the store as it
  was.
- **Routes.** Each route file has its own module:
  - `produk.dfy`, `produk_names.dfy`: products, with category repair and creation, benefit ids and covers;
  - `benefit.dfy`: benefits and their categories;
  - `kategori_produk.dfy`: product categories;
  - `media.dfy`: media, including file names and content types;
  - `diskon.dfy`: discounts and their active window;
  - `reviews.dfy`: reviews and rating normalisation;
  - `booking.dfy`: bookings;
  - `track.dfy`: page views;
  - `login.dfy`: the login route's credential check;
  - `sitemap.dfy`: the sitemap.

  Handlers that write become methods whose postconditions give the response
  and the whole new state. Their pure parts become functions, with lemmas.
- **Libraries.**
  - `slug.js` (`slug.dfy`): `slugify`, the category aliases and slug resolution;
  - `auth.js` (`auth.dfy`): text sanitising, the constant-time compare, and session tokens;
  - the admin middleware (`middleware.dfy`).
- **Client components.**
  - the product list filters and sorts (`list_produk.dfy`, `page_slug.dfy`);
  - the wedding list (`list_pernikahan.dfy`);
  - the gallery and benefit grouping of the product page (`detail_gallery.dfy`, `benefit_groups.dfy`);
  - the statistics labels and counts (`statistik.dfy`);
  - the WhatsApp number list (`notifikasi.dfy`);
  - the two order forms (`order_form.dfy`, `order_page.dfy`);
  - the admin login page (`admin_page.dfy`);
  - the page-view tracker (`tracker.dfy`);
  - the in-view animation hook (`in_view.dfy`).

  Components that keep state become classes whose methods are their event handlers.
- **Shared definitions** (`common.dfy`): `Option`, the response type, JS
  numbers (NaN or a finite real), the JS whitespace set, trimming, ASCII
  case mapping, splitting and number formatting.

In some places the code does something its names or its schema do not
suggest. The model follows the code:

- Deleting a product deletes its media. The schema declares `media.produk_id`
  `ON DELETE CASCADE` (setup.js:159), so the media are not detached.
- `ensureCategoryId` throws on a blank category name, so the product route
  answers 500 and not 422.
- `ensureCoverMedia` keeps any existing cover row without checking that it
  still points at a media row of the product.
- `INSERT OR IGNORE INTO benefit` never ignores anything, because benefit
  text carries no uniqueness constraint: each call adds a row.
- A review PUT answers 404 only after it has run the update.
- A discount PUT does not check the percentage and amount ranges.
- A discount's `aktif` flag is set by POST and PUT from JavaScript times in
  milliseconds, and re-set on every GET by SQLite's `datetime`, which works
  in whole seconds. A bound inside the current second can therefore flip
  the flag (`DiskonRoute.SameSecondResyncDiffers`).
- A `SELECT … LIMIT 1` without `ORDER BY` answers the first row of the scan
  SQLite chooses. When the query reads only columns of an index and no
  index helps its WHERE clause, SQLite scans that smaller covering index:
  `SELECT id FROM kategori_benefit LIMIT 1` reads the index on
  `nama_kategori`, so the default benefit category is the name that sorts
  first (on the seeds, id 2, `Dekorasi & Perlengkapan`), and the
  get-or-create lookup of the category route reads the index on
  (`nama_kategori`, `sub_kategori`), so it answers the first match in that
  order (`Store.FirstInOrder`). The code lookup of the product route reads a
  column no index holds and scans the table, so it answers the lowest id
  (`Store.FirstKey`); the same holds for lookups on an equal key, whose
  index entries tie and follow the rowid. The duplicate check of the
  category PUT only asks whether a row exists.
- The client-side check does not trim `tanggal` before testing it, while the
  server does; `OrderForm.ServerAgrees` relates the two.
- `formatTitleFromSlug` in the product list is the same function as
  `titleFromSlug` of the slug library.
- The benefit grouping of components/produk/DetailProduk.jsx:45-83 is the
  one of components/client/DetailProduk.jsx:90-122, so one model serves both.

## Model

| member | source | states |
|---|---|---|
| Common.NameSubLeTotal | app/api/kategori-produk/route.js:69 | `ORDER BY nama_kategori, sub_kategori` orders any two rows one way or the other: by name in SQLite's BINARY text order, then by sub-category with NULL first |
| Common.NameSubLeTransitive | app/api/kategori-produk/route.js:69 | that order is transitive |
| Common.TextLeAntisymmetric | setup.js:198 | two texts each ordered before the other are equal, so the BINARY order ties only equal names |
| Common.Trim | app/api/booking/route.js:25-29 | trimming removes only whitespace at either end and leaves text that neither starts nor ends with whitespace; the result is empty exactly when the text was all whitespace |
| Common.TrimOfTrimmed | lib/auth.js:132 | text that neither starts nor ends with whitespace is its own trim |
| Common.Lower | app/api/auth/login/route.js:12 | lower-casing keeps the length and maps every character to its lower-case form |
| Common.Upper | app/api/produk/route.js:10 | upper-casing keeps the length and maps every character to its upper-case form |
| Common.IsEmailMatchesPattern | app/api/booking/route.js:33 | the e-mail check accepts exactly the strings `^[^\s@]+@[^\s@]+\.[^\s@]+$` matches |
| Common.Split | lib/auth.js:96 | splitting on a character gives at least one part, none holding the separator, and joining the parts gives the text back |
| Common.SplitJoin | lib/auth.js:96 | joining separator-free parts and splitting again gives the parts back |
| Common.NonEmpty | app/api/produk/route.js:6 | `filter(Boolean)` on strings keeps exactly the non-empty ones, and a list without empty strings is kept whole |
| Common.Filter | components/client/ListPernikahan.jsx:31 | filtering keeps exactly the elements that pass |
| Common.FilterSnoc | components/client/ListPernikahan.jsx:31 | filtering keeps the order of the elements |
| Common.FirstIndex | components/client/DetailProduk.jsx:55 | `findIndex` answers the first index whose element passes, or the length when none does |
| Common.IntToString | components/microproses/Tracker.jsx:20 | `String(n)` is never empty |
| Common.NatToString | components/microproses/Tracker.jsx:20 | a natural number prints as decimal digits without a leading zero |
| Common.NatToStringRoundTrip | components/microproses/Tracker.jsx:15-20 | reading back the digits `String(n)` prints gives `n` |
| Common.Utf8 | app/api/media/route.js:40 | a character takes one to four bytes, and exactly one when it is ASCII |
| Common.EncodeUriComponent | app/api/media/route.js:40 | unreserved characters are kept and every other becomes `%XX` escapes, so the result holds only unreserved characters, `%` and upper-case hex digits |
| Common.JsLength | app/api/auth/login/route.js:18-22 | `.length` counts UTF-16 code units: one per character of the Basic Multilingual Plane and two per character outside it, so between the number of characters and twice it |
| Slug.KeepSlugCharsOnly | lib/slug.js:5 | after dropping every character outside `[a-z0-9\s-]` only slug characters and whitespace remain |
| Slug.KeepSlugCharsKeeps | lib/slug.js:5 | a string already inside that alphabet is left as it is |
| Slug.SpacesToDashNoSpace | lib/slug.js:7 | replacing each whitespace run by `-` leaves no whitespace |
| Slug.SqueezeDashesNoDouble | lib/slug.js:8 | after `-+` becomes `-` no two `-` are adjacent, and the result starts with `-` exactly when the input did |
| Slug.StripDashEdgesFacts | lib/slug.js:9 | removing one edge `-` on each side of a string without `--` leaves no `-` at either end |
| Slug.SlugifyIsSlug | lib/slug.js:1-10 | every `slugify` output is a slug: only `[a-z0-9-]`, no `--`, no `-` at either end |
| Slug.SlugifySlug | lib/slug.js:1-10 | a slug is its own `slugify` |
| Slug.SlugifyIdempotent | lib/slug.js:1-10 | `slugify(slugify(t)) == slugify(t)` for every text |
| Slug.SlugifyWords | lib/slug.js:1-10 | ASCII words joined by single spaces become the lower-cased words joined by `-` |
| Slug.SlugFromCode | lib/slug.js:12-16 | `slugFromCode` always gives a slug, and a blank code gives `""` |
| Slug.SlugFromUnderscoredCode | lib/slug.js:12-16 | a code of words joined by `_` (such as `WEDDING_VENUE`) gives the lower-cased words joined by `-` |
| Slug.Capitalize | lib/slug.js:78 | upper-casing the first character keeps the length of the part |
| Slug.CapitalizeLowWord | lib/slug.js:78 | a capitalised lower-case word lowers back to itself |
| Slug.SlugifyTitle | lib/slug.js:74-80 | round trip: `slugify(titleFromSlug(s)) == s` for every slug `s` |
| Slug.CanonicalSlug | lib/slug.js:18-28 | the canonical slug of any category is a slug |
| Slug.CanonicalSlugCases | lib/slug.js:18-28 | the code's slug wins when non-empty; otherwise the slug of name and sub joined by a space, or of whichever of them is non-empty |
| Slug.AliasesAreSlugs | lib/slug.js:30-52 | every alias of a category is a non-empty slug |
| Slug.AliasesHold | lib/slug.js:30-52 | the non-empty canonical slug is an alias, the combined name-sub slug is one exactly when name and sub are both present, and nothing else is added |
| Slug.AddAlias | lib/slug.js:33 | `if (s) aliases.add(s)`: the set gains `s` exactly when `s` is non-empty |
| Slug.CollectCategoryAliases | lib/slug.js:30-52 | adding the candidates one by one builds exactly the alias set of the category |
| Slug.MatchesCanonical | lib/slug.js:67-72 | a category matches its own non-empty canonical slug |
| Slug.MatchesSlugified | lib/slug.js:67-72 | matching `slug` and matching `slugify(slug)` are the same |
| Slug.FirstCanonical | lib/slug.js:57-63 | the canonical slug found by the loop, when there is one, is a non-empty slug |
| Slug.ResolvedSlug | lib/slug.js:54-65 | the resolved slug is a slug, and it is empty exactly when the input slugifies to `""` |
| Slug.ResolveCanonicalCategorySlug | lib/slug.js:54-65 | the loop with its early returns answers the resolved slug |
| Slug.FirstCanonicalAt | lib/slug.js:57-63 | the first category whose aliases hold the target and whose canonical slug is non-empty decides the answer |
| Slug.ResolveFirstMatch | lib/slug.js:54-65 | when category `i` is the first that matches the input with a non-empty canonical slug, the answer is its canonical slug |
| Slug.ResolveNoMatch | lib/slug.js:54-65 | when no category matches, the answer is the input's own slug |
| PageSlug.LooseSlugChars | components/client/ListProduk.jsx:22-29 | the page-local `slugify` gives only `[a-z0-9-]`, never with `--` |
| PageSlug.LibrarySlugStripsEdges | components/client/ListProduk.jsx:22-29 | the library `slugify` is the page-local one with one edge `-` removed on each side, so the two agree when no `-` sits at an edge |
| PageSlug.LooseSlugifyFixes | components/client/ListProduk.jsx:22-29 | a string of `[a-z0-9-]` without `--` is its own page-local slug |
| PageSlug.EdgeHyphenKept | components/client/ListProduk.jsx:22-29 | a leading `-` survives the page-local `slugify` while the library drops it |
| PageSlug.LooseSlugifyIdempotent | components/client/ListProduk.jsx:22-29 | the page-local `slugify` is idempotent |
| ListProduk.ByCategory | components/client/ListProduk.jsx:60-66 | a product is kept exactly when it has some category slug (no category given) or its category slug, or non-empty sub-category slug, equals the page's |
| ListProduk.Offers | components/client/ListProduk.jsx:84-86 | each product offers the slug of its sub-category (else category) with its label |
| ListProduk.FirstWith | components/client/ListProduk.jsx:88 | the index found is the first offer of the value, or the length when none |
| ListProduk.ChoicesFirstLabel | components/client/ListProduk.jsx:81-91 | each non-empty value is offered with the label of its first offer, and no other value is offered |
| ListProduk.ChoicesDistinct | components/client/ListProduk.jsx:81-91 | no value is offered twice |
| ListProduk.SubcategoryOptions | components/client/ListProduk.jsx:81-91 | the loop with its `Map` builds the first-seen choices |
| ListProduk.Has | components/client/ListProduk.jsx:88 | `map.has(value)` answers whether the value is already a choice |
| ListProduk.Filtered | components/client/ListProduk.jsx:97-115 | a product is listed exactly when it passes the search, sub-category and price tests |
| ListProduk.PassingRespectsBounds | components/client/ListProduk.jsx:107-113 | a listed product has a price on the right side of each finite bound |
| ListProduk.SortByPrice | components/client/ListProduk.jsx:117-122 | sorting in place orders by the price (0 when missing or zero), ascending or descending, and permutes the products |
| ListProduk.InsertLast | components/client/ListProduk.jsx:117-122 | one insertion step extends the sorted prefix and permutes the array |
| ListProduk.Swap | components/client/ListProduk.jsx:117-122 | exchanging two neighbours changes nothing else |
| ListProduk.FilteredProducts | components/client/ListProduk.jsx:93-127 | the result is a permutation of the passing products, sorted for the two price orders and in list order otherwise |
| ListProduk.BlankSearchStillFilters | components/client/ListProduk.jsx:143-149 | a search of one space reports no active filter yet hides a product whose name has no space |
| ListProduk.PackageOf | components/client/ListProduk.jsx:130-139 | every card links to `/<slug>/<slug>`, has a non-empty title and the product's id |
| ListProduk.PackageHref | components/client/ListProduk.jsx:133-137 | every card links to `/` + the page-local slug of its category source + `/` + the slug of its name source |
| ListProduk.PackageLinksSlugs | components/client/ListProduk.jsx:133-134 | a card whose category source (item category, else page slug, else `produk`) and name source (name, else title, else `paket`) are already slugs links to exactly `/<category>/<name>` |
| ListProduk.CategoryFallback | components/client/ListProduk.jsx:133 | with no item category and no page slug the category part of the link is `produk` |
| ListProduk.NameFallback | components/client/ListProduk.jsx:134 | with no name and no title the product part of the link is `paket` |
| ListProduk.FallbackSlug | components/client/ListProduk.jsx:133-134 | the fallback words `produk` and `paket` are their own slugs |
| ListProduk.Packages | components/client/ListProduk.jsx:129-141 | one card per listed product, in order |
| ListPernikahan.Pernikahan | components/client/ListPernikahan.jsx:30-32 | a non-array answer lists nothing; otherwise exactly the fetched products whose category lower-cases to `pernikahan` are kept |
| ListPernikahan.CardShape | components/client/ListPernikahan.jsx:35-42 | a card keeps the id, is titled by the name or `Paket`, lists the benefits or nothing, and links to `/` and a page-local slug |
| ListPernikahan.CardLink | components/client/ListPernikahan.jsx:41 | the link is `/` and the page-local slug of the name (or title); a name that is already a slug links to exactly `/<name>` |
| ListPernikahan.Cards | components/client/ListPernikahan.jsx:36-42 | one card per kept product, in order |
| ListPernikahan.CardsInFetchedOrder | components/client/ListPernikahan.jsx:30-42 | a later wedding product adds its card at the end, and a product of another category adds none |
| DetailGallery.FirstCover | components/client/DetailProduk.jsx:55 | `findIndex` gives the first cover entry, or none |
| DetailGallery.CoverFirstPermutes | components/client/DetailProduk.jsx:54-59 | the cover-first reordering keeps every entry |
| DetailGallery.CoverFirstLeads | components/client/DetailProduk.jsx:54-59 | with a cover, the first cover leads and the other entries follow in their old order |
| DetailGallery.CoverFirstWithoutCover | components/client/DetailProduk.jsx:56 | without a cover nothing moves |
| DetailGallery.CoverFirstIdempotent | components/client/DetailProduk.jsx:54-59 | reordering twice is reordering once |
| DetailGallery.MoveCoverFirst | components/client/DetailProduk.jsx:55-59 | the splice and unshift on the array leave it cover first |
| DetailGallery.Unshift | components/client/DetailProduk.jsx:57-58 | moving entry `c` to the front shifts the entries before it up by one and keeps the rest |
| DetailGallery.FirstCoverIs | components/client/DetailProduk.jsx:55 | an index with a cover and none before it is the one `findIndex` finds |
| DetailGallery.Gallery.constructor | components/client/DetailProduk.jsx:26-29 | the gallery starts empty at index 0 |
| DetailGallery.Gallery.LoadMedia | components/client/DetailProduk.jsx:47-66 | a non-array answer changes nothing; a list is stored cover first and a non-empty one resets the view to the first entry |
| DetailGallery.Gallery.ApplyCoverUrl | components/client/DetailProduk.jsx:68-75 | with a cover URL an empty gallery becomes the single synthetic cover entry, a non-empty one is kept, and the view resets to 0 |
| DetailGallery.Gallery.ArrowRight | components/client/DetailProduk.jsx:342 | one step on, never past the last entry (0 for an empty gallery) |
| DetailGallery.Gallery.Previous | components/client/DetailProduk.jsx:343 | one step back, never below 0 |
| DetailGallery.Gallery.Next | components/client/DetailProduk.jsx:385 | one step on, never past the last entry |
| DetailGallery.Gallery.Select | components/client/DetailProduk.jsx:365 | a thumbnail click shows that entry |
| DetailGallery.NavigationClamps | components/client/DetailProduk.jsx:342-385 | stepping on from the last entry or back from the first stays put, and the Next button agrees with the arrow key |
| BenefitGroups.FindById | components/client/DetailProduk.jsx:96 | `find` by id gives the first listed benefit with that id, or none when no benefit has it |
| BenefitGroups.FindByText | components/client/DetailProduk.jsx:107 | `find` by text gives the first listed benefit with that text (texts are not unique), or none when no benefit has it |
| BenefitGroups.GetObjLookups | components/client/DetailProduk.jsx:90-111 | a text or number that is not found stands for itself under `Lainnya`, a found one gives the listed benefit, and a falsy entry gives nothing |
| BenefitGroups.PairOf | components/client/DetailProduk.jsx:114-116 | an entry contributes a pair only with a non-empty text and category |
| BenefitGroups.Add | components/client/DetailProduk.jsx:117-118 | adding a pair adds at most one group |
| BenefitGroups.AddItems | components/client/DetailProduk.jsx:117-118 | after adding, a text is under a category exactly when it was before or is the added pair |
| BenefitGroups.GroupedMembers | components/client/DetailProduk.jsx:113-122 | a text is listed under a category exactly when some entry resolved to that text in that category |
| BenefitGroups.AddShape | components/client/DetailProduk.jsx:117 | existing categories keep their places; a new one is appended with its first text |
| BenefitGroups.AddToGroup | components/client/DetailProduk.jsx:118 | the group of an existing category gains the text once, and only when it is new (`Set.add`) |
| BenefitGroups.AddKeepsWellFormed | components/client/DetailProduk.jsx:117-118 | adding keeps categories distinct and each group's texts distinct |
| BenefitGroups.GroupedWellFormed | components/client/DetailProduk.jsx:113-122 | the groups always have distinct categories and distinct texts |
| BenefitGroups.FirstAt | components/client/DetailProduk.jsx:122 | the index found is an entry of that category, or the length when none |
| BenefitGroups.GroupsInFirstSeenOrder | components/client/DetailProduk.jsx:121-122 | groups come in the order their category was first met (the `Map`'s insertion order) |
| BenefitGroups.GroupedSnoc | components/client/DetailProduk.jsx:113-119 | one more entry is one more `Add` on the groups so far |
| BenefitGroups.GroupBenefits | components/client/DetailProduk.jsx:85-123 | the loop, with its early return for no entries, builds the grouping of the resolved pairs |
| Statistik.SegmentsOfJoin | components/admin/Statistik.jsx:114 | splitting `/a/b/...` on `/` and dropping empty parts gives back the segments |
| Statistik.SegmentsTrailing | components/admin/Statistik.jsx:114 | a trailing `/` adds no segment |
| Statistik.PathLabelOfAbsolute | components/admin/Statistik.jsx:109-119 | a trimmed absolute path other than `/` is labelled `layanan-<segment>` for one segment and by its segments joined with `/` otherwise |
| Statistik.PathLabelOfSegments | components/admin/Statistik.jsx:114-118 | a path of two or more segments is labelled without its leading `/` |
| Statistik.PathLabelOfOneSegment | components/admin/Statistik.jsx:115-117 | a one-segment path, with or without a trailing `/`, is labelled `layanan-` and the segment |
| Statistik.JoinEdges | components/admin/Statistik.jsx:118 | a join of segments is non-empty and does not end in whitespace |
| Statistik.PathLabelEdges | components/admin/Statistik.jsx:110-113 | a missing or empty path is `-`, a blank path or `/` is `landing-page`, and a path not starting with `/` is shown trimmed |
| Statistik.ZeroYearsAgo | components/admin/Statistik.jsx:93-96 | the code as written labels a visit 360 to 364 days old `0 tahun lalu` |
| Statistik.TimeAgoBands | components/admin/Statistik.jsx:83-96 | each label holds exactly on its band of milliseconds (future, under a minute, minutes, hours, days, under 5 weeks, under 12 months of 30 days, years) and shows the whole number of units |
| Statistik.TimeAgoCountPositive | components/admin/Statistik.jsx:84-96 | with years counted from 360 days, every count shown is at least one |
| Statistik.TotalViewsAppend | components/admin/Statistik.jsx:218-221 | the total of two lists is the sum of their totals; a value that is not a number adds 0 |
| Statistik.TotalViewsBound | components/admin/Statistik.jsx:218-221 | with no negative counts, the total is at least every single count |
| Statistik.TotalViewsNonNegative | components/admin/Statistik.jsx:218-221 | with no negative counts, the total is not negative |
| Statistik.Sources | components/admin/Statistik.jsx:226-231 | a source is counted exactly when some row has it as its host name, or as its address when the host name is empty |
| Statistik.SourcesBound | components/admin/Statistik.jsx:226-233 | there are never more sources than rows |
| Statistik.UniqueSources | components/admin/Statistik.jsx:226-233 | the loop into a `Set` counts the sources |
| Statistik.Bump | components/admin/Statistik.jsx:244 | counting one more occurrence adds at most one entry |
| Statistik.BumpCount | components/admin/Statistik.jsx:244 | one more occurrence raises that key's count by one and leaves the others |
| Statistik.TallyCounts | components/admin/Statistik.jsx:238-245 | each language's count is the number of rows with that trimmed, lower-cased language |
| Statistik.BumpLangs | components/admin/Statistik.jsx:244 | after counting `k`, the languages present are the old ones and `k` |
| Statistik.TallyDistinct | components/admin/Statistik.jsx:238-245 | no language has two entries |
| Statistik.CountLanguages | components/admin/Statistik.jsx:239-245 | the `forEach` into the `Map` builds the tally of the rows' languages |
| Statistik.TallySnoc | components/admin/Statistik.jsx:240-245 | one more row is one more count |
| Statistik.InsertDesc | components/admin/Statistik.jsx:247 | inserting keeps every entry and adds the new one |
| Statistik.SortDesc | components/admin/Statistik.jsx:247 | sorting keeps every entry |
| Statistik.InsertDescSorted | components/admin/Statistik.jsx:247 | inserting into a list ordered by count, largest first, keeps it ordered |
| Statistik.SortDescSorted | components/admin/Statistik.jsx:247 | the sorted entries are ordered by count, largest first |
| Statistik.TopLanguagesOrdered | components/admin/Statistik.jsx:238-249 | at most five languages are listed, largest count first |
| Statistik.TopLanguagesCounts | components/admin/Statistik.jsx:238-249 | each listed language comes with the number of rows in that language |
| Statistik.TopLanguagesLeftOut | components/admin/Statistik.jsx:238-249 | a language that occurs but is not listed means five are listed and it occurs no more often than the fifth |
| Statistik.Take | components/admin/Statistik.jsx:208-216 | `slice(0, n)` is a prefix of at most `n` entries, exactly `n` when there are enough |
| Statistik.RecentShown | components/admin/Statistik.jsx:203-216 | the table shows at most 10 rows: a prefix of the searched listing while a query is set (nothing when it is missing), else of the recent rows |
| NotifikasiNomor.SearchFrom | components/admin/NotifikasiNomor.jsx:10 | the first occurrence of `@c.us` at or after an index, or none |
| NotifikasiNomor.SuffixFoundAt | components/admin/NotifikasiNomor.jsx:9-10 | with no `@` before `@c.us` at index `n`, the search finds `n` |
| NotifikasiNomor.DisplayNumber | components/admin/NotifikasiNomor.jsx:8-15 | a chat id without `@c.us` is shown as it is |
| NotifikasiNomor.KeepDigits | components/admin/NotifikasiNomor.jsx:19 | removing non-digits leaves only digits and keeps a string of digits |
| NotifikasiNomor.WhatsappNumberShape | components/admin/NotifikasiNomor.jsx:17-29 | a non-empty entry becomes `62`, digits only, then `@c.us`; an empty one becomes `""` |
| NotifikasiNomor.ToWhatsappNumber | components/admin/NotifikasiNomor.jsx:17-29 | the reassignments of `num` compute the chat id |
| NotifikasiNomor.DisplayOfMobile | components/admin/NotifikasiNomor.jsx:8-15 | `628...@c.us` with no other `@` is shown with `0` in place of `62` |
| NotifikasiNomor.DisplayOfWhatsapp | components/admin/NotifikasiNomor.jsx:8-29 | round trip: a local mobile number of digits written `08...` comes back unchanged from its chat id |
| NotifikasiNomor.DisplayNumberKeepsOthers | components/admin/NotifikasiNomor.jsx:8-15 | a chat id `62<digits>@c.us` whose digits do not start with 8 is shown as `62<digits>` |
| NotifikasiNomor.Without | components/admin/NotifikasiNomor.jsx:78 | the filter keeps exactly the other numbers |
| NotifikasiNomor.NumberList.constructor | components/admin/NotifikasiNomor.jsx:32-48 | the list starts with the loaded numbers, an empty entry and the dialog closed |
| NotifikasiNomor.NumberList.Add | components/admin/NotifikasiNomor.jsx:56-75 | a blank entry, a chat id outside 15 to 20 characters or one already listed is refused with nothing changed; otherwise the chat id is appended, the entry cleared and the dialog closed |
| NotifikasiNomor.NumberList.Remove | components/admin/NotifikasiNomor.jsx:77-81 | every copy of the number goes and the rest stay in order |
| NotifikasiNomor.EditsKeepDistinct | components/admin/NotifikasiNomor.jsx:66-78 | adding a number not yet listed and removing one both keep the list free of duplicates |
| NotifikasiNomor.AddedLength | components/admin/NotifikasiNomor.jsx:62 | an accepted chat id holds 8 to 13 digits after the country code |
| OrderForm.FormatDateISO | components/client/OrderForm.jsx:26-32 | a missing or invalid date gives `""` and a date never does |
| OrderForm.Pad2Reads | components/client/OrderForm.jsx:29-30 | `padStart(2, '0')` of a month or day gives two digits that read back as the number |
| OrderForm.FormatDateISOReadsBack | components/client/OrderForm.jsx:26-32 | round trip: splitting the text at `-` gives the year, a two-digit month and a two-digit day, each with its value |
| OrderForm.Validate | components/client/OrderForm.jsx:112-120 | filling the errors one check at a time, the format check overwriting the missing-e-mail message, gives the form's errors |
| OrderForm.EmptyIsNoEmail | components/client/OrderForm.jsx:115-116 | a blank e-mail never matches the pattern, so its "missing" message is always replaced by the format message |
| OrderForm.FormPassesExactly | components/client/OrderForm.jsx:112-120 | a form passes exactly when name and telephone are not blank, the trimmed e-mail matches the pattern and a date is chosen |
| OrderForm.ServerAgrees | components/client/OrderForm.jsx:130-137 | a form that passes is accepted by the booking route exactly when its date is not all whitespace |
| OrderForm.SentTrimmed | app/api/booking/route.js:25-29 | the route reads a sent field as its trim |
| OrderForm.BookingForm.constructor | components/client/OrderForm.jsx:34-40 | the form starts empty with no errors, nothing submitted and no dialog |
| OrderForm.BookingForm.Submit | components/client/OrderForm.jsx:122-170 | a form with errors only shows them; otherwise a stored booking opens the success dialog and a refusal sets the `submit` error; the form is kept and submitting ends |
| OrderForm.BookingForm.Send | components/client/OrderForm.jsx:128-170 | the reply either records the booking and opens the dialog or replaces the errors by the `submit` error |
| OrderForm.BookingForm.Reset | components/client/OrderForm.jsx:233-238 | the form, the submitted booking, the errors and the dialog return to their start |
| OrderPage.Page.constructor | app/order/page.js:13-35 | the page starts with the empty form, nothing submitted and no errors |
| OrderPage.Page.Change | app/order/page.js:43-46 | a change sets the named field and nothing else |
| OrderPage.Page.Submit | app/order/page.js:58-64 | the errors are shown, and the form is recorded as submitted only when there are none |
| OrderPage.Page.Reset | app/order/page.js:70-74 | the form, the submitted data and the errors return to their start |
| AdminPage.DropAngles | app/admin/page.js:12 | the result has neither bracket, keeps only characters of the input, and leaves a string without brackets as it is |
| AdminPage.DropAnglesFilters | app/admin/page.js:12 | exactly the characters other than `<` and `>` are kept, in their order |
| AdminPage.CollapseSpaces | app/admin/page.js:13 | every run of two or more whitespace characters becomes one space: no two whitespace characters remain adjacent and nothing but spaces is added |
| AdminPage.CollapseSpacesAppend | app/admin/page.js:13 | runs do not cross a non-whitespace character: text ending in one is collapsed on its own and the rest follows unchanged in place |
| AdminPage.CollapseSpacesRun | app/admin/page.js:13 | a run of two or more whitespace characters, followed by the end or a non-whitespace character, becomes exactly one space |
| AdminPage.CollapseSpacesKeeps | app/admin/page.js:13 | a string without adjacent whitespace is left as it is |
| AdminPage.TrimKeepsClean | app/admin/page.js:14 | trimming keeps the absence of angle brackets and of adjacent whitespace |
| AdminPage.SanitizedInputIsClean | app/admin/page.js:10-14 | the cleaned input has no angle bracket, no adjacent whitespace and no whitespace at either end |
| AdminPage.SanitizeClientInputIdempotent | app/admin/page.js:10-14 | cleaning twice is cleaning once |
| AdminPage.LowerKeepsAngleFree | app/admin/page.js:33 | lower-casing adds no angle bracket and leaves no upper-case letter |
| AdminPage.HandleSubmit | app/admin/page.js:33-39 | the submission stops with the missing-fields error exactly when the cleaned, lower-cased username or the trimmed password is empty |
| AdminPage.HandleSubmitSendsClean | app/admin/page.js:33-46 | what is sent is a non-empty lower-case username without angle brackets and the password with only its surrounding whitespace removed |
| AdminPage.AfterReply | app/admin/page.js:50-59 | it navigates exactly on a successful reply, to the dashboard when no redirect is given; any failure shows a non-empty message |
| AdminPage.InitialStatus | app/admin/page.js:22-25 | the session-ended notice shows exactly when a truthy `redirectTo` is present |
| Auth.SafeCompare | lib/auth.js:57-64 | the comparison answers true exactly when the two strings have the same length and agree at every position, reading every position whatever it finds |
| Auth.CreateSession | lib/auth.js:85-92 | the session expires four hours after it is issued and its token is the encoded payload, a dot and the signature of that encoded payload |
| Auth.VerifySession | lib/auth.js:94-106 | the token check, comparing signatures position by position, accepts and returns exactly what the specification of session verification does |
| Auth.JoinStartsWith | lib/auth.js:91 | a token built by joining parts starts with its first part |
| Auth.SplitPrefix | lib/auth.js:96 | the first two pieces of a split token, with the dot between them, start the token |
| Auth.SplitTwo | lib/auth.js:96 | splitting `encoded.signature` on the dot gives back the two halves when neither holds a dot |
| Auth.CreatedSessionVerifies | lib/auth.js:85-106 | a token created by the session issuer verifies, until it expires, to the payload it was created with |
| Auth.ExpiredSessionRefused | lib/auth.js:104 | once the expiry time has passed the same token is refused |
| Auth.VerifiedMeansSigned | lib/auth.js:94-106 | an accepted token starts with a non-empty encoded part, a dot and that part's signature; the returned payload is what the part decodes to and has not expired |
| Auth.MalformedTokenRefused | lib/auth.js:95-97 | an absent or empty token, one without a dot, or one with an empty encoded part is refused |
| Auth.TagLength | lib/auth.js:130 | a tag-like fragment reaches through the first `>`, or to the end of the text when there is none |
| Auth.StripTags | lib/auth.js:130 | the result holds no `<` and is no longer than the input; text without `<` is left as it is |
| Auth.StripTagsKeepsPlain | lib/auth.js:130 | text before the first `<` is kept as it is, followed by the cleaned rest |
| Auth.StripTagsDropsFragment | lib/auth.js:130 | a `<` fragment goes through its first `>`, and an unclosed `<` takes the rest of the text with it |
| Auth.DropScriptChars | lib/auth.js:131 | the result holds no quote, backtick, semicolon, parenthesis or brace and only characters of the input; text without them is left as it is |
| Auth.DropScriptCharsFilters | lib/auth.js:131 | exactly the characters that are not script characters are kept, in their order |
| Auth.SanitizedTextIsClean | lib/auth.js:128-133 | sanitized text holds no `<`, no removed punctuation and no whitespace at either end |
| Auth.SanitizeTextIdempotent | lib/auth.js:128-133 | sanitizing twice is sanitizing once |
| Auth.KeepUsernameChars | lib/auth.js:136 | only letters, digits and `@`, `.`, `_`, `-` remain; a string of those alone is left as it is |
| Auth.KeepUsernameCharsFilters | lib/auth.js:136 | exactly the username characters are kept, in their order |
| Auth.SanitizeUsername | lib/auth.js:135-137 | a sanitized username consists only of username characters |
| Auth.UsernameCharsSanitized | lib/auth.js:128-136 | a string of username characters passes text sanitizing unchanged |
| Auth.SanitizeUsernameIdempotent | lib/auth.js:135-137 | sanitizing a username twice is sanitizing it once |
| LoginRoute.ValidateCredentials | app/api/auth/login/route.js:11-27 | an accepted username is a lower-case login name of at least three characters and an accepted password has at least eight UTF-16 code units (`.length`) and no angle bracket; every rejection carries the same message |
| LoginRoute.AcceptedExactly | app/api/auth/login/route.js:11-27 | the pair is accepted exactly when the sanitized, lower-cased username has at least three characters and the trimmed password at least eight UTF-16 code units and no angle bracket, and the accepted pair is those two values |
| LoginRoute.LoginNameLength | app/api/auth/login/route.js:18 | a login name is ASCII, so its `.length` is its number of characters |
| LoginRoute.AstralPasswordAccepted | app/api/auth/login/route.js:22 | a password of four emoji is eight code units long and is accepted |
| LoginRoute.LowerUsernameChars | app/api/auth/login/route.js:12 | lower-casing a string of username characters gives a login name |
| LoginRoute.LowerOfLoginName | app/api/auth/login/route.js:12 | a login name is its own lower-case form |
| LoginRoute.LoginNameStable | app/api/auth/login/route.js:12 | a login name passes the username cleaning unchanged |
| LoginRoute.PasswordStable | app/api/auth/login/route.js:13 | reading an already read password changes nothing |
| LoginRoute.ValidationIdempotent | app/api/auth/login/route.js:11-27 | validating an accepted pair again accepts the same pair |
| LoginRoute.Login | app/api/auth/login/route.js:29-72 | a success is a 200 whose session expires four hours after the request; every failure is a 400, 401 or 500 |
| LoginRoute.RejectedBeforeDatabase | app/api/auth/login/route.js:37-41 | invalid credentials are answered with 400 whatever the users table holds |
| LoginRoute.LoginSucceedsOnlyForMatch | app/api/auth/login/route.js:43-67 | a session is issued only for valid credentials naming an existing user whose stored hash matches the password, and the session carries that user |
| AuthMiddleware.ProtectedPrefix | middleware/auth.js:5 | only `/dashboard-admin` and the pages below it are protected; look-alikes such as `/dashboard-administrator` are not |
| AuthMiddleware.Decide | middleware/auth.js:7-25 | unprotected paths pass; a protected path redirects to the login page exactly when the session cookie does not verify, carrying the path as `redirectTo` unless it is the dashboard root |
| AuthMiddleware.FreshSessionPasses | middleware/auth.js:14-24 | the cookie of a freshly created session opens every page until the session expires |
| TrackRoute.IpFromHeaders | app/api/track/route.js:4-8 | a non-empty `x-forwarded-for` gives one comma-free entry; otherwise `x-real-ip`, then `req.ip`, then nothing |
| TrackRoute.SingleForwardedEntry | app/api/track/route.js:6 | with a single forwarded entry the address is that entry, trimmed |
| TrackRoute.ClientIp | app/api/track/route.js:34 | a non-empty address from the headers wins over the body's; the stored address is never empty |
| TrackRoute.Normalized | app/api/track/route.js:16 | the normalized path is the part before the first `?`, and the whole path when there is none |
| TrackRoute.ExcludedRoots | app/api/track/route.js:19-26 | `/admin`, `/dashboard-admin` and `/order` are not tracked |
| TrackRoute.NormalizedKeepsPrefix | app/api/track/route.js:16 | cutting at the first `?` keeps any prefix without a `?` |
| TrackRoute.PagesBelowExcluded | app/api/track/route.js:19-26 | no page below an excluded root is tracked, whatever follows |
| TrackRoute.LookAlikesTracked | app/api/track/route.js:19-26 | a path that only starts like an excluded root, such as `/administrator` or `/orders`, is tracked |
| TrackRoute.NotAtOrUnder | app/api/track/route.js:19-26 | a path continuing a root with something other than `/` is at or under none of the three roots |
| TrackRoute.QueryIgnored | app/api/track/route.js:16-26 | a query string never changes whether a path is tracked |
| TrackRoute.PageViews.constructor | app/api/track/route.js:36-39 | the page-view table starts empty |
| TrackRoute.ViewOf | app/api/track/route.js:14 | the stored path is the path as sent, query string included |
| TrackRoute.Post | app/api/track/route.js:10-41 | an excluded path is answered with 204 and nothing is stored; any other appends exactly one row and is answered with 201 |
| TrackRoute.NewestFirst | app/api/track/route.js:55 | the rows in reverse insertion order, none lost |
| TrackRoute.Take | app/api/track/route.js:55 | a limit keeps a prefix of at most that many rows |
| TrackRoute.WithPath | app/api/track/route.js:69 | the rows whose path is exactly the query, every such row and no other |
| TrackRoute.Recent | app/api/track/route.js:55 | the recent listing is the 100 newest rows, newest first, or all rows when there are fewer |
| TrackRoute.ListFor | app/api/track/route.js:67-70 | without `q` there is no list; with it the 500 newest rows whose path is exactly `q`, newest first (all of them when fewer match) |
| TrackRoute.NewestFirstSnoc | app/api/track/route.js:55 | a row appended last is listed first |
| TrackRoute.WithPathNewestFirst | app/api/track/route.js:69 | keeping the rows with path `q` and putting rows newest first commute: the matches come out newest first |
| TrackRoute.ListHoldsAllMatches | app/api/track/route.js:69 | when fewer than 500 rows match, every row with that path is listed |
| PageTracker.KeyOf | components/microproses/Tracker.jsx:9-11 | the key is `pv:` followed by the pathname and the query string |
| PageTracker.KeysDistinct | components/microproses/Tracker.jsx:9-11 | different locations use different keys |
| PageTracker.SessionStore.constructor | components/microproses/Tracker.jsx:12 | the tab's session storage starts empty |
| PageTracker.Track | components/microproses/Tracker.jsx:8-35 | a hit is sent exactly when it is not a duplicate; a sent hit stores its time under its key first and leaves every other key alone, a skipped one changes nothing |
| PageTracker.RepeatWithinTtlSkipped | components/microproses/Tracker.jsx:14-16 | a repeat hit is skipped exactly when it comes less than the TTL after the stored one |
| PageTracker.UnreadableStampIgnored | components/microproses/Tracker.jsx:15-16 | a stored value that does not read as a number never suppresses a hit |
| InViewAnimation.Step | hooks/useInViewAnimation.js:28-36 | an intersecting entry marks the element entered and entering; a leaving entry sets leaving unless `once` holds and it has already entered, and then changes nothing |
| InViewAnimation.OnceStaysEntered | hooks/useInViewAnimation.js:29-35 | with `once`, an element that has entered stays entering whatever events follow |
| InViewAnimation.PhaseFollowsLastEvent | hooks/useInViewAnimation.js:29-35 | without `once`, the phase follows the latest event |
| InViewAnimation.EnteredIsSticky | hooks/useInViewAnimation.js:30 | once entered, the flag stays set |
| InViewAnimation.InView.constructor | hooks/useInViewAnimation.js:14-16 | the first render is idle, not entered and not yet observed |
| InViewAnimation.InView.Mount | hooks/useInViewAnimation.js:18-40 | without an element nothing happens; without an observer the element is shown at once; otherwise it is observed |
| InViewAnimation.InView.Observe | hooks/useInViewAnimation.js:28-36 | one observer callback moves the state as the step function says, and an entry with `once` ends the observation |
| InViewAnimation.InView.Disconnect | hooks/useInViewAnimation.js:42 | cleanup stops the observation and keeps the state |
| Sitemap.BaseUrl | app/sitemap.js:4-10 | the first non-empty of the two configured URLs without one trailing `/`, else the site's own address |
| Sitemap.ProductEntry | app/sitemap.js:62-71 | a product gets an entry exactly when its slug and its parent slug (the sub-category's, else the category's) are non-empty; the entry's URL is base, parent and product slug |
| Sitemap.ProductEntries | app/sitemap.js:52-72 | there are no more product entries than products |
| Sitemap.ProductEntriesExactly | app/sitemap.js:52-72 | every product entry comes from a product with both slugs, and every such product contributes its entry |
| Sitemap.SetSlot | app/sitemap.js:55 | after setting a key, the map holds the new value under it |
| Sitemap.SetSlotOther | app/sitemap.js:55 | setting one key leaves the value of every other key alone |
| Sitemap.LookupFinds | app/sitemap.js:50 | a key is found exactly when some entry holds it |
| Sitemap.SetSlotKeys | app/sitemap.js:55 | setting a key keeps the existing keys in their places and adds a new key last |
| Sitemap.SetSlotDistinct | app/sitemap.js:50-60 | the category map never holds a key twice after a set |
| Sitemap.RecordLookup | app/sitemap.js:53-60 | recording a product sets its non-empty category and sub-category slugs to its date and leaves other slugs alone |
| Sitemap.CategoryMapDistinct | app/sitemap.js:50-72 | the category map never holds a slug twice |
| Sitemap.CategoryMapLast | app/sitemap.js:50-72 | a slug's date is that of the last product naming it, and a slug no product names is absent |
| Sitemap.CategoryEntries | app/sitemap.js:74-81 | one weekly entry of priority 0.8 per map entry, in the map's order |
| Sitemap.Generate | app/sitemap.js:22-87 | the home and order entries always come first; a failed query leaves only them; otherwise they are followed by the product entries and then the category entries |
| Sitemap.ProductLines | app/sitemap.js:52-72 | the first loop yields exactly the product entries and the category map |
| Sitemap.RecordProduct | app/sitemap.js:53-60 | the two map updates of one product are the recording of that product |
| Sitemap.CategoryLines | app/sitemap.js:74-81 | the second loop yields exactly the category entries |
| DiskonRoute.ActiveFlag | app/api/diskon/route.js:79-86 | the flag starts at 1 and ends as the window test says: 0 before a valid start or after a valid end, else 1 |
| DiskonRoute.DiskonTable.constructor | app/api/diskon/route.js:88-91 | the discount table starts empty with the first id 1 |
| DiskonRoute.DiskonTable.Resync | app/api/diskon/route.js:16-27 | every row's flag is recomputed from its own dates as SQLite reads them, in whole seconds, and nothing else changes |
| DiskonRoute.Selected | app/api/diskon/route.js:29-42 | a row is answered exactly when it matches the product filter and, without `include_all=1`, is active; rows are answered unchanged |
| DiskonRoute.Get | app/api/diskon/route.js:8-48 | GET re-syncs every flag and then answers 200 with the selected rows |
| DiskonRoute.ActiveListingInWindow | app/api/diskon/route.js:16-40 | without `include_all=1` every answered row lies inside its window at the second of the request, with its dates read as SQLite reads them |
| DiskonRoute.Post | app/api/diskon/route.js:50-99 | the checks run in the order name, product, percentage, nominal, and the first failure is a 422 that writes nothing; otherwise exactly one row is inserted under the next id and answered with 201 |
| DiskonRoute.PostedRowIsValid | app/api/diskon/route.js:55-91 | a posted row has a name, a product, a percentage in 0 to 100 and a non-negative nominal when given, and is active exactly inside the window of the dates that parsed |
| DiskonRoute.ResyncAgreesWithPost | app/api/diskon/route.js:16-27 | when SQLite reads the stored ISO dates as the seconds they came from and neither falls in the current second, the GET re-sync at the same moment keeps a fresh row's flag |
| DiskonRoute.SameSecondResyncDiffers | app/api/diskon/route.js:19-21 | within one second the two clocks disagree: an end 0.3 s before a POST makes the row inactive, and the re-sync in that second makes it active |
| DiskonRoute.Put | app/api/diskon/route.js:101-155 | a missing id is a 422 and an unknown one a 404; a blank name or a falsy product after merging is a 422; otherwise the row is overwritten with the merged values and answered with 200 |
| DiskonRoute.EmptyPutOnlyResyncs | app/api/diskon/route.js:112-141 | a PUT that sends nothing, on a row whose dates are stored in ISO form, only recomputes the flag, in milliseconds |
| DiskonRoute.PutSkipsRangeChecks | app/api/diskon/route.js:113-115 | PUT stores a percentage of 150 and a negative nominal that POST would refuse |
| DiskonRoute.Delete | app/api/diskon/route.js:157-172 | a missing id is a 422 and an unknown one a 404, both writing nothing; otherwise exactly that row is removed |
| ReviewsRoute.Round | app/api/reviews/route.js:9 | rounding lands within one half of the input, halves going up |
| ReviewsRoute.NormalizeRating | app/api/reviews/route.js:4-10 | NaN has no rating; every rating lies in 1 to 5; anything below 1 is 1, anything above 5 is 5, and the rest is rounded to the nearest whole number |
| ReviewsRoute.RatingKeepsInRange | app/api/reviews/route.js:4-10 | a whole rating from 1 to 5 is kept as it is |
| ReviewsRoute.RatingMonotone | app/api/reviews/route.js:4-10 | a larger input never gets a smaller rating |
| ReviewsRoute.RatingIdempotent | app/api/reviews/route.js:4-10 | normalizing a rating again changes nothing |
| ReviewsRoute.ReviewTable.constructor | app/api/reviews/route.js:42-43 | the review table starts empty with the first id 1 |
| ReviewsRoute.Post | app/api/reviews/route.js:28-50 | a blank name, then a blank text, then an invalid rating give 422 and write nothing; otherwise exactly one row with the trimmed values and the normalized rating is inserted and answered with 201 |
| ReviewsRoute.Applied | app/api/reviews/route.js:95-99 | the update writes exactly the sent fields; a field not sent keeps its value, and an update with no fields changes nothing |
| ReviewsRoute.AppliedIdempotent | app/api/reviews/route.js:95-99 | applying the same update twice is applying it once |
| ReviewsRoute.PutChanges | app/api/reviews/route.js:60-88 | a field is updated exactly when it was sent; a sent name or text is non-blank, a sent rating lies in 1 to 5, and a blank link or source becomes NULL |
| ReviewsRoute.Put | app/api/reviews/route.js:52-107 | a missing id, a sent-but-blank name or text, an invalid rating or an empty update give 422; an unknown id is a 404 found after the update; otherwise exactly the sent fields are written and the row answered with 200 |
| ReviewsRoute.Delete | app/api/reviews/route.js:109-124 | a missing id is a 422 and an unknown one a 404, both writing nothing; otherwise exactly that row is removed |
| BookingRoute.BookingAcceptedExactly | app/api/booking/route.js:25-35 | a booking passes exactly when its trimmed name, telephone and date are non-blank and its trimmed e-mail matches the pattern; a blank e-mail is reported as missing, not malformed |
| BookingRoute.BookingTable.constructor | app/api/booking/route.js:37-41 | the booking table starts empty with the first id 1 |
| BookingRoute.Post | app/api/booking/route.js:20-44 | the first failing check is a 422 that writes nothing; otherwise exactly one row with the trimmed values is inserted and answered with 201 |
| KategoriProdukRoute.PostName | app/api/kategori-produk/route.js:12 | the name is empty exactly when it was falsy or blank, and otherwise is the sent text without its surrounding whitespace |
| KategoriProdukRoute.PostSub | app/api/kategori-produk/route.js:13-31 | the sub-category is NULL exactly when it was not sent, was null or was blank; otherwise it is non-empty and trimmed |
| KategoriProdukRoute.Post | app/api/kategori-produk/route.js:8-41 | a blank name is a 422; when rows have the same name and sub-category up to ASCII case, the one that comes first by name, then sub-category (NULL first), then id is answered with 200 and nothing is written; otherwise one row is inserted and answered with 201; a repeated POST finds the answered row |
| KategoriProdukRoute.SearchIds | app/api/kategori-produk/route.js:61-71 | a search answers only existing rows |
| KategoriProdukRoute.GetById | app/api/kategori-produk/route.js:50-58 | the row with that id with 200, or a 404 exactly when there is none |
| KategoriProdukRoute.InsertRow | app/api/kategori-produk/route.js:69 | putting a row into an ordered listing keeps it ordered and adds exactly that row |
| KategoriProdukRoute.Listing | app/api/kategori-produk/route.js:63-74 | a listing holds each row of the selected ids exactly once, as the route answers it, in name and sub-category order |
| KategoriProdukRoute.List | app/api/kategori-produk/route.js:60-77 | GET without `id` answers, in name and sub-category order, the rows the term finds, or every row when no term is given |
| KategoriProdukRoute.LikeAnything | app/api/kategori-produk/route.js:62 | the pattern `%` matches every text |
| KategoriProdukRoute.LowerOfLowered | app/api/kategori-produk/route.js:62-68 | lowering text without upper-case ASCII letters changes nothing |
| KategoriProdukRoute.LikePrefix | app/api/kategori-produk/route.js:62 | a wildcard-free term followed by `%` matches exactly the texts that start with it, up to ASCII case |
| KategoriProdukRoute.ContainsIgnoringCaseStep | app/api/kategori-produk/route.js:62 | a text contains a term up to case exactly when it starts with it or its tail contains it |
| KategoriProdukRoute.LikeInfix | app/api/kategori-produk/route.js:62 | `%term%` with a wildcard-free term matches exactly the texts containing the term, up to ASCII case |
| KategoriProdukRoute.SearchIsContains | app/api/kategori-produk/route.js:61-71 | for a term without `%` or `_`, a search answers exactly the rows whose lowered name or lowered sub-category contains the lowered term |
| KategoriProdukRoute.ContainsLowered | app/api/kategori-produk/route.js:62-68 | on lowered text, containment up to case is plain containment |
| KategoriProdukRoute.PutText | app/api/kategori-produk/route.js:101-102 | a field is undefined exactly when it was not sent, and empty exactly when it was sent null or blank |
| KategoriProdukRoute.NullIfEmpty | app/api/kategori-produk/route.js:109 | an empty text becomes NULL and any other is kept |
| KategoriProdukRoute.PutRow | app/api/kategori-produk/route.js:108-136 | a sent name replaces the name and a sent sub-category replaces the sub-category (empty is NULL); everything else is kept |
| KategoriProdukRoute.Put | app/api/kategori-produk/route.js:84-145 | the checks run as missing id 422, unknown id 404, sent-but-blank name 422, clash with another row 409 and then nothing sent 422, writing nothing; otherwise the row is updated and no other row clashes with it |
| KategoriProdukRoute.Delete | app/api/kategori-produk/route.js:147-168 | a missing id is a 422 and an unknown one a 404; otherwise the category goes and, by the foreign-key cascades, its products, their benefit links and the media they own go with it; cover rows, benefits and every id counter are unchanged, and no product is left without its category |
| MediaRoute.TrimSlashes | app/api/media/route.js:31 | the path without its trailing slashes: a prefix of it followed only by slashes |
| MediaRoute.BaseName | app/api/media/route.js:31 | the last segment holds no `/`, and a path without `/` is its own last segment |
| MediaRoute.ExtName | app/api/media/route.js:13 | a non-empty extension starts with its only `.`, holds no `/`, and is a proper suffix of the last segment |
| MediaRoute.BaseNameWithout | app/api/media/route.js:67 | the last segment without the extension holds no `/` |
| MediaRoute.ExtNameOfSuffix | app/api/media/route.js:13 | a name whose only `.` starts its extension has that extension |
| MediaRoute.ContentTypes | app/api/media/route.js:12-19 | `.jpg`/`.jpeg`, `.png`, `.webp` and `.gif` give their image types up to ASCII case, and every other extension gives `application/octet-stream` |
| MediaRoute.KeepSafe | app/api/media/route.js:67 | only letters, digits, `_` and `-` remain; a string of those alone is left as it is |
| MediaRoute.SafeBase | app/api/media/route.js:67 | the safe base has 1 to 40 safe characters: the first 40 of the filtered stem, or `file` when nothing survives |
| MediaRoute.UploadExt | app/api/media/route.js:65-66 | the stored extension is the upload's own, or `.bin` when it has none |
| MediaRoute.StoredHeadPlain | app/api/media/route.js:67-69 | the part of a stored name before its extension holds no `.` and no `/` |
| MediaRoute.StoredShape | app/api/media/route.js:69 | a stored name is one segment with the given extension, starting with the base and an underscore |
| MediaRoute.StoredName | app/api/media/route.js:65-69 | the stored name is a single path segment that starts with the safe base and an underscore and keeps the upload's extension or `.bin` |
| MediaRoute.StoredNameKeepsType | app/api/media/route.js:65-69 | a stored file is served with the content type its upload's own name implies |
| MediaRoute.SameTypeWhenExt | app/api/media/route.js:12-19 | two paths with the same extension, or `.bin` and none, get the same type |
| MediaRoute.OctetExts | app/api/media/route.js:18 | `.bin` and no extension both give `application/octet-stream` |
| MediaRoute.ServedName | app/api/media/route.js:31 | the name read from the media directory never holds a `/`, so no request reaches outside it |
| MediaRoute.GetFile | app/api/media/route.js:29-35 | for a non-empty `file`, the file is answered with 200, its bytes and its name's type exactly when it exists directly in the media directory; otherwise a 404, or a 500 when the base name is empty, `.` or `..` |
| MediaRoute.JoinedPathType | app/api/media/route.js:31-34 | the joined path has the served name as its last segment and the same content type |
| MediaRoute.BaseNameJoined | app/api/media/route.js:31 | the last segment of a joined path is the joined name |
| MediaRoute.MediaUrl | app/api/media/route.js:40 | the URL is `/api/media?file=` followed by an encoded path holding no `&`, `#`, `/` or `?` |
| MediaRoute.GetById | app/api/media/route.js:37-42 | the row with its URL and 200, or a 404 exactly when there is none |
| MediaRoute.ListIds | app/api/media/route.js:44-50 | exactly the rows, or those owned by the given product, in decreasing id order |
| MediaRoute.Get | app/api/media/route.js:21-55 | a non-empty `file` is served from the directory; otherwise a given `id` answers that row or a 404; otherwise exactly the rows (of the product, when `produk_id` is given) are listed with their URLs in decreasing id order |
| MediaRoute.EmptyFileLists | app/api/media/route.js:29 | an empty `file` parameter is not a file request: without an id the listing is answered |
| MediaRoute.Post | app/api/media/route.js:57-81 | a missing file is a 422 and a product without a row a 500, both writing nothing; otherwise one row with the stored name and the sent product is inserted and answered with 201 |
| MediaRoute.PutRow | app/api/media/route.js:99-119 | a sent product replaces the owner (empty is NULL) and a new upload replaces the path; everything else is kept |
| MediaRoute.Put | app/api/media/route.js:83-129 | a missing id is a 422 and an unknown one a 404; the row is written only when a product is sent or the path changed, and a product without a row is a 500 that writes nothing |
| MediaRoute.Delete | app/api/media/route.js:131-145 | a missing id is a 422 and an unknown one a 404, both writing nothing; otherwise exactly that row goes and the cover rows stay |
| BenefitRoute.EnsureDefaultKategori | app/api/benefit/route.js:8-13 | the answer is the existing benefit category whose name sorts first (as the name index orders it), the same one a second call would give; only an empty table gets a new category named `Umum`, and nothing else changes |
| BenefitRoute.EnsureKategoriBenefit | app/api/benefit/route.js:49-56 | a truthy id is taken as it is; a falsy name falls back to the default category (the first name in text order, or a new `Umum` in an empty table); otherwise the category with that exact name, created only when there is none |
| BenefitRoute.MigrateBenefitSchema | app/api/benefit/route.js:37-42 | afterwards no benefit lacks a category: each uncategorised benefit gets the default category (the first name in text order), ids and texts are kept, and with none uncategorised nothing changes |
| BenefitRoute.View | app/api/benefit/route.js:116 | the joined row exists exactly when the benefit does, with its text, its category id and that category's name |
| BenefitRoute.CreateBenefit | app/api/benefit/route.js:63-71 | a falsy text is a 422 and a category id without a row a 500, both writing nothing; otherwise one row is always added and the answer is the lowest-id row with that text, an older duplicate when there is one |
| BenefitRoute.InsertBenefitRow | app/api/benefit/route.js:66-71 | the insert adds exactly one row with the text and category and answers the lowest-id row with that text; a category without a row fails the foreign key and writes nothing |
| BenefitRoute.Post | app/api/benefit/route.js:58-75 | after POST no benefit lacks a category; a falsy text is a 422; a success adds exactly one benefit id and answers the oldest row with the text; links, products and media are untouched |
| BenefitRoute.UpdatedRow | app/api/benefit/route.js:107-114 | a sent text replaces the text and a resolved category replaces the category; a sent null fails the NOT NULL constraint |
| BenefitRoute.WriteBenefit | app/api/benefit/route.js:112-115 | the row becomes the updated row only when some field is sent and it exists; a null text or a category without a row throws and changes nothing |
| BenefitRoute.UpdateBenefitRow | app/api/benefit/route.js:101-117 | a missing id is a 422; the text becomes the sent one; when a category field is sent the row's category is the truthy id as sent, else the row with exactly the sent name (found, or added under the next id), else the default category (a new `Umum` in an empty table), and the benefit-category table changes only by that addition; with no category field the category and that table are kept; the answer is the row as read back, absent for an unknown id |
| BenefitRoute.Put | app/api/benefit/route.js:96-121 | after PUT no benefit lacks a category and no benefit is added or removed; the row's text is the sent one; an unsent category is kept or, when the row had none, is the default; a sent category is the truthy id, the row with the sent name (found, or added under the next id) or the default, as in `UpdateBenefitRow`; the answer is the stored row, and links, products and media are untouched |
| BenefitRoute.Delete | app/api/benefit/route.js:123-136 | a missing id is a 422; otherwise the benefit and exactly its product links go, and nothing else but the backfill changes |
| ProdukRoute.SubValue | app/api/produk/route.js:33-34 | the sub-category is the trimmed text, or NULL when it was absent or blank |
| ProdukRoute.RepairOrInsertCategory | app/api/produk/route.js:41-50 | with no row holding the code, the row with the same name and sub-category gets the code and description, or one new row is inserted; either way the code then finds the answered row |
| ProdukRoute.EnsureCategoryId | app/api/produk/route.js:29-51 | a truthy id is answered as it is; a blank name throws; a row whose code matches up to case is answered untouched; otherwise at most one row is written, after which the code finds the answered row |
| ProdukRoute.ResolveAll | app/api/produk/route.js:66-75 | the resolved ids are never more than the listed items |
| ProdukRoute.ResolveAllStable | app/api/produk/route.js:66-75 | once every text of the list has a row, adding further rows does not change what the list resolves to |
| ProdukRoute.TextsResolvedSnoc | app/api/produk/route.js:70-74 | one more item whose text has a row keeps the whole prefix resolved |
| ProdukRoute.TextsResolvedStable | app/api/produk/route.js:70-74 | a resolved list stays resolved while every text that had a row keeps it |
| ProdukRoute.InsertedTextLookup | app/api/produk/route.js:72-73 | a new row for a text that had none is what the text now finds, and every other text keeps its row |
| ProdukRoute.ExtendsWiden | app/api/produk/route.js:66-75 | the rows added for a list remain rows added for a longer list |
| ProdukRoute.ExtendsInsert | app/api/produk/route.js:72-73 | inserting the row of a listed text keeps the table an extension of the start, and the text then finds the new row |
| ProdukRoute.InsertKeepsResolved | app/api/produk/route.js:72-73 | a new row for a text that had none leaves what the items already walked resolve to unchanged |
| ProdukRoute.InsertKeeps | app/api/produk/route.js:72-73 | inserting a listed text's row keeps the extension, the items already walked and their ids |
| ProdukRoute.StoreText | app/api/produk/route.js:70-74 | a text resolves to the row that has it, or to a new row with the default category; the items already walked keep their ids |
| ProdukRoute.InsertText | app/api/produk/route.js:72-73 | a text without a row gets one with the default category, which the text then finds |
| ProdukRoute.ResolveNext | app/api/produk/route.js:66-75 | one turn of the loop resolves one more item and appends its id |
| ProdukRoute.EnsureBenefitIds | app/api/produk/route.js:61-77 | a default benefit category (the first name in text order) exists afterwards and new rows get it; nulls and empty texts are skipped, numbers kept, a text takes the row that has it or a new row; earlier rows keep their contents and lookups |
| ProdukRoute.UpsertCoverMedia | app/api/produk/route.js:79-88 | null removes the product's cover row; a media row the product owns becomes its one cover; anything else throws and changes nothing |
| ProdukRoute.EnsureCoverMedia | app/api/produk/route.js:90-100 | an existing cover row is answered as it is; otherwise the newest media row the product owns becomes the cover, and with none no cover row remains |
| ProdukRoute.ApplyCover | app/api/produk/route.js:197-212 | null or empty clears the cover and a number must name a media row the product owns; a rejected value changes nothing |
| ProdukRoute.Reassigned | app/api/produk/route.js:190-193 | every listed media row gets the new owner and every other row is kept |
| ProdukRoute.ReassignedStep | app/api/produk/route.js:192 | one more update statement gives one more listed row the owner |
| ProdukRoute.AssignMedia | app/api/produk/route.js:188-195 | every listed media row is given to the product; when the product is missing and some listed row exists the foreign key fails and the transaction is undone |
| ProdukRoute.SetOwners | app/api/produk/route.js:190-192 | the update statements succeed exactly when the product exists or no listed row does, and then give every listed row to the product |
| ProdukRoute.DetachMedia | app/api/produk/route.js:267-279 | every removed media row loses its owner, and only this product's cover rows pointing at a removed id go |
| ProdukRoute.ClearOwners | app/api/produk/route.js:268-272 | every listed media row loses its owner and nothing else changes |
| ProdukRoute.DeleteCoverPairs | app/api/produk/route.js:274-278 | exactly this product's cover rows naming a listed media row go |
| ProdukRoute.LinkSetSnoc | app/api/produk/route.js:181 | one more benefit id adds exactly its link |
| ProdukRoute.InsertLinks | app/api/produk/route.js:177-181 | the links are added exactly when the product and every benefit exist (or none is listed); a pair already present is kept once |
| ProdukRoute.ReplaceLinks | app/api/produk/route.js:248-254 | all links of the product are replaced by one per id, or nothing changes when an insertion fails |
| ProdukRoute.InsertProductTx | app/api/produk/route.js:176-186 | the product row and one link per resolved benefit are inserted together under the next id; a category without a row fails and inserts neither |
| ProdukRoute.AttachToNew | app/api/produk/route.js:188-215 | the listed media go to the new product; a sent cover key is applied, and without one the newest media becomes the cover only when media were listed; other products' covers are kept |
| ProdukRoute.Post | app/api/produk/route.js:168-221 | a falsy name is a 422 and an unresolvable category a 500, both before any write; a success stores the product, its links, its media and its cover as sent, under the sent category id, or else under the category found by code, repaired by name and sub-category, or newly inserted, with the category table left exactly as that resolution leaves it; a rejected cover is a 422 although the product is stored |
| ProdukRoute.PatchedRow | app/api/produk/route.js:236-243 | each sent column replaces its value and the rest are kept; a sent null name fails the NOT NULL constraint |
| ProdukRoute.PatchProduct | app/api/produk/route.js:233-244 | the name and price become the sent ones and nothing else in the product table changes; when a category field is sent the category is the truthy id as sent (category table untouched) or the row the code lookup then finds: the code's row untouched, else the same name and sub-category repaired with the code and description, else a new row under the next id; a blank name throws and writes nothing; with nothing sent nothing changes |
| ProdukRoute.WriteProductRow | app/api/produk/route.js:242-243 | the existing row becomes the patched row; a null name or a category without a row throws and changes nothing |
| ProdukRoute.RelinkBenefits | app/api/produk/route.js:246-255 | the product's links become one per resolved id, or stay as they were when the transaction fails |
| ProdukRoute.MoveMedia | app/api/produk/route.js:257-279 | the listed media go to the product, then the removed ones lose their owner and the cover row pointing at one of them goes; a failed first step changes nothing |
| ProdukRoute.SettleCover | app/api/produk/route.js:281-301 | a sent cover key is applied as in POST; without one an existing cover is kept or the newest owned media becomes the cover; no other product's cover changes |
| ProdukRoute.PutRelations | app/api/produk/route.js:246-301 | links, media and cover each change only when their field is sent, as the steps above say; product rows are untouched and no other product's cover changes |
| ProdukRoute.Put | app/api/produk/route.js:223-308 | a missing id is a 422 that writes nothing; a success answers the product as read back with the sent name and price and the category resolved as in `PatchProduct`, whose three category-table cases it keeps; the links, media and cover end as `PutRelations` states, from the tables as they were before the request; no other product's cover changes |
| ProdukRoute.Delete | app/api/produk/route.js:310-321 | a missing id is a 422; otherwise the product goes with its links and the media it owns, by the foreign-key cascades, and cover rows stay |
| ProdukNames.SkipNonCode | app/api/produk/route.js:12 | what remains starts with a letter or digit |
| ProdukNames.Underscore | app/api/produk/route.js:12 | every maximal run outside `[A-Z0-9]` becomes one `_`: only code characters and `_` remain, never two `_` side by side |
| ProdukNames.SquashIsIdentity | app/api/produk/route.js:13 | squashing `_` runs changes nothing after the replacement |
| ProdukNames.StripEdgeUnderscores | app/api/produk/route.js:14 | one `_` goes from each end and the rest is kept in place |
| ProdukNames.CleanCode | app/api/produk/route.js:9-15 | the result is a clean code: non-empty, only `[A-Z0-9_]`, no `_` at either end or doubled; a candidate without letters or digits gives `KATEGORI` |
| ProdukNames.StrippedHasNoDouble | app/api/produk/route.js:13-14 | stripping the ends of a replaced string leaves a clean code or nothing |
| ProdukNames.NoCodeStripsToEmpty | app/api/produk/route.js:9-14 | a candidate without letters or digits normalises to nothing before the fallback |
| ProdukNames.UnderscoreOfNoCode | app/api/produk/route.js:12 | without code characters the replacement leaves nothing or a single `_` |
| ProdukNames.UnderscoreKeepsNoCode | app/api/produk/route.js:12 | without code characters the replacement leaves at most one character |
| ProdukNames.SkipAllNonCode | app/api/produk/route.js:12 | without code characters nothing remains after skipping |
| ProdukNames.NormalizeKategoriCode | app/api/produk/route.js:4-16 | every category code is clean |
| ProdukNames.NormalizeKategoriCodeCases | app/api/produk/route.js:5-8 | an explicit non-blank code wins; otherwise the name and sub-category joined by a space decide |
| ProdukNames.FallbackCode | app/api/produk/route.js:7-15 | the `KATEGORI` fallback is what an empty candidate normalises to |
| ProdukNames.UnderscoreOfClean | app/api/produk/route.js:12 | the replacement leaves a clean code unchanged |
| ProdukNames.CodeCharIsNotSpace | app/api/produk/route.js:8 | code characters are never trimmed away |
| ProdukNames.CleanCodeIdempotent | app/api/produk/route.js:9-15 | normalising a clean code gives it back |
| ProdukNames.UpperOfCode | app/api/produk/route.js:10 | upper-casing a code changes nothing |
| ProdukNames.StripEdgeOfClean | app/api/produk/route.js:14 | stripping a code without edge `_` changes nothing |
| ProdukNames.NormalizeKategoriCodeIdempotent | app/api/produk/route.js:4-16 | a normalised code sent back as the explicit code is returned unchanged, whatever the name and sub-category |
| ProdukNames.BlankCodeFallsBack | app/api/produk/route.js:6-15 | with no code and only separators in the name and sub-category, the code is `KATEGORI` |
| ProdukNames.TrimOfNoCode | app/api/produk/route.js:8 | trimming adds no code character |
| ProdukNames.JoinOfNoCode | app/api/produk/route.js:6 | joining parts without code characters gives text without them |
| ProdukNames.JoinTwo | app/api/produk/route.js:6 | joining two parts puts the separator between them |
| ProdukNames.NormalizeKategoriDescription | app/api/produk/route.js:18-23 | the description is never empty: the explicit trimmed text, else exactly name, separator (the mis-decoded em dash between spaces) and sub-category when both are non-empty, the name alone or the sub-category alone when only one is, else `Kategori` |
| ProdukNames.CoverUrlFromPath | app/api/produk/route.js:102-104 | a URL exists exactly for a non-empty path, and is the media endpoint followed by the encoded path holding no `&`, `#` or `/` |
| Store.CategoryDeletedConsistent | setup.js:131-160 | deleting a category with its cascades leaves every foreign key satisfied |
| Store.ProductDeletedConsistent | setup.js:142-160 | deleting a product with its cascades leaves every foreign key satisfied |
| Store.FirstKey | app/api/produk/route.js:63 | a `LIMIT 1` match is the lowest id in range whose row matches, and with none no row in range matches |
| Store.FirstInOrder | setup.js:174 | a `LIMIT 1` answered from an index scan is a match that no other match precedes in the index order, the lowest id among equal keys, and with none no row in range matches |
| Store.NameOrderIsPreorder | setup.js:198 | the text order of benefit-category names is total and transitive |
| Store.NameSubOrderIsPreorder | setup.js:174 | the (name, sub-category) order of category rows is total and transitive |
| Store.Db.CategoryLike | app/api/kategori-produk/route.js:19-23 | the get-or-create lookup answers a row matching up to ASCII case exactly when there is one, and it is the first such row by name, then sub-category (NULL first), then id |
| Store.Db.AnyBenefitCategory | app/api/benefit/route.js:9 | `SELECT id FROM kategori_benefit LIMIT 1` answers a row exactly when the table has one, and it is the name that comes first in text order, the lowest id among equal names |
| Store.Db.SeededDefaultBenefitCategory | setup.js:197-209 | on the four seeded benefit categories the default is id 2, `Dekorasi & Perlengkapan`, not the first row inserted |
| Store.LastKey | app/api/produk/route.js:93 | an `ORDER BY id DESC LIMIT 1` match is the highest id in range whose row matches, and with none no row matches |
| Store.FirstKeyStable | app/api/produk/route.js:63-73 | rows added above the range do not change the first match below it |
| Store.FirstKeyIs | app/api/produk/route.js:63 | a matching id with no match below it is the first match |
| Store.FirstKeySameMatches | app/api/produk/route.js:63 | the first match depends only on which rows match |
| Store.BenefitWithText | app/api/produk/route.js:63 | the lookup of a benefit text finds the lowest id with exactly that text, or reports that none has it |
| Store.Db.constructor | setup.js:96-160 | the database starts with every table empty |
| Store.Db.Restore | app/api/produk/route.js:178-194 | undoing a transaction puts the database back to the snapshot taken at its start |
| Store.Db.InsertCategory | app/api/kategori-produk/route.js:29-31 | one category row is added under the next id and nothing else changes |
| Store.Db.UpdateCategory | app/api/kategori-produk/route.js:136 | the row with the id is replaced, and with no such row nothing changes |
| Store.Db.DeleteCategory | app/api/kategori-produk/route.js:163 | the category goes with its products, their links and their media, by the foreign-key cascades |
| Store.Db.InsertProduct | app/api/produk/route.js:176-179 | a product row is added under the next id when its category exists; otherwise the insert throws and changes nothing |
| Store.Db.UpdateProduct | app/api/produk/route.js:243 | an existing row is replaced when its category exists; a missing category throws and a missing row changes nothing |
| Store.Db.DeleteProduct | app/api/produk/route.js:316 | the product goes with its links and the media it owns, by the foreign-key cascades |
| Store.Db.InsertBenefitCategory | app/api/benefit/route.js:11 | one benefit category is added under the next id and nothing else changes |
| Store.Db.InsertBenefit | app/api/benefit/route.js:66-68 | the benefit row is always added when its category exists, since the text is not unique; a missing category throws and changes nothing |
| Store.Db.UpdateBenefit | app/api/benefit/route.js:114 | an existing row is replaced when its category exists; a missing category throws and a missing row changes nothing |
| Store.Db.BackfillBenefitCategory | app/api/benefit/route.js:41 | every benefit without a category gets the given one and every other row is kept |
| Store.Db.DeleteBenefit | app/api/benefit/route.js:131 | the benefit goes with its links |
| Store.Db.DeleteLinksOfProduct | app/api/produk/route.js:248-251 | exactly the links of the product go |
| Store.Db.DeleteLinksOfBenefit | app/api/benefit/route.js:130 | exactly the links of the benefit go |
| Store.Db.InsertLinkOrIgnore | app/api/produk/route.js:177-181 | the pair is added, or kept once when already present, exactly when the product and the benefit exist; otherwise the insert throws and changes nothing |
| Store.Db.InsertMedia | app/api/media/route.js:75 | a media row is added under the next id when its product exists or it has none; otherwise the insert throws and changes nothing |
| Store.Db.UpdateMedia | app/api/media/route.js:122 | an existing row is replaced when its product exists or it has none; otherwise the update throws and changes nothing |
| Store.Db.SetMediaOwner | app/api/produk/route.js:190-192 | an existing media row gets the new owner when that product exists or the owner is NULL; otherwise the update throws and changes nothing |
| Store.Db.DeleteMedia | app/api/media/route.js:139 | exactly the media row goes and cover rows are not touched |
| Store.Db.DeleteCover | app/api/produk/route.js:81 | the product's cover row goes |
| Store.Db.DeleteCoverPair | app/api/produk/route.js:274-276 | the product's cover row goes only when it names that media row |
| Store.Db.InsertCover | app/api/produk/route.js:95 | the product gets a cover row naming the media row |
| Store.Db.UpsertCover | app/api/produk/route.js:86 | the product ends with exactly one cover row, naming the media row |

## Left out

- Unicode: `normalize('NFKD')` is the identity here, and `toLowerCase`/`toUpperCase` map ASCII letters only. SQLite's `lower()` is ASCII-only as well.
- JS numbers: a number is NaN or a finite real. The infinities, and floating-point rounding beyond `Math.round`, are not modelled.
- Request bodies: a field is present or absent, with a string or number value. Non-string values and JSON parse failures of the body are not modelled.
- Media files: the file-system writes and unlinks of the media route are not modelled. `GET ?file=` reads a map from file name to bytes.
- SQL listings: the listing GETs of the reviews, booking, benefit and product routes are SQL selects and joins, and their row order is not modelled. The same holds for product `meta`, the aggregate of `app/api/benefit/kategori/route.js`, and the page-view top-pages and `since` queries. The track, media and category listings are modelled with their order.
- DiskonRoute.Selected: the discount GET answers its rows as a map keyed by id. Neither `ORDER BY mulai DESC` nor `ORDER BY created_at DESC` is modelled, because the `created_at` column's definition is not part of this model.
- DiskonRoute.Get: answers the same unordered map as `DiskonRoute.Selected`.
- ListProduk.SortByPrice: does not state that products of equal price keep their list order, although `Array.prototype.sort` is stable. The insertion sort only moves an item past strictly greater keys, but that is not proved.
- ListProduk.FilteredProducts: the `random` sort order keeps the list order, because `Math.random` is not modelled.
- Clock and randomness: `Date.now()`, `new Date()`, SQLite's `datetime()` and the random tag of upload names are parameters. SQLite compares `datetime` texts; the model compares the seconds they name.
- Crypto and encoding: HMAC-SHA256, base64url and the JSON encoding of the session payload are function parameters, with the one property the code relies on (decoding inverts encoding). bcrypt in the login route is a parameter, and cookies are left out.
- Concurrency: races between concurrent requests, and WAL and busy timeouts, are not modelled. A transaction runs atomically and in sequence.
- Schema: the DDL of `booking`, `cover_media`, `reviews`, `diskon` and `page_views` is not part of this model. The ids of `reviews` and `diskon` are modelled as AUTOINCREMENT ids: a counter that only grows, so an id freed by a DELETE (app/api/reviews/route.js:109-124, app/api/diskon/route.js:157-172) is never handed out again; a plain INTEGER PRIMARY KEY could reuse the largest id after it is deleted. Page views are never deleted, so their ids are modelled by insertion order alone. Both are plain tables here, with no foreign-key actions. The table rebuild in app/api/benefit/route.js:15-37 is left out; its data migration (uncategorised benefits get the default category) is modelled. The `kategori_produk` table that setup.js:124-129 creates has no `code_kategori` or `deskripsi_kategori` column, and no modelled file adds them; the model assumes both columns exist, added by a migration that is not part of this model (without them every category write of the product and category routes would fail).
- Side effects: the WhatsApp notices sent after an order, clipboard and upload calls, and `app/api/config/route.js` (the saved number list) are not part of this model.
- Dates and formatting: `Date.parse` in `formatTimeAgo` is left out. The label takes the millisecond difference. Also left out are the hostname extraction of `extractHost` (the host is given), price and date formatting with `Intl`, chart bucketing and `computePriceAfter` of the discount admin page.
- OrderPage.Page.Change: field names outside the form are not modelled.
- OrderForm.BookingForm.Submit: the submitted data is the stored booking id and form, not the whole server answer.
- Auth.SafeCompare: the XOR accumulator `mismatch` is a boolean that records whether any position differed.
- UI-only components are not part of this model: the admin product and review pages, the landing sections, the UI kit, layout and robots, the logout route and the root middleware re-export.

## Findings

| source | as written | input that shows it | evidently intended | confidence | as-written member | corrected member |
|---|---|---|---|---|---|---|
| components/admin/Statistik.jsx:93-96 | twelve months of 30 days end at day 360, but years are counted as `days / 365`, so a visit 360 to 364 days old is labelled `0 tahun lalu` | `diffMs` of 360 days (31104000000 ms) | every label past the month band shows at least one year | not executed | Statistik.ZeroYearsAgo | Statistik.TimeAgoCountPositive |
