/** The wedding package list (`components/client/ListPernikahan.jsx`): the
    products of category 'pernikahan' and the cards made from them. */
module ListPernikahan {
  import opened Common
  import opened Slug
  import opened PageSlug
  import opened ListProduk

  /** `p.nama_kategori && String(p.nama_kategori).toLowerCase() === 'pernikahan'`. */
  predicate IsPernikahan(p: Item)
  {
    p.namaKategori.Some? && p.namaKategori.value != [] && Lower(p.namaKategori.value) == "pernikahan"
  }

  /** The filter of the fetched list; a non-array answer gives nothing. */
  function Pernikahan(data: Option<seq<Item>>): (r: seq<Item>)
    ensures data.None? ==> r == []
    ensures data.Some? ==> |r| <= |data.value| && forall p :: p in r <==> p in data.value && IsPernikahan(p)
  {
    if data.Some? then Filter(data.value, IsPernikahan) else []
  }

  /** The price line: a truthy `harga` is shown, otherwise 'Hubungi kami'. */
  datatype Price = Amount(harga: real) | Contact

  datatype Card = Card(id: int, title: string, price: Price, features: seq<string>, href: string)

  /** `p.nama_paket || p.title`, where a missing title is the helper's
      default ''. */
  function SlugSource(p: Item): string
  {
    if p.namaPaket.Some? && p.namaPaket.value != [] then p.namaPaket.value
    else if p.title.Some? then p.title.value
    else ""
  }

  function CardOf(p: Item): (c: Card)
  {
    Card(p.id, ListProduk.Or(p.namaPaket, "Paket"),
         if p.harga.Some? && p.harga.value != 0.0 then Amount(p.harga.value) else Contact,
         if p.benefits.Some? then p.benefits.value else [],
         "/" + LooseSlugify(SlugSource(p)))
  }

  /** A card keeps the product's id, is titled by its name or 'Paket',
      lists its benefits or nothing, and links to '/' and a slug of only
      `[a-z0-9-]` without doubled '-'. */
  lemma {:induction false} CardShape(p: Item)
    ensures var c := CardOf(p);
      && c.id == p.id
      && c.title != []
      && (c.title == "Paket" || c.title == p.namaPaket.value)
      && (p.namaPaket.None? || p.namaPaket.value == [] ==> c.title == "Paket")
      && (p.benefits.None? ==> c.features == [])
      && (p.benefits.Some? ==> c.features == p.benefits.value)
      && c.href[0] == '/' && AllSlugChars(c.href[1..]) && NoDoubleDash(c.href[1..])
  {
    LooseSlugChars(SlugSource(p));
    assert CardOf(p).href[1..] == LooseSlugify(SlugSource(p));
  }

  /** The link is the slug of the product's name (or title); a name that
      is already a slug links to '/' followed by exactly that name. */
  lemma {:induction false} CardLink(p: Item)
    ensures CardOf(p).href == "/" + LooseSlugify(SlugSource(p))
    ensures AllSlugChars(SlugSource(p)) && NoDoubleDash(SlugSource(p)) ==>
      CardOf(p).href == "/" + SlugSource(p)
  {
    if AllSlugChars(SlugSource(p)) && NoDoubleDash(SlugSource(p)) {
      LooseSlugifyFixes(SlugSource(p));
    }
  }

  /** `pernikahan.map(...)`: one card per product, in order. */
  function Cards(xs: seq<Item>): (r: seq<Card>)
    ensures |r| == |xs| && forall k | 0 <= k < |xs| :: r[k] == CardOf(xs[k])
  {
    seq(|xs|, k requires 0 <= k < |xs| => CardOf(xs[k]))
  }

  /** The cards follow the fetched order: a later wedding product adds its
      card at the end, and a product of another category adds none. */
  lemma {:induction false} CardsInFetchedOrder(x: seq<Item>, p: Item)
    ensures Cards(Pernikahan(Some(x + [p]))) ==
      Cards(Pernikahan(Some(x))) + (if IsPernikahan(p) then [CardOf(p)] else [])
  {
    FilterSnoc(x, p, IsPernikahan);
  }
}
