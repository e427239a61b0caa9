/** The benefit list of a product page, grouped by benefit category
    (`groupedBenefits` and `getObj`, written the same way in
    `components/client/DetailProduk.jsx` and
    `components/produk/DetailProduk.jsx`). */
module BenefitGroups {
  import opened Common

  /** An entry of a product's `benefits` array: a benefit text, a benefit
      id, an object carrying some of `id`, `benefit_id`, `benefit` and
      `nama_kategori`, or anything else (null, a boolean). */
  datatype Ref =
    | Other
    | Text(text: string)
    | Num(n: int)
    | Obj(id: Option<int>, benefitId: Option<int>, benefit: Option<string>, namaKategori: Option<string>)

  /** A row of `/api/benefit`. */
  datatype Row = Row(id: int, benefit: Option<string>, namaKategori: Option<string>)

  /** What `getObj` resolves an entry to. */
  datatype Rec = Rec(benefit: Option<string>, namaKategori: Option<string>)

  const Lainnya: string := "Lainnya"

  predicate Given(s: Option<string>)
  {
    s.Some? && s.value != []
  }

  function Or(a: Option<string>, b: string): string
  {
    if Given(a) then a.value else b
  }

  function RecOf(r: Row): Rec
  {
    Rec(r.benefit, r.namaKategori)
  }

  /** `allBenefits.find(x => x.id === id)`: the first row with that id. */
  function FindById(all: seq<Row>, id: int): (r: Option<Row>)
    ensures r.Some? ==> exists i | 0 <= i < |all| :: all[i] == r.value && r.value.id == id
                                                  && forall j | 0 <= j < i :: all[j].id != id
    ensures r.None? ==> forall x :: x in all ==> x.id != id
  {
    if all == [] then None else if all[0].id == id then Some(all[0]) else FindById(all[1..], id)
  }

  /** `allBenefits.find(x => x.benefit === text)`: the first row with that
      text (texts are not unique). */
  function FindByText(all: seq<Row>, text: string): (r: Option<Row>)
    ensures r.Some? ==> exists i | 0 <= i < |all| :: all[i] == r.value && r.value.benefit == Some(text)
                                                  && forall j | 0 <= j < i :: all[j].benefit != Some(text)
    ensures r.None? ==> forall x :: x in all ==> x.benefit != Some(text)
  {
    if all == [] then None else if all[0].benefit == Some(text) then Some(all[0]) else FindByText(all[1..], text)
  }

  /** `getObj`. */
  function GetObj(all: seq<Row>, b: Ref): Option<Rec>
  {
    match b
    case Other => None
    case Text(t) =>
      if t == [] then None
      else
        var found := FindByText(all, t);
        Some(if found.Some? then RecOf(found.value) else Rec(Some(t), Some(Lainnya)))
    case Num(n) =>
      if n == 0 then None
      else
        var found := FindById(all, n);
        Some(if found.Some? then RecOf(found.value) else Rec(Some(IntToString(n)), Some(Lainnya)))
    case Obj(id, benefitId, benefit, kat) =>
      var idVal := if id.Some? then id else benefitId;
      if idVal.Some? then
        var found := FindById(all, idVal.value);
        Some(if found.Some? then RecOf(found.value)
             else Rec(Some(Or(benefit, IntToString(idVal.value))), Some(Or(kat, Lainnya))))
      else if Given(benefit) then Some(Rec(benefit, Some(Or(kat, Lainnya))))
      else None
  }

  /** A text is found by its benefit text and a number by its id; on a miss
      either stands for itself under 'Lainnya'. A falsy entry resolves to
      nothing. */
  lemma GetObjLookups(all: seq<Row>, b: Ref)
    ensures b.Text? && b.text != [] && FindByText(all, b.text).Some? ==>
      GetObj(all, b) == Some(RecOf(FindByText(all, b.text).value))
    ensures b.Text? && b.text != [] && (forall x :: x in all ==> x.benefit != Some(b.text)) ==>
      GetObj(all, b) == Some(Rec(Some(b.text), Some(Lainnya)))
    ensures b.Num? && b.n != 0 && (forall x :: x in all ==> x.id != b.n) ==>
      GetObj(all, b) == Some(Rec(Some(IntToString(b.n)), Some(Lainnya)))
    ensures b.Other? || (b.Text? && b.text == []) || (b.Num? && b.n == 0) ==> GetObj(all, b).None?
  {
    if b.Text? && b.text != [] && (forall x :: x in all ==> x.benefit != Some(b.text)) {
      assert FindByText(all, b.text).None?;
    }
    if b.Num? && b.n != 0 && (forall x :: x in all ==> x.id != b.n) {
      assert FindById(all, b.n).None?;
    }
  }

  /** A benefit text with the category it is listed under. */
  datatype Pair = Pair(kategori: string, text: string)

  /** The pair an entry contributes, if any: entries that resolve to nothing
      or to a record without benefit text are skipped. */
  function PairOf(all: seq<Row>, b: Ref): (p: Option<Pair>)
    ensures p.Some? ==> p.value.text != [] && p.value.kategori != []
  {
    var obj := GetObj(all, b);
    if obj.None? || !Given(obj.value.benefit) then None
    else Some(Pair(Or(obj.value.namaKategori, Lainnya), obj.value.benefit.value))
  }

  function Pairs(all: seq<Row>, items: seq<Ref>): seq<Pair>
  {
    if items == [] then []
    else
      var p := PairOf(all, items[|items| - 1]);
      Pairs(all, items[..|items| - 1]) + (if p.Some? then [p.value] else [])
  }

  // ---- the map of sets ----

  /** One category with its texts, in insertion order. */
  datatype Group = Group(kategori: string, items: seq<string>)

  /** `result.get(kat).add(text)` after creating the set if needed. */
  function Add(gs: seq<Group>, p: Pair): (r: seq<Group>)
    ensures |gs| <= |r| <= |gs| + 1
  {
    if gs == [] then [Group(p.kategori, [p.text])]
    else if gs[0].kategori == p.kategori then
      [Group(p.kategori, if p.text in gs[0].items then gs[0].items else gs[0].items + [p.text])] + gs[1..]
    else [gs[0]] + Add(gs[1..], p)
  }

  function Grouped(ps: seq<Pair>): seq<Group>
  {
    if ps == [] then [] else Add(Grouped(ps[..|ps| - 1]), ps[|ps| - 1])
  }

  /** The texts listed under `k`, or none. */
  function ItemsOf(gs: seq<Group>, k: string): seq<string>
  {
    if gs == [] then [] else if gs[0].kategori == k then gs[0].items else ItemsOf(gs[1..], k)
  }

  lemma {:induction false} AddItems(gs: seq<Group>, p: Pair, k: string, t: string)
    ensures t in ItemsOf(Add(gs, p), k) <==> t in ItemsOf(gs, k) || p == Pair(k, t)
  {
    if gs != [] && gs[0].kategori != p.kategori {
      AddItems(gs[1..], p, k, t);
    }
  }

  /** A text is listed under a category exactly when some entry resolved to
      that text in that category. */
  lemma {:induction false} GroupedMembers(ps: seq<Pair>, k: string, t: string)
    ensures t in ItemsOf(Grouped(ps), k) <==> Pair(k, t) in ps
    decreases |ps|
  {
    if ps != [] {
      var init := ps[..|ps| - 1];
      GroupedMembers(init, k, t);
      AddItems(Grouped(init), ps[|ps| - 1], k, t);
      assert ps == init + [ps[|ps| - 1]];
    }
  }

  predicate Unique(xs: seq<string>)
  {
    forall i, j | 0 <= i < j < |xs| :: xs[i] != xs[j]
  }

  /** Every group is non-empty and lists no text twice, and no category has
      two groups. */
  predicate WellFormed(gs: seq<Group>)
  {
    && (forall i | 0 <= i < |gs| :: gs[i].items != [] && Unique(gs[i].items))
    && (forall i, j | 0 <= i < j < |gs| :: gs[i].kategori != gs[j].kategori)
  }

  /** Some group is for category `k`. */
  predicate HasKategori(gs: seq<Group>, k: string)
  {
    gs != [] && (gs[0].kategori == k || HasKategori(gs[1..], k))
  }

  lemma {:induction false} HasKategoriAt(gs: seq<Group>, k: string)
    ensures HasKategori(gs, k) <==> exists i | 0 <= i < |gs| :: gs[i].kategori == k
  {
    if gs != [] {
      HasKategoriAt(gs[1..], k);
      if exists i | 0 <= i < |gs| :: gs[i].kategori == k {
        var i :| 0 <= i < |gs| && gs[i].kategori == k;
        if i > 0 {
          assert gs[1..][i - 1].kategori == k;
        }
      }
      if exists i | 0 <= i < |gs[1..]| :: gs[1..][i].kategori == k {
        var i :| 0 <= i < |gs[1..]| && gs[1..][i].kategori == k;
        assert gs[i + 1].kategori == k;
      }
    }
  }

  /** Adding keeps the categories present, and appends a new one. */
  lemma {:induction false} AddShape(gs: seq<Group>, p: Pair)
    ensures var r := Add(gs, p);
      && |r| == (if HasKategori(gs, p.kategori) then |gs| else |gs| + 1)
      && (forall i | 0 <= i < |gs| :: r[i].kategori == gs[i].kategori)
      && (forall i | 0 <= i < |gs| && gs[i].kategori != p.kategori :: r[i] == gs[i])
      && (|r| > |gs| ==> r[|gs|] == Group(p.kategori, [p.text]))
  {
    if gs != [] && gs[0].kategori != p.kategori {
      AddShape(gs[1..], p);
      var r := Add(gs, p);
      assert forall i | 1 <= i < |gs| :: r[i] == Add(gs[1..], p)[i - 1] && gs[i] == gs[1..][i - 1];
    }
  }

  /** The group `p` lands in, where it already existed, gains at most its
      text, once. */
  lemma {:induction false} AddToGroup(gs: seq<Group>, p: Pair, i: nat)
    requires i < |gs| && gs[i].kategori == p.kategori
    requires forall j | 0 <= j < i :: gs[j].kategori != p.kategori
    ensures Add(gs, p)[i].items == if p.text in gs[i].items then gs[i].items else gs[i].items + [p.text]
    decreases i
  {
    AddShape(gs, p);
    if i > 0 {
      AddToGroup(gs[1..], p, i - 1);
    }
  }

  lemma {:induction false} AddKeepsWellFormed(gs: seq<Group>, p: Pair)
    requires WellFormed(gs)
    ensures WellFormed(Add(gs, p))
  {
    var r := Add(gs, p);
    AddShape(gs, p);
    HasKategoriAt(gs, p.kategori);
    forall i | 0 <= i < |r|
      ensures r[i].items != [] && Unique(r[i].items)
    {
      if i < |gs| && gs[i].kategori == p.kategori {
        forall j | 0 <= j < i
          ensures gs[j].kategori != p.kategori
        {
        }
        AddToGroup(gs, p, i);
        var xs := gs[i].items;
        if p.text !in xs {
          var ys := xs + [p.text];
          assert forall a | 0 <= a < |xs| :: ys[a] == xs[a];
        }
      }
    }
  }

  /** The groups are always well formed. */
  lemma {:induction false} GroupedWellFormed(ps: seq<Pair>)
    ensures WellFormed(Grouped(ps))
    decreases |ps|
  {
    if ps != [] {
      GroupedWellFormed(ps[..|ps| - 1]);
      AddKeepsWellFormed(Grouped(ps[..|ps| - 1]), ps[|ps| - 1]);
    }
  }

  /** The index of the first pair in category `k`, or `|ps|`. */
  function FirstAt(ps: seq<Pair>, k: string): (r: nat)
    ensures r <= |ps|
    ensures r < |ps| ==> ps[r].kategori == k
  {
    if ps == [] then 0 else if ps[0].kategori == k then 0 else 1 + FirstAt(ps[1..], k)
  }

  lemma {:induction false} FirstAtSnoc(ps: seq<Pair>, p: Pair, k: string)
    ensures FirstAt(ps + [p], k) == if FirstAt(ps, k) < |ps| then FirstAt(ps, k) else if p.kategori == k then |ps| else |ps| + 1
  {
    if ps != [] {
      assert (ps + [p])[1..] == ps[1..] + [p];
      FirstAtSnoc(ps[1..], p, k);
    }
  }

  lemma {:induction false} ItemsOfHas(gs: seq<Group>, k: string, t: string)
    requires t in ItemsOf(gs, k)
    ensures HasKategori(gs, k)
  {
    if gs != [] && gs[0].kategori != k {
      ItemsOfHas(gs[1..], k, t);
    }
  }

  /** Every group's category occurs among the pairs, and the groups are
      ordered by where their category first occurs. */
  predicate FirstSeenOrder(ps: seq<Pair>, gs: seq<Group>)
  {
    && (forall i | 0 <= i < |gs| :: FirstAt(ps, gs[i].kategori) < |ps|)
    && (forall i, j | 0 <= i < j < |gs| :: FirstAt(ps, gs[i].kategori) < FirstAt(ps, gs[j].kategori))
  }

  /** A category with no group yet has not occurred among the pairs. */
  lemma {:induction false} NewKategoriUnseen(init: seq<Pair>, k: string)
    requires !HasKategori(Grouped(init), k)
    ensures FirstAt(init, k) == |init|
  {
    var f := FirstAt(init, k);
    if f < |init| {
      GroupedMembers(init, k, init[f].text);
      ItemsOfHas(Grouped(init), k, init[f].text);
    }
  }

  lemma {:induction false} FirstSeenOrderStep(init: seq<Pair>, gs0: seq<Group>, p: Pair)
    requires FirstSeenOrder(init, gs0)
    requires !HasKategori(gs0, p.kategori) ==> FirstAt(init, p.kategori) == |init|
    ensures FirstSeenOrder(init + [p], Add(gs0, p))
  {
    var ps := init + [p];
    var gs := Add(gs0, p);
    AddShape(gs0, p);
    forall i | 0 <= i < |gs0|
      ensures FirstAt(ps, gs[i].kategori) == FirstAt(init, gs0[i].kategori) < |init|
    {
      FirstAtSnoc(init, p, gs0[i].kategori);
    }
    if |gs| > |gs0| {
      FirstAtSnoc(init, p, p.kategori);
      assert FirstAt(ps, gs[|gs0|].kategori) == |init|;
    }
    forall i, j | 0 <= i < j < |gs|
      ensures FirstAt(ps, gs[i].kategori) < FirstAt(ps, gs[j].kategori)
    {
      if j < |gs0| {
        assert FirstAt(init, gs0[i].kategori) < FirstAt(init, gs0[j].kategori);
      }
    }
  }

  /** Groups appear in the order in which their category is first met. */
  lemma {:induction false} GroupsInFirstSeenOrder(ps: seq<Pair>)
    ensures FirstSeenOrder(ps, Grouped(ps))
    decreases |ps|
  {
    if ps != [] {
      var init, p := ps[..|ps| - 1], ps[|ps| - 1];
      assert ps == init + [p];
      GroupsInFirstSeenOrder(init);
      if !HasKategori(Grouped(init), p.kategori) {
        NewKategoriUnseen(init, p.kategori);
      }
      FirstSeenOrderStep(init, Grouped(init), p);
    }
  }

  lemma GroupedSnoc(ps: seq<Pair>, p: Pair)
    ensures Grouped(ps + [p]) == Add(Grouped(ps), p)
  {
    assert (ps + [p])[..|ps|] == ps;
  }

  /** `groupedBenefits`: the loop over the product's benefit entries. */
  method GroupBenefits(all: seq<Row>, items: seq<Ref>) returns (groups: seq<Group>)
    ensures groups == Grouped(Pairs(all, items))
  {
    groups := [];
    if |items| == 0 {
      return;
    }
    var i := 0;
    while i < |items|
      invariant 0 <= i <= |items|
      invariant groups == Grouped(Pairs(all, items[..i]))
    {
      var next := items[..i + 1];
      assert next[..i] == items[..i] && next[i] == items[i];
      var p := PairOf(all, items[i]);
      assert Pairs(all, next) == Pairs(all, items[..i]) + (if p.Some? then [p.value] else []);
      if p.Some? {
        GroupedSnoc(Pairs(all, items[..i]), p.value);
        groups := Add(groups, p.value);
        assert Pairs(all, next) == Pairs(all, items[..i]) + [p.value];
      } else {
        assert Pairs(all, next) == Pairs(all, items[..i]);
      }
      assert groups == Grouped(Pairs(all, next));
      i := i + 1;
      assert next == items[..i];
    }
    assert items[..i] == items;
  }
}
