/** The notification numbers of the admin panel
    (`components/admin/NotifikasiNomor.jsx`): the conversion between the
    number an admin types and the WhatsApp chat id, and the list edits. */
module NotifikasiNomor {
  import opened Common

  const Suffix: string := "@c.us"

  /** The first index at or after `i` where `t` occurs in `s`. */
  function SearchFrom(s: string, t: string, i: nat): (r: Option<nat>)
    requires i <= |s|
    ensures r.Some? ==> i <= r.value && OccursAt(s, t, r.value)
    ensures r.Some? ==> forall j | i <= j < r.value :: !OccursAt(s, t, j)
    ensures r.None? ==> forall j | i <= j <= |s| :: !OccursAt(s, t, j)
    decreases |s| - i
  {
    if OccursAt(s, t, i) then Some(i)
    else if i == |s| then None
    else SearchFrom(s, t, i + 1)
  }

  /** With no '@' before index `n` and '@c.us' at `n`, the search finds
      `n`. */
  lemma {:induction false} SuffixFoundAt(w: string, n: nat)
    requires OccursAt(w, Suffix, n) && forall k | 0 <= k < n :: w[k] != '@'
    ensures SearchFrom(w, Suffix, 0) == Some(n) && Contains(w, Suffix)
  {
    forall j | OccursAt(w, Suffix, j)
      ensures w[j] == '@'
    {
      assert w[j..j + |Suffix|][0] == w[j];
    }
  }

  /** `toDisplayNumber`: a chat id loses its first '@c.us', and one that
      then reads '628…' shows '0' in place of the '62'. */
  function DisplayNumber(w: string): (r: string)
    ensures !Contains(w, Suffix) ==> r == w
  {
    if w == [] then w
    else
      var at := SearchFrom(w, Suffix, 0);
      if at.None? then w
      else
        var num := w[..at.value] + w[at.value + |Suffix|..];
        if |num| >= 3 && num[..3] == "628" then "0" + num[2..] else num
  }

  /** `displayNumber.replace(/\D/g, '')`. */
  function KeepDigits(s: string): (r: string)
    ensures forall k | 0 <= k < |r| :: IsDigit(r[k])
    ensures (forall k | 0 <= k < |s| :: IsDigit(s[k])) ==> r == s
  {
    if s == [] then [] else (if IsDigit(s[0]) then [s[0]] else []) + KeepDigits(s[1..])
  }

  /** `toWhatsappNumber` as a value: the digits, in international form,
      followed by '@c.us'; nothing for an empty input. */
  function WhatsappNumber(display: string): (w: string)
  {
    if display == [] then []
    else
      var num := KeepDigits(display);
      var intl := if |num| >= 2 && num[..2] == "62" then num
                  else if |num| >= 1 && num[0] == '0' then "62" + num[1..]
                  else "62" + num;
      intl + Suffix
  }

  /** Every chat id made from a typed number starts with the country code
      62, continues with digits only, and ends with '@c.us'. */
  lemma {:induction false} WhatsappNumberShape(display: string)
    ensures var w := WhatsappNumber(display);
      && (w == [] <==> display == [])
      && (w != [] ==> |w| >= 7 && w[..2] == "62" && EndsWith(w, Suffix)
                      && forall k | 0 <= k < |w| - |Suffix| :: IsDigit(w[k]))
  {
    var w := WhatsappNumber(display);
    if display != [] {
      var num := KeepDigits(display);
      var intl := w[..|w| - |Suffix|];
      assert w == intl + Suffix;
      assert forall k | 0 <= k < |intl| :: w[k] == intl[k];
    }
  }

  /** `toWhatsappNumber`, reassigning the number as the component does. */
  method ToWhatsappNumber(display: string) returns (w: string)
    ensures w == WhatsappNumber(display)
  {
    if display == [] {
      return "";
    }
    var num := KeepDigits(display);
    if |num| >= 2 && num[..2] == "62" {
    } else if |num| >= 1 && num[0] == '0' {
      num := "62" + num[1..];
    } else {
      num := "62" + num;
    }
    w := num + Suffix;
  }

  /** A chat id of an Indonesian mobile number, '628…@c.us' with no other
      '@', is shown with '0' in place of '62'. */
  lemma {:induction false} DisplayOfMobile(intl: string)
    requires |intl| >= 3 && intl[..3] == "628" && forall k | 0 <= k < |intl| :: intl[k] != '@'
    ensures DisplayNumber(intl + Suffix) == "0" + intl[2..]
  {
    var w := intl + Suffix;
    var n := |intl|;
    assert w[n..] == Suffix;
    forall k | 0 <= k < n
      ensures w[k] != '@'
    {
      assert w[k] == intl[k];
    }
    SuffixFoundAt(w, n);
    assert w[..n] == intl && w[n + |Suffix|..] == [];
  }

  /** A local mobile number of digits, written '08…', comes back unchanged
      from its chat id. */
  lemma {:induction false} DisplayOfWhatsapp(s: string)
    requires |s| >= 2 && s[..2] == "08" && forall k | 0 <= k < |s| :: IsDigit(s[k])
    ensures DisplayNumber(WhatsappNumber(s)) == s
  {
    var intl := "62" + s[1..];
    assert KeepDigits(s) == s;
    assert WhatsappNumber(s) == intl + Suffix;
    forall k | 0 <= k < |intl|
      ensures intl[k] != '@'
    {
      if k >= 2 {
        assert intl[k] == s[k - 1];
      }
    }
    assert intl[..3] == "628";
    DisplayOfMobile(intl);
    assert "0" + intl[2..] == s;
  }

  /** A chat id without '@c.us' is shown as it is, and one of another
      country keeps its code. */
  lemma {:induction false} DisplayNumberKeepsOthers(d: string)
    requires forall k | 0 <= k < |d| :: IsDigit(d[k])
    requires d != [] && d[0] != '8'
    ensures DisplayNumber("62" + d + Suffix) == "62" + d
  {
    var w := "62" + d + Suffix;
    var n := |d| + 2;
    forall k | 0 <= k < n
      ensures w[k] != '@'
    {
      if k >= 2 {
        assert w[k] == d[k - 2];
      }
    }
    assert OccursAt(w, Suffix, n);
    SuffixFoundAt(w, n);
    var num := "62" + d;
    assert w[..n] + w[n + |Suffix|..] == num;
    assert num[2] == d[0];
    assert num[..3] != "628" by {
      assert "628"[2] == '8';
    }
  }

  /** Why `handleAdd` stopped, or that it added the number. */
  datatype AddOutcome = Blank | BadFormat | AlreadyListed | Added(number: string)

  /** `numbers.filter(n => n !== number)`. */
  function Without(numbers: seq<string>, number: string): (r: seq<string>)
    ensures |r| <= |numbers|
    ensures forall n :: n in r <==> n in numbers && n != number
  {
    if numbers == [] then []
    else (if numbers[0] != number then [numbers[0]] else []) + Without(numbers[1..], number)
  }

  predicate Distinct(xs: seq<string>)
  {
    forall i, j | 0 <= i < j < |xs| :: xs[i] != xs[j]
  }

  class NumberList {
    var numbers: seq<string>
    var newNumber: string
    var modalVisible: bool

    constructor (loaded: seq<string>)
      ensures numbers == loaded && newNumber == [] && !modalVisible
    {
      numbers := loaded;
      newNumber := [];
      modalVisible := false;
    }

    /** `handleAdd`: a blank entry, a chat id shorter than 15 or longer
        than 20 characters, or one already listed is refused and nothing
        changes; otherwise the chat id is appended once, the entry is
        cleared and the dialog closes. */
    method Add() returns (outcome: AddOutcome)
      modifies this
      ensures IsBlank(old(newNumber)) ==> outcome == Blank
      ensures !IsBlank(old(newNumber)) ==>
        var w := WhatsappNumber(Trim(old(newNumber)));
        outcome == if |w| < 15 || |w| > 20 then BadFormat
                   else if w in old(numbers) then AlreadyListed
                   else Added(w)
      ensures !outcome.Added? ==>
        numbers == old(numbers) && newNumber == old(newNumber) && modalVisible == old(modalVisible)
      ensures outcome.Added? ==>
        numbers == old(numbers) + [outcome.number] && outcome.number !in old(numbers)
        && newNumber == [] && !modalVisible
    {
      if IsBlank(newNumber) {
        return Blank;
      }
      var w := ToWhatsappNumber(Trim(newNumber));
      if w == [] || |w| < 15 || |w| > 20 {
        return BadFormat;
      }
      if w in numbers {
        return AlreadyListed;
      }
      numbers := numbers + [w];
      newNumber := [];
      modalVisible := false;
      outcome := Added(w);
    }

    /** `handleRemove`: every copy of the number goes, the rest stay in
        order. */
    method Remove(number: string)
      modifies this
      ensures numbers == Without(old(numbers), number)
      ensures newNumber == old(newNumber) && modalVisible == old(modalVisible)
    {
      numbers := Without(numbers, number);
    }
  }

  /** Adding never introduces a duplicate, and removing keeps the others in
      order. */
  lemma {:induction false} EditsKeepDistinct(numbers: seq<string>, w: string, number: string)
    requires Distinct(numbers)
    ensures w !in numbers ==> Distinct(numbers + [w])
    ensures Distinct(Without(numbers, number))
    decreases |numbers|
  {
    if numbers != [] {
      EditsKeepDistinct(numbers[1..], w, number);
      var rest := Without(numbers[1..], number);
      if numbers[0] != number {
        assert numbers[0] !in numbers[1..];
        assert numbers[0] !in rest;
      }
    }
  }

  /** Every accepted chat id holds 8 to 13 digits after the country code. */
  lemma {:induction false} AddedLength(display: string)
    requires var w := WhatsappNumber(display); 15 <= |w| <= 20
    ensures var w := WhatsappNumber(display); 8 <= |w| - |Suffix| - 2 <= 13
  {
  }
}
