/** The booking form of the product pages (`components/client/OrderForm.jsx`):
    the date sent to the server, the checks made before sending, and the
    form state around a submission. */
module OrderForm {
  import opened Common
  import opened BookingRoute

  /** A calendar date as `getFullYear`, `getMonth() + 1` and `getDate`
      give it. */
  datatype Date = Date(year: int, month: nat, day: nat)

  /** `String(n).padStart(2, '0')`. */
  function Pad2(n: nat): string
  {
    if n < 10 then "0" + NatToString(n) else NatToString(n)
  }

  /** `formatDateISO`: 'YYYY-MM-DD', or '' for a missing or invalid date. */
  function FormatDateISO(d: Option<Date>): (r: string)
    ensures d.None? <==> r == []
  {
    if d.None? then ""
    else IntToString(d.value.year) + "-" + Pad2(d.value.month) + "-" + Pad2(d.value.day)
  }

  lemma {:induction false} Pad2Reads(n: nat)
    requires 1 <= n <= 31
    ensures var p := Pad2(n); |p| == 2 && '-' !in p && IsDecimal(p) && DigitsValue(p) == n
  {
    var p := Pad2(n);
    NatToStringRoundTrip(n);
    if n < 10 {
      assert p == "0" + NatToString(n) && |NatToString(n)| == 1;
      assert p[..1] == "0";
    } else {
      assert n / 10 < 10;
      assert |NatToString(n / 10)| == 1;
    }
  }

  /** A date of a non-negative year reads back from its text: splitting at
      '-' gives the year, a two-digit month and a two-digit day, each with
      its value. */
  lemma {:induction false} FormatDateISOReadsBack(d: Date)
    requires d.year >= 0 && 1 <= d.month <= 12 && 1 <= d.day <= 31
    ensures var parts := Split(FormatDateISO(Some(d)), '-');
      && |parts| == 3 && |parts[1]| == 2 && |parts[2]| == 2
      && IsDecimal(parts[0]) && IsDecimal(parts[1]) && IsDecimal(parts[2])
      && DigitsValue(parts[0]) == d.year && DigitsValue(parts[1]) == d.month && DigitsValue(parts[2]) == d.day
  {
    var y := NatToString(d.year);
    NatToStringRoundTrip(d.year);
    Pad2Reads(d.month);
    Pad2Reads(d.day);
    var parts := [y, Pad2(d.month), Pad2(d.day)];
    assert '-' !in y by {
      assert forall i | 0 <= i < |y| :: IsDigit(y[i]);
    }
    assert Join(parts[2..], "-") == Pad2(d.day);
    assert Join(parts[1..], "-") == Pad2(d.month) + "-" + Pad2(d.day);
    assert IntToString(d.year) == y;
    assert Join(parts, "-") == FormatDateISO(Some(d));
    SplitJoin(parts, '-');
  }

  /** The form fields. */
  datatype Form = Form(nama: string, email: string, telepon: string, tanggal: string, catatan: string)

  const InitialForm: Form := Form("", "", "", "", "")

  /** `nextErrors`, one optional message per key, plus the `submit` key
      set when sending fails. */
  datatype Errors = Errors(nama: Option<string>, email: Option<string>, telepon: Option<string>,
                           tanggal: Option<string>, submit: Option<string>)

  const NoErrors: Errors := Errors(None, None, None, None, None)

  /** `Object.keys(nextErrors).length > 0`. */
  predicate HasErrors(e: Errors)
  {
    e.nama.Some? || e.email.Some? || e.telepon.Some? || e.tanggal.Some? || e.submit.Some?
  }

  /** The message each field ends with: a blank name or telephone and an
      empty date are missing; an e-mail that does not match the pattern,
      blank or not, is malformed. */
  function FormErrors(f: Form): Errors
  {
    Errors(if IsBlank(f.nama) then Some("Nama wajib diisi") else None,
           if !IsEmail(Trim(f.email)) then Some("Format email tidak valid") else None,
           if IsBlank(f.telepon) then Some("Nomor telepon wajib diisi") else None,
           if f.tanggal == [] then Some("Tanggal acara wajib diisi") else None,
           None)
  }

  /** `validate`, filling the errors one check at a time. */
  method Validate(f: Form) returns (e: Errors)
    ensures e == FormErrors(f)
  {
    e := NoErrors;
    if IsBlank(f.nama) {
      e := e.(nama := Some("Nama wajib diisi"));
    }
    if IsBlank(f.email) {
      e := e.(email := Some("Email wajib diisi"));
    }
    if !IsEmail(Trim(f.email)) {
      e := e.(email := Some("Format email tidak valid"));
    }
    if IsBlank(f.telepon) {
      e := e.(telepon := Some("Nomor telepon wajib diisi"));
    }
    if f.tanggal == [] {
      e := e.(tanggal := Some("Tanggal acara wajib diisi"));
    }
    EmptyIsNoEmail(f.email);
  }

  /** A blank e-mail never matches the pattern, so its "missing" message is
      always replaced by the format message. */
  lemma {:induction false} EmptyIsNoEmail(email: string)
    ensures IsBlank(email) ==> !IsEmail(Trim(email))
    ensures IsBlank(email) ==> FormErrors(Form("", email, "", "", "")).email == Some("Format email tidak valid")
  {
    IsEmailMatchesPattern(Trim(email));
  }

  /** A form passes exactly when its name and telephone are not blank, its
      trimmed e-mail matches the pattern and a date is chosen. */
  lemma {:induction false} FormPassesExactly(f: Form)
    ensures !HasErrors(FormErrors(f)) <==>
      !IsBlank(f.nama) && EmailPattern(Trim(f.email)) && !IsBlank(f.telepon) && f.tanggal != []
  {
    IsEmailMatchesPattern(Trim(f.email));
  }

  /** The body sent to `/api/booking`: the fields, each absent when empty,
      and the product id from the address. */
  function BodyOf(f: Form, produkId: Option<JsNumber>): BookingBody
  {
    BookingBody(produkId, Given(f.nama), Given(f.email), Given(f.telepon), Given(f.tanggal), Given(f.catatan))
  }

  function Given(s: string): Option<string>
  {
    if s == [] then None else Some(s)
  }

  /** A form that passes these checks is accepted by the booking route
      exactly when its date is not all whitespace: the route trims the date
      and the form does not. */
  lemma {:induction false} ServerAgrees(f: Form, produkId: Option<JsNumber>)
    requires !HasErrors(FormErrors(f))
    ensures BookingError(BodyOf(f, produkId)).None? <==> !IsBlank(f.tanggal)
  {
    FormPassesExactly(f);
    var b := BodyOf(f, produkId);
    BookingAcceptedExactly(b);
    SentTrimmed(f.nama);
    SentTrimmed(f.email);
    SentTrimmed(f.telepon);
    SentTrimmed(f.tanggal);
    IsEmailMatchesPattern(Trim(f.email));
  }

  /** The route trims what the form sends. */
  lemma SentTrimmed(s: string)
    ensures TrimmedOr(Given(s)) == Trim(s)
  {
    if s == [] {
      assert AllSpace(s);
    }
  }

  /** What `/api/booking` answered: the stored booking, or an error with
      its message if it gave one. */
  datatype Reply = Stored(id: int) | Refused(error: Option<string>)

  /** The `submit` message for a refused booking. */
  function SubmitError(error: Option<string>): string
  {
    if error.Some? && error.value != [] then error.value else "Gagal mengirim form"
  }

  class BookingForm {
    var form: Form
    var submittedData: Option<int>
    var errors: Errors
    var successDialogOpen: bool
    var isSubmitting: bool

    constructor ()
      ensures form == InitialForm && submittedData.None? && errors == NoErrors
      ensures !successDialogOpen && !isSubmitting
    {
      form := InitialForm;
      submittedData := None;
      errors := NoErrors;
      successDialogOpen := false;
      isSubmitting := false;
    }

    /** `handleSubmit`: a form with any error only shows the errors and
        sends nothing; otherwise the route's reply either opens the success
        dialog with the stored booking or sets the `submit` error. The
        WhatsApp notices sent after success are not modelled. */
    method Submit(reply: Reply)
      modifies this
      ensures HasErrors(FormErrors(old(form))) ==>
        errors == FormErrors(old(form)) && submittedData == old(submittedData)
        && successDialogOpen == old(successDialogOpen) && isSubmitting == old(isSubmitting)
      ensures !HasErrors(FormErrors(old(form))) && reply.Stored? ==>
        errors == NoErrors && submittedData == Some(reply.id) && successDialogOpen && !isSubmitting
      ensures !HasErrors(FormErrors(old(form))) && reply.Refused? ==>
        errors == NoErrors.(submit := Some(SubmitError(reply.error)))
        && submittedData == old(submittedData) && successDialogOpen == old(successDialogOpen) && !isSubmitting
      ensures form == old(form)
    {
      var nextErrors := Validate(form);
      errors := nextErrors;
      if HasErrors(nextErrors) {
        return;
      }
      Send(reply);
    }

    /** The request and its outcome, once the checks pass. */
    method Send(reply: Reply)
      modifies this
      ensures reply.Stored? ==>
        errors == old(errors) && submittedData == Some(reply.id) && successDialogOpen
      ensures reply.Refused? ==>
        errors == NoErrors.(submit := Some(SubmitError(reply.error)))
        && submittedData == old(submittedData) && successDialogOpen == old(successDialogOpen)
      ensures form == old(form) && !isSubmitting
    {
      isSubmitting := true;
      match reply {
        case Stored(id) =>
          submittedData := Some(id);
          successDialogOpen := true;
        case Refused(error) =>
          errors := NoErrors.(submit := Some(SubmitError(error)));
      }
      isSubmitting := false;
    }

    /** `resetForm`. */
    method Reset()
      modifies this
      ensures form == InitialForm && submittedData.None? && errors == NoErrors && !successDialogOpen
      ensures isSubmitting == old(isSubmitting)
    {
      form := InitialForm;
      submittedData := None;
      errors := NoErrors;
      successDialogOpen := false;
    }
  }
}
