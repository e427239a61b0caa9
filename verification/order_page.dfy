/** The standalone order page (`app/order/page.js`): the same checks as the
    booking form, after which the page only shows what was entered. */
module OrderPage {
  import opened Common
  import opened OrderForm

  class Page {
    var form: Form
    var submittedData: Option<Form>
    var errors: Errors

    constructor ()
      ensures form == InitialForm && submittedData.None? && errors == NoErrors
    {
      form := InitialForm;
      submittedData := None;
      errors := NoErrors;
    }

    /** `handleChange` for one of the five fields. */
    method Change(name: string, value: string)
      modifies this
      ensures form == match name
        case "nama" => old(form).(nama := value)
        case "email" => old(form).(email := value)
        case "telepon" => old(form).(telepon := value)
        case "tanggal" => old(form).(tanggal := value)
        case "catatan" => old(form).(catatan := value)
        case _ => old(form)
      ensures submittedData == old(submittedData) && errors == old(errors)
    {
      match name {
        case "nama" => form := form.(nama := value);
        case "email" => form := form.(email := value);
        case "telepon" => form := form.(telepon := value);
        case "tanggal" => form := form.(tanggal := value);
        case "catatan" => form := form.(catatan := value);
        case _ =>
      }
    }

    /** `handleSubmit`: the errors are shown, and the form is kept as
        submitted only when there are none. */
    method Submit()
      modifies this
      ensures errors == FormErrors(old(form)) && form == old(form)
      ensures submittedData == if HasErrors(errors) then old(submittedData) else Some(old(form))
    {
      var nextErrors := Validate(form);
      errors := nextErrors;
      if HasErrors(nextErrors) {
        return;
      }
      submittedData := Some(form);
    }

    /** `resetForm`. */
    method Reset()
      modifies this
      ensures form == InitialForm && submittedData.None? && errors == NoErrors
    {
      form := InitialForm;
      submittedData := None;
      errors := NoErrors;
    }
  }
}
