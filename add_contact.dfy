/**
 * The add screen: on submit it validates the form and, only when the form is
 * valid, issues a create request built from it.
 */
module AddContact {
  import opened ContactTypes
  import opened ContactForm

  /** The create request of a form: `phone || undefined` leaves an empty phone out. */
  function CreatePayload(f: FormData): (r: CreateContactRequest)
    ensures r.name == f.name && r.email == f.email && r.group == f.group
    ensures r.phone.Some? <==> f.phone != ""
    ensures r.phone.Some? ==> r.phone.value == f.phone
  {
    CreateContactRequest(f.name, f.email, if f.phone != "" then Some(f.phone) else None, f.group)
  }

  /**
   * A contact stored from the request reads back, once normalized, with the
   * phone the form held ("" for none).
   */
  lemma CreatedPhoneRoundTrip(f: FormData, c: Contact)
    requires c.phone == CreatePayload(f).phone
    ensures Normalize(c).phone == f.phone
  {
    if f.phone == "" {
      assert c.phone == None;
    }
  }

  /**
   * `handleSubmit`: the form is validated (its errors stored); a request is
   * issued exactly when it is valid.
   */
  method HandleSubmit(form: ContactFormState) returns (request: Option<CreateContactRequest>)
    modifies form`errors
    ensures form.errors == FormErrors(form.data)
    ensures request.Some? <==> !AllSpace(form.data.name) && MatchesEmailPattern(form.data.email)
    ensures request.Some? ==> request.value == CreatePayload(form.data)
  {
    var ok := form.ValidateForm();
    if !ok {
      return None;
    }
    request := Some(CreatePayload(form.data));
  }
}
