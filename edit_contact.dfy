/**
 * The edit screen: the form is filled from the loaded contact, validated on
 * submit, and a valid form becomes a PATCH request for the contact's id.
 */
module EditContact {
  import opened ContactTypes
  import opened ContactForm

  /** The form the loaded contact fills in: `contact.phone || ""` for the phone. */
  function PrefillForm(c: NormalizedContact): (f: FormData)
    ensures f.name == c.name && f.email == c.email && f.group == c.group
    ensures f.phone == c.phone
  {
    FormData(c.name, c.email, PhoneOrEmpty(Some(c.phone)), c.group)
  }

  /** The prefill effect: runs when the contact has loaded, otherwise leaves the form alone. */
  method PrefillEffect(form: ContactFormState, contact: Option<NormalizedContact>)
    modifies form`data
    ensures contact.Some? ==> form.data == PrefillForm(contact.value)
    ensures contact.None? ==> form.data == old(form.data)
  {
    if contact.Some? {
      form.data := PrefillForm(contact.value);
    }
  }

  /** The body of the update call: every field sent, except an empty phone (`phone || undefined`). */
  function UpdatePayload(f: FormData): (r: UpdateContactRequest)
    ensures r.name == Some(f.name) && r.email == Some(f.email) && r.group == Some(f.group)
    ensures r.phone.Some? <==> f.phone != ""
    ensures r.phone.Some? ==> r.phone.value == f.phone
  {
    UpdateContactRequest(Some(f.name), Some(f.email), if f.phone != "" then Some(f.phone) else None, Some(f.group))
  }

  /** The mutation argument `{ id, data }`. */
  datatype UpdateCall = UpdateCall(id: string, data: UpdateContactRequest)

  /**
   * Phone round trip through the screen untouched: an absent or empty phone
   * is left out of the request, a non-empty phone is sent as it was.
   */
  lemma PhoneRoundTrip(c: Contact)
    ensures var p := UpdatePayload(PrefillForm(Normalize(c)));
            && (c.phone.None? || c.phone.value == "" ==> p.phone.None?)
            && (c.phone.Some? && c.phone.value != "" ==> p.phone == c.phone)
            && p.name == Some(c.name) && p.email == Some(c.email) && p.group == Some(c.group)
  {
  }

  /**
   * `handleSubmit`: the form is validated (its errors stored); a call for the
   * route id is issued exactly when it is valid.
   */
  method HandleSubmit(form: ContactFormState, id: string) returns (call: Option<UpdateCall>)
    modifies form`errors
    ensures form.errors == FormErrors(form.data)
    ensures call.Some? <==> !AllSpace(form.data.name) && MatchesEmailPattern(form.data.email)
    ensures call.Some? ==> call.value == UpdateCall(id, UpdatePayload(form.data))
  {
    var ok := form.ValidateForm();
    if !ok {
      return None;
    }
    call := Some(UpdateCall(id, UpdatePayload(form.data)));
  }

  // ---------------------------------------------------------------- clearing a phone

  /**
   * PATCH semantics on the server side: a field present in the body replaces
   * the stored one, an absent field keeps it.
   */
  function ApplyPatch(c: Contact, p: UpdateContactRequest): Contact {
    c.(name := if p.name.Some? then p.name.value else c.name,
       email := if p.email.Some? then p.email.value else c.email,
       phone := if p.phone.Some? then p.phone else c.phone,
       group := if p.group.Some? then p.group.value else c.group)
  }

  /**
   * As written: emptying the phone field of a contact that has a phone and
   * saving leaves the stored phone as it was.
   */
  lemma ClearedPhoneIsKept(c: Contact)
    requires c.phone.Some? && c.phone.value != ""
    ensures var f := PrefillForm(Normalize(c)).(phone := "");
            Normalize(ApplyPatch(c, UpdatePayload(f))).phone == c.phone.value != f.phone
  {
  }

  /**
   * Such a form passes validation whenever the contact's own name and e-mail
   * do (for instance "A" and "a@b.co"), so the request is really sent.
   */
  lemma ClearedPhoneFormIsValid(c: Contact)
    requires !AllSpace(c.name) && MatchesEmailPattern(c.email)
    ensures FormErrors(PrefillForm(Normalize(c)).(phone := "")) == map[]
  {
    FormValidIff(PrefillForm(Normalize(c)).(phone := ""));
  }

  /** The update body with the phone always sent, so an empty field clears the stored phone. */
  function UpdatePayloadSendingPhone(f: FormData): (r: UpdateContactRequest)
    ensures r.phone == Some(f.phone)
    ensures f.phone != "" ==> r == UpdatePayload(f)
  {
    UpdateContactRequest(Some(f.name), Some(f.email), Some(f.phone), Some(f.group))
  }

  /** With the phone always sent, the saved contact reads back exactly as the form was submitted. */
  lemma SavedContactMatchesForm(c: Contact, f: FormData)
    ensures PrefillForm(Normalize(ApplyPatch(c, UpdatePayloadSendingPhone(f)))) == f
  {
  }
}
