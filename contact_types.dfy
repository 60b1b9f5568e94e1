/**
 * The contact records of the client: the wire record the backend sends, the
 * canonical record the rest of the client works on, the request bodies of the
 * create and update calls, the list search parameters and the fixed group names.
 */
module ContactTypes {

  datatype Option<T> = None | Some(value: T)

  /** A contact as the backend sends it (a MongoDB document). */
  datatype Contact = Contact(
    serverId: string,          // `_id`
    name: string,
    email: string,
    phone: Option<string>,     // optional in the API
    group: string,
    createdAt: string,
    updatedAt: string,
    version: Option<int>       // `__v`, the MongoDB version counter
  )

  /** The canonical contact: `id` always present, `phone` always a string ("" for none). */
  datatype NormalizedContact = NormalizedContact(
    id: string,
    name: string,
    email: string,
    phone: string,
    group: string,
    createdAt: string,
    updatedAt: string
  )

  /** Body of the create call; a contact without a phone omits the field. */
  datatype CreateContactRequest = CreateContactRequest(
    name: string,
    email: string,
    phone: Option<string>,
    group: string
  )

  /** Body of the update (PATCH) call: every field optional. */
  datatype UpdateContactRequest = UpdateContactRequest(
    name: Option<string>,
    email: Option<string>,
    phone: Option<string>,
    group: Option<string>
  )

  datatype SortField = ByName | ByEmail | ByCreatedAt
  datatype SortOrder = Asc | Desc

  /** Search parameters of the contact list; `None` is an absent property. */
  datatype ContactsSearchParams = ContactsSearchParams(
    page: Option<nat>,
    limit: Option<nat>,
    search: Option<string>,
    group: Option<string>,
    sortBy: Option<SortField>,
    sortOrder: Option<SortOrder>
  )

  /** The group names offered by the contact forms. */
  const ContactGroups: seq<string> := ["Friends", "Work", "Family", "Khách hàng", "Đối tác"]

  /** The group-filter value that means "every group". */
  const AllGroups: string := "Tất cả"

  lemma ContactGroupsDistinct()
    ensures |ContactGroups| == 5
    ensures forall i, j :: 0 <= i < j < |ContactGroups| ==> ContactGroups[i] != ContactGroups[j]
    ensures AllGroups !in ContactGroups
  {
  }

  /** JavaScript's `phone || ""`: an absent or empty phone becomes the empty string. */
  function PhoneOrEmpty(phone: Option<string>): (p: string)
    ensures p != "" <==> phone.Some? && phone.value != ""
    ensures p != "" ==> p == phone.value
  {
    match phone
    case None => ""
    case Some(v) => v
  }

  /** `normalizeContact`: total, keeps every displayed field, drops `__v`. */
  function Normalize(c: Contact): (n: NormalizedContact)
    ensures n.id == c.serverId
    ensures n.name == c.name && n.email == c.email && n.group == c.group
    ensures n.createdAt == c.createdAt && n.updatedAt == c.updatedAt
    ensures n.phone != "" <==> c.phone.Some? && c.phone.value != ""
    ensures n.phone != "" ==> n.phone == c.phone.value
  {
    NormalizedContact(c.serverId, c.name, c.email, PhoneOrEmpty(c.phone), c.group, c.createdAt, c.updatedAt)
  }

  /** Records that differ in `_id` stay distinguishable after normalization. */
  lemma NormalizeKeepsIdentity(a: Contact, b: Contact)
    ensures Normalize(a).id == Normalize(b).id <==> a.serverId == b.serverId
  {
  }

  /** The version counter has no influence on the canonical record. */
  lemma NormalizeIgnoresVersion(c: Contact, v: Option<int>)
    ensures Normalize(c.(version := v)) == Normalize(c)
  {
  }

  /**
   * Two records normalize alike exactly when they differ at most in `__v` and in
   * an absent versus an empty phone: nothing else is merged.
   */
  lemma NormalizeMergesOnlyEmptyPhones(a: Contact, b: Contact)
    ensures Normalize(a) == Normalize(b) <==>
              && a.(phone := None, version := None) == b.(phone := None, version := None)
              && PhoneOrEmpty(a.phone) == PhoneOrEmpty(b.phone)
  {
  }

  /** `contacts.map(normalizeContact)`. */
  function NormalizeAll(cs: seq<Contact>): (r: seq<NormalizedContact>)
    ensures |r| == |cs|
    ensures forall i :: 0 <= i < |cs| ==> r[i] == Normalize(cs[i])
  {
    seq(|cs|, i requires 0 <= i < |cs| => Normalize(cs[i]))
  }
}
