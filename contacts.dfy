/**
  The contact record shared by the contacts list and the contacts view
  (components/features/contacts/ContactsList.tsx, components/features/contacts/ContactsView.tsx),
  and the partial update `{ ...contact, ...updates }` the view applies.
*/
module Contacts {
  import opened Wrappers

  /** The fields the list and the view consult; e-mail and company may be null. */
  datatype Contact = Contact(
    id: string, name: string, email: Option<string>, company: Option<string>,
    leadStatus: string, notes: string)

  /** A `Partial<Contact>`: a present field overrides the contact's. */
  datatype ContactUpdate = ContactUpdate(
    id: Option<string>, name: Option<string>, email: Option<Option<string>>,
    company: Option<Option<string>>, leadStatus: Option<string>, notes: Option<string>)

  /** The empty update `{}`. */
  const NoChange := ContactUpdate(None, None, None, None, None, None)

  /** The update carrying only a lead status. */
  function StatusOnly(status: string): ContactUpdate {
    ContactUpdate(None, None, None, None, Some(status), None)
  }

  /** `{ ...c, ...u }`: each field present in `u` replaces the contact's, the others stay. */
  function Merge(c: Contact, u: ContactUpdate): (r: Contact)
    ensures u == NoChange ==> r == c
    ensures u.id.None? ==> r.id == c.id
    ensures u.id.Some? ==> r.id == u.id.value
    ensures u.name.None? ==> r.name == c.name
    ensures u.name.Some? ==> r.name == u.name.value
    ensures u.email.None? ==> r.email == c.email
    ensures u.email.Some? ==> r.email == u.email.value
    ensures u.company.None? ==> r.company == c.company
    ensures u.company.Some? ==> r.company == u.company.value
    ensures u.leadStatus.None? ==> r.leadStatus == c.leadStatus
    ensures u.leadStatus.Some? ==> r.leadStatus == u.leadStatus.value
    ensures u.notes.None? ==> r.notes == c.notes
    ensures u.notes.Some? ==> r.notes == u.notes.value
  {
    Contact(u.id.GetOr(c.id), u.name.GetOr(c.name), u.email.GetOr(c.email),
      u.company.GetOr(c.company), u.leadStatus.GetOr(c.leadStatus), u.notes.GetOr(c.notes))
  }

  /** A status-only update changes the lead status and nothing else. */
  lemma StatusOnlyMerge(c: Contact, status: string)
    ensures Merge(c, StatusOnly(status)) == c.(leadStatus := status)
  {
  }

  /** Merging the same update twice is merging it once. */
  lemma MergeIdempotent(c: Contact, u: ContactUpdate)
    ensures Merge(Merge(c, u), u) == Merge(c, u)
  {
  }
}
