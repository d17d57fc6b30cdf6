/**
  The contacts view (components/features/contacts/ContactsView.tsx): the local contact list
  with optimistic updates and deletes that revert to the initial list when the parent handler
  throws, the selection, the add mode and the loading flag.
*/
module ContactsView {
  import opened Wrappers
  import opened Contacts
  import Seqs

  /** `prev.map(c => c.id === id ? { ...c, ...updates } : c)`. */
  function ApplyUpdate(contacts: seq<Contact>, id: string, u: ContactUpdate): (r: seq<Contact>)
    ensures |r| == |contacts|
    ensures forall i | 0 <= i < |r| && contacts[i].id != id :: r[i] == contacts[i]
    ensures forall i | 0 <= i < |r| && contacts[i].id == id :: r[i] == Merge(contacts[i], u)
    ensures u.id.None? ==> forall i | 0 <= i < |r| :: r[i].id == contacts[i].id
  {
    seq(|contacts|, i requires 0 <= i < |contacts| =>
      if contacts[i].id == id then Merge(contacts[i], u) else contacts[i])
  }

  function Keeps(id: string): Contact -> bool {
    (c: Contact) => c.id != id
  }

  /** `prev.filter(c => c.id !== id)`. */
  function RemoveId(contacts: seq<Contact>, id: string): (r: seq<Contact>)
    ensures Seqs.IsSubseq(r, contacts)
    ensures forall c | c in r :: c.id != id
    ensures forall c | c in contacts && c.id != id :: c in r
  {
    Seqs.FilterIsSubseq(contacts, Keeps(id));
    Seqs.Filter(contacts, Keeps(id))
  }

  /** Removing an id no contact has changes nothing. */
  lemma RemoveAbsentId(contacts: seq<Contact>, id: string)
    requires forall i | 0 <= i < |contacts| :: contacts[i].id != id
    ensures RemoveId(contacts, id) == contacts
  {
    Seqs.FilterAll(contacts, Keeps(id));
  }

  /** An update of an id no contact has changes nothing. */
  lemma UpdateAbsentId(contacts: seq<Contact>, id: string, u: ContactUpdate)
    requires forall i | 0 <= i < |contacts| :: contacts[i].id != id
    ensures ApplyUpdate(contacts, id, u) == contacts
  {
  }

  class View {
    /** The `initialContacts` prop. */
    var initial: seq<Contact>
    var contacts: seq<Contact>
    var selected: Option<string>
    var adding: bool
    var loading: bool

    constructor(initialContacts: seq<Contact>)
      ensures initial == initialContacts && contacts == initialContacts
      ensures selected == None && !adding && !loading
    {
      initial := initialContacts;
      contacts := initialContacts;
      selected := None;
      adding := false;
      loading := false;
    }

    /** A new `initialContacts` prop replaces the local list. */
    method InitialChanged(initialContacts: seq<Contact>)
      modifies this
      ensures initial == initialContacts && contacts == initialContacts
      ensures selected == old(selected) && adding == old(adding) && loading == old(loading)
    {
      initial := initialContacts;
      contacts := initialContacts;
    }

    /** `handleContactSelect`: selecting a contact leaves add mode. */
    method Select(id: string)
      modifies this
      ensures selected == Some(id) && !adding
      ensures initial == old(initial) && contacts == old(contacts) && loading == old(loading)
    {
      selected := Some(id);
      adding := false;
    }

    /** `handleStartAddContact`: add mode clears the selection. */
    method StartAdd()
      modifies this
      ensures adding && selected == None
      ensures initial == old(initial) && contacts == old(contacts) && loading == old(loading)
    {
      adding := true;
      selected := None;
    }

    /** `handleCancelAddContact`. */
    method CancelAdd()
      modifies this
      ensures !adding
      ensures initial == old(initial) && contacts == old(contacts)
      ensures selected == old(selected) && loading == old(loading)
    {
      adding := false;
    }

    /** `handleContactUpdate`: the update is merged into the contacts with that id at once;
        when a parent handler is given (`hasHandler`) and throws (`fails`) the list reverts
        to the initial contacts. */
    method Update(id: string, u: ContactUpdate, hasHandler: bool, fails: bool)
      modifies this
      ensures !(hasHandler && fails) ==> contacts == ApplyUpdate(old(contacts), id, u)
      ensures hasHandler && fails ==> contacts == old(initial)
      ensures !loading
      ensures initial == old(initial) && selected == old(selected) && adding == old(adding)
    {
      loading := true;
      contacts := ApplyUpdate(contacts, id, u);
      if hasHandler && fails {
        contacts := initial;
      }
      loading := false;
    }

    /** `handleContactCreate`: a successful create through a given handler leaves add mode; a
        failed one stays in add mode and is reported back to the form (`rethrown`). */
    method Create(hasHandler: bool, fails: bool) returns (rethrown: bool)
      modifies this
      ensures rethrown <==> hasHandler && fails
      ensures hasHandler && !fails ==> !adding
      ensures !(hasHandler && !fails) ==> adding == old(adding)
      ensures !loading
      ensures initial == old(initial) && contacts == old(contacts) && selected == old(selected)
    {
      loading := true;
      rethrown := false;
      if hasHandler {
        if fails {
          rethrown := true;
        } else {
          adding := false;
        }
      }
      loading := false;
    }

    /** `handleContactDelete`: the contacts with that id are removed at once and a selection of
        that id is cleared; when a given parent handler throws the list reverts to the
        initial contacts, but the selection stays cleared. */
    method Delete(id: string, hasHandler: bool, fails: bool)
      modifies this
      ensures !(hasHandler && fails) ==> contacts == RemoveId(old(contacts), id)
      ensures hasHandler && fails ==> contacts == old(initial)
      ensures old(selected) == Some(id) ==> selected == None
      ensures old(selected) != Some(id) ==> selected == old(selected)
      ensures !loading
      ensures initial == old(initial) && adding == old(adding)
    {
      loading := true;
      contacts := RemoveId(contacts, id);
      if selected == Some(id) {
        selected := None;
      }
      if hasHandler && fails {
        contacts := initial;
      }
      loading := false;
    }
  }

  /** After a delete that fails, the deleted contact is back in the list but no longer
      selected. */
  method FailedDeleteOfSelected(c: Contact) returns (listed: bool, selection: Option<string>)
    ensures listed && selection == None
  {
    var v := new View([c]);
    v.Select(c.id);
    v.Delete(c.id, true, true);
    listed := c in v.contacts;
    selection := v.selected;
  }
}
