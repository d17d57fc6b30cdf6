/**
  The contacts list (components/features/contacts/ContactsList.tsx): the search and status
  filter, the per-status counts, and the quick status change.
*/
module ContactsList {
  import opened Wrappers
  import opened Strings
  import opened Contacts
  import Seqs

  /** `x?.toLowerCase().includes(term.toLowerCase())`: false for a null field. */
  predicate FieldMatches(x: Option<string>, term: string) {
    x.Some? && Contains(Lower(x.value), Lower(term))
  }

  /** The search term occurs, ignoring case, in the name, company or e-mail. */
  predicate MatchesSearch(c: Contact, term: string) {
    Contains(Lower(c.name), Lower(term)) || FieldMatches(c.company, term) || FieldMatches(c.email, term)
  }

  /** The status filter is ALL or the contact's status. */
  predicate MatchesStatus(c: Contact, filter: string) {
    filter == "ALL" || c.leadStatus == filter
  }

  function Shown(term: string, filter: string): Contact -> bool {
    (c: Contact) => MatchesSearch(c, term) && MatchesStatus(c, filter)
  }

  /** `filteredContacts`. */
  function Filtered(contacts: seq<Contact>, term: string, filter: string): (r: seq<Contact>)
    ensures Seqs.IsSubseq(r, contacts)
    ensures forall c | c in r :: MatchesSearch(c, term) && MatchesStatus(c, filter)
    ensures forall c | c in contacts && MatchesSearch(c, term) && MatchesStatus(c, filter) :: c in r
  {
    Seqs.FilterIsSubseq(contacts, Shown(term, filter));
    Seqs.Filter(contacts, Shown(term, filter))
  }

  /** An empty search with filter ALL shows every contact, in order. */
  lemma ShowAll(contacts: seq<Contact>)
    ensures Filtered(contacts, "", "ALL") == contacts
  {
    forall i | 0 <= i < |contacts| ensures Shown("", "ALL")(contacts[i]) {
      ContainsEmpty(Lower(contacts[i].name));
    }
    Seqs.FilterAll(contacts, Shown("", "ALL"));
  }

  function HasStatus(status: string): Contact -> bool {
    (c: Contact) => c.leadStatus == status
  }

  /** `statusCounts`. */
  datatype StatusCounts = StatusCounts(all: nat, hot: nat, warm: nat, cold: nat)

  function Counts(contacts: seq<Contact>): StatusCounts {
    StatusCounts(|contacts|, Seqs.Count(contacts, HasStatus("HOT")),
      Seqs.Count(contacts, HasStatus("WARM")), Seqs.Count(contacts, HasStatus("COLD")))
  }

  /** A contact whose status is none of HOT, WARM and COLD. */
  function OtherStatus(): Contact -> bool {
    (c: Contact) => c.leadStatus !in {"HOT", "WARM", "COLD"}
  }

  /** The three status counts and the contacts with any other status make up the total. */
  lemma {:induction false} CountsSplit(contacts: seq<Contact>)
    ensures var r := Counts(contacts);
      r.hot + r.warm + r.cold + Seqs.Count(contacts, OtherStatus()) == r.all
    decreases |contacts|
  {
    if contacts != [] {
      CountsSplit(contacts[1..]);
    }
  }

  /** The HOT, WARM and COLD badges never add up to more than ALL, and add up to exactly ALL
      when every contact has one of those statuses. */
  lemma CountsPartition(contacts: seq<Contact>)
    ensures var r := Counts(contacts); r.hot + r.warm + r.cold <= r.all
    ensures (forall c | c in contacts :: c.leadStatus in {"HOT", "WARM", "COLD"}) ==>
      var r := Counts(contacts); r.hot + r.warm + r.cold == r.all
  {
    CountsSplit(contacts);
    if forall c | c in contacts :: c.leadStatus in {"HOT", "WARM", "COLD"} {
      forall i | 0 <= i < |contacts|
        ensures !OtherStatus()(contacts[i])
      {
        assert contacts[i] in contacts;
      }
      Seqs.FilterNone(contacts, OtherStatus());
    }
  }

  /** The count shown on the badge of a status. */
  function CountOf(counts: StatusCounts, status: string): nat {
    match status
    case "HOT" => counts.hot
    case "WARM" => counts.warm
    case "COLD" => counts.cold
    case _ => counts.all
  }

  /** With an empty search, filtering by HOT, WARM or COLD lists as many contacts as the
      status's badge counts. */
  lemma FilteredCountMatchesBadge(contacts: seq<Contact>, status: string)
    requires status in {"HOT", "WARM", "COLD"}
    ensures |Filtered(contacts, "", status)| == CountOf(Counts(contacts), status)
  {
    forall i | 0 <= i < |contacts|
      ensures Shown("", status)(contacts[i]) == HasStatus(status)(contacts[i])
    {
      ContainsEmpty(Lower(contacts[i].name));
    }
    Seqs.FilterExt(contacts, Shown("", status), HasStatus(status));
  }

  /** `handleQuickStatusUpdate`: the update sent for the contact, if a handler is given. */
  function QuickStatusUpdate(contactId: string, newStatus: string, hasHandler: bool): (r: Option<(string, ContactUpdate)>)
    ensures r.Some? <==> hasHandler
    ensures r.Some? ==> r.value.0 == contactId && r.value.1 == StatusOnly(newStatus)
  {
    if hasHandler then Some((contactId, StatusOnly(newStatus))) else None
  }
}
