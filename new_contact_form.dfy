/**
  The new-contact form (components/features/contacts/NewContactForm.tsx): the field values,
  the validation that fills an error map, the per-field edit that clears that field's error,
  and the submit guard.
*/
module NewContactForm {
  import opened Wrappers
  import opened Strings

  /** The text fields of the form. */
  datatype Field = Name | Email | Phone | Company | Position | LinkedinUrl | LeadStatus | Notes

  datatype FormData = FormData(
    name: string, email: string, phone: string, company: string, position: string,
    linkedinUrl: string, leadStatus: string, notes: string, photo: Option<string>)

  /** The value of a text field. */
  function Get(d: FormData, f: Field): string {
    match f
    case Name => d.name
    case Email => d.email
    case Phone => d.phone
    case Company => d.company
    case Position => d.position
    case LinkedinUrl => d.linkedinUrl
    case LeadStatus => d.leadStatus
    case Notes => d.notes
  }

  /** `{ ...prev, [field]: value }`. */
  function With(d: FormData, f: Field, value: string): (r: FormData)
    ensures Get(r, f) == value && r.photo == d.photo
    ensures forall g | g != f :: Get(r, g) == Get(d, g)
  {
    match f
    case Name => d.(name := value)
    case Email => d.(email := value)
    case Phone => d.(phone := value)
    case Company => d.(company := value)
    case Position => d.(position := value)
    case LinkedinUrl => d.(linkedinUrl := value)
    case LeadStatus => d.(leadStatus := value)
    case Notes => d.(notes := value)
  }

  /** The initial values: everything empty, lead status COLD and no photo. */
  const Initial := FormData("", "", "", "", "", "", "COLD", "", None)

  // ---------------------------------------------------------------------------------------
  // The e-mail rule

  /** `/^[^\s@]+@[^\s@]+\.[^\s@]+$/` read literally: no white space, a single '@' at some
      position `a` after a non-empty prefix, and a '.' at some position `d` with at least one
      character between the '@' and it and at least one after it. */
  predicate EmailPattern(s: string) {
    && (forall i | 0 <= i < |s| :: !IsSpace(s[i]))
    && exists a, d | 0 < a && a + 1 < d && d + 1 < |s| ::
         && s[a] == '@' && s[d] == '.'
         && forall i | 0 <= i < |s| && s[i] == '@' :: i == a
  }

  /** The e-mail test decided piece by piece: no white space, splitting on '@' gives exactly
      a non-empty local part and a domain, and the domain has a '.' that is neither its first
      nor its last character. */
  predicate EmailOk(s: string) {
    && (forall i | 0 <= i < |s| :: !IsSpace(s[i]))
    && var parts := Split(s, '@');
       && |parts| == 2 && parts[0] != []
       && |parts[1]| >= 3 && '.' in parts[1][1..|parts[1]| - 1]
  }

  /** Every text the regular expression accepts passes the piecewise test. */
  lemma PatternPassesTest(s: string)
    requires EmailPattern(s)
    ensures EmailOk(s)
  {
    var a, d :| 0 < a && a + 1 < d && d + 1 < |s| && s[a] == '@' && s[d] == '.'
      && forall i | 0 <= i < |s| && s[i] == '@' :: i == a;
    SplitAtOnlySeparator(s, a);
    var domain := s[a + 1..];
    assert domain[1..|domain| - 1][d - a - 2] == s[d];
  }

  /** A text with a single '@', at `a`, splits into the text before and the text after it. */
  lemma SplitAtOnlySeparator(s: string, a: nat)
    requires a < |s| && s[a] == '@' && forall i | 0 <= i < |s| && s[i] == '@' :: i == a
    ensures Split(s, '@') == [s[..a], s[a + 1..]]
  {
    var local, domain := s[..a], s[a + 1..];
    assert s == local + ['@'] + domain;
    assert '@' !in local by {
      forall i | 0 <= i < |local| ensures local[i] != '@' { assert local[i] == s[i]; }
    }
    assert '@' !in domain by {
      forall i | 0 <= i < |domain| ensures domain[i] != '@' { assert domain[i] == s[a + 1 + i]; }
    }
    SplitAppendSep(local, '@', domain);
    SplitNoSep(local, '@');
    SplitNoSep(domain, '@');
  }

  /** Every text passing the piecewise test matches the regular expression. */
  lemma TestMatchesPattern(s: string)
    requires EmailOk(s)
    ensures EmailPattern(s)
  {
    var parts := Split(s, '@');
    JoinSplit(s, '@');
    SplitPiecesFree(s, '@');
    assert parts[0] in parts && parts[1] in parts;
    assert parts[1..] == [parts[1]];
    assert s == parts[0] + ['@'] + parts[1];
    var a := |parts[0]|;
    var domain := parts[1];
    var k :| 0 <= k < |domain| - 2 && domain[1..|domain| - 1][k] == '.';
    var d := a + 2 + k;
    assert s[a] == '@' && s[d] == '.';
  }

  /** The piecewise test agrees with the regular expression on every input. */
  lemma EmailOkIff(s: string)
    ensures EmailOk(s) <==> EmailPattern(s)
  {
    if EmailPattern(s) {
      PatternPassesTest(s);
    }
    if EmailOk(s) {
      TestMatchesPattern(s);
    }
  }

  /** Examples of the rule: it is a plain pattern, not a full address grammar. */
  lemma EmailExamples()
    ensures EmailPattern("a@b.co")
    ensures !EmailPattern("a@b")
    ensures !EmailPattern("a@@b.co")
  {
    assert "a@b.co"[1] == '@' && "a@b.co"[3] == '.';
    assert "a@@b.co"[1] == '@' && "a@@b.co"[2] == '@';
  }

  // ---------------------------------------------------------------------------------------
  // Validation

  const NameRequired := "Name is required"
  const InvalidEmail := "Please enter a valid email address"
  const InvalidLinkedin := "Please enter a valid LinkedIn URL"

  /** The error map `validateForm` builds. */
  function Validate(d: FormData): (errors: map<Field, string>)
    ensures Name in errors <==> Trim(d.name) == []
    ensures Email in errors <==> d.email != "" && !EmailPattern(d.email)
    ensures LinkedinUrl in errors <==> d.linkedinUrl != "" && !Contains(d.linkedinUrl, "linkedin.com")
    ensures errors.Keys <= {Name, Email, LinkedinUrl}
    ensures forall f | f in errors :: errors[f] != ""
  {
    EmailOkIff(d.email);
    var e1: map<Field, string> := if Trim(d.name) == [] then map[Name := NameRequired] else map[];
    var e2 := if d.email != "" && !EmailOk(d.email) then e1[Email := InvalidEmail] else e1;
    if d.linkedinUrl != "" && !Contains(d.linkedinUrl, "linkedin.com") then
      e2[LinkedinUrl := InvalidLinkedin]
    else e2
  }

  /** `validateForm()`'s result: the error map is empty. */
  predicate Valid(d: FormData) {
    |Validate(d)| == 0
  }

  /** The form is valid exactly when the name is non-blank, the e-mail is empty or matches the
      pattern, and the LinkedIn URL is empty or mentions linkedin.com. */
  lemma ValidIff(d: FormData)
    ensures Valid(d) <==>
      && Trim(d.name) != []
      && (d.email == "" || EmailPattern(d.email))
      && (d.linkedinUrl == "" || Contains(d.linkedinUrl, "linkedin.com"))
  {
    var errors := Validate(d);
    if !Valid(d) {
      var f :| f in errors;
    }
  }

  /** `isFormValid`, which enables the button, only asks for a non-blank name: every valid
      form has one, but a form with a bad e-mail can still be enabled. */
  lemma EnabledIsWeaker(d: FormData)
    ensures Valid(d) ==> Trim(d.name) != []
    ensures var bad := d.(name := "Ann", email := "ann");
      Trim(bad.name) != [] && !Valid(bad)
  {
    ValidIff(d);
    var bad := d.(name := "Ann", email := "ann");
    assert "Ann"[0] == 'A' && "Ann"[2] == 'n';
    assert Email in Validate(bad);
  }

  // ---------------------------------------------------------------------------------------
  // The form state

  class ContactForm {
    var data: FormData
    var errors: map<Field, string>
    var isSaving: bool
    /** The values handed to `onSubmit`, oldest first. */
    var submitted: seq<FormData>

    constructor()
      ensures data == Initial && errors == map[] && !isSaving && submitted == []
    {
      data := Initial;
      errors := map[];
      isSaving := false;
      submitted := [];
    }

    /** `handleInputChange`: the field takes the value and its error, if any, is cleared; every
        other field and error is kept. */
    method InputChange(f: Field, value: string)
      modifies this
      ensures data == With(old(data), f, value)
      ensures errors == old(errors) - {f}
      ensures isSaving == old(isSaving) && submitted == old(submitted)
    {
      data := With(data, f, value);
      if f in errors {
        errors := errors - {f};
      }
    }

    /** `handlePhotoChange`. */
    method PhotoChange(photo: Option<string>)
      modifies this
      ensures data == old(data).(photo := photo)
      ensures errors == old(errors) && isSaving == old(isSaving) && submitted == old(submitted)
    {
      data := data.(photo := photo);
    }

    /** `handleSubmit`: the errors are replaced by the validation's, and `onSubmit` receives
        the values only when they are valid; whether it throws or not, saving ends. */
    method Submit() returns (called: bool)
      modifies this
      ensures called <==> Valid(old(data))
      ensures errors == Validate(old(data)) && data == old(data)
      ensures called ==> submitted == old(submitted) + [old(data)] && !isSaving
      ensures !called ==> submitted == old(submitted) && isSaving == old(isSaving)
    {
      errors := Validate(data);
      if |errors| != 0 {
        return false;
      }
      isSaving := true;
      submitted := submitted + [data];
      isSaving := false;
      called := true;
    }

    /** `handleCancel`: the cancel callback runs unless a save is in progress. */
    method Cancel() returns (cancelled: bool)
      ensures cancelled <==> !isSaving
    {
      cancelled := !isSaving;
    }

    /** `isFormValid`. */
    function IsFormValid(): bool
      reads this
    {
      Trim(data.name) != []
    }
  }

  /** Editing a field leaves every other field as it was. */
  lemma EditIsLocal(d: FormData, f: Field, value: string, g: Field)
    requires g != f
    ensures Get(With(d, f, value), g) == Get(d, g)
    ensures With(d, f, value).photo == d.photo
  {
  }
}
