/** The "Assign Tenant" modal: pick an existing tenant, or type a new one whose phone is
    normalised to digits as it is typed, whose e-mail is checked against the address
    pattern, and whose Create & Assign button is enabled only for a valid form. */
module AssignTenant {
  import opened Wrappers
  import opened Seqs
  import opened Text

  const PhoneLength: nat := 11
  const PhoneErrorText: string := "Phone must be exactly 11 digits"
  const EmailErrorText: string := "Invalid email format"

  /** A row of the tenants table as this modal reads it. */
  datatype ListedTenant = ListedTenant(
    id: string,
    fullName: string,
    phoneNumber: Option<string>,
    email: Option<string>,
    moveInDate: Option<string>)

  datatype NewTenantForm = NewTenantForm(fullName: string, phoneNumber: string, email: string, moveInDate: string)

  /** The messages shown under the phone and e-mail inputs; "" shows nothing. */
  datatype FieldErrors = FieldErrors(phone: string, email: string)

  /** `value.replace(/\D/g, '').slice(0, 11)`: the first eleven (or fewer) decimal
      digits of the input, in input order. */
  function NormalizePhone(value: string): (r: string)
    ensures |r| <= PhoneLength
    ensures forall i :: 0 <= i < |r| ==> IsDigit(r[i])
    ensures |r| == Min(PhoneLength, |Digits(value)|) && r == Digits(value)[..|r|]
  {
    var r := Slice(Digits(value), 0, PhoneLength);
    assert r == Digits(value)[..|r|];
    r
  }

  /** Typing into the phone input again changes nothing: the stored value is already
      normalised. */
  lemma NormalizePhoneIdempotent(value: string)
    ensures NormalizePhone(NormalizePhone(value)) == NormalizePhone(value)
  {
    var phone := NormalizePhone(value);
    KeepAll(phone, IsDigit);
    assert Digits(phone) == phone;
    assert phone[..|phone|] == phone;
  }

  /** `/^\d{11}$/.test(phone)` */
  predicate IsElevenDigits(phone: string) {
    |phone| == PhoneLength && forall i :: 0 <= i < |phone| ==> IsDigit(phone[i])
  }

  /** The message `handlePhoneChange` sets for a normalised phone: none exactly when it
      has eleven characters. */
  function PhoneError(phone: string): (r: string)
    ensures r == "" <==> |phone| == PhoneLength
    ensures r != "" ==> r == PhoneErrorText
  {
    if |phone| != PhoneLength then PhoneErrorText else ""
  }

  /** For a phone the input handler produced, the pattern test of the validity check and
      the absence of a phone message agree. */
  lemma PhoneCheckAgreesWithError(value: string)
    ensures IsElevenDigits(NormalizePhone(value)) <==> PhoneError(NormalizePhone(value)) == ""
  {
  }

  /** The class `[^\s@]`. */
  predicate IsAddressChar(c: char) {
    !IsSpace(c) && c != '@'
  }

  /** `/^[^\s@]+@[^\s@]+\.[^\s@]+$/.test(s)`, read position by position: some '@' and
      '.' positions make `s` match (`EmailShapeAt`). */
  predicate IsEmailShape(s: string)
    ensures IsEmailShape(s) ==> 5 <= |s| && '@' in s && '.' in s
  {
    exists at, dot | 0 <= at < |s| && 0 <= dot < |s| :: EmailShapeAt(s, at, dot)
  }

  /** An '@' at `at` after at least one character, a '.' at `dot` with at least one
      character between them and at least one after it, and every other character in
      `[^\s@]`. */
  predicate EmailShapeAt(s: string, at: int, dot: int) {
    && 1 <= at && at + 2 <= dot && dot + 2 <= |s|
    && s[at] == '@' && s[dot] == '.'
    && forall k | 0 <= k < |s| && k != at :: IsAddressChar(s[k])
  }

  predicate AllAddressChars(s: string) {
    forall k :: 0 <= k < |s| ==> IsAddressChar(s[k])
  }

  /** The index of the first `c` in `s`, if any. */
  function IndexOf(s: string, c: char): (r: Option<nat>)
    ensures r.None? ==> forall k :: 0 <= k < |s| ==> s[k] != c
    ensures r.Some? ==> r.value < |s| && s[r.value] == c && forall k :: 0 <= k < r.value ==> s[k] != c
    decreases |s|
  {
    if s == [] then None
    else if s[0] == c then Some(0)
    else
      var r := IndexOf(s[1..], c);
      assert forall k :: 1 <= k < |s| ==> s[k] == s[1..][k - 1];
      if r.None? then None else Some(r.value + 1)
  }

  /** The address split at its first '@': a non-empty local part of `[^\s@]`
      characters, and a domain of `[^\s@]` characters with a '.' that is neither its
      first nor its last character. */
  predicate SplitsAsEmail(s: string) {
    match IndexOf(s, '@')
    case None => false
    case Some(at) =>
      && at >= 1
      && AllAddressChars(s[..at]) && AllAddressChars(s[at + 1..])
      && HasInnerDot(s[at + 1..])
  }

  /** A '.' that is neither the first nor the last character. */
  predicate HasInnerDot(domain: string) {
    exists d | 1 <= d < |domain| - 1 :: domain[d] == '.'
  }

  /** The pattern accepts exactly the strings with one '@', something before it, and an
      inner '.' after it. */
  lemma EmailShapeIsSplit(s: string)
    ensures IsEmailShape(s) <==> SplitsAsEmail(s)
  {
    if IsEmailShape(s) {
      var at, dot :| 0 <= at < |s| && 0 <= dot < |s| && EmailShapeAt(s, at, dot);
      ShapeSplits(s, at, dot);
    }
    if SplitsAsEmail(s) {
      SplitHasShape(s);
    }
  }

  /** A match splits at its '@', which is the first one. */
  lemma ShapeSplits(s: string, at: int, dot: int)
    requires EmailShapeAt(s, at, dot)
    ensures SplitsAsEmail(s)
  {
    assert IndexOf(s, '@') == Some(at);
    var domain := s[at + 1..];
    assert domain[dot - at - 1] == '.';
    assert AllAddressChars(s[..at]) by {
      forall k | 0 <= k < at ensures IsAddressChar(s[..at][k]) {
        assert s[..at][k] == s[k];
      }
    }
    assert AllAddressChars(domain) by {
      forall k | 0 <= k < |domain| ensures IsAddressChar(domain[k]) {
        assert domain[k] == s[at + 1 + k];
      }
    }
  }

  /** A split address matches at its first '@' and the inner '.' of its domain. */
  lemma SplitHasShape(s: string)
    requires SplitsAsEmail(s)
    ensures IsEmailShape(s)
  {
    var at := IndexOf(s, '@').value;
    var domain := s[at + 1..];
    var d :| 1 <= d < |domain| - 1 && domain[d] == '.';
    var dot := at + 1 + d;
    assert s[dot] == '.';
    forall k | 0 <= k < |s| && k != at ensures IsAddressChar(s[k]) {
      if k < at {
        assert s[k] == s[..at][k];
      } else {
        assert s[k] == domain[k - at - 1];
      }
    }
    assert EmailShapeAt(s, at, dot);
  }

  /** The message `handleEmailChange` sets: only for a non-empty address that does not
      match the pattern. */
  function EmailError(value: string): (r: string)
    ensures r != "" <==> value != "" && !IsEmailShape(value)
  {
    if value != "" && !IsEmailShape(value) then EmailErrorText else ""
  }

  /** `isFormValid`: the Create & Assign button is enabled. A valid form has a name that
      is not blank, a phone of eleven digits, and an e-mail for which the e-mail handler
      shows no message. */
  predicate IsFormValid(form: NewTenantForm)
    ensures IsFormValid(form) ==> !IsBlank(form.fullName) && PhoneError(form.phoneNumber) == ""
    ensures IsFormValid(form) ==> EmailError(form.email) == ""
  {
    && Trim(form.fullName) != ""
    && IsElevenDigits(form.phoneNumber)
    && (form.email == "" || IsEmailShape(form.email))
  }

  /** Once the phone and e-mail messages are those the handlers set for the current
      values, the form is valid exactly when the name is not blank and no message is
      shown. */
  lemma FormValidIffNoErrors(form: NewTenantForm, errors: FieldErrors)
    requires forall i :: 0 <= i < |form.phoneNumber| ==> IsDigit(form.phoneNumber[i])
    requires errors.phone == PhoneError(form.phoneNumber)
    requires errors.email == EmailError(form.email)
    ensures IsFormValid(form) <==> !IsBlank(form.fullName) && errors.phone == "" && errors.email == ""
  {
  }

  /** The tenant row `handleCreateNewTenant` inserts. */
  datatype TenantInsert = TenantInsert(fullName: string, phoneNumber: string, email: string, moveInDate: string)

  /** `{ ...newTenant, move_in_date: newTenant.move_in_date || today }`: the form as
      typed, with an empty move-in date replaced by today. */
  function NewTenantRow(form: NewTenantForm, today: string): (r: TenantInsert)
    ensures r.fullName == form.fullName && r.phoneNumber == form.phoneNumber && r.email == form.email
    ensures form.moveInDate != "" ==> r.moveInDate == form.moveInDate
    ensures form.moveInDate == "" ==> r.moveInDate == today
  {
    TenantInsert(form.fullName, form.phoneNumber, form.email, if form.moveInDate != "" then form.moveInDate else today)
  }

  /** A row of `apartment_tenants` linking a tenant to the apartment. */
  datatype LinkRow = LinkRow(apartmentId: string, tenantId: string)

  class AssignTenantModal {
    const apartmentId: string
    var tenants: seq<ListedTenant>
    var selectedTenantId: string
    var showNewTenantForm: bool
    var newTenant: NewTenantForm
    var errors: FieldErrors
    /** Whether the phone input has been edited: before that no phone message is shown
        although the empty phone is not valid. */
    ghost var phoneEdited: bool

    ghost predicate Valid()
      reads this`newTenant, this`errors, this`phoneEdited
    {
      && (forall i :: 0 <= i < |newTenant.phoneNumber| ==> IsDigit(newTenant.phoneNumber[i]))
      && |newTenant.phoneNumber| <= PhoneLength
      && (phoneEdited ==> errors.phone == PhoneError(newTenant.phoneNumber))
      && (!phoneEdited ==> newTenant.phoneNumber == "" && errors.phone == "")
      && errors.email == EmailError(newTenant.email)
    }

    /** Mounting; `today` is `new Date().toISOString().split('T')[0]` at the first render,
        the initial move-in date. */
    constructor (apartmentId: string, today: string)
      ensures Valid()
      ensures this.apartmentId == apartmentId
      ensures tenants == [] && selectedTenantId == "" && !showNewTenantForm
      ensures newTenant == NewTenantForm("", "", "", today) && errors == FieldErrors("", "")
    {
      this.apartmentId := apartmentId;
      tenants := [];
      selectedTenantId := "";
      showNewTenantForm := false;
      newTenant := NewTenantForm("", "", "", today);
      errors := FieldErrors("", "");
      phoneEdited := false;
    }

    /** The mount-time fetch: the rows replace the list when the backend answers with
        data. */
    method TenantsLoaded(data: Option<seq<ListedTenant>>)
      requires Valid()
      modifies this`tenants
      ensures Valid()
      ensures tenants == if data.Some? then data.value else old(tenants)
    {
      if data.Some? {
        tenants := data.value;
      }
    }

    /** `handlePhoneChange`: the normalised value is stored, and the phone message is
        set exactly when it does not have eleven digits. */
    method PhoneChanged(value: string)
      requires Valid()
      modifies this`newTenant, this`errors, this`phoneEdited
      ensures Valid() && phoneEdited
      ensures newTenant == old(newTenant).(phoneNumber := NormalizePhone(value))
      ensures errors == old(errors).(phone := PhoneError(NormalizePhone(value)))
      ensures errors.phone == "" <==> |NormalizePhone(value)| == PhoneLength
    {
      var numeric := NormalizePhone(value);
      newTenant := newTenant.(phoneNumber := numeric);
      if |numeric| != PhoneLength {
        errors := errors.(phone := PhoneErrorText);
      } else {
        errors := errors.(phone := "");
      }
      phoneEdited := true;
    }

    /** `handleEmailChange`: the value is stored as typed, and the e-mail message is set
        exactly when it is non-empty and does not match the pattern. */
    method EmailChanged(value: string)
      requires Valid()
      modifies this`newTenant, this`errors
      ensures Valid()
      ensures newTenant == old(newTenant).(email := value)
      ensures errors.phone == old(errors).phone
      ensures errors.email != "" <==> value != "" && !IsEmailShape(value)
    {
      newTenant := newTenant.(email := value);
      if value != "" && !IsEmailShape(value) {
        errors := errors.(email := EmailErrorText);
      } else {
        errors := errors.(email := "");
      }
    }

    method FullNameChanged(value: string)
      requires Valid()
      modifies this`newTenant
      ensures Valid() && newTenant == old(newTenant).(fullName := value)
    {
      newTenant := newTenant.(fullName := value);
    }

    method MoveInDateChanged(value: string)
      requires Valid()
      modifies this`newTenant
      ensures Valid() && newTenant == old(newTenant).(moveInDate := value)
    {
      newTenant := newTenant.(moveInDate := value);
    }

    method TenantChosen(id: string)
      requires Valid()
      modifies this`selectedTenantId
      ensures Valid() && selectedTenantId == id
    {
      selectedTenantId := id;
    }

    method NewTenantFormToggled(show: bool)
      requires Valid()
      modifies this`showNewTenantForm
      ensures Valid() && showNewTenantForm == show
    {
      showNewTenantForm := show;
    }

    /** The Create & Assign button is enabled exactly when no phone or e-mail message
        is shown, the phone has been typed into, and the name is not blank. */
    lemma CreateEnabledIffNoErrors()
      requires Valid()
      ensures IsFormValid(newTenant) <==>
                phoneEdited && !IsBlank(newTenant.fullName) && errors.phone == "" && errors.email == ""
    {
      if phoneEdited {
        FormValidIffNoErrors(newTenant, errors);
      }
    }

    /** Create & Assign (`handleCreateNewTenant`, behind `disabled={!isFormValid}`):
        nothing while the form is invalid; otherwise the tenant row is inserted, and when
        the backend returns its id (`createdId`) that tenant becomes the selection and is
        linked to the apartment. `today` is the date as computed by the render whose
        handler runs, the fallback for an empty move-in date. */
    method CreateAndAssignClicked(today: string, createdId: Option<string>) returns (insert: Option<TenantInsert>, link: Option<LinkRow>)
      requires Valid()
      modifies this`selectedTenantId
      ensures Valid()
      ensures insert.None? <==> !IsFormValid(newTenant)
      ensures insert.Some? ==> insert.value == NewTenantRow(newTenant, today)
      ensures link.Some? <==> insert.Some? && createdId.Some?
      ensures link.Some? ==> link.value == LinkRow(apartmentId, createdId.value) && selectedTenantId == createdId.value
      ensures link.None? ==> selectedTenantId == old(selectedTenantId)
    {
      var form := newTenant;
      var valid := IsFormValid(form);
      insert, link := None, None;
      if valid {
        insert := Some(NewTenantRow(form, today));
        if createdId.Some? {
          selectedTenantId := createdId.value;
          link := Some(LinkRow(apartmentId, createdId.value));
        }
      }
    }

    /** Assign (`handleAssignExistingTenant`): no insert while no tenant is chosen;
        otherwise a link of the chosen tenant to the apartment. */
    method AssignClicked() returns (link: Option<LinkRow>)
      requires Valid()
      ensures link.None? <==> selectedTenantId == ""
      ensures link.Some? ==> link.value == LinkRow(apartmentId, selectedTenantId)
    {
      if selectedTenantId == "" {
        return None;
      }
      link := Some(LinkRow(apartmentId, selectedTenantId));
    }
  }
}
