/** The create/edit apartment modal: a form of four fields, the three validation rules
    and their messages, the confirmation step, and the insert or update it sends. */
module ApartmentForm {
  import opened Wrappers
  import opened Apartments

  /** The editable fields; `basePrice` and `roomCount` hold what the number inputs parsed. */
  datatype ApartmentFields = ApartmentFields(name: string, basePrice: real, roomCount: int, description: string)

  /** The form before any typing: `{ name: '', base_price: 0, room_count: 1, description: '' }`. */
  const EmptyForm: ApartmentFields := ApartmentFields("", 0.0, 1, "")

  /** The form filled from the apartment being edited. */
  function FormOf(a: Apartment): (r: ApartmentFields)
    ensures r.name == a.name && r.basePrice == a.basePrice
    ensures r.roomCount == a.roomCount && r.description == a.description
  {
    ApartmentFields(a.name, a.basePrice, a.roomCount, a.description)
  }

  const NameKey: string := "name"
  const PriceKey: string := "base_price"
  const RoomsKey: string := "room_count"
  const FieldKeys: set<string> := {NameKey, PriceKey, RoomsKey}

  const NameRequired: string := "Name is required."
  const PriceTooLow: string := "Price must be greater than 0."
  const RoomsTooFew: string := "Rooms must be at least 1."

  /** The rule of field `key` rejects the form. */
  predicate Fails(form: ApartmentFields, key: string) {
    || (key == NameKey && form.name == "")
    || (key == PriceKey && form.basePrice <= 0.0)
    || (key == RoomsKey && form.roomCount <= 0)
  }

  /** All three rules accept the form. */
  predicate Acceptable(form: ApartmentFields) {
    form.name != "" && form.basePrice > 0.0 && form.roomCount > 0
  }

  /** `validate`: one message per rule the form fails, under that field's key, and no
      other key. */
  function Validate(form: ApartmentFields): (errs: map<string, string>)
    ensures NameKey in errs <==> form.name == ""
    ensures PriceKey in errs <==> form.basePrice <= 0.0
    ensures RoomsKey in errs <==> form.roomCount <= 0
    ensures errs.Keys <= FieldKeys
    ensures forall k :: k in errs ==> errs[k] != "" && Fails(form, k)
    ensures |errs| == 0 <==> Acceptable(form)
  {
    var withName := if form.name == "" then map[NameKey := NameRequired] else map[];
    var withPrice := if form.basePrice <= 0.0 then withName[PriceKey := PriceTooLow] else withName;
    var errs := if form.roomCount <= 0 then withPrice[RoomsKey := RoomsTooFew] else withPrice;
    assert |errs| == 0 ==> Acceptable(form) by {
      if !Acceptable(form) {
        var k :| k in FieldKeys && k in errs;
        assert k in errs.Keys;
      }
    }
    errs
  }

  /** `showError(field)`: the message under a field, shown only when present and
      non-empty. */
  function ShownError(errors: map<string, string>, key: string): (r: Option<string>)
    ensures r.Some? <==> key in errors && errors[key] != ""
    ensures r.Some? ==> r.value == errors[key]
  {
    if key in errors && errors[key] != "" then Some(errors[key]) else None
  }

  /** `if (errors[key]) setErrors({ ...errors, [key]: '' })`: the message under `key`
      disappears, every other message stays, and no key is added. */
  function ClearError(errors: map<string, string>, key: string): (r: map<string, string>)
    ensures r.Keys == errors.Keys
    ensures ShownError(r, key).None?
    ensures forall k :: k in r && k != key ==> r[k] == errors[k]
  {
    if key in errors && errors[key] != "" then errors[key := ""] else errors
  }

  /** The price input's `parseFloat` result, with `None` for NaN, becomes 0. */
  function PriceFromInput(parsed: Option<real>): (r: real)
    ensures parsed.None? ==> r == 0.0
    ensures parsed.Some? ==> r == parsed.value
  {
    if parsed.Some? then parsed.value else 0.0
  }

  /** The room input's `parseInt` result, with `None` for NaN, becomes 1. */
  function RoomsFromInput(parsed: Option<int>): (r: int)
    ensures parsed.None? ==> r == 1
    ensures parsed.Some? ==> r == parsed.value
  {
    if parsed.Some? then parsed.value else 1
  }

  /** A cleared price input falls back to a price the price rule rejects, while a
      cleared room input falls back to a count the rooms rule accepts. */
  lemma EmptyInputFallbacks()
    ensures Fails(EmptyForm.(basePrice := PriceFromInput(None)), PriceKey)
    ensures !Fails(EmptyForm.(roomCount := RoomsFromInput(None)), RoomsKey)
  {
  }

  /** The columns written: `{ name, base_price, room_count, description }`. */
  datatype ApartmentPayload = ApartmentPayload(name: string, basePrice: real, roomCount: int, description: string)

  /** The payload built from the form's four fields. */
  function PayloadOf(form: ApartmentFields): (p: ApartmentPayload)
    ensures p.name == form.name && p.basePrice == form.basePrice
    ensures p.roomCount == form.roomCount && p.description == form.description
  {
    ApartmentPayload(form.name, form.basePrice, form.roomCount, form.description)
  }

  datatype ApartmentWrite =
    | UpdateApartment(id: string, payload: ApartmentPayload)
    | InsertApartment(payload: ApartmentPayload)

  datatype SubmitOutcome =
    | Rejected(errors: map<string, string>)
    | Send(write: ApartmentWrite)

  /** `handleSubmit`'s decision: the messages when a rule fails; otherwise an update of
      the edited apartment by its id, or an insert when none is edited, of the four
      fields of the form. */
  function SubmitRequest(apartment: Option<Apartment>, form: ApartmentFields): (r: SubmitOutcome)
    ensures r.Rejected? <==> !Acceptable(form)
    ensures r.Rejected? ==> r.errors == Validate(form)
    ensures r.Send? ==> r.write.payload == PayloadOf(form)
    ensures r.Send? ==> (r.write.UpdateApartment? <==> apartment.Some?)
    ensures r.Send? && apartment.Some? ==> r.write.id == apartment.value.id
  {
    var errs := Validate(form);
    if |errs| > 0 then Rejected(errs)
    else if apartment.Some? then Send(UpdateApartment(apartment.value.id, PayloadOf(form)))
    else Send(InsertApartment(PayloadOf(form)))
  }

  /** Whatever is written passes the three rules. */
  lemma SentPayloadIsValid(apartment: Option<Apartment>, form: ApartmentFields)
    requires SubmitRequest(apartment, form).Send?
    ensures var p := SubmitRequest(apartment, form).write.payload;
      p.name != "" && p.basePrice > 0.0 && p.roomCount >= 1
  {
  }

  /** Opening a valid apartment for editing and confirming without changes writes back
      exactly its own four fields, under its own id. */
  lemma UnchangedEditWritesBack(a: Apartment)
    requires a.name != "" && a.basePrice > 0.0 && a.roomCount > 0
    ensures SubmitRequest(Some(a), FormOf(a))
         == Send(UpdateApartment(a.id, ApartmentPayload(a.name, a.basePrice, a.roomCount, a.description)))
  {
  }

  class ApartmentFormModal {
    /** The apartment being edited, or `None` for the Create form. */
    const apartment: Option<Apartment>
    var form: ApartmentFields
    var errors: map<string, string>
    var showConfirm: bool

    /** Messages are only kept under the three field keys, and a message that is shown
        is never stale: the rule of its field still rejects the current form. */
    ghost predicate Valid()
      reads this`form, this`errors
    {
      && errors.Keys <= FieldKeys
      && forall k :: k in errors && errors[k] != "" ==> Fails(form, k)
    }

    /** Mounting, followed by the effect that loads the edited apartment into the form. */
    constructor (apartment: Option<Apartment>)
      ensures Valid()
      ensures this.apartment == apartment
      ensures form == if apartment.Some? then FormOf(apartment.value) else EmptyForm
      ensures errors == map[] && !showConfirm
    {
      this.apartment := apartment;
      form := if apartment.Some? then FormOf(apartment.value) else EmptyForm;
      errors := map[];
      showConfirm := false;
    }

    method NameChanged(value: string)
      requires Valid()
      modifies this`form, this`errors
      ensures Valid()
      ensures form == old(form).(name := value)
      ensures errors == ClearError(old(errors), NameKey)
    {
      form := form.(name := value);
      errors := ClearError(errors, NameKey);
    }

    /** The price input; `parsed` is `parseFloat` of the text, `None` for NaN. */
    method PriceChanged(parsed: Option<real>)
      requires Valid()
      modifies this`form, this`errors
      ensures Valid()
      ensures form == old(form).(basePrice := PriceFromInput(parsed))
      ensures errors == ClearError(old(errors), PriceKey)
    {
      form := form.(basePrice := PriceFromInput(parsed));
      errors := ClearError(errors, PriceKey);
    }

    /** The room input; `parsed` is `parseInt` of the text, `None` for NaN. */
    method RoomsChanged(parsed: Option<int>)
      requires Valid()
      modifies this`form, this`errors
      ensures Valid()
      ensures form == old(form).(roomCount := RoomsFromInput(parsed))
      ensures errors == ClearError(old(errors), RoomsKey)
    {
      form := form.(roomCount := RoomsFromInput(parsed));
      errors := ClearError(errors, RoomsKey);
    }

    method DescriptionChanged(value: string)
      requires Valid()
      modifies this`form
      ensures Valid()
      ensures form == old(form).(description := value) && errors == old(errors)
    {
      form := form.(description := value);
    }

    /** The form's submit: the messages of `validate` when a rule fails, otherwise the
        confirmation opens (earlier messages are left as they are). */
    method FormSubmitted()
      requires Valid()
      modifies this`errors, this`showConfirm
      ensures Valid()
      ensures if Acceptable(form) then showConfirm && errors == old(errors)
              else errors == Validate(form) && showConfirm == old(showConfirm)
    {
      var errs := Validate(form);
      if |errs| > 0 {
        errors := errs;
        return;
      }
      showConfirm := true;
    }

    /** The Cancel button of the confirmation. */
    method ConfirmCancelled()
      requires Valid()
      modifies this`showConfirm
      ensures Valid() && !showConfirm
    {
      showConfirm := false;
    }

    /** The Confirm button (`handleSubmit`): the form is validated again; on a failure the
        messages are shown and nothing is sent, otherwise the write of `SubmitRequest` is
        returned for the backend. */
    method ConfirmClicked() returns (write: Option<ApartmentWrite>)
      requires Valid()
      modifies this`errors
      ensures Valid()
      ensures write.None? <==> !Acceptable(form)
      ensures write.Some? ==> SubmitRequest(apartment, form) == Send(write.value)
      ensures errors == if write.None? then Validate(form) else old(errors)
    {
      var errs := Validate(form);
      if |errs| > 0 {
        errors := errs;
        return None;
      }
      var payload := PayloadOf(form);
      if apartment.Some? {
        write := Some(UpdateApartment(apartment.value.id, payload));
      } else {
        write := Some(InsertApartment(payload));
      }
    }
  }
}
