/** The entry form: its state, the change handlers of its fields, the
    postal-code lookup reply, and the submit gate that appends a record to
    the storage slot. */
module Form {
  import opened Wrappers
  import opened Text
  import opened Validators
  import opened Phone
  import opened Records

  /** The form's state variables. `panValid` and `validPostalCode` are
      flags set by the change handlers, not recomputed at submission. */
  datatype FormState = FormState(
    name: string,
    email: string,
    number: string,
    pan: string,
    panValid: bool,
    address1: string,
    address2: string,
    city: string,
    state: string,
    postalCode: string,
    validPostalCode: bool)

  const Initial := FormState("", "", "", "", false, "", "", "", "", "", false)

  /** The settled postal lookup: a parsed reply, or a failure (network
      error or unparseable body), which the form only logs. `cities` and
      `states` hold the `name` of each entry, or are absent. */
  datatype LookupReply =
    | Reply(status: string, statusCode: int, cities: Option<seq<string>>, states: Option<seq<string>>)
    | Failed

  /** What the user, or the lookup, does to the form. Each carries the
      field's new value as the input reports it. */
  datatype Event =
    | NameChanged(value: string)
    | EmailChanged(value: string)
    | PhoneChanged(value: string)
    | PanChanged(value: string)
    | Address1Changed(value: string)
    | Address2Changed(value: string)
    | CityChanged(value: string)
    | StateChanged(value: string)
    | PostalCodeChanged(value: string)
    | LookupSettled(reply: LookupReply)

  /** The new state, and the postal code a lookup is started for, if any. */
  datatype Reaction = Reaction(form: FormState, lookup: Option<string>)

  /** The flags agree with the fields they describe. */
  predicate Consistent(f: FormState) {
    f.panValid == ValidPan(f.pan) && f.validPostalCode == ValidPostalCode(f.postalCode)
  }

  /** A PAN in either letter case: five letters, four digits, one letter. */
  predicate PanShape(v: string) {
    && |v| == 10
    && (forall i :: 0 <= i < 5 ==> IsAsciiLetter(v[i]))
    && (forall i :: 5 <= i < 9 ==> IsAsciiDigit(v[i]))
    && IsAsciiLetter(v[9])
  }

  /** Upper-casing before validation makes the PAN check case-insensitive. */
  lemma UpperPanIff(v: string)
    ensures ValidPan(ToUpper(v)) <==> PanShape(v)
  {
    var u := ToUpper(v);
    if |v| == 10 {
      assert forall i :: 0 <= i < 10 ==> (IsAsciiDigit(u[i]) <==> IsAsciiDigit(v[i]));
    }
  }

  /** `handlePanChange`: the field shows the upper-cased entry and the flag
      says whether it is a PAN. */
  function HandlePanChange(f: FormState, v: string): (r: FormState)
    ensures r.pan == ToUpper(v)
    ensures r.panValid <==> PanShape(v)
    ensures r.(pan := f.pan, panValid := f.panValid) == f
  {
    UpperPanIff(v);
    var p := ToUpper(v);
    f.(pan := p, panValid := ValidPan(p))
  }

  /** `handlePostalCodeChange`: store the entry and its flag, and start a
      lookup for it exactly when it is a valid postal code. */
  function HandlePostalCodeChange(f: FormState, v: string): (r: Reaction)
    ensures r.form.postalCode == v
    ensures r.form.validPostalCode <==> |v| == 6 && AllDigits(v)
    ensures r.lookup.Some? <==> r.form.validPostalCode
    ensures r.lookup.Some? ==> r.lookup.value == v
    ensures r.form.(postalCode := f.postalCode, validPostalCode := f.validPostalCode) == f
  {
    var valid := ValidPostalCode(v);
    Reaction(f.(postalCode := v, validPostalCode := valid), if valid then Some(v) else None)
  }

  /** A list that is present and has a first entry. */
  predicate HasFirst(names: Option<seq<string>>) {
    names.Some? && |names.value| > 0
  }

  /** `populateCityAndState`: each of city and state is overwritten by the
      first name of its list, and only when that list is non-empty. */
  function PopulateCityAndState(f: FormState, cities: Option<seq<string>>, states: Option<seq<string>>): (r: FormState)
    ensures HasFirst(cities) ==> r.city == cities.value[0]
    ensures !HasFirst(cities) ==> r.city == f.city
    ensures HasFirst(states) ==> r.state == states.value[0]
    ensures !HasFirst(states) ==> r.state == f.state
    ensures r.(city := f.city, state := f.state) == f
  {
    var f1 := if HasFirst(cities) then f.(city := cities.value[0]) else f;
    if HasFirst(states) then f1.(state := states.value[0]) else f1
  }

  /** A reply that reports success. */
  predicate Succeeded(reply: LookupReply) {
    reply.Reply? && reply.status == "Success" && reply.statusCode == 200
  }

  /** The handling of a settled lookup in `fetchCityAndState`: only a
      successful reply touches the form, and then only city and state. */
  function ApplyReply(f: FormState, reply: LookupReply): (r: FormState)
    ensures !Succeeded(reply) ==> r == f
    ensures Succeeded(reply) && HasFirst(reply.cities) ==> r.city == reply.cities.value[0]
    ensures Succeeded(reply) && !HasFirst(reply.cities) ==> r.city == f.city
    ensures Succeeded(reply) && HasFirst(reply.states) ==> r.state == reply.states.value[0]
    ensures Succeeded(reply) && !HasFirst(reply.states) ==> r.state == f.state
    ensures r.(city := f.city, state := f.state) == f
  {
    if Succeeded(reply) then PopulateCityAndState(f, reply.cities, reply.states) else f
  }

  /** One event: the matching change handler, or the lookup reply. The
      phone handler inserts `prefix` before an entry without the country
      code: the form as written uses `AsWrittenPrefix`, the corrected form
      `CountryCode` (see the Phone module). */
  function Step(prefix: string, f: FormState, e: Event): (r: Reaction)
    requires PrefixOk(prefix)
    ensures Consistent(f) ==> Consistent(r.form)
    ensures r.lookup.Some? ==> e.PostalCodeChanged? && ValidPostalCode(e.value) && r.lookup.value == e.value
    ensures e.PostalCodeChanged? && ValidPostalCode(e.value) ==> r.lookup == Some(e.value)
    ensures e.PhoneChanged? ==> r.form.number == NormalizeWith(prefix, e.value)
    ensures e.PhoneChanged? ==> r.form == f.(number := NormalizeWith(prefix, e.value))
    ensures e.PanChanged? ==> r.form == HandlePanChange(f, e.value)
    ensures e.PostalCodeChanged? ==> r == HandlePostalCodeChange(f, e.value)
    ensures e.LookupSettled? ==> r.form == ApplyReply(f, e.reply)
    ensures e.NameChanged? ==> r.form == f.(name := e.value)
    ensures e.EmailChanged? ==> r.form == f.(email := e.value)
    ensures e.Address1Changed? ==> r.form == f.(address1 := e.value)
    ensures e.Address2Changed? ==> r.form == f.(address2 := e.value)
    ensures e.CityChanged? ==> r.form == f.(city := e.value)
    ensures e.StateChanged? ==> r.form == f.(state := e.value)
  {
    match e
    case NameChanged(v) => Reaction(f.(name := v), None)
    case EmailChanged(v) => Reaction(f.(email := v), None)
    case PhoneChanged(v) => Reaction(f.(number := NormalizeWith(prefix, v)), None)
    case PanChanged(v) => Reaction(HandlePanChange(f, v), None)
    case Address1Changed(v) => Reaction(f.(address1 := v), None)
    case Address2Changed(v) => Reaction(f.(address2 := v), None)
    case CityChanged(v) => Reaction(f.(city := v), None)
    case StateChanged(v) => Reaction(f.(state := v), None)
    case PostalCodeChanged(v) => HandlePostalCodeChange(f, v)
    case LookupSettled(reply) => Reaction(ApplyReply(f, reply), None)
  }

  /** The state after a sequence of events. */
  function Run(prefix: string, f: FormState, es: seq<Event>): FormState
    requires PrefixOk(prefix)
    decreases |es|
  {
    if es == [] then f else Run(prefix, Step(prefix, f, es[0]).form, es[1..])
  }

  /** Every state the form reaches from its initial state is consistent. */
  lemma {:induction false} RunConsistent(prefix: string, f: FormState, es: seq<Event>)
    requires PrefixOk(prefix) && Consistent(f)
    ensures Consistent(Run(prefix, f, es))
    decreases |es|
  {
    if es != [] {
      RunConsistent(prefix, Step(prefix, f, es[0]).form, es[1..]);
    }
  }

  /** `isValidForm`: a conjunction of field checks in which a string counts
      when it is non-empty. `address2` takes no part. */
  predicate CanSubmit(f: FormState) {
    && f.name != ""
    && ValidEmail(f.email)
    && ValidPhone(f.number)
    && f.panValid
    && f.address1 != ""
    && f.city != ""
    && f.state != ""
    && f.validPostalCode
  }

  /** The record a submission saves. */
  function RecordOf(f: FormState): (r: Record)
    ensures r.name == f.name && r.email == f.email && r.number == f.number
    ensures r.pan == f.pan && r.address1 == f.address1 && r.address2 == f.address2
    ensures r.city == f.city && r.state == f.state && r.postalCode == f.postalCode
  {
    Record(f.name, f.email, f.number, f.pan, f.address1, f.address2, f.city, f.state, f.postalCode)
  }

  /** The slot after a submission, and whether the form was accepted. */
  datatype Submission = Submission(slot: Slot, accepted: bool)

  /** `handleSubmit`: when the gate passes, the form's record is appended
      to the stored records; otherwise the slot is left as it was. */
  function Submit(f: FormState, slot: Slot): (r: Submission)
    ensures r.accepted <==> CanSubmit(f)
    ensures !r.accepted ==> r.slot == slot
    ensures r.accepted ==> |Load(r.slot)| == |Load(slot)| + 1
    ensures r.accepted ==> Load(r.slot)[|Load(slot)|] == RecordOf(f)
    ensures r.accepted ==> Load(r.slot)[..|Load(slot)|] == Load(slot)
  {
    if CanSubmit(f) then Submission(Append(slot, RecordOf(f)), true)
    else Submission(slot, false)
  }

  /** For a consistent form, the gate accepts exactly the forms whose record
      passes every field validator. */
  lemma SubmitAcceptsValidRecords(f: FormState, slot: Slot)
    requires Consistent(f)
    ensures Submit(f, slot).accepted <==> RecordValid(RecordOf(f))
  {
  }

  /** `address2` never decides a submission. */
  lemma SubmitIgnoresAddress2(f: FormState, slot: Slot, a2: string)
    ensures Submit(f.(address2 := a2), slot).accepted == Submit(f, slot).accepted
  {
  }

  /** Whatever the user does to the form, submitting it never puts a record
      the validators reject into a store that held none; this holds for the
      form as written and for the corrected phone prefix alike. */
  lemma SessionKeepsStoreValid(prefix: string, es: seq<Event>, slot: Slot)
    requires PrefixOk(prefix) && StoreValid(slot)
    ensures StoreValid(Submit(Run(prefix, Initial, es), slot).slot)
  {
    var f := Run(prefix, Initial, es);
    RunConsistent(prefix, Initial, es);
    if CanSubmit(f) {
      AppendKeepsStoreValid(slot, RecordOf(f));
    }
  }
}
