/** The records the entry form saves and the listing shows, and the single
    `formData` storage slot that holds them in insertion order. */
module Records {
  import opened Wrappers
  import opened Validators

  /** One submitted profile, with the fields the form saves. */
  datatype Record = Record(
    name: string,
    email: string,
    number: string,
    pan: string,
    address1: string,
    address2: string,
    city: string,
    state: string,
    postalCode: string)

  /** The storage slot: absent until the first submission, then an array of
      records. Its JSON text is not modelled; a present slot holds the
      parsed array. */
  type Slot = Option<seq<Record>>

  /** `JSON.parse(localStorage.getItem("formData")) || []`. */
  function Load(slot: Slot): (rs: seq<Record>)
    ensures slot.None? ==> rs == []
    ensures slot.Some? ==> rs == slot.value
  {
    slot.GetOr([])
  }

  /** `localStorage.setItem("formData", JSON.stringify(rs))`. */
  function Save(rs: seq<Record>): (slot: Slot)
    ensures slot.Some?
  {
    Some(rs)
  }

  /** What is saved is what is read back, when nothing writes in between. */
  lemma SaveLoadRoundTrip(rs: seq<Record>)
    ensures Load(Save(rs)) == rs
  {
  }

  /** Read the records, push one, and save them all back. */
  function Append(slot: Slot, rec: Record): (r: Slot)
    ensures |Load(r)| == |Load(slot)| + 1
    ensures Load(r)[|Load(slot)|] == rec
    ensures Load(r)[..|Load(slot)|] == Load(slot)
  {
    Save(Load(slot) + [rec])
  }

  /** A record every field check of the form accepts. */
  predicate RecordValid(r: Record) {
    && r.name != ""
    && ValidEmail(r.email)
    && ValidPhone(r.number)
    && ValidPan(r.pan)
    && r.address1 != ""
    && r.city != ""
    && r.state != ""
    && ValidPostalCode(r.postalCode)
  }

  /** Every stored record is one the form would accept. */
  predicate StoreValid(slot: Slot) {
    forall i :: 0 <= i < |Load(slot)| ==> RecordValid(Load(slot)[i])
  }

  /** Appending an acceptable record keeps the store valid. */
  lemma AppendKeepsStoreValid(slot: Slot, rec: Record)
    requires StoreValid(slot) && RecordValid(rec)
    ensures StoreValid(Append(slot, rec))
  {
  }
}
