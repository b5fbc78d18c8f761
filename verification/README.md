# Entry form and listing: validators, normalisation, submit gate and search

This project models the logic inside the two React components of a small
client-side profile application:

- the **entry form** (`src/components/Form.jsx`): its four field validators
  (PAN, postal code, e-mail, phone), the PAN and phone input normalisation,
  the postal-code change handler that starts a city/state lookup, the
  handling of the lookup's reply, and the submit gate that appends one
  record to the `formData` storage slot;
- the **listing** (`src/components/Home.jsx`): reading the slot once at
  mount (an absent slot reads as no records) and the case-insensitive
  name search over the loaded records.

Modules:

| module | file | contents |
|---|---|---|
| `Wrappers` | wrappers.dfy | `Option` |
| `Text` | text.dfy | JavaScript `\s` and `\d`, ASCII case mapping, `startsWith`, `includes`, global character removal |
| `Regex` | regex.dfy | the regular-expression fragment the validators use, with a language semantics (`Matches`) |
| `Validators` | validators.dfy | the four validators as character-level predicates, each proved equal to its pattern |
| `Phone` | phone.dfy | the phone normaliser as written and corrected, and the defect (see Findings) |
| `Records` | records.dfy | `Record`, the storage slot as `Option<seq<Record>>`, load, save, append |
| `Form` | form.dfy | form state, events, change handlers, lookup reply, submit |
| `Home` | home.dfy | listing state, search, `FilterByName` and its properties |

Each validator is stated twice: once as an explicit predicate over
characters (what the rest of the model uses), and once as the source's
regular expression interpreted by `Regex.Matches`. The `*PatternIff`
lemmas prove the two agree for every string. All patterns are anchored by
`^…$` with no `m` flag, so `RegExp.test` holds exactly when the whole string
is in the pattern's language. JavaScript regular expressions without the `u`
flag see UTF-16 code units while Dafny strings hold Unicode scalar values.
This changes nothing here: the PAN, postal and phone patterns accept only
ASCII, and `[^\s@]+` accepts a run of one or more units either way.

The storage slot is a parameter (`Slot`), not a global. A submission is a
function from the form state and the slot to the new slot. The listing's
`data` is fixed at mount, and search edits change only the search text.

The store has two operations, load and append. Records carry no
identifier, and the listing neither edits nor deletes them.

## Model

| member | source | states |
|---|---|---|
| Validators.PanPatternIff | src/components/Form.jsx:38-41 | a string passes `validatePan` iff it has 10 characters: 5 capitals A–Z, 4 digits, then a capital; this equals membership in `^[A-Z]{5}[0-9]{4}[A-Z]{1}$` |
| Validators.PostalPatternIff | src/components/Form.jsx:49-52 | a postal code is valid iff it is exactly 6 ASCII digits, the language of `^[0-9]{6}$` |
| Validators.EmailPatternIff | src/components/Form.jsx:64-67 | an address is valid iff it has no whitespace, exactly one `@` with a non-empty part before it, and a `.` inside the part after it that is neither its first nor last character; this equals the language of `^[^\s@]+@[^\s@]+\.[^\s@]+$` |
| Validators.PhonePatternIff | src/components/Form.jsx:69-72 | a number is valid iff it is 13 characters: `+91` then 10 ASCII digits, the language of `^\+91\d{10}$` |
| Form.UpperPanIff | src/components/Form.jsx:43-47 | the upper-cased entry is a valid PAN iff the entry is 5 letters of either case, 4 digits and a letter, so a lowercase PAN is accepted |
| Form.HandlePanChange | src/components/Form.jsx:43-47 | after a PAN change the field holds the upper-cased entry, the flag is set iff the entry is a PAN in either case, and no other field changes |
| Form.HandlePostalCodeChange | src/components/Form.jsx:54-62 | the field holds the entry, its flag says whether it is 6 digits, a lookup starts iff the flag is set and is for that code, and nothing else changes |
| Phone.NormalizeWith | src/components/Form.jsx:74-80 | the normalised value contains no `-` and starts with `+91`; an entry whose dash-free form already starts with `+91` comes out as exactly that dash-free form |
| Phone.NormalizeIdempotent | src/components/Form.jsx:74-80 | normalising twice gives the same value as normalising once |
| Phone.PrefixedAsWrittenRejected | src/components/Form.jsx:69-80 | as written, every value the prefixing branch produces fails the phone validator, because its fourth character is a space |
| Phone.AsWrittenValidIff | src/components/Form.jsx:69-80 | as written, the normalised value is valid iff the dash-free entry was already a valid number |
| Phone.AsWrittenRejectsTenDigits | src/components/Form.jsx:69-80 | as written, ten digits entered without the code become `"+91 "` plus the digits, which is rejected |
| Phone.TypingNeverValidAsWritten | src/components/Form.jsx:69-80 | as written, appending keys one by one to an empty phone field (no deletion, no cursor moves) never yields a value the validator accepts |
| Phone.AsWrittenWayAround | src/components/Form.jsx:69-80 | as written, the handler keeps `"+91 "` and `"+91"` unchanged, so a user who deletes back to `"+91"` and then appends ten digits gets a valid number |
| Phone.AsWrittenKeepsValidNumber | src/components/Form.jsx:69-80 | as written, a complete valid number entered in one change (a paste or an autofill) is kept unchanged and accepted |
| Phone.NormalizePhoneValidIff | src/components/Form.jsx:69-80 | with the corrected prefix, the normalised value is valid iff the dash-free entry is ten digits or already a valid number |
| Phone.TypingTenDigitsValid | src/components/Form.jsx:69-80 | with the corrected prefix, typing ten digits into an empty field yields a valid number |
| Form.PopulateCityAndState | src/components/Form.jsx:107-114 | city (state) is overwritten by the first name of its list only when that list is present and non-empty; otherwise it and every other field are kept |
| Form.ApplyReply | src/components/Form.jsx:95-104 | a reply that is not status "Success" with code 200, or a failed request, leaves the form unchanged; a successful one sets city (state) to the first name of its list when that list is non-empty, keeps it otherwise, and changes nothing else |
| Form.Step | src/components/Form.jsx:43-114 | every event keeps the PAN and postal flags in agreement with their fields; a lookup starts iff the event is a change to a valid postal code, and for that code; a phone change stores the normalised entry and nothing else, with the inserted prefix as a parameter (`"+91 "` as written); a PAN change goes through the PAN handler, a postal change through the postal handler, a settled lookup through the reply handler, and every other edit sets only its own field |
| Form.RunConsistent | src/components/Form.jsx:43-62 | for either phone prefix, after any sequence of events from a consistent state, `panValid` equals `validatePan(pan)` and `validPostalCode` equals `validatePostalCode(postalCode)` |
| Form.Submit | src/components/Form.jsx:116-143 | the form is accepted iff the gate holds; then the stored sequence grows by exactly one, the form's record is last and the earlier records are unchanged and in order; otherwise the slot is untouched |
| Form.SubmitAcceptsValidRecords | src/components/Form.jsx:118-126 | for a consistent form, the gate accepts iff the record passes every field check (non-empty name, address1, city and state; valid e-mail, phone, PAN and postal code) |
| Form.SubmitIgnoresAddress2 | src/components/Form.jsx:118-126 | `address2` never decides whether the form is accepted |
| Form.SessionKeepsStoreValid | src/components/Form.jsx:116-143 | for the form as written and for the corrected phone prefix, after any sequence of edits from the initial form a submission keeps every stored record valid |
| Records.Load | src/components/Form.jsx:141 | an absent slot reads as the empty sequence; a present one reads as its records |
| Records.SaveLoadRoundTrip | src/components/Form.jsx:141-143 | reading back a saved sequence gives the same sequence |
| Records.Append | src/components/Form.jsx:141-143 | appending grows the stored sequence by one, puts the record last and keeps the earlier records in order |
| Records.AppendKeepsStoreValid | src/components/Form.jsx:141-143 | appending a valid record to a store of valid records gives a store of valid records |
| Home.Mount | src/components/Home.jsx:7-11 | at mount the data is what the slot holds (empty when absent) and the search is empty |
| Home.SetSearch | src/components/Home.jsx:29 | a search edit replaces the search text and leaves the data alone |
| Home.SessionKeepsData | src/components/Home.jsx:4-16 | after any sequence of search edits the data is still what the slot held at mount, and the shown cards are those records filtered by the latest search (all of them before any search) |
| Home.FilterByName | src/components/Home.jsx:14-16 | the result is no longer than the data, and every shown record is stored and matches |
| Home.FilterIsSubsequence | src/components/Home.jsx:14-16 | the shown records are an order-preserving subsequence of the data |
| Home.FilterMembership | src/components/Home.jsx:14-16 | a record is shown iff it is stored and its lower-cased name includes the lower-cased search |
| Home.FilterCounts | src/components/Home.jsx:14-16 | a matching record is shown as many times as it is stored; a non-matching one never |
| Home.FilterConcat | src/components/Home.jsx:14-16 | filtering a concatenation is concatenating the filtered parts |
| Home.FilterEmptySearch | src/components/Home.jsx:14-16 | an empty search shows all data, unchanged and in order |
| Home.FilterNoMatch | src/components/Home.jsx:14-16 | a search no name contains shows nothing |
| Home.FilterCaseInsensitive | src/components/Home.jsx:15 | filtering by the search, by its lower-case form and by its upper-case form give the same result (the upper-case clause relies on ASCII-only upper-casing, see Left out) |
| Home.ShownMeansSubstring | src/components/Home.jsx:15 | a shown record's lower-cased name contains the lower-cased search at some offset |
| Home.FilterAfterAppend | src/components/Home.jsx:14-16 | after an append, the listing shows what it showed before, followed by the new record iff its name matches |
| Text.ContainsIff | src/components/Home.jsx:15 | `includes` holds iff the needle occurs in the haystack at some offset (the empty needle everywhere) |

## Left out

- Rendering, CSS, the alert, `formSubmitted` and navigation to the listing: presentation only.
- The mount-time prefill of the form: it reads the slot as one object while the slot holds an array, so its effect depends on property access on arrays, not on form logic.
- `fetchCityAndState`'s network request, JSON parsing and asynchrony: the reply is an input (`LookupReply`), and a settled reply is an event. The race between a late reply and a newer manual edit is the order of events, which the model leaves free.
- The lookup's list entries are reduced to their `name` strings; an entry without `name` is not modelled.
- Malformed stored JSON: `JSON.parse` would throw; the slot holds parsed records or nothing.
- Concurrent writers in other tabs: the model has one slot and one writer.
- The phone input's `maxLength` of 14: a browser limit on typing, not on the handler's input or output.
- Phone.TypingNeverValidAsWritten: keystrokes only append at the end; deletion and cursor moves are not modelled, and with them the defect can be avoided (see Phone.AsWrittenWayAround); so can entering a full number in one change (see Phone.AsWrittenKeepsValidNumber).
- Form.UpperPanIff: `toUpperCase` is modelled over ASCII only; non-ASCII characters are left unchanged, although JavaScript maps a few of them to ASCII capitals (for example `ı` to `I` and `ſ` to `S`) and can lengthen a string (`ß` to `SS`).
- Form.HandlePanChange: stated with the same ASCII-only upper-casing.
- Home.FilterCaseInsensitive: `toLowerCase` and `toUpperCase` are modelled over ASCII only. The lower-case clause also holds in JavaScript, but JavaScript's lower-casing of non-ASCII letters is not modelled (the Kelvin sign becomes `k`, and `İ` grows to two characters). The upper-case clause holds only under ASCII-only upper-casing. In JavaScript, `"ß".toUpperCase()` is `"SS"`, so for a record named `"Straße"` the search `"ß"` shows it and `"SS"` does not. Likewise `"ı"` upper-cases to `"I"`, so the search `"ı"` shows `"Yıldız"` and `"I"` does not.
- Home.FilterMembership: stated with the same ASCII-only lower-casing.

## Findings

| source | as written | input that shows it | evidently intended | confidence | as-written member | corrected member |
|---|---|---|---|---|---|---|
| src/components/Form.jsx:74-80 | the phone handler prefixes `"+91 "` (with a space), but `validatePhoneNumber` (line 70) requires `+91` followed directly by ten digits, so no prefixed value can ever pass | `"9876543210"` becomes `"+91 9876543210"`, which is rejected; typing the digits one by one, appending each to the empty field, never yields a valid number; entering a full `+91…` number in one change (a paste or an autofill), or deleting back to `"+91"` before typing the digits, gets around it | ten digits entered without the country code normalise to a number the validator accepts; the input's placeholder `"+91 1234567890"` and `maxLength={14}` (lines 192-194) suggest the space was meant to stay, so relaxing the validator would be an equally valid fix; the corrected member takes the normaliser side and drops the space | not executed; high: the proof covers every input of that branch | Phone.AsWrittenRejectsTenDigits | Phone.NormalizePhoneValidIff |
