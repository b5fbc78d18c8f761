/** The phone field's input normalisation. On every change the form removes
    the dashes from the entered value and, when the result does not begin
    with the country code `+91`, puts a prefix in front of it.

    The form as written inserts `"+91 "`, with a space, which the phone
    validator (`+91` followed by ten digits) never accepts. This module keeps
    that behaviour as `NormalizePhoneAsWritten`, proves the defect, and
    defines the corrected `NormalizePhone` (prefix `"+91"`). The form's
    event model takes the prefix as a parameter, so both are instances. */
module Phone {
  import opened Text
  import opened Validators

  const CountryCode := "+91"
  /** The prefix the form inserts as written. */
  const AsWrittenPrefix := "+91 "

  /** `value.replace(/-/g, "")`. */
  function StripDashes(v: string): (r: string)
    ensures '-' !in r
    ensures '-' !in v ==> r == v
  {
    RemoveAll(v, '-')
  }

  /** A prefix the normaliser may insert: it begins with the country code and
      contains no dash. Both prefixes above are of this kind. */
  predicate PrefixOk(prefix: string) {
    StartsWith(prefix, CountryCode) && '-' !in prefix
  }

  /** The normaliser, with the inserted prefix as a parameter. */
  function NormalizeWith(prefix: string, v: string): (r: string)
    requires PrefixOk(prefix)
    ensures '-' !in r
    ensures StartsWith(r, CountryCode)
    ensures StartsWith(StripDashes(v), CountryCode) ==> r == StripDashes(v)
  {
    var t := StripDashes(v);
    if StartsWith(t, CountryCode) then t
    else
      assert (prefix + t)[..|CountryCode|] == prefix[..|CountryCode|];
      prefix + t
  }

  /** `handlePhoneNumberChange` as the form writes it. */
  function NormalizePhoneAsWritten(v: string): (r: string)
    ensures '-' !in r && StartsWith(r, CountryCode)
  {
    NormalizeWith(AsWrittenPrefix, v)
  }

  /** `handlePhoneNumberChange` with the prefix the validator expects. */
  function NormalizePhone(v: string): (r: string)
    ensures '-' !in r && StartsWith(r, CountryCode)
  {
    NormalizeWith(CountryCode, v)
  }

  /** A value whose dash-free form already carries the country code is
      passed through exactly; any other value gets `prefix` in front. */
  lemma NormalizeCases(prefix: string, v: string)
    requires PrefixOk(prefix)
    ensures StartsWith(StripDashes(v), CountryCode) ==> NormalizeWith(prefix, v) == StripDashes(v)
    ensures !StartsWith(StripDashes(v), CountryCode) ==> NormalizeWith(prefix, v) == prefix + StripDashes(v)
  {
  }

  /** Normalising a normalised value changes nothing. */
  lemma NormalizeIdempotent(prefix: string, v: string)
    requires PrefixOk(prefix)
    ensures NormalizeWith(prefix, NormalizeWith(prefix, v)) == NormalizeWith(prefix, v)
  {
    var r := NormalizeWith(prefix, v);
    assert StripDashes(r) == r;
  }

  /** Exactly ten digits. */
  predicate TenDigits(t: string) {
    |t| == 10 && AllDigits(t)
  }

  /** A valid phone number begins with the country code. */
  lemma ValidPhoneStartsWithCode(s: string)
    requires ValidPhone(s)
    ensures StartsWith(s, CountryCode)
  {
  }

  /** The defect: whatever the prefixing branch produces is rejected by the
      validator, because its fourth character is a space and not a digit. */
  lemma PrefixedAsWrittenRejected(v: string)
    requires !StartsWith(StripDashes(v), CountryCode)
    ensures !ValidPhone(NormalizePhoneAsWritten(v))
  {
    var r := NormalizePhoneAsWritten(v);
    assert r == AsWrittenPrefix + StripDashes(v);
    assert r[3..][0] == r[3] == ' ';
  }

  /** As written, normalisation yields a valid number exactly when the
      dash-free entry was already a valid number: ten digits typed without
      the code are never accepted. */
  lemma AsWrittenValidIff(v: string)
    ensures ValidPhone(NormalizePhoneAsWritten(v)) <==> ValidPhone(StripDashes(v))
  {
    var t := StripDashes(v);
    if StartsWith(t, CountryCode) {
      NormalizeCases(AsWrittenPrefix, v);
    } else {
      PrefixedAsWrittenRejected(v);
      if ValidPhone(t) {
        ValidPhoneStartsWithCode(t);
      }
    }
  }

  /** The defect on the intended input: ten digits entered without the
      country code become `"+91 "` and the digits, which is rejected. */
  lemma AsWrittenRejectsTenDigits(t: string)
    requires TenDigits(t)
    ensures NormalizePhoneAsWritten(t) == AsWrittenPrefix + t
    ensures !ValidPhone(NormalizePhoneAsWritten(t))
  {
    assert '-' !in t by {
      forall i | 0 <= i < |t| ensures t[i] != '-' {
        assert IsAsciiDigit(t[i]);
      }
    }
    assert IsAsciiDigit(t[0]);
    NormalizeCases(AsWrittenPrefix, t);
    PrefixedAsWrittenRejected(t);
  }

  /** With the corrected prefix, normalisation yields a valid number exactly
      when the dash-free entry is a valid number or is ten digits. */
  lemma NormalizePhoneValidIff(v: string)
    ensures ValidPhone(NormalizePhone(v)) <==> ValidPhone(StripDashes(v)) || TenDigits(StripDashes(v))
  {
    var t := StripDashes(v);
    if StartsWith(t, CountryCode) {
      NormalizeCases(CountryCode, v);
      assert !TenDigits(t) by {
        assert t[0] == '+';
      }
    } else {
      var r := CountryCode + t;
      NormalizeCases(CountryCode, v);
      assert r[3..] == t && r[..3] == "+91";
      if ValidPhone(t) {
        ValidPhoneStartsWithCode(t);
      }
    }
  }

  /** The field's value after typing `keys` one at a time into a field
      holding `start`, each keystroke appending a character at the end and
      the handler then normalising the whole value. Deleting characters and
      moving the cursor are not keystrokes of this model. */
  function TypeFrom(prefix: string, start: string, keys: string): (r: string)
    requires PrefixOk(prefix)
    ensures keys != [] ==> StartsWith(r, CountryCode) && '-' !in r
  {
    if keys == [] then start
    else NormalizeWith(prefix, TypeFrom(prefix, start, keys[..|keys| - 1]) + [keys[|keys| - 1]])
  }

  /** Typing into the empty field. */
  function TypeKeys(prefix: string, keys: string): (r: string)
    requires PrefixOk(prefix)
    ensures keys != [] ==> StartsWith(r, CountryCode) && '-' !in r
  {
    TypeFrom(prefix, "", keys)
  }

  /** As written, once anything has been typed the field begins with `"+91 "`. */
  lemma {:induction false} TypedAsWrittenHasSpace(keys: string)
    requires keys != []
    ensures StartsWith(TypeKeys(AsWrittenPrefix, keys), AsWrittenPrefix)
  {
    var init := keys[..|keys| - 1];
    var k := keys[|keys| - 1];
    var before := TypeKeys(AsWrittenPrefix, init);
    var t := StripDashes(before + [k]);
    RemoveAllConcat(before, [k], '-');
    if init == [] {
      assert |t| <= 1;
    } else {
      TypedAsWrittenHasSpace(init);
      assert t[..|AsWrittenPrefix|] == before[..|AsWrittenPrefix|];
      assert t[..|CountryCode|] == before[..|CountryCode|];
    }
  }

  /** The defect as a user meets it: appending keys one by one to an empty
      field (no deletion, no cursor moves) never produces a number the
      validator accepts. */
  lemma TypingNeverValidAsWritten(keys: string)
    ensures !ValidPhone(TypeKeys(AsWrittenPrefix, keys))
  {
    if keys != [] {
      TypedAsWrittenHasSpace(keys);
      var r := TypeKeys(AsWrittenPrefix, keys);
      assert r[3..][0] == r[3] == ' ';
    }
  }

  /** With the corrected prefix, typing digits gives `+91` and those digits. */
  lemma {:induction false} TypedDigits(keys: string)
    requires keys != [] && AllDigits(keys)
    ensures TypeKeys(CountryCode, keys) == CountryCode + keys
  {
    var init := keys[..|keys| - 1];
    var k := keys[|keys| - 1];
    var before := TypeKeys(CountryCode, init);
    assert keys == init + [k];
    assert IsAsciiDigit(k);
    if init == [] {
      assert StripDashes(before + [k]) == [k];
    } else {
      assert AllDigits(init);
      TypedDigits(init);
      var v := CountryCode + keys;
      assert before + [k] == v;
      assert '-' !in keys by {
        forall i | 0 <= i < |keys| ensures keys[i] != '-' {
          assert IsAsciiDigit(keys[i]);
        }
      }
      assert '-' !in v;
      assert StartsWith(v, CountryCode);
    }
  }

  /** The corrected normaliser: typing ten digits into an empty field yields
      a number the validator accepts. */
  lemma TypingTenDigitsValid(keys: string)
    requires TenDigits(keys)
    ensures ValidPhone(TypeKeys(CountryCode, keys))
  {
    TypedDigits(keys);
    var r := CountryCode + keys;
    assert r[..3] == "+91" && r[3..] == keys;
  }

  /** Appending digits to a field holding exactly the country code keeps
      the code and those digits, whatever the inserted prefix. */
  lemma {:induction false} TypedDigitsAfterCode(prefix: string, keys: string)
    requires PrefixOk(prefix) && AllDigits(keys)
    ensures TypeFrom(prefix, CountryCode, keys) == CountryCode + keys
  {
    if keys != [] {
      var init := keys[..|keys| - 1];
      var k := keys[|keys| - 1];
      assert keys == init + [k];
      assert AllDigits(init);
      TypedDigitsAfterCode(prefix, init);
      var v := CountryCode + keys;
      assert TypeFrom(prefix, CountryCode, init) + [k] == v;
      assert '-' !in keys by {
        forall i | 0 <= i < |keys| ensures keys[i] != '-' {
          assert IsAsciiDigit(keys[i]);
        }
      }
      assert '-' !in v;
      assert StartsWith(v, CountryCode);
    }
  }

  /** Another way around the defect, as written: a complete number such as
      `"+919876543210"`, pasted or filled in as one change, is kept as it
      is and accepted. */
  lemma AsWrittenKeepsValidNumber(v: string)
    requires ValidPhone(v)
    ensures NormalizePhoneAsWritten(v) == v
    ensures ValidPhone(NormalizePhoneAsWritten(v))
  {
    assert '-' !in v by {
      forall i | 0 <= i < |v| ensures v[i] != '-' {
        if i >= 3 {
          assert v[3..][i - 3] == v[i];
        }
      }
    }
    assert StartsWith(v, CountryCode);
    NormalizeCases(AsWrittenPrefix, v);
  }

  /** One way around the defect, as written: type a key (the field becomes
      `"+91 "` and that key), delete back to `"+91 "` and then to `"+91"`,
      which the handler keeps since both start with the code, and append
      ten digits. The result is accepted. */
  lemma AsWrittenWayAround(keys: string)
    requires TenDigits(keys)
    ensures NormalizePhoneAsWritten(AsWrittenPrefix) == AsWrittenPrefix
    ensures NormalizePhoneAsWritten(CountryCode) == CountryCode
    ensures ValidPhone(TypeFrom(AsWrittenPrefix, CountryCode, keys))
  {
    assert '-' !in AsWrittenPrefix && '-' !in CountryCode;
    assert StartsWith(AsWrittenPrefix, CountryCode) && StartsWith(CountryCode, CountryCode);
    TypedDigitsAfterCode(AsWrittenPrefix, keys);
    var r := CountryCode + keys;
    assert r[..3] == "+91" && r[3..] == keys;
  }
}
