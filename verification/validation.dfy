/**
  The field validator (`validateField`): a first-match cascade of rules over a
  field's required flag, input type, name and value, yielding whether the
  field is valid and the message to show beside it.
 */
module FieldValidation {
  import opened Chars
  import opened EmailFormat

  /** The input types the validator distinguishes; every other type (text,
      number, date, select, textarea, checkbox, ...) behaves alike. */
  datatype InputType = Email | Tel | Radio | OtherType

  /** A form control as the validator sees it. `groupChecked` is whether some
      control of the same name is checked, the one fact the radio rule reads
      from the rest of the document. */
  datatype Field = Field(
    name: string,
    kind: InputType,
    required: bool,
    value: string,
    groupChecked: bool)

  /** Outcome of validating one field: the message is empty when it is valid. */
  datatype Verdict = Verdict(valid: bool, message: string)

  const RequiredMessage: string := "Field ini wajib diisi"
  const EmailMessage: string := "Format email tidak valid"
  const PhoneMessage: string := "Nomor telepon harus 10-15 digit angka"
  const NikMessage: string := "NIK harus 16 digit angka"
  const RadioMessage: string := "Pilih salah satu opsi"

  /** The name of the national identity number field. */
  const NikName: string := "nik"

  /** The phone pattern `^[0-9]{10,15}$`. */
  predicate IsPhone(s: string) {
    10 <= |s| <= 15 && AllDigits(s)
  }

  /** The identity-number rule: length 16 and the pattern `^[0-9]{16}$`. */
  predicate IsNik(s: string) {
    |s| == 16 && AllDigits(s)
  }

  const Accept: Verdict := Verdict(true, "")

  function Reject(message: string): Verdict {
    Verdict(false, message)
  }

  /** The rule cascade of `validateField`; the first rule whose guard holds
      decides. The rules themselves are stated by the lemmas below. */
  function ValidateField(f: Field): (v: Verdict)
    // a valid verdict carries no message, an invalid one always does
    ensures v.valid <==> v.message == []
  {
    if f.required && Trim(f.value) == [] then Reject(RequiredMessage)
    else if f.kind == Email && f.value != [] then
      if IsEmail(f.value) then Accept else Reject(EmailMessage)
    else if f.kind == Tel && f.value != [] then
      if IsPhone(f.value) then Accept else Reject(PhoneMessage)
    else if f.name == NikName && f.value != [] then
      if IsNik(f.value) then Accept else Reject(NikMessage)
    else if f.kind == Radio && f.required then
      if f.groupChecked then Accept else Reject(RadioMessage)
    else Accept
  }

  /** Rule 1, checked before any format rule: a required field whose value is
      empty or only white space is rejected with the required-field message.
      A field that is not required and left empty always passes. */
  lemma RequiredRule(f: Field)
    ensures f.required && Blank(f.value) ==> ValidateField(f) == Reject(RequiredMessage)
    ensures f.required && !Blank(f.value) ==> ValidateField(f).message != RequiredMessage
    ensures !f.required && f.value == [] ==> ValidateField(f).valid
  {
  }

  /** Rule 2: an e-mail field with a value (that rule 1 let through) passes
      exactly when the value matches `^[^\s@]+@[^\s@]+\.[^\s@]+$`. */
  lemma EmailRule(f: Field)
    requires !(f.required && Blank(f.value)) && f.kind == Email && f.value != []
    ensures ValidateField(f) == (if MatchesEmailPattern(f.value) then Accept else Reject(EmailMessage))
  {
    EmailCheckMatchesPattern(f.value);
  }

  /** Rule 3: a telephone field with a value passes exactly when the value is
      10 to 15 ASCII digits. */
  lemma PhoneRule(f: Field)
    requires !(f.required && Blank(f.value)) && f.kind == Tel && f.value != []
    ensures ValidateField(f).valid <==> 10 <= |f.value| <= 15 && AllDigits(f.value)
    ensures !ValidateField(f).valid ==> ValidateField(f).message == PhoneMessage
  {
  }

  /** Rule 4: a field named "nik" with a value, unless an e-mail or telephone
      rule applied first, passes exactly when the value is 16 ASCII digits. */
  lemma NikRule(f: Field)
    requires !(f.required && Blank(f.value)) && f.kind != Email && f.kind != Tel
    requires f.name == NikName && f.value != []
    ensures ValidateField(f).valid <==> |f.value| == 16 && AllDigits(f.value)
    ensures !ValidateField(f).valid ==> ValidateField(f).message == NikMessage
  {
  }

  /** Rule 5: a required radio button whose value is not blank, and that the
      identity-number rule does not catch, passes exactly when some option of
      its group is checked. */
  lemma RadioRule(f: Field)
    requires f.required && !Blank(f.value) && f.kind == Radio
    requires !(f.name == NikName && f.value != [])
    ensures ValidateField(f) == (if f.groupChecked then Accept else Reject(RadioMessage))
  {
  }

  /** Nothing outside the five rules is ever rejected. */
  lemma OnlyRulesReject(f: Field)
    requires !ValidateField(f).valid
    ensures || (f.required && Blank(f.value))
            || (f.kind == Email && f.value != [])
            || (f.kind == Tel && f.value != [])
            || (f.name == NikName && f.value != [])
            || (f.kind == Radio && f.required)
  {
  }

  /** A sample e-mail value the pattern accepts, and that the check therefore
      accepts too. */
  lemma EmailAccepted()
    ensures MatchesEmailPattern("a@b.co") && IsEmail("a@b.co")
  {
    var s := "a@b.co";
    assert s[1] == '@' && s[3] == '.';
    assert AllPlain(s[..1]) && AllPlain(s[2..3]) && AllPlain(s[4..]);
    EmailCheckMatchesPattern(s);
  }

  /** Sample e-mail values the pattern rejects: no '@', no '.' after it, a
      second '@', white space. */
  lemma EmailRejected()
    ensures !MatchesEmailPattern("a@b") && !MatchesEmailPattern("a.com")
    ensures !MatchesEmailPattern("a@@b.co") && !MatchesEmailPattern("a b@c.de")
  {
    EmailCheckMatchesPattern("a@b");
    EmailCheckMatchesPattern("a.com");
    EmailCheckMatchesPattern("a@@b.co");
    EmailCheckMatchesPattern("a b@c.de");
    assert "a@b"[0] != '@' && "a@b"[1] == '@';
    assert "a@@b.co"[0] != '@' && "a@@b.co"[1] == '@';
    assert "a@@b.co"[2..][0] == '@';
    assert IsWhitespace("a b@c.de"[1]);
  }

  /** Sample telephone and identity-number values, accepted and rejected. */
  lemma DigitExamples()
    ensures IsPhone("0812345678") && IsPhone("081234567890123")
    ensures !IsPhone("081234567") && !IsPhone("0812345678901234") && !IsPhone("08123-45678")
    ensures IsNik("3171234567890123")
    ensures !IsNik("317123456789012") && !IsNik("31712345678901234") && !IsNik("317123456789012x")
  {
    assert !IsDigit("08123-45678"[5]);
    assert !IsDigit("317123456789012x"[15]);
  }
}
