/** Concrete names, addresses, numbers and messages with the verdicts the rules
    are proved to give them, and sessions on a `Form` whose outcomes are proved. */
module Scenarios {
  import opened Text
  import opened PhoneFormat
  import opened FieldRules
  import opened ContactForm

  /** A name of letters, an accented one and a space is accepted. */
  lemma NameWithAccentsAccepted()
    ensures Check(Nombre, "José María") == Accept
  {
    var t := "José María";
    assert Trimmed(t);
    TrimSpec(t);
    NameWithAccentsFacts();
    CheckAcceptsIff(Nombre, t);
  }

  lemma NameWithAccentsFacts()
    ensures Utf16Length("José María") == 10
    ensures NamePattern("José María")
  {
    Utf16LengthBmp("José María");
    NameWithAccentsLetters();
  }

  lemma NameWithAccentsLetters()
    ensures NamePattern("José María")
  {
    var t := "José María";
    assert t == "José" + " " + "María";
    assert NamePattern("José");
    assert NamePattern("María");
    assert IsNameChar(' ');
  }

  /** Two letters are too short for a name. */
  lemma ShortNameRejected()
    ensures Check(Nombre, "Jo") == Reject(NameTooShort)
  {
    var t := "Jo";
    assert Trim(t) == t by {
      assert !IsSpace(t[0]) && !IsSpace(t[|t| - 1]);
    }
    assert Utf16Length(t) == 2 by {
      Utf16LengthBmp(t);
    }
  }

  /** A digit in a name is refused with the letters message. */
  lemma NameWithDigitRejected()
    ensures Check(Nombre, "José3") == Reject(NameNotLetters)
  {
    var t := "José3";
    assert Trim(t) == t by {
      assert !IsSpace(t[0]) && !IsSpace(t[|t| - 1]);
    }
    assert Utf16Length(t) == 5 by {
      Utf16LengthBmp(t);
    }
    assert !IsNameChar(t[4]);
  }

  /** Surrounding whitespace does not count toward the message's length. */
  lemma PaddedShortMessageRejected()
    ensures Check(Mensaje, "  Hola  ") == Reject(MessageTooShort)
  {
    var s := "  Hola  ";
    assert TrimStart(s) == "Hola  " by {
      assert s[1..] == " Hola  " && s[1..][1..] == "Hola  ";
    }
    assert TrimEnd("Hola  ") == "Hola" by {
      assert "Hola  "[..5] == "Hola " && "Hola "[..4] == "Hola";
    }
    assert Utf16Length("Hola") == 4 by {
      Utf16LengthBmp("Hola");
    }
  }

  /** A value of whitespace only is reported as missing, whatever the field. */
  lemma BlankRejected(f: Field)
    ensures Check(f, " \t\n") == Reject(RequiredMessage(f))
  {
    var s := " \t\n";
    assert TrimStart(s) == [] by {
      assert s[1..] == "\t\n" && s[1..][1..] == "\n" && s[1..][1..][1..] == [];
    }
  }

  /** A plain address is accepted. */
  lemma AddressAccepted()
    ensures Check(Email, "a@b.cl") == Accept
  {
    var t := "a@b.cl";
    assert Trimmed(t);
    TrimSpec(t);
    assert t[1] == '@' && t[3] == '.';
    assert t[..1] == "a";
    assert t[2..3] == "b";
    assert t[4..] == "cl";
    assert AddressRun("a") && AddressRun("b") && AddressRun("cl");
    assert EmailPattern(t);
  }

  /** An address without a dot after the `@` is refused. */
  lemma AddressWithoutDotRejected()
    ensures Check(Email, "a@b") == Reject(EmailMalformed)
  {
    var t := "a@b";
    assert Trimmed(t);
    TrimSpec(t);
    assert !EmailPattern(t);
  }

  /** Whitespace inside an address is refused. */
  lemma AddressWithSpaceRejected()
    ensures Check(Email, "a b@c.cl") == Reject(EmailMalformed)
  {
    var t := "a b@c.cl";
    assert Trimmed(t);
    TrimSpec(t);
    EmailPatternIff(t);
    assert IsSpace(t[1]);
  }

  /** The display form of a mobile number is accepted. */
  lemma DisplayNumberAccepted()
    ensures Check(Telefono, "+56 9 1234 5678") == Accept
  {
    var t := "+56 9 1234 5678";
    assert Trimmed(t);
    PhoneCheckOfTrimmed(t);
    DisplayNumberMatches();
  }

  lemma DisplayNumberMatches()
    ensures MobilePattern("+56 9 1234 5678")
  {
    var t := "+56 9 1234 5678";
    assert t[..3] == "+56" && t[3..] == " 9 1234 5678";
    assert SkipSpace(" 9 1234 5678") == "9 1234 5678";
    NineThenBlocks();
  }

  lemma NineThenBlocks()
    ensures AfterCountryCode("9 1234 5678")
  {
    var u := "9 1234 5678";
    assert u[1..] == " 1234 5678";
    assert SkipSpace(" 1234 5678") == "1234 5678";
    BlocksMatch();
  }

  lemma BlocksMatch()
    ensures TwoBlocks("1234 5678")
  {
    var v := "1234 5678";
    assert v[..4] == "1234" && v[4..] == " 5678";
    assert SkipSpace(" 5678") == "5678";
  }

  /** A number with a digit group cut short is refused. */
  lemma PartialNumberRejected()
    ensures Check(Telefono, "+56 9 1234 5") == Reject(PhoneMalformed)
  {
    var t := "+56 9 1234 5";
    assert Trimmed(t);
    PhoneCheckOfTrimmed(t);
    PartialNumberMismatch();
  }

  lemma PartialNumberMismatch()
    ensures !MobilePattern("+56 9 1234 5")
  {
    var t := "+56 9 1234 5";
    assert t[3..] == " 9 1234 5";
    assert SkipSpace(" 9 1234 5") == "9 1234 5";
    var u := "9 1234 5";
    assert u[1..] == " 1234 5";
    assert SkipSpace(" 1234 5") == "1234 5";
    var v := "1234 5";
    assert v[4..] == " 5";
    assert SkipSpace(" 5") == "5";
  }

  /** Three digits are refused as typed, and once formatted: the formatter
      makes them `+56 123`, whose digit string is too short. */
  lemma ShortNumberRejected()
    ensures Check(Telefono, "123") == Reject(PhoneMalformed)
    ensures Check(Telefono, Format("123")) == Reject(PhoneMalformed)
  {
    var t := "123";
    assert Trimmed(t);
    PhoneCheckOfTrimmed(t);
    assert !StartsWith(t, "+56");
    ShortNumberDigits(t);
    FormatPartialRejected(t);
  }

  /** The digit string the formatter makes of three digits not starting with 0 or 56. */
  lemma ShortNumberDigits(t: string)
    requires AllDigits(t) && |t| == 3 && t[0] != '0' && t[..2] != "56"
    ensures |CountryDigits(t)| == 5
  {
    FilterAll(t, IsDialable);
    PrefixedDigits(t);
    FilterAll(t, IsDigit);
  }

  /** A 9 followed by eight digits is a local mobile number: the formatter
      prefixes the country code 56 to its digits. */
  lemma LocalNumberDigits(r: string)
    requires AllDigits(r) && |r| == 8
    ensures CountryDigits("9" + r) == "56" + ("9" + r)
  {
    var v := "9" + r;
    assert AllDigits(v);
    FilterAll(v, IsDialable);
    assert AddCountryCode(v) == "+56" + v by {
      assert v[..1] == "9" && v[..2] != "56";
    }
    DigitsAfterCountryCode(v);
  }

  /** The formatter groups a local mobile number as 56, 9, four and four. */
  lemma LocalNumberFormatted(r: string)
    requires AllDigits(r) && |r| == 8
    ensures Format("9" + r) == "+56 9 " + r[..4] + " " + r[4..]
  {
    LocalNumberDigits(r);
    var d := "56" + ("9" + r);
    assert d == "569" + r;
    assert |d| == MaxDigits && Significant(d) == d;
    assert d[..2] == "56";
    assert d[2..3] == "9";
    assert d[3..7] == r[..4] by {
      forall k | 0 <= k < 4 ensures d[3 + k] == r[k] {
      }
    }
    assert d[7..11] == r[4..] by {
      forall k | 4 <= k < 8 ensures d[3 + k] == r[k] {
      }
    }
  }

  /** The formatted local number passes the phone rule. */
  lemma LocalNumberAccepted(r: string)
    requires AllDigits(r) && |r| == 8
    ensures Check(Telefono, Format("9" + r)) == Accept
  {
    LocalNumberDigits(r);
    FormatAcceptedIff("9" + r);
    assert ("56" + ("9" + r))[..3] == "569";
  }

  /** Before a string of digits, `+56` contributes the digits 56. */
  lemma DigitsAfterCountryCode(v: string)
    requires AllDigits(v)
    ensures Digits("+56" + v) == "56" + v
  {
    FilterAll(v, IsDigit);
    FilterConcat("+56", v, IsDigit);
    CountryCodeFilters();
  }

  /** A name that is too short stops the submission, and focus goes to it
      even though the other fields are empty too: nothing is sent, the name
      shows its message and the button keeps its label. */
  method ShortNameBlocksSubmission() returns (form: Form, outcome: Submission)
    ensures outcome == Blocked(Some(Nombre))
    ensures HasAllFields(form.fields)
    ensures form.fields[Nombre].invalid && form.fields[Nombre].errorText == NameTooShort
    ensures !form.pending && !form.buttonDisabled && form.buttonText == "Enviar"
  {
    form := new Form("Enviar");
    form.Input(Nombre, "Jo");
    ghost var before := form.fields;
    assert before[Nombre].value == "Jo";
    ShortNameRejected();
    outcome := form.Submit();
    assert outcome.Blocked?;
    var g := outcome.focus.value;
    assert Index(g) == 0 by {
      assert Check(Nombre, before[Nombre].value) != Accept;
    }
    assert Order[0] == Nombre;
  }

  /** A fresh form after typing into each field once, in document order: each
      field holds what was typed, the phone field its formatted form. */
  method Filled(name: string, address: string, phone: string, message: string) returns (form: Form)
    ensures fresh(form) && form.Valid() && !form.pending && form.defaultLabel == "Enviar"
    ensures form.fields[Nombre].value == name && form.fields[Email].value == address
    ensures form.fields[Telefono].value == Format(phone) && form.fields[Mensaje].value == message
  {
    form := new Form("Enviar");
    form.Input(Nombre, name);
    form.Input(Email, address);
    form.Input(Telefono, phone);
    form.Input(Mensaje, message);
  }

  /** A form filled with a name, an address and a message that pass their
      rules and a local mobile number 9 followed by r is sent: the button
      shows the sending label and is disabled, and every field is marked valid. */
  method ValidFormIsSent(name: string, address: string, r: string, message: string) returns (form: Form, outcome: Submission)
    requires Check(Nombre, name) == Accept && Check(Email, address) == Accept
    requires AllDigits(r) && |r| == 8
    requires Check(Mensaje, message) == Accept
    ensures fresh(form) && form.Valid() && form.defaultLabel == "Enviar"
    ensures outcome == Sent && HasAllFields(form.fields)
    ensures form.pending && form.buttonDisabled && form.buttonText == SendingLabel
    ensures forall f: Field :: StatusOf(form.fields[f]) == MarkedValid
  {
    form := Filled(name, address, "9" + r, message);
    LocalNumberAccepted(r);
    forall f: Field ensures Check(f, form.fields[f].value) == Accept {
      match f
      case Nombre =>
      case Email =>
      case Telefono =>
      case Mensaje =>
    }
    outcome := form.Submit();
  }

  /** A valid form is sent; while the request is outstanding the name is
      changed to "Jo" and the field is left, so it shows the too-short message;
      then the request settles. The reset as written would leave that message
      visible on the emptied, unflagged name (asWritten); the form instead
      ends with every field pristine on delivery, and keeps the rejected name
      on failure. Either way the button is back to its label and enabled. */
  method Settle(name: string, address: string, r: string, message: string, delivered: bool)
    returns (form: Form, asWritten: FieldView)
    requires Check(Nombre, name) == Accept && Check(Email, address) == Accept
    requires AllDigits(r) && |r| == 8
    requires Check(Mensaje, message) == Accept
    ensures fresh(form) && form.Valid() && HasAllFields(form.fields)
    ensures !form.pending && !form.buttonDisabled && form.buttonText == "Enviar"
    ensures asWritten.value == "" && StatusOf(asWritten) == Unmarked
    ensures asWritten.errorVisible && asWritten.errorText == NameTooShort
    ensures delivered ==> forall f: Field :: form.fields[f] == Pristine
    ensures !delivered ==>
      form.fields[Nombre].value == "Jo" && form.fields[Nombre].invalid
      && form.fields[Nombre].errorText == NameTooShort
  {
    var outcome;
    form, outcome := ValidFormIsSent(name, address, r, message);
    form.Input(Nombre, "Jo");
    ShortNameRejected();
    var ok := form.Blur(Nombre);
    asWritten := ResetAsWritten(form.fields[Nombre]);
    form.Complete(delivered);
  }

  /** A greeting of seventeen characters is long enough for a message. */
  lemma GreetingAccepted()
    ensures Check(Mensaje, "Hola, buenos días") == Accept
  {
    var t := "Hola, buenos días";
    assert Trimmed(t);
    TrimSpec(t);
    assert Utf16Length(t) == |t| by {
      forall k | 0 <= k < |t| ensures t[k] as int <= 0xFFFF {
      }
      Utf16LengthBmp(t);
    }
  }
}
