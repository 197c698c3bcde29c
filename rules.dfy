/** The per-field rules of `validateField` (script.js:156-215): each trims the
    value, then checks emptiness, then length, then a fixed pattern, and yields
    either acceptance or the first failing check's message. */
module FieldRules {
  import opened Text
  import opened PhoneFormat

  /** The four fields of the contact form, in document order. */
  datatype Field = Nombre | Email | Telefono | Mensaje

  /** The element id of each field. */
  function Id(f: Field): string {
    match f
    case Nombre => "nombre"
    case Email => "email"
    case Telefono => "telefono"
    case Mensaje => "mensaje"
  }

  datatype Option<T> = None | Some(value: T)

  /** The `switch (id)` of validateField: which rule, if any, an element id selects. */
  function FieldNamed(id: string): (r: Option<Field>)
    ensures r.Some? ==> Id(r.value) == id
    ensures r.None? ==> forall f: Field :: Id(f) != id
  {
    if id == "nombre" then Some(Nombre)
    else if id == "email" then Some(Email)
    else if id == "telefono" then Some(Telefono)
    else if id == "mensaje" then Some(Mensaje)
    else None
  }

  /** Each field's id selects that field's rule. */
  lemma FieldNamedId(f: Field)
    ensures FieldNamed(Id(f)) == Some(f)
  {
    match f {
      case Nombre =>
      case Email => assert Id(f)[0] != "nombre"[0];
      case Telefono => assert Id(f)[0] != "nombre"[0] && Id(f)[0] != "email"[0];
      case Mensaje => assert Id(f)[0] != "nombre"[0] && Id(f)[0] != "email"[0] && Id(f)[0] != "telefono"[0];
    }
  }

  /** The outcome of one rule: acceptance, or the message showError displays. */
  datatype Verdict = Accept | Reject(message: string)

  /** The message for an empty (or whitespace-only) value. */
  function RequiredMessage(f: Field): string {
    match f
    case Nombre => "El nombre es obligatorio"
    case Email => "El email es obligatorio"
    case Telefono => "El teléfono es obligatorio"
    case Mensaje => "El mensaje es obligatorio"
  }

  const NameTooShort := "Ingresa al menos 3 caracteres"
  const NameNotLetters := "Solo se permiten letras y espacios"
  const EmailMalformed := "Ingresa un email válido (ej: correo@ejemplo.cl)"
  const PhoneMalformed := "Ingresa un celular chileno válido (+56 9 XXXX XXXX)"
  const MessageTooShort := "Escribe al menos 10 caracteres"

  /** Minimum lengths, in UTF-16 code units, of the name and the message. */
  const NameMinLength: nat := 3
  const MessageMinLength: nat := 10

  // ---------------------------------------------------------------- name

  /** The class `[a-zA-ZáéíóúñÁÉÍÓÚÑüÜ\s]` (script.js:170). */
  predicate IsNameChar(c: char) {
    ('a' <= c <= 'z') || ('A' <= c <= 'Z')
    || c == 'á' || c == 'é' || c == 'í' || c == 'ó' || c == 'ú' || c == 'ñ'
    || c == 'Á' || c == 'É' || c == 'Í' || c == 'Ó' || c == 'Ú' || c == 'Ñ'
    || c == 'ü' || c == 'Ü' || IsSpace(c)
  }

  /** `^[a-zA-ZáéíóúñÁÉÍÓÚÑüÜ\s]+$` */
  predicate NamePattern(t: string) {
    t != [] && forall k :: 0 <= k < |t| ==> IsNameChar(t[k])
  }

  // ---------------------------------------------------------------- email

  /** The class `[^\s@]`. */
  predicate IsAddressChar(c: char) {
    !IsSpace(c) && c != '@'
  }

  /** `[^\s@]+` */
  predicate AddressRun(s: string) {
    s != [] && forall k :: 0 <= k < |s| ==> IsAddressChar(s[k])
  }

  /** `^[^\s@]+@[^\s@]+\.[^\s@]+$` (script.js:182): some `@` at index at and
      some `.` at index dot split the value into three non-empty runs. */
  predicate EmailPattern(t: string) {
    exists at, dot | 0 < at < |t| && at + 1 < dot < |t| - 1 ::
      t[at] == '@' && t[dot] == '.'
      && AddressRun(t[..at]) && AddressRun(t[at + 1..dot]) && AddressRun(t[dot + 1..])
  }

  /** The same shape said directly: no whitespace, exactly one `@`, not at the
      start, and a `.` strictly inside the part after it. */
  ghost predicate EmailShape(t: string) {
    (forall k :: 0 <= k < |t| ==> !IsSpace(t[k]))
    && exists at | 0 < at < |t| ::
         t[at] == '@'
         && (forall k :: 0 <= k < |t| && t[k] == '@' ==> k == at)
         && exists dot | at + 1 < dot < |t| - 1 :: t[dot] == '.'
  }

  // ---------------------------------------------------------------- phone

  /** What `\s?` leaves of t when a digit or a `9` must follow: a leading
      whitespace character is consumed, anything else is left in place. */
  function SkipSpace(t: string): string {
    if t != [] && IsSpace(t[0]) then t[1..] else t
  }

  /** `\s?` followed by a character that is not whitespace matches only one
      way: the optional part is exactly what precedes that character. */
  lemma SkipSpaceSplit(x: string, y: string)
    requires x == [] || (|x| == 1 && IsSpace(x[0]))
    requires y != [] && !IsSpace(y[0])
    ensures SkipSpace(x + y) == y
  {
    if x != [] {
      assert (x + y)[1..] == y;
    } else {
      assert x + y == y;
    }
  }

  /** `^\+56\s?9\s?\d{4}\s?\d{4}$` (script.js:195), read left to right. */
  predicate MobilePattern(t: string) {
    StartsWith(t, "+56") && AfterCountryCode(SkipSpace(t[3..]))
  }

  /** `9\s?\d{4}\s?\d{4}$` */
  predicate AfterCountryCode(t: string) {
    t != [] && t[0] == '9' && TwoBlocks(SkipSpace(t[1..]))
  }

  /** `\d{4}\s?\d{4}$` */
  predicate TwoBlocks(t: string) {
    |t| >= 4 && AllDigits(t[..4]) && |SkipSpace(t[4..])| == 4 && AllDigits(SkipSpace(t[4..]))
  }

  // ---------------------------------------------------------------- rules

  /** One field's rule on its raw value (script.js:158-212). */
  function Check(f: Field, raw: string): (v: Verdict)
    ensures Trim(raw) == [] ==> v == Reject(RequiredMessage(f))
    ensures v.Reject? ==> v.message != []
  {
    var value := Trim(raw);
    var length := Utf16Length(value);
    match f
    case Nombre =>
      if length == 0 then Reject(RequiredMessage(f))
      else if length < NameMinLength then Reject(NameTooShort)
      else if !NamePattern(value) then Reject(NameNotLetters)
      else Accept
    case Email =>
      if length == 0 then Reject(RequiredMessage(f))
      else if !EmailPattern(value) then Reject(EmailMalformed)
      else Accept
    case Telefono =>
      if length == 0 then Reject(RequiredMessage(f))
      else if !MobilePattern(value) then Reject(PhoneMalformed)
      else Accept
    case Mensaje =>
      if length == 0 then Reject(RequiredMessage(f))
      else if length < MessageMinLength then Reject(MessageTooShort)
      else Accept
  }

  // ---------------------------------------------------------------- properties

  /** The email pattern accepts exactly the values with no whitespace, a single
      `@` that is not the first character, and a `.` strictly inside the part
      after the `@`. */
  lemma EmailPatternIff(t: string)
    ensures EmailPattern(t) <==> EmailShape(t)
  {
    if EmailPattern(t) {
      var at, dot :| 0 < at < |t| && at + 1 < dot < |t| - 1
        && t[at] == '@' && t[dot] == '.'
        && AddressRun(t[..at]) && AddressRun(t[at + 1..dot]) && AddressRun(t[dot + 1..]);
      RunsCover(t, at, dot);
    }
    if EmailShape(t) {
      ShapeSplits(t);
    }
  }

  /** Three runs around an `@` and a `.` leave no whitespace and no other `@`. */
  lemma RunsCover(t: string, at: int, dot: int)
    requires 0 < at < |t| && at + 1 < dot < |t| - 1 && t[at] == '@' && t[dot] == '.'
    requires AddressRun(t[..at]) && AddressRun(t[at + 1..dot]) && AddressRun(t[dot + 1..])
    ensures EmailShape(t)
  {
    forall k | 0 <= k < |t| && k != at && k != dot ensures IsAddressChar(t[k]) {
      if k < at {
        assert t[k] == t[..at][k];
      } else if k < dot {
        assert t[k] == t[at + 1..dot][k - at - 1];
      } else {
        assert t[k] == t[dot + 1..][k - dot - 1];
      }
    }
  }

  /** A value of that shape splits into the pattern's three runs. */
  lemma ShapeSplits(t: string)
    requires EmailShape(t)
    ensures EmailPattern(t)
  {
    var at :| 0 < at < |t| && t[at] == '@'
      && (forall k :: 0 <= k < |t| && t[k] == '@' ==> k == at)
      && exists dot | at + 1 < dot < |t| - 1 :: t[dot] == '.';
    var dot :| at + 1 < dot < |t| - 1 && t[dot] == '.';
    assert AddressRun(t[..at]);
    assert AddressRun(t[at + 1..dot]);
    assert AddressRun(t[dot + 1..]);
  }

  /** What each rule accepts, in terms of the trimmed value. */
  ghost predicate Acceptable(f: Field, value: string) {
    match f
    case Nombre => Utf16Length(value) >= NameMinLength && NamePattern(value)
    case Email => EmailShape(value)
    case Telefono => MobilePattern(value)
    case Mensaje => Utf16Length(value) >= MessageMinLength
  }

  /** A rule accepts exactly the values whose trimmed form is acceptable; when
      it rejects a non-empty value it gives the field's length or pattern message. */
  lemma CheckAcceptsIff(f: Field, raw: string)
    ensures Check(f, raw) == Accept <==> Acceptable(f, Trim(raw))
    ensures Trim(raw) != [] && Check(f, raw).Reject? ==>
      Check(f, raw).message == match f
        case Nombre => if Utf16Length(Trim(raw)) < NameMinLength then NameTooShort else NameNotLetters
        case Email => EmailMalformed
        case Telefono => PhoneMalformed
        case Mensaje => MessageTooShort
  {
    EmailPatternIff(Trim(raw));
  }

  /** The missing-value message is given exactly for a value that is empty or
      all whitespace. */
  lemma RequiredIffBlank(f: Field, raw: string)
    ensures Check(f, raw) == Reject(RequiredMessage(f)) <==> AllSpace(raw)
  {
    TrimSpec(raw);
    if Trim(raw) != [] {
      assert Utf16Length(Trim(raw)) != 0;
      assert |RequiredMessage(f)| != |NameTooShort| && |RequiredMessage(f)| != |NameNotLetters|;
      assert |RequiredMessage(f)| != |EmailMalformed| && |RequiredMessage(f)| != |PhoneMalformed|;
      assert |RequiredMessage(f)| != |MessageTooShort|;
    }
  }

  // ---------------------------------------------------------------- the formatter and the phone rule

  /** An optional leading whitespace character holds no digit and no `+`. */
  lemma SkipSpaceKeeps(t: string)
    ensures Digits(SkipSpace(t)) == Digits(t)
    ensures KeepDialable(SkipSpace(t)) == KeepDialable(t)
  {
    if t != [] && IsSpace(t[0]) {
      assert t == [t[0]] + t[1..];
      FilterConcat([t[0]], t[1..], IsDigit);
      FilterConcat([t[0]], t[1..], IsDialable);
    }
  }

  /** `\d{4}\s?\d{4}` holds eight digits and nothing else a keystroke keeps. */
  lemma TwoBlocksDigits(v: string)
    requires TwoBlocks(v)
    ensures |Digits(v)| == 8 && KeepDialable(v) == Digits(v)
  {
    var w := SkipSpace(v[4..]);
    SkipSpaceKeeps(v[4..]);
    assert v == v[..4] + v[4..];
    FilterAll(v[..4], IsDigit);
    FilterAll(v[..4], IsDialable);
    FilterAll(w, IsDigit);
    FilterAll(w, IsDialable);
    FilterConcat(v[..4], v[4..], IsDigit);
    FilterConcat(v[..4], v[4..], IsDialable);
  }

  /** `9\s?\d{4}\s?\d{4}` holds nine digits, the first a 9, and nothing else a keystroke keeps. */
  lemma AfterCountryCodeDigits(u: string)
    requires AfterCountryCode(u)
    ensures |Digits(u)| == 9 && Digits(u)[0] == '9' && KeepDialable(u) == Digits(u)
  {
    var v := SkipSpace(u[1..]);
    SkipSpaceKeeps(u[1..]);
    TwoBlocksDigits(v);
    assert u == "9" + u[1..];
    FilterConcat("9", u[1..], IsDigit);
    FilterConcat("9", u[1..], IsDialable);
    assert Filter("9", IsDigit) == "9" && Filter("9", IsDialable) == "9";
  }

  /** A value the phone rule accepts holds eleven digits, starting 569, and its
      only other character a keystroke keeps is the leading `+`. */
  lemma MobileDigits(t: string)
    requires MobilePattern(t)
    ensures |Digits(t)| == MaxDigits && StartsWith(Digits(t), "569")
    ensures KeepDialable(t) == "+" + Digits(t)
  {
    var u := SkipSpace(t[3..]);
    AfterCountryCodeDigits(u);
    CountryCodeSplit(t);
    var d := Digits(u);
    assert Digits(t)[..3] == "569" by {
      assert ("56" + d)[2] == d[0];
    }
  }

  /** After the country code, what a filter keeps comes from the rest. */
  lemma CountryCodeSplit(t: string)
    requires StartsWith(t, "+56")
    ensures Digits(t) == "56" + Digits(SkipSpace(t[3..]))
    ensures KeepDialable(t) == "+56" + KeepDialable(SkipSpace(t[3..]))
  {
    SkipSpaceKeeps(t[3..]);
    assert t == "+56" + t[3..];
    FilterConcat("+56", t[3..], IsDigit);
    FilterConcat("+56", t[3..], IsDialable);
    CountryCodeFilters();
  }

  lemma CountryCodeFilters()
    ensures Filter("+56", IsDigit) == "56" && Filter("+56", IsDialable) == "+56"
  {
    assert "+56"[1..] == "56" && "56"[1..] == "6" && "6"[1..] == [];
    assert Filter("6", IsDigit) == "6";
    assert Filter("56", IsDigit) == "56";
    assert Filter("6", IsDialable) == "6";
    assert Filter("56", IsDialable) == "56";
  }

  /** The layout of at least eleven digits starting 569 passes the phone rule. */
  lemma LayoutIsMobile(d: string)
    requires AllDigits(d) && |d| >= MaxDigits && StartsWith(d, "569")
    ensures MobilePattern(Layout(d))
  {
    var g := Layout(d);
    assert g == "+" + d[..2] + " " + d[2..3] + " " + d[3..7] + " " + d[7..11];
    assert g[..3] == "+56";
    var u := SkipSpace(g[3..]);
    assert g[3] == ' ' && u == g[4..];
    assert u[0] == '9';
    var v := SkipSpace(u[1..]);
    assert u[1] == ' ' && v == g[6..];
    assert v[..4] == d[3..7];
    assert AllDigits(v[..4]);
    var w := SkipSpace(v[4..]);
    assert v[4] == ' ' && w == d[7..11];
    assert |w| == 4 && AllDigits(w);
    assert TwoBlocks(v);
  }

  /** On a value with nothing to trim the phone rule is the phone pattern. */
  lemma PhoneCheckOfTrimmed(t: string)
    requires Trimmed(t)
    ensures Check(Telefono, t) == Accept <==> MobilePattern(t)
  {
    assert Trim(t) == t;
    if t != [] {
      assert Utf16Length(t) != 0;
    }
  }

  /** The formatter and the phone rule agree: the formatted value is accepted
      exactly when the digit string holds at least eleven digits and begins
      with 569. In particular an accepted value is never longer than eleven
      digits once formatted, and a partial one such as `+56 9 1234 5` is refused. */
  lemma FormatAcceptedIff(raw: string)
    ensures var d := CountryDigits(raw);
      Check(Telefono, Format(raw)) == Accept <==> |d| >= MaxDigits && StartsWith(d, "569")
  {
    var d := CountryDigits(raw);
    LayoutKeepsDigits(d);
    PhoneCheckOfTrimmed(Layout(d));
    LayoutMobileIff(d);
  }

  /** A value whose digit string is non-empty but shorter than eleven digits
      is refused once formatted, with the pattern message. */
  lemma FormatPartialRejected(raw: string)
    requires 0 < |CountryDigits(raw)| < MaxDigits
    ensures Check(Telefono, Format(raw)) == Reject(PhoneMalformed)
  {
    var d := CountryDigits(raw);
    FormatAcceptedIff(raw);
    LayoutKeepsDigits(d);
    TrimSpec(Layout(d));
    CheckAcceptsIff(Telefono, Format(raw));
  }

  /** The layout of a digit string passes the phone pattern exactly when the
      string holds at least eleven digits and begins with 569. */
  lemma LayoutMobileIff(d: string)
    requires AllDigits(d)
    ensures MobilePattern(Layout(d)) <==> |d| >= MaxDigits && StartsWith(d, "569")
  {
    var g := Layout(d);
    if MobilePattern(g) {
      LayoutDigits(d);
      MobileDigits(g);
      var s := Significant(d);
      assert |s| == MaxDigits;
      assert s[..3] == d[..3];
    }
    if |d| >= MaxDigits && StartsWith(d, "569") {
      LayoutIsMobile(d);
    }
  }

  /** Reformatting a value the phone rule accepts keeps its digits and its
      acceptance: retyping a valid number never invalidates it. */
  lemma FormatKeepsMobile(t: string)
    requires MobilePattern(t)
    ensures CountryDigits(t) == Digits(t)
    ensures Check(Telefono, Format(t)) == Accept
  {
    MobileDigits(t);
    var v := KeepDialable(t);
    assert AddCountryCode(v) == v;
    FilterConcat("+", Digits(t), IsDigit);
    FilterAll(Digits(t), IsDigit);
    assert Digits("+") == [];
    assert Digits(v) == Digits(t);
    FormatAcceptedIff(t);
  }
}
