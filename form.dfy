/** The contact form's state and its event handlers: showError and clearError
    (script.js:130-154), validateField (script.js:156-215), the input and blur
    hookups (script.js:94-127, 217-229) and the submit handler (script.js:232-290). */
module ContactForm {
  import opened Text
  import opened PhoneFormat
  import opened FieldRules

  /** What the page holds for one field: the input's value and its `invalid`
      and `valid` classes, and the error span's text and `visible` class. */
  datatype FieldView = FieldView(value: string, invalid: bool, valid: bool, errorText: string, errorVisible: bool)

  /** The state a presentation layer distinguishes. */
  datatype Status = Unmarked | MarkedValid | MarkedInvalid

  function StatusOf(v: FieldView): Status {
    if v.invalid then MarkedInvalid else if v.valid then MarkedValid else Unmarked
  }

  /** A field before any interaction, and after a successful submission. */
  const Pristine := FieldView("", false, false, "", false)

  /** The two classes are never both set, and the error span is visible exactly
      while the input is flagged invalid, and empty otherwise. */
  predicate Consistent(v: FieldView) {
    !(v.invalid && v.valid) && (v.errorVisible <==> v.invalid) && (!v.invalid ==> v.errorText == "")
  }

  /** A field flagged invalid shows the message its current value deserves:
      no stale message survives a change of value. */
  predicate CurrentError(f: Field, v: FieldView) {
    v.invalid ==> Check(f, v.value) == Reject(v.errorText)
  }

  /** The effect of showError (script.js:133-140). */
  function Shown(v: FieldView, message: string): (w: FieldView)
    ensures Consistent(w) && StatusOf(w) == MarkedInvalid
    ensures w.value == v.value && w.errorText == message
  {
    v.(errorText := message, errorVisible := true, invalid := true, valid := false)
  }

  /** The effect of clearError (script.js:146-153). */
  function Cleared(v: FieldView): (w: FieldView)
    ensures Consistent(w) && StatusOf(w) == MarkedValid
    ensures w.value == v.value && w.errorText == ""
  {
    v.(errorText := "", errorVisible := false, invalid := false, valid := true)
  }

  /** The effect of one validateField call that reached a rule. */
  function Judged(v: FieldView, verdict: Verdict): (w: FieldView)
    ensures w.value == v.value
  {
    match verdict
    case Accept => Cleared(v)
    case Reject(message) => Shown(v, message)
  }

  /** What validateField does to field f with view v: its rule's verdict on
      the value is shown. */
  function Judge(f: Field, v: FieldView): FieldView {
    Judged(v, Check(f, v.value))
  }

  /** After a rule has run, the field's flags and message are those of its
      verdict: accepted exactly when it ends flagged valid, not invalid, with
      no message, and rejected exactly when it ends flagged invalid, not valid,
      with a non-empty message. */
  lemma JudgedIsCurrent(f: Field, v: FieldView)
    ensures var w := Judge(f, v);
      Consistent(w) && CurrentError(f, w)
      && (StatusOf(w) == MarkedValid <==> Check(f, v.value) == Accept)
      && (Check(f, v.value) == Accept <==> w.valid && !w.invalid && w.errorText == "")
      && (Check(f, v.value) != Accept <==> w.invalid && !w.valid && w.errorText != "")
  {
  }

  /** Validating a field twice in a row is validating it once: the value is
      kept, so the verdict and what it shows are the same. */
  lemma JudgeIdempotent(f: Field, v: FieldView)
    ensures Judge(f, v).value == v.value
    ensures Judge(f, Judge(f, v)) == Judge(f, v)
  {
  }

  /** What a successful submission does to one field as written
      (script.js:272-277): `reset` empties the value and both classes are
      removed, but the error span is left as it was. */
  function ResetAsWritten(v: FieldView): FieldView {
    v.(value := "", invalid := false, valid := false)
  }

  /** A field invalidated while the request was outstanding keeps a visible
      message after the as-written reset, on an empty field flagged neither way. */
  lemma ResetAsWrittenLeavesMessage()
    ensures var v := Shown(FieldView("Jo", false, true, "", false), NameTooShort);
      Consistent(v) && !Consistent(ResetAsWritten(v))
      && ResetAsWritten(v).errorVisible && ResetAsWritten(v).errorText == NameTooShort
  {
  }

  /** The reset the model uses: the value emptied, both classes removed and the
      error span cleared, so the field is back where it started. */
  function Reset(v: FieldView): (w: FieldView)
    ensures Consistent(w) && StatusOf(w) == Unmarked && w.value == ""
    ensures w == ResetAsWritten(v).(errorText := "", errorVisible := false)
  {
    Pristine
  }

  /** The fields in document order (script.js:236). */
  const Order: seq<Field> := [Nombre, Email, Telefono, Mensaje]

  /** The position of a field in document order. */
  function Index(f: Field): (i: nat)
    ensures i < |Order| && Order[i] == f
  {
    match f
    case Nombre => 0
    case Email => 1
    case Telefono => 2
    case Mensaje => 3
  }


  /** The field at a document position is the field with that position. */
  lemma IndexOrder(k: nat)
    requires k < |Order|
    ensures Index(Order[k]) == k
  {
  }

  /** One view per field: the page holds each input once. */
  predicate HasAllFields(fs: map<Field, FieldView>) {
    forall f: Field :: f in fs
  }

  /** `querySelector('.invalid')` (script.js:248): the first field flagged
      invalid, in document order, from position from on. */
  function FirstInvalid(fs: map<Field, FieldView>, from: nat): (r: Option<Field>)
    requires HasAllFields(fs) && from <= |Order|
    ensures r.Some? ==>
      from <= Index(r.value) && fs[r.value].invalid
      && forall g: Field :: from <= Index(g) < Index(r.value) ==> !fs[g].invalid
    ensures r.None? ==> forall g: Field :: from <= Index(g) ==> !fs[g].invalid
    decreases |Order| - from
  {
    if from == |Order| then None
    else if fs[Order[from]].invalid then (IndexOrder(from); Some(Order[from]))
    else (IndexOrder(from); FirstInvalid(fs, from + 1))
  }

  /** Every field is present and consistent, and every field other than stale
      shows the message its current value deserves. */
  ghost predicate Current(fs: map<Field, FieldView>, stale: Option<Field>) {
    forall f: Field :: f in fs && Consistent(fs[f]) && (stale != Some(f) ==> CurrentError(f, fs[f]))
  }

  /** Writing a new value into f leaves only f's message possibly stale. */
  lemma Rewritten(fs: map<Field, FieldView>, f: Field, value: string)
    requires Current(fs, None)
    ensures Current(fs[f := fs[f].(value := value)], Some(f))
  {
  }

  /** Running f's rule on its value and showing the verdict brings the stale
      field up to date. */
  lemma Rejudged(fs: map<Field, FieldView>, f: Field, verdict: Verdict)
    requires Current(fs, Some(f)) && verdict == Check(f, fs[f].value)
    ensures Current(fs[f := Judged(fs[f], verdict)], None)
  {
    JudgedIsCurrent(f, fs[f]);
  }

  /** The fields before position k in document order pass their rules. */
  ghost predicate AcceptedBefore(fs: map<Field, FieldView>, k: nat)
    requires HasAllFields(fs)
  {
    forall g: Field :: Index(g) < k ==> Check(g, fs[g].value) == Accept
  }

  lemma AcceptedBeforeStep(fs: map<Field, FieldView>, k: nat)
    requires HasAllFields(fs) && k < |Order|
    ensures AcceptedBefore(fs, k + 1) <==> AcceptedBefore(fs, k) && Check(Order[k], fs[Order[k]].value) == Accept
  {
    IndexOrder(k);
  }

  /** The fields before position k have been judged, the others are as in before. */
  ghost predicate JudgedBefore(fs: map<Field, FieldView>, before: map<Field, FieldView>, k: nat)
    requires HasAllFields(fs) && HasAllFields(before)
  {
    forall g: Field :: fs[g] == if Index(g) < k then Judge(g, before[g]) else before[g]
  }

  lemma JudgedBeforeStep(fs: map<Field, FieldView>, before: map<Field, FieldView>, k: nat)
    requires HasAllFields(fs) && HasAllFields(before) && k < |Order| && JudgedBefore(fs, before, k)
    ensures fs[Order[k]] == before[Order[k]]
    ensures JudgedBefore(fs[Order[k] := Judge(Order[k], fs[Order[k]])], before, k + 1)
  {
    IndexOrder(k);
  }

  /** The fields before position k have been reset, the others are as in before. */
  ghost predicate ResetBefore(fs: map<Field, FieldView>, before: map<Field, FieldView>, k: nat)
    requires HasAllFields(fs) && HasAllFields(before)
  {
    forall g: Field :: fs[g] == if Index(g) < k then Reset(before[g]) else before[g]
  }

  lemma ResetBeforeStep(fs: map<Field, FieldView>, before: map<Field, FieldView>, k: nat)
    requires HasAllFields(fs) && HasAllFields(before) && k < |Order| && ResetBefore(fs, before, k)
    ensures ResetBefore(fs[Order[k] := Reset(fs[Order[k]])], before, k + 1)
    ensures Current(before, None) ==> Current(fs[Order[k] := Reset(fs[Order[k]])], None)
  {
    IndexOrder(k);
  }

  /** The label the submit button shows while the request is outstanding. */
  const SendingLabel := "Enviando..."

  /** The submit handler's result: stopped before the request, with the field
      that receives focus, or the request handed to the transport. */
  datatype Submission = Blocked(focus: Option<Field>) | Sent

  class Form {
    /** The four inputs with their error spans. */
    var fields: map<Field, FieldView>
    /** The submit button's text and `disabled` attribute. */
    var buttonText: string
    var buttonDisabled: bool
    /** The label the submit handler saved before sending. */
    var originalText: string
    /** The button's label as the page defines it. */
    const defaultLabel: string
    /** A request handed to the transport has not completed. */
    ghost var pending: bool

    /** The form's invariant. */
    ghost predicate Valid()
      reads this
    {
      ValidExcept(None)
    }

    /** The invariant, except that field stale may show a message older than
        its value: the state between a change of value and its revalidation. */
    ghost predicate ValidExcept(stale: Option<Field>)
      reads this
    {
      Current(fields, stale)
      && buttonDisabled == pending
      && (pending ==> buttonText == SendingLabel && originalText == defaultLabel)
      && (!pending ==> buttonText == defaultLabel)
    }

    /** The page as loaded: every field empty and untouched, the button enabled. */
    constructor (buttonLabel: string)
      ensures Valid() && !pending
      ensures forall f: Field :: f in fields && fields[f] == Pristine
      ensures defaultLabel == buttonLabel && buttonText == buttonLabel && !buttonDisabled
    {
      defaultLabel := buttonLabel;
      var initial := map[Nombre := Pristine, Email := Pristine, Telefono := Pristine, Mensaje := Pristine];
      forall f: Field ensures f in initial && initial[f] == Pristine {
        match f
        case Nombre =>
        case Email =>
        case Telefono =>
        case Mensaje =>
      }
      fields := initial;
      buttonText := buttonLabel;
      buttonDisabled := false;
      originalText := buttonLabel;
      pending := false;
    }

    /** showError (script.js:130-141). */
    method ShowError(f: Field, message: string)
      requires f in fields
      modifies this`fields
      ensures fields == old(fields)[f := Shown(old(fields)[f], message)]
    {
      fields := fields[f := fields[f].(errorText := message, errorVisible := true)];
      fields := fields[f := fields[f].(invalid := true, valid := false)];
    }

    /** clearError (script.js:143-154). */
    method ClearError(f: Field)
      requires f in fields
      modifies this`fields
      ensures fields == old(fields)[f := Cleared(old(fields)[f])]
    {
      fields := fields[f := fields[f].(errorText := "", errorVisible := false)];
      fields := fields[f := fields[f].(invalid := false, valid := true)];
    }

    /** The body of validateField for a known field (script.js:157-214): its
        rule runs on the current value, the verdict is shown through showError
        or clearError, and the result says whether the field was accepted. */
    method Validate(f: Field) returns (ok: bool)
      requires ValidExcept(Some(f))
      modifies this`fields
      ensures Valid()
      ensures var verdict := Check(f, old(fields)[f].value);
        ok == (verdict == Accept)
        && fields == old(fields)[f := Judged(old(fields)[f], verdict)]
    {
      var verdict := Check(f, fields[f].value);
      Rejudged(fields, f, verdict);
      if verdict == Accept {
        ClearError(f);
        ok := true;
      } else {
        ShowError(f, verdict.message);
        ok := false;
      }
    }

    /** validateField (script.js:156-215): the element id selects the rule; an
        unknown id is accepted and nothing changes. */
    method ValidateField(id: string) returns (ok: bool)
      requires ValidExcept(FieldNamed(id))
      modifies this`fields
      ensures Valid()
      ensures FieldNamed(id).None? ==> ok && fields == old(fields)
      ensures FieldNamed(id).Some? ==>
        var f := FieldNamed(id).value;
        var verdict := Check(f, old(fields)[f].value);
        ok == (verdict == Accept)
        && fields == old(fields)[f := Judged(old(fields)[f], verdict)]
    {
      var named := FieldNamed(id);
      if named.None? {
        return true;
      }
      ok := Validate(named.value);
    }

    /** The browser writes a new value into field f: the invariant holds
        except for f's message. */
    method SetValue(f: Field, value: string)
      requires Valid()
      modifies this`fields
      ensures ValidExcept(Some(f))
      ensures fields == old(fields)[f := old(fields)[f].(value := value)]
    {
      Rewritten(fields, f, value);
      fields := fields[f := fields[f].(value := value)];
    }

    /** The phone field's formatter listener (script.js:94-127) on the text
        typed: the field's value becomes its display form, which is then
        validated. The raw text the browser stored first is overwritten before
        anything can read it, so it is not modelled. */
    method FormatPhone(typed: string)
      requires Valid()
      modifies this`fields
      ensures Valid()
      ensures var v := old(fields)[Telefono].(value := Format(typed));
        fields == old(fields)[Telefono := Judge(Telefono, v)]
    {
      var formatted := Format(typed);
      SetValue(Telefono, formatted);
      var _ := Validate(Telefono);
    }

    /** The listener every field has (script.js:223-227): a field flagged
        invalid is validated again, any other is left alone. */
    method RevalidateIfInvalid(f: Field)
      requires ValidExcept(Some(f))
      modifies this`fields
      ensures Valid()
      ensures fields == old(fields)[f := if old(fields)[f].invalid then Judge(f, old(fields)[f]) else old(fields)[f]]
    {
      if fields[f].invalid {
        var _ := Validate(f);
      }
    }

    /** The user changes the phone field's value to typed: the browser stores
        it, the formatter listener rewrites and validates it, and the second
        listener finds nothing left to do. */
    method PhoneInput(typed: string)
      requires Valid()
      modifies this`fields
      ensures Valid()
      ensures var v := old(fields)[Telefono].(value := Format(typed));
        fields == old(fields)[Telefono := Judge(Telefono, v)]
    {
      FormatPhone(typed);
      ghost var v := old(fields)[Telefono].(value := Format(typed));
      JudgeIdempotent(Telefono, v);
      RevalidateIfInvalid(Telefono);
    }

    /** The user changes a field's value to typed: the browser stores it, then
        the field's listeners run in the order they were added. */
    method Input(f: Field, typed: string)
      requires Valid()
      modifies this`fields
      ensures Valid()
      ensures f == Telefono ==>
        var v := old(fields)[Telefono].(value := Format(typed));
        fields == old(fields)[Telefono := Judge(Telefono, v)]
      ensures f != Telefono ==>
        var v := old(fields)[f].(value := typed);
        fields == old(fields)[f := if v.invalid then Judge(f, v) else v]
    {
      if f == Telefono {
        PhoneInput(typed);
      } else {
        SetValue(f, typed);
        RevalidateIfInvalid(f);
      }
    }

    /** The blur listener (script.js:221): the field's rule runs on its value. */
    method Blur(f: Field) returns (ok: bool)
      requires Valid()
      modifies this`fields
      ensures Valid()
      ensures fields == old(fields)[f := Judge(f, old(fields)[f])]
      ensures ok <==> Check(f, old(fields)[f].value) == Accept
      ensures ok <==> StatusOf(fields[f]) == MarkedValid
    {
      FieldNamedId(f);
      JudgedIsCurrent(f, fields[f]);
      ok := ValidateField(Id(f));
    }

    /** The loop of the submit handler (script.js:236-244): every field is
        validated, in document order, and the result says whether all passed. */
    method ValidateAll() returns (allValid: bool)
      requires Valid()
      modifies this`fields
      ensures Valid()
      ensures forall f: Field :: fields[f] == Judge(f, old(fields)[f])
      ensures allValid <==> forall f: Field :: Check(f, old(fields)[f].value) == Accept
    {
      allValid := true;
      for k := 0 to |Order|
        invariant Valid()
        invariant JudgedBefore(fields, old(fields), k)
        invariant allValid <==> AcceptedBefore(old(fields), k)
      {
        var f := Order[k];
        JudgedBeforeStep(fields, old(fields), k);
        AcceptedBeforeStep(old(fields), k);
        var ok := Validate(f);
        if !ok {
          allValid := false;
        }
      }
    }

    /** The submit handler (script.js:232-290) up to the request: when some
        field is rejected, focus goes to the first field flagged invalid and
        nothing is sent; otherwise the button's label is saved, replaced by
        the sending label and the button disabled. A disabled button cannot
        submit, so no request is outstanding. */
    method Submit() returns (outcome: Submission)
      requires Valid() && !pending
      modifies this`fields, this`buttonText, this`buttonDisabled, this`originalText, this`pending
      ensures Valid()
      ensures forall f: Field :: fields[f] == Judge(f, old(fields)[f])
      ensures outcome == Sent <==> forall f: Field :: Check(f, old(fields)[f].value) == Accept
      ensures outcome == Sent ==>
        pending && buttonDisabled && buttonText == SendingLabel && originalText == old(buttonText)
        && forall f: Field :: StatusOf(fields[f]) == MarkedValid
      ensures outcome.Blocked? ==>
        !pending && !buttonDisabled && buttonText == old(buttonText) && originalText == old(originalText)
        && outcome.focus.Some?
        && Check(outcome.focus.value, old(fields)[outcome.focus.value].value) != Accept
        && forall g: Field :: Index(g) < Index(outcome.focus.value) ==> Check(g, old(fields)[g].value) == Accept
    {
      var allValid := ValidateAll();
      if !allValid {
        outcome := Blocked(FirstInvalid(fields, 0));
        return;
      }
      originalText := buttonText;
      buttonText := SendingLabel;
      buttonDisabled := true;
      pending := true;
      outcome := Sent;
    }

    /** The request's settlement (script.js:262-289): on delivery every field
        is reset and unmarked; on failure the fields stay as they are; either
        way the button gets its saved label back and is enabled again. */
    method Complete(delivered: bool)
      requires Valid() && pending
      modifies this`fields, this`buttonText, this`buttonDisabled, this`pending
      ensures Valid() && !pending && !buttonDisabled && buttonText == defaultLabel
      ensures delivered ==> forall f: Field :: fields[f] == Reset(old(fields)[f])
      ensures !delivered ==> fields == old(fields)
    {
      if delivered {
        ResetFields();
      }
      buttonText := originalText;
      buttonDisabled := false;
      pending := false;
    }

    /** `contactForm.reset()` and the loop that removes both classes
        (script.js:272-277), with the error spans cleared as well. */
    method ResetFields()
      requires Valid()
      modifies this`fields
      ensures Valid()
      ensures forall f: Field :: fields[f] == Reset(old(fields)[f])
    {
      for k := 0 to |Order|
        invariant Valid()
        invariant ResetBefore(fields, old(fields), k)
      {
        ResetBeforeStep(fields, old(fields), k);
        fields := fields[Order[k] := Reset(fields[Order[k]])];
      }
    }
  }
}
