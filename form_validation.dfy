/** Client-side validation of a submitted form (`validateForm`) and the inline
    error display it drives (`showFieldError`, `clearFieldError`).

    Each form control is a `Field`; the error messages shown under it and its
    border colour are its `ErrorSlot`. The slots live in an array that the
    validator updates in place, as the page's DOM is updated in place. */
module FormValidation {
  import opened Text
  import opened Patterns
  import opened Wrappers

  /** The three error messages the validator shows. */
  datatype Message = RequiredMessage | EmailMessage | PhoneMessage

  /** The text of the `.field-error` element showing a message. */
  function MessageText(m: Message): string {
    match m
    case RequiredMessage => "This field is required"
    case EmailMessage => "Please enter a valid email address"
    case PhoneMessage => "Please enter a valid phone number"
  }

  /** `field.style.borderColor` while an error is shown; cleared to "" otherwise. */
  const ErrorBorder: string := "#ff4757"

  /** The `type` attribute of a form control, as far as the validator tells types apart. */
  datatype InputType = Email | Tel | OtherType(name: string)

  /** A form control: its type, whether it carries `required`, and its current value. */
  datatype Field = Field(kind: InputType, required: bool, value: string)

  /** The `.field-error` messages currently under a control, in document order,
      and the control's border colour. */
  datatype ErrorSlot = ErrorSlot(messages: seq<Message>, border: string)

  /** `clearFieldError`: removes the first error message, if any, and resets the border. */
  function ClearFieldError(slot: ErrorSlot): (r: ErrorSlot)
    ensures r.border == ""
    ensures |slot.messages| <= 1 ==> r.messages == []
    ensures slot.messages != [] ==> r.messages == slot.messages[1..]
  {
    ErrorSlot(if slot.messages == [] then [] else slot.messages[1..], "")
  }

  /** `showFieldError`: clears first, then appends `message` and colours the border. */
  function ShowFieldError(slot: ErrorSlot, message: Message): (r: ErrorSlot)
    ensures r.border == ErrorBorder
    ensures |slot.messages| <= 1 ==> r.messages == [message]
    ensures r.messages == ClearFieldError(slot).messages + [message]
  {
    ErrorSlot(ClearFieldError(slot).messages + [message], ErrorBorder)
  }

  /** `!field.value.trim()`. */
  predicate IsBlank(value: string) {
    Trim(value) == []
  }

  /** The email check fires on an `email` field whose (untrimmed) value is
      non-empty and does not match the email pattern. */
  predicate FailsEmail(f: Field) {
    f.kind == Email && f.value != [] && !IsEmail(f.value)
  }

  /** The phone check fires on a `tel` field whose value is non-empty and whose
      whitespace-free form does not match the phone pattern. */
  predicate FailsPhone(f: Field) {
    f.kind == Tel && f.value != [] && !IsPhone(StripSpaces(f.value))
  }

  /** A field passes when none of the three checks fires. */
  predicate Passes(f: Field) {
    !IsBlank(f.value) && !FailsEmail(f) && !FailsPhone(f)
  }

  /** The message of the last check that fails on `f`, in the order the checks run. */
  function LastFailure(f: Field): (m: Option<Message>)
    ensures m.None? <==> Passes(f)
  {
    if FailsPhone(f) then Some(PhoneMessage)
    else if FailsEmail(f) then Some(EmailMessage)
    else if IsBlank(f.value) then Some(RequiredMessage)
    else None
  }

  /** The slot of one required field after the three checks have run on it, in
      the order `validateForm` runs them. */
  function ValidateField(f: Field, slot: ErrorSlot): ErrorSlot {
    var afterRequired :=
      if IsBlank(f.value) then ShowFieldError(slot, RequiredMessage) else ClearFieldError(slot);
    var afterEmail :=
      if FailsEmail(f) then ShowFieldError(afterRequired, EmailMessage) else afterRequired;
    if FailsPhone(f) then ShowFieldError(afterEmail, PhoneMessage) else afterEmail
  }

  /** From a slot holding at most one message, a checked field ends with exactly
      the message of the last failing check and the error border, or with no
      message and a cleared border. */
  lemma ValidateFieldOutcome(f: Field, slot: ErrorSlot)
    requires |slot.messages| <= 1
    ensures ValidateField(f, slot) ==
      match LastFailure(f)
      case None => ErrorSlot([], "")
      case Some(m) => ErrorSlot([m], ErrorBorder)
  {
    ThreeChecks(slot, IsBlank(f.value), FailsEmail(f), FailsPhone(f));
  }

  /** The three checks with their verdicts as plain flags: the last one that
      fires decides the message. */
  lemma ThreeChecks(slot: ErrorSlot, blank: bool, email: bool, phone: bool)
    requires |slot.messages| <= 1
    ensures
      var r1 := if blank then ShowFieldError(slot, RequiredMessage) else ClearFieldError(slot);
      var r2 := if email then ShowFieldError(r1, EmailMessage) else r1;
      var r3 := if phone then ShowFieldError(r2, PhoneMessage) else r2;
      r3 == if phone then ErrorSlot([PhoneMessage], ErrorBorder)
            else if email then ErrorSlot([EmailMessage], ErrorBorder)
            else if blank then ErrorSlot([RequiredMessage], ErrorBorder)
            else ErrorSlot([], "")
  {
  }

  /** The body of the per-field callback of `validateForm`: runs the three checks
      in order on one required field, threading its error slot through
      `showFieldError` and `clearFieldError`, and reports whether all passed. */
  method CheckRequiredField(field: Field, slot: ErrorSlot) returns (passed: bool, result: ErrorSlot)
    ensures passed <==> Passes(field)
    ensures result == ValidateField(field, slot)
  {
    passed := true;
    if IsBlank(field.value) {
      result := ShowFieldError(slot, RequiredMessage);
      passed := false;
    } else {
      result := ClearFieldError(slot);
    }
    ghost var afterRequired := result;
    if field.kind == Email && field.value != [] {
      if !IsEmail(field.value) {
        result := ShowFieldError(result, EmailMessage);
        passed := false;
      }
    }
    assert result == if FailsEmail(field) then ShowFieldError(afterRequired, EmailMessage) else afterRequired;
    assert passed <==> !IsBlank(field.value) && !FailsEmail(field);
    if field.kind == Tel && field.value != [] {
      if !IsPhone(StripSpaces(field.value)) {
        result := ShowFieldError(result, PhoneMessage);
        passed := false;
      }
    }
  }

  /** The form is valid when every required field passes; other fields are not looked at. */
  predicate FormValid(fields: seq<Field>) {
    forall k :: 0 <= k < |fields| && fields[k].required ==> Passes(fields[k])
  }

  /** What the validator leaves in one slot: the checked slot for a required
      field, the untouched slot for any other. */
  function SlotAfter(f: Field, slot: ErrorSlot): ErrorSlot {
    if f.required then ValidateField(f, slot) else slot
  }

  /** `step` applied to each element of `xs` and the matching element of `ys`,
      folded from the last element back. */
  function ZipSnoc<T, S>(xs: seq<T>, ys: seq<S>, step: (T, S) -> S): (r: seq<S>)
    requires |ys| == |xs|
    ensures |r| == |xs|
    decreases |xs|
  {
    if xs == [] then []
    else
      var n := |xs| - 1;
      ZipSnoc(xs[..n], ys[..n], step) + [step(xs[n], ys[n])]
  }

  /** Each element of the fold depends only on the elements at its own index. */
  lemma {:induction false} ZipSnocAt<T, S>(xs: seq<T>, ys: seq<S>, step: (T, S) -> S, k: nat)
    requires |ys| == |xs| && k < |xs|
    ensures ZipSnoc(xs, ys, step)[k] == step(xs[k], ys[k])
    decreases |xs|
  {
    var n := |xs| - 1;
    if k < n {
      ZipSnocAt(xs[..n], ys[..n], step, k);
    }
  }

  /** The validator as a fold over the fields in document order: the slots it
      leaves behind. */
  function ValidateAll(fields: seq<Field>, slots: seq<ErrorSlot>): (r: seq<ErrorSlot>)
    requires |slots| == |fields|
    ensures |r| == |fields|
  {
    ZipSnoc(fields, slots, SlotAfter)
  }

  /** A required field must pass; a field without `required` is never looked at. */
  predicate FieldOk(f: Field) {
    f.required ==> Passes(f)
  }

  /** `ok` holds of every element, folded from the last element back. */
  predicate AllSnoc<T>(xs: seq<T>, ok: T -> bool)
    decreases |xs|
  {
    xs == [] || (AllSnoc(xs[..|xs| - 1], ok) && ok(xs[|xs| - 1]))
  }

  /** The fold agrees with the quantified statement. */
  lemma {:induction false} AllSnocIff<T>(xs: seq<T>, ok: T -> bool)
    ensures AllSnoc(xs, ok) <==> forall k :: 0 <= k < |xs| ==> ok(xs[k])
    decreases |xs|
  {
    if xs != [] {
      var n := |xs| - 1;
      var init := xs[..n];
      AllSnocIff(init, ok);
      assert forall k :: 0 <= k < n ==> init[k] == xs[k];
    }
  }

  /** The validity flag as the same fold as the slots. */
  predicate AllRequiredPass(fields: seq<Field>) {
    AllSnoc(fields, FieldOk)
  }

  /** The fold leaves each slot as `SlotAfter` says, independently of the others. */
  lemma ValidateAllAt(fields: seq<Field>, slots: seq<ErrorSlot>, k: nat)
    requires |slots| == |fields| && k < |fields|
    ensures ValidateAll(fields, slots)[k] == SlotAfter(fields[k], slots[k])
  {
    ZipSnocAt(fields, slots, SlotAfter, k);
  }

  /** The folded flag is the form's validity. */
  lemma AllRequiredPassIff(fields: seq<Field>)
    ensures AllRequiredPass(fields) <==> FormValid(fields)
  {
    AllSnocIff(fields, FieldOk);
  }

  /** One more field folded in: the fold over a longer prefix extends the fold
      over the shorter one by that field's slot. */
  lemma ValidateAllSnoc(fields: seq<Field>, slots: seq<ErrorSlot>, n: nat)
    requires |slots| == |fields| && n < |fields|
    ensures ValidateAll(fields[..n + 1], slots[..n + 1])
         == ValidateAll(fields[..n], slots[..n]) + [SlotAfter(fields[n], slots[n])]
  {
    assert fields[..n + 1][..n] == fields[..n];
    assert slots[..n + 1][..n] == slots[..n];
  }

  lemma AllRequiredPassSnoc(fields: seq<Field>, n: nat)
    requires n < |fields|
    ensures AllRequiredPass(fields[..n + 1])
        <==> AllRequiredPass(fields[..n]) && (fields[n].required ==> Passes(fields[n]))
  {
    assert fields[..n + 1][..n] == fields[..n];
  }

  /** One turn of the `forEach` callback of `validateForm`, on the field at index
      `n`: the fold is extended by that field, in the flag and in the slots. */
  method ValidateNext(fields: seq<Field>, slots: array<ErrorSlot>, ghost initial: seq<ErrorSlot>, n: nat, isValid: bool)
    returns (stillValid: bool)
    requires slots.Length == |fields| == |initial| && n < |fields|
    requires isValid == AllRequiredPass(fields[..n])
    requires slots[..n] == ValidateAll(fields[..n], initial[..n])
    requires slots[n..] == initial[n..]
    modifies slots
    ensures stillValid == AllRequiredPass(fields[..n + 1])
    ensures slots[..n + 1] == ValidateAll(fields[..n + 1], initial[..n + 1])
    ensures slots[n + 1..] == initial[n + 1..]
  {
    ghost var done := slots[..n];
    assert slots[n] == initial[n] by {
      assert slots[n..][0] == initial[n..][0];
    }
    stillValid := isValid;
    if fields[n].required {
      var passed, slot := CheckRequiredField(fields[n], slots[n]);
      slots[n] := slot;
      if !passed {
        stillValid := false;
      }
    }
    assert slots[n] == SlotAfter(fields[n], initial[n]);
    assert slots[..n] == done;
    assert slots[..n + 1] == done + [slots[n]];
    assert slots[n + 1..] == initial[n + 1..];
    ValidateAllSnoc(fields, initial, n);
    AllRequiredPassSnoc(fields, n);
  }

  /** `validateForm`: runs the checks on the required fields in document order,
      updating each one's error slot in place, and reports whether all of them
      passed. Slots of fields without `required` are left as they were. */
  method ValidateForm(fields: seq<Field>, slots: array<ErrorSlot>) returns (isValid: bool)
    requires slots.Length == |fields|
    modifies slots
    ensures isValid <==> FormValid(fields)
    ensures slots[..] == ValidateAll(fields, old(slots[..]))
  {
    ghost var initial := slots[..];
    isValid := true;
    var n := 0;
    while n < |fields|
      invariant 0 <= n <= |fields|
      invariant isValid == AllRequiredPass(fields[..n])
      invariant slots[..n] == ValidateAll(fields[..n], initial[..n])
      invariant slots[n..] == initial[n..]
    {
      isValid := ValidateNext(fields, slots, initial, n, isValid);
      n := n + 1;
    }
    assert fields[..n] == fields;
    assert slots[..] == slots[..n];
    assert initial == initial[..n];
    AllRequiredPassIff(fields);
  }

  /** A field without `required` never makes the form invalid, whatever its value. */
  lemma OptionalFieldIrrelevant(fields: seq<Field>, k: nat, f: Field)
    requires k < |fields| && !fields[k].required && !f.required
    ensures FormValid(fields[k := f]) <==> FormValid(fields)
  {
    assert forall j :: 0 <= j < |fields| && j != k ==> fields[k := f][j] == fields[j];
  }

  /** A form is invalid exactly when some required field is blank, or is an
      email field failing the email check, or a phone field failing the phone check. */
  lemma InvalidIffSomeRequiredFails(fields: seq<Field>)
    ensures !FormValid(fields) <==>
      exists k :: 0 <= k < |fields| && fields[k].required &&
        (IsBlank(fields[k].value) || FailsEmail(fields[k]) || FailsPhone(fields[k]))
  {
  }

  /** A required email field holding only whitespace first gets the "required"
      message, but its untrimmed value is not empty and cannot match the email
      pattern, so it ends with the email message. */
  lemma WhitespaceEmailShowsEmailMessage(value: string, slot: ErrorSlot)
    requires value != [] && AllSpace(value) && |slot.messages| <= 1
    ensures ValidateField(Field(Email, true, value), slot) == ErrorSlot([EmailMessage], ErrorBorder)
  {
    ValidateFieldOutcome(Field(Email, true, value), slot);
    BlankIffAllSpace(value);
    assert IsSpace(value[0]);
  }

  /** A required phone field holding only whitespace ends with the phone message:
      removing the whitespace leaves an empty number, which the pattern rejects. */
  lemma WhitespacePhoneShowsPhoneMessage(value: string, slot: ErrorSlot)
    requires value != [] && AllSpace(value) && |slot.messages| <= 1
    ensures ValidateField(Field(Tel, true, value), slot) == ErrorSlot([PhoneMessage], ErrorBorder)
  {
    ValidateFieldOutcome(Field(Tel, true, value), slot);
    BlankIffAllSpace(value);
    StripSpacesEmptyIffAllSpace(value);
  }

  /** Validating a form whose slots hold at most one message each leaves every
      slot with at most one message: `showFieldError` clears before it appends. */
  lemma ValidationKeepsOneMessage(fields: seq<Field>, slots: seq<ErrorSlot>)
    requires |slots| == |fields|
    requires forall k :: 0 <= k < |slots| ==> |slots[k].messages| <= 1
    ensures forall k :: 0 <= k < |fields| ==> |ValidateAll(fields, slots)[k].messages| <= 1
  {
    forall k | 0 <= k < |fields| ensures |ValidateAll(fields, slots)[k].messages| <= 1 {
      ValidateAllAt(fields, slots, k);
      ValidateFieldOutcome(fields[k], slots[k]);
    }
  }
}
