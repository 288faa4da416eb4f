/** The edit dialog of the backend-as-a-service revision
    (src/components/StudentEditDialog.tsx): the form text pre-filled from a
    record, the ordered validation chain of `handleSubmit`, the payload it
    saves, and the `loading` flag around the save. The save itself (the
    `onSave` callback) is a parameter: the outcome it gave once awaited. */
module EditDialog {
  import opened Wrappers
  import opened JsText
  import Phone
  import Types
  import Roster

  /** The form's text fields, one per editable field of a record. */
  datatype FormData = FormData(
    name: string,
    motherName: string,
    fatherName: string,
    age: string,
    belt: string,
    bloodType: string,
    phone: string,
    observations: string,
    address: string,
    enrollmentDate: string,
    monthlyFee: string)

  /** The form before any record is loaded: every field empty. */
  const EmptyForm := FormData("", "", "", "", "", "", "", "", "", "", "")

  /** The form filled from a record. `feeText` is what `toString` gives for
      the record's fee (a floating-point rendering this model does not
      compute); every text field is already a string, so `|| ""` keeps it. */
  function Prefill(s: Types.Student, feeText: string): (f: FormData)
    ensures ParseInt(f.age) == Some(s.age)
  {
    ParseIntOfIntText(s.age);
    FormData(s.name, s.motherName, s.fatherName, IntText(s.age), s.belt, s.bloodType,
             s.phone, s.observations, s.address, s.enrollmentDate, feeText)
  }

  // ---------------------------------------------------------------------
  // The checks, in the order `handleSubmit` runs them.

  /** Why a submission was refused. */
  datatype Rejection = NameRequired | AgeOutOfRange | BeltRequired | PhoneInvalid | FeeInvalid

  /** The destructive toast each refusal shows. */
  function RejectionToast(r: Rejection): Roster.Toast
  {
    match r
    case NameRequired => Roster.Toast("Campo obrigatório", "O nome completo é obrigatório.", true)
    case AgeOutOfRange => Roster.Toast("Idade inválida", "A idade deve estar entre 3 e 100 anos.", true)
    case BeltRequired => Roster.Toast("Campo obrigatório", "Selecione a graduação (faixa) do aluno.", true)
    case PhoneInvalid => Roster.Toast("Celular inválido", "Digite um número de celular válido.", true)
    case FeeInvalid => Roster.Toast("Mensalidade inválida", "Digite um valor válido para a mensalidade.", true)
  }

  /** The name is blank once trimmed. */
  predicate NameMissing(f: FormData)
  {
    Trim(f.name) == ""
  }

  /** The age is empty, or parses to a number below 3 or above 100. A text
      that parses to `NaN` fails both comparisons and is not refused. */
  predicate AgeRejected(f: FormData)
  {
    f.age == "" || (ParseInt(f.age).Some? && (ParseInt(f.age).value < 3 || ParseInt(f.age).value > 100))
  }

  /** No belt was chosen. */
  predicate BeltMissing(f: FormData)
  {
    f.belt == ""
  }

  /** The fee as `handleSubmit` computes it: 0 for an empty field, otherwise
      `parseFloat` of it (`None` for `NaN`). */
  function FeeValue(f: FormData): (r: Option<real>)
    ensures f.monthlyFee == "" ==> r == Some(0.0)
  {
    if f.monthlyFee != "" then ParseFloat(f.monthlyFee) else Some(0.0)
  }

  /** A non-empty fee that is `NaN` or negative. */
  predicate FeeRejected(f: FormData)
  {
    f.monthlyFee != "" && (FeeValue(f).None? || FeeValue(f).value < 0.0)
  }

  /** The validation chain: the first check that fails, or the fee to save
      when all pass. */
  function Validate(f: FormData): (r: Result<real, Rejection>)
    ensures r.Ok? ==> r.value >= 0.0 && FeeValue(f) == Some(r.value)
    ensures r.Ok? && f.monthlyFee == "" ==> r.value == 0.0
  {
    if NameMissing(f) then Err(NameRequired)
    else if AgeRejected(f) then Err(AgeOutOfRange)
    else if BeltMissing(f) then Err(BeltRequired)
    else if !Phone.ValidatePhone(f.phone) then Err(PhoneInvalid)
    else if FeeRejected(f) then Err(FeeInvalid)
    else Ok(FeeValue(f).value)
  }

  /** The checks run in a fixed order: a submission is refused for a reason
      exactly when every earlier check passed and that one failed, and it
      is accepted exactly when all pass. */
  lemma ValidationOrder(f: FormData)
    ensures Validate(f) == Err(NameRequired) <==> NameMissing(f)
    ensures Validate(f) == Err(AgeOutOfRange) <==> !NameMissing(f) && AgeRejected(f)
    ensures Validate(f) == Err(BeltRequired) <==> !NameMissing(f) && !AgeRejected(f) && BeltMissing(f)
    ensures Validate(f) == Err(PhoneInvalid)
            <==> !NameMissing(f) && !AgeRejected(f) && !BeltMissing(f) && !Phone.ValidatePhone(f.phone)
    ensures Validate(f) == Err(FeeInvalid)
            <==> !NameMissing(f) && !AgeRejected(f) && !BeltMissing(f) && Phone.ValidatePhone(f.phone)
                 && FeeRejected(f)
    ensures Validate(f).Ok?
            <==> !NameMissing(f) && !AgeRejected(f) && !BeltMissing(f) && Phone.ValidatePhone(f.phone)
                 && !FeeRejected(f)
  {
  }

  /** An accepted age is non-empty and, when it is a number at all, lies
      between 3 and 100. */
  lemma AcceptedAge(f: FormData)
    requires Validate(f).Ok?
    ensures f.age != ""
    ensures ParseInt(f.age).Some? ==> 3 <= ParseInt(f.age).value <= 100
  {
  }

  /** An age with no leading digit, such as "abc", parses to `NaN` and passes
      the range check. */
  lemma NonNumericAgeAccepted()
    ensures ParseInt("abc") == None
    ensures !AgeRejected(FormData("Ana", "", "", "abc", "Branca", "", "", "", "", "", ""))
  {
    var t := "abc";
    assert !IsWhitespace(t[0]);
    assert TrimStart(t) == t;
    assert SplitSign(t) == (false, t);
    assert !IsRadixDigit(t[0], 10);
    assert DigitRun(t, 10) == 0;
  }

  /** A non-empty fee is accepted exactly when it parses to a non-negative
      number; an empty one is saved as 0. */
  lemma AcceptedFee(f: FormData)
    requires !NameMissing(f) && !AgeRejected(f) && !BeltMissing(f) && Phone.ValidatePhone(f.phone)
    ensures f.monthlyFee != "" ==>
              (Validate(f).Ok? <==> ParseFloat(f.monthlyFee).Some? && ParseFloat(f.monthlyFee).value >= 0.0)
    ensures f.monthlyFee == "" ==> Validate(f) == Ok(0.0)
  {
  }

  // ---------------------------------------------------------------------
  // The saved payload.

  /** What `handleSubmit` passes to `onSave`: the free-text fields trimmed,
      the age parsed, the belt, blood type and date as they are, and the
      checked fee. */
  function SavePayload(f: FormData, fee: real): Roster.Patch
  {
    Roster.Patch(
      Some(Trim(f.name)), Some(Trim(f.motherName)), Some(Trim(f.fatherName)),
      Some(ParseInt(f.age)), Some(f.belt), Some(f.bloodType), Some(Trim(f.phone)),
      Some(Trim(f.observations)), Some(Trim(f.address)), Some(f.enrollmentDate), Some(fee))
  }

  /** An age the range check lets through as `NaN` goes to the store as a
      JSON null age. */
  lemma NonNumericAgeSentAsNull(f: FormData, fee: real)
    requires ParseInt(f.age) == None
    ensures Roster.AgeCol in Roster.UpdateData(SavePayload(f, fee))
    ensures Roster.UpdateData(SavePayload(f, fee))[Roster.AgeCol] == Roster.Integer(None)
  {
    Roster.NaNAgeSentAsNull(SavePayload(f, fee));
  }

  /** The payload of an accepted form defines every field; its name is
      non-blank and has no white space at either end, its phone still passes
      the phone check, and its fee is non-negative. */
  lemma AcceptedPayload(f: FormData)
    requires Validate(f).Ok?
    ensures var p := SavePayload(f, Validate(f).value);
            && p.name.Some? && p.motherName.Some? && p.fatherName.Some? && p.age.Some?
            && p.belt.Some? && p.bloodType.Some? && p.phone.Some? && p.observations.Some?
            && p.address.Some? && p.enrollmentDate.Some? && p.monthlyFee.Some?
            && p.name.value != "" && Trim(p.name.value) == p.name.value
            && p.belt.value != ""
            && Phone.ValidatePhone(p.phone.value)
            && p.monthlyFee.value >= 0.0
  {
    TrimIdempotent(f.name);
    var t := Trim(f.phone);
    RemoveWhitespaceOfTrim(f.phone);
    if t == "" && f.phone != "" {
      TrimEmptyIff(f.phone);
      RemoveWhitespaceOfBlank(f.phone);
    }
  }

  /** No white space at either end. */
  predicate Trimmed(x: string)
  {
    x == [] || (!IsWhitespace(x[0]) && !IsWhitespace(x[|x| - 1]))
  }

  lemma TrimOfTrimmed(x: string)
    requires Trimmed(x)
    ensures Trim(x) == x
  {
  }

  /** Opening a record whose text fields carry no outer white space and
      saving it unedited sends back every field as it was: written over the
      record, the payload changes nothing. `feeText` must read back as the
      fee, which is what `toString` guarantees for a finite number. */
  lemma UneditedSaveChangesNothing(s: Types.Student, feeText: string)
    requires Trimmed(s.name) && Trimmed(s.motherName) && Trimmed(s.fatherName)
    requires Trimmed(s.phone) && Trimmed(s.observations) && Trimmed(s.address)
    requires feeText != "" && ParseFloat(feeText) == Some(s.monthlyFee)
    ensures var f := Prefill(s, feeText);
            FeeValue(f) == Some(s.monthlyFee)
            && Roster.Merge(s, SavePayload(f, s.monthlyFee)) == s
  {
    TrimOfTrimmed(s.name);
    TrimOfTrimmed(s.motherName);
    TrimOfTrimmed(s.fatherName);
    TrimOfTrimmed(s.phone);
    TrimOfTrimmed(s.observations);
    TrimOfTrimmed(s.address);
  }

  /** A record that meets every rule (non-blank name, age 3 to 100, a belt,
      a valid phone, a non-negative fee whose text reads back) passes the
      checks unedited, with its own fee. */
  lemma ValidRecordAccepted(s: Types.Student, feeText: string)
    requires Trim(s.name) != "" && 3 <= s.age <= 100 && s.belt != ""
    requires Phone.ValidatePhone(s.phone)
    requires s.monthlyFee >= 0.0 && feeText != "" && ParseFloat(feeText) == Some(s.monthlyFee)
    ensures Validate(Prefill(s, feeText)) == Ok(s.monthlyFee)
  {
    var f := Prefill(s, feeText);
    PrefillAgeAccepted(s, feeText);
    assert FeeValue(f) == Some(s.monthlyFee);
    ValidationOrder(f);
  }

  lemma PrefillAgeAccepted(s: Types.Student, feeText: string)
    requires 3 <= s.age <= 100
    ensures !AgeRejected(Prefill(s, feeText))
  {
    var f := Prefill(s, feeText);
    assert ParseInt(f.age) == Some(s.age);
  }

  /** An integer fee is written with its digits, which read back as the fee:
      the text `ValidRecordAccepted` and `UneditedSaveChangesNothing` need
      exists for every whole fee. */
  lemma WholeFeeText(n: nat)
    ensures NatText(n) != "" && ParseFloat(NatText(n)) == Some(n as real)
  {
    NatTextValue(n);
    ParseFloatOfDigits(NatText(n));
  }

  // ---------------------------------------------------------------------
  // The dialog.

  /** A call of `onSave`: the record id and the payload. */
  datatype Save = Save(id: string, patch: Roster.Patch)

  class Dialog {
    var formData: FormData
    var loading: bool
    var toasts: seq<Roster.Toast>
    /** Every call of `onSave`, oldest first. */
    var saves: seq<Save>
    /** How many times `onClose` was called. */
    var closeCount: nat
    /** Every value given to `setLoading`, oldest first. */
    ghost var loadingWrites: seq<bool>

    /** The dialog's initial state: an empty form, not loading. */
    constructor ()
      ensures formData == EmptyForm && !loading
      ensures toasts == [] && saves == [] && closeCount == 0 && loadingWrites == []
    {
      formData, loading, toasts, saves, closeCount := EmptyForm, false, [], [], 0;
      loadingWrites := [];
    }

    /** The effect on the `student` prop: a record fills the form; `null`
        leaves it as it was. */
    method OnStudentChange(student: Option<Types.Student>, feeText: string)
      modifies this
      ensures student.Some? ==> formData == Prefill(student.value, feeText)
      ensures student.None? ==> formData == old(formData)
      ensures loading == old(loading) && toasts == old(toasts) && saves == old(saves)
      ensures closeCount == old(closeCount) && loadingWrites == old(loadingWrites)
    {
      if student.Some? {
        formData := Prefill(student.value, feeText);
      }
    }

    /** The checks of `handleSubmit`, in order: the first one that fails
        shows its toast and yields nothing; when all pass, the fee to save. */
    method CheckForm() returns (fee: Option<real>)
      modifies this
      ensures formData == old(formData) && saves == old(saves) && closeCount == old(closeCount)
      ensures loading == old(loading) && loadingWrites == old(loadingWrites)
      ensures Validate(formData).Err? ==>
                fee.None? && toasts == old(toasts) + [RejectionToast(Validate(formData).error)]
      ensures Validate(formData).Ok? ==> fee == Some(Validate(formData).value) && toasts == old(toasts)
    {
      ValidationOrder(formData);
      if NameMissing(formData) {
        toasts := toasts + [RejectionToast(NameRequired)];
        return None;
      }
      if AgeRejected(formData) {
        toasts := toasts + [RejectionToast(AgeOutOfRange)];
        return None;
      }
      if BeltMissing(formData) {
        toasts := toasts + [RejectionToast(BeltRequired)];
        return None;
      }
      if !Phone.ValidatePhone(formData.phone) {
        toasts := toasts + [RejectionToast(PhoneInvalid)];
        return None;
      }
      fee := FeeValue(formData);
      if FeeRejected(formData) {
        toasts := toasts + [RejectionToast(FeeInvalid)];
        return None;
      }
    }

    /** `handleSubmit`: without a record nothing happens; the first failing
        check shows its toast and stops; otherwise the payload is saved with
        `loading` raised, the dialog closes only if the save succeeded, and
        a failed save is swallowed (the hook has reported it). */
    method HandleSubmit(student: Option<Types.Student>, saveOutcome: Result<(), string>)
      modifies this
      ensures formData == old(formData)
      ensures student.None? ==>
                && loading == old(loading) && toasts == old(toasts) && saves == old(saves)
                && closeCount == old(closeCount) && loadingWrites == old(loadingWrites)
      ensures student.Some? && Validate(formData).Err? ==>
                && toasts == old(toasts) + [RejectionToast(Validate(formData).error)]
                && saves == old(saves) && closeCount == old(closeCount)
                && loading == old(loading) && loadingWrites == old(loadingWrites)
      ensures student.Some? && Validate(formData).Ok? ==>
                && saves == old(saves) + [Save(student.value.id, SavePayload(formData, Validate(formData).value))]
                && closeCount == old(closeCount) + (if saveOutcome.Ok? then 1 else 0)
                && toasts == old(toasts)
                && !loading && loadingWrites == old(loadingWrites) + [true, false]
    {
      if student.None? {
        return;
      }
      var fee := CheckForm();
      if fee.None? {
        return;
      }
      SaveChecked(student.value.id, fee.value, saveOutcome);
    }

    /** The part of `handleSubmit` after the checks pass: raise `loading`,
        call `onSave` with the payload, close on success, and in `finally`
        clear `loading`. */
    method SaveChecked(id: string, fee: real, saveOutcome: Result<(), string>)
      modifies this
      ensures formData == old(formData) && toasts == old(toasts)
      ensures saves == old(saves) + [Save(id, SavePayload(formData, fee))]
      ensures closeCount == old(closeCount) + (if saveOutcome.Ok? then 1 else 0)
      ensures !loading && loadingWrites == old(loadingWrites) + [true, false]
    {
      loading := true;
      loadingWrites := loadingWrites + [true];
      saves := saves + [Save(id, SavePayload(formData, fee))];
      if saveOutcome.Ok? {
        closeCount := closeCount + 1;
      }
      loading := false;
      loadingWrites := loadingWrites + [false];
    }
  }
}
