/** The eight ABO/Rh blood-group labels, `BLOOD_TYPES`, as both revisions of
    the student types declare them. */
module BloodGroups {
  import opened Wrappers

  datatype BloodType = APos | ANeg | BPos | BNeg | ABPos | ABNeg | OPos | ONeg

  /** The label a blood type is stored and shown as. */
  function Label(t: BloodType): string
  {
    match t
    case APos => "A+"
    case ANeg => "A-"
    case BPos => "B+"
    case BNeg => "B-"
    case ABPos => "AB+"
    case ABNeg => "AB-"
    case OPos => "O+"
    case ONeg => "O-"
  }

  /** `BLOOD_TYPES`, in declaration order. */
  const BloodTypes: seq<BloodType> := [APos, ANeg, BPos, BNeg, ABPos, ABNeg, OPos, ONeg]

  /** The labels of `BLOOD_TYPES`, in declaration order. */
  const BloodTypeLabels: seq<string> := ["A+", "A-", "B+", "B-", "AB+", "AB-", "O+", "O-"]

  /** The `BloodType` union is exactly the set of labels: a label names at most one type. */
  function Parse(s: string): (r: Option<BloodType>)
    ensures r.Some? ==> Label(r.value) == s
    ensures r.None? ==> forall t :: Label(t) != s
  {
    if s == "A+" then Some(APos)
    else if s == "A-" then Some(ANeg)
    else if s == "B+" then Some(BPos)
    else if s == "B-" then Some(BNeg)
    else if s == "AB+" then Some(ABPos)
    else if s == "AB-" then Some(ABNeg)
    else if s == "O+" then Some(OPos)
    else if s == "O-" then Some(ONeg)
    else None
  }

  /** Every blood type is listed once, the list has eight entries, and the
      label list is the list of labels. */
  lemma BloodTypesEnumerated()
    ensures |BloodTypes| == 8 && |BloodTypeLabels| == 8
    ensures forall t :: t in BloodTypes
    ensures forall i, j :: 0 <= i < j < |BloodTypes| ==> BloodTypes[i] != BloodTypes[j]
    ensures forall i :: 0 <= i < 8 ==> BloodTypeLabels[i] == Label(BloodTypes[i])
  {
    forall t ensures t in BloodTypes {
      match t
      case APos => assert BloodTypes[0] == t;
      case ANeg => assert BloodTypes[1] == t;
      case BPos => assert BloodTypes[2] == t;
      case BNeg => assert BloodTypes[3] == t;
      case ABPos => assert BloodTypes[4] == t;
      case ABNeg => assert BloodTypes[5] == t;
      case OPos => assert BloodTypes[6] == t;
      case ONeg => assert BloodTypes[7] == t;
    }
  }

  /** The eight labels are pairwise distinct, and each one parses back to its type. */
  lemma LabelsDistinct(t: BloodType, u: BloodType)
    ensures Label(t) == Label(u) ==> t == u
    ensures Parse(Label(t)) == Some(t)
  {
  }
}
