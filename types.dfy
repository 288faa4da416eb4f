/** The student record and belt ranks of the backend-as-a-service revision
    (src/types/student.ts). */
module Types {
  import opened Wrappers
  import BloodGroups

  /** The six belt levels of this revision, lowest first. */
  datatype BeltLevel = Branca | Amarela | Verde | Azul | Vermelha | Preta

  /** The label a belt is stored and shown as. */
  function Label(b: BeltLevel): string
  {
    match b
    case Branca => "Branca"
    case Amarela => "Amarela"
    case Verde => "Verde"
    case Azul => "Azul"
    case Vermelha => "Vermelha"
    case Preta => "Preta"
  }

  /** `BELT_LEVELS`: every belt, lowest rank first. */
  const BeltLevels: seq<BeltLevel> := [Branca, Amarela, Verde, Azul, Vermelha, Preta]

  /** A belt's rank: its index in `BELT_LEVELS`. */
  function Rank(b: BeltLevel): (r: nat)
    ensures r < |BeltLevels| && BeltLevels[r] == b
  {
    match b
    case Branca => 0
    case Amarela => 1
    case Verde => 2
    case Azul => 3
    case Vermelha => 4
    case Preta => 5
  }

  /** The `BeltLevel` union read back from a label. */
  function ParseBelt(s: string): (r: Option<BeltLevel>)
    ensures r.Some? ==> Label(r.value) == s
    ensures r.None? ==> forall b :: Label(b) != s
  {
    if s == "Branca" then Some(Branca)
    else if s == "Amarela" then Some(Amarela)
    else if s == "Verde" then Some(Verde)
    else if s == "Azul" then Some(Azul)
    else if s == "Vermelha" then Some(Vermelha)
    else if s == "Preta" then Some(Preta)
    else None
  }

  /** `BELT_LEVELS` lists each of the six belts exactly once, and the index of
      a belt in it is its rank: Branca < Amarela < Verde < Azul < Vermelha < Preta. */
  lemma BeltLevelsEnumerateRanks()
    ensures |BeltLevels| == 6
    ensures forall b :: b in BeltLevels
    ensures forall i :: 0 <= i < |BeltLevels| ==> Rank(BeltLevels[i]) == i
    ensures forall i, j :: 0 <= i < j < |BeltLevels| ==> BeltLevels[i] != BeltLevels[j]
    ensures Rank(Branca) < Rank(Amarela) < Rank(Verde) < Rank(Azul) < Rank(Vermelha) < Rank(Preta)
  {
    assert forall i :: 0 <= i < |BeltLevels| ==> Rank(BeltLevels[i]) == i;
    forall b ensures b in BeltLevels {
      assert BeltLevels[Rank(b)] == b;
    }
  }

  /** Labels are pairwise distinct and each parses back to its belt. */
  lemma LabelsDistinct(a: BeltLevel, b: BeltLevel)
    ensures Label(a) == Label(b) ==> a == b
    ensures ParseBelt(Label(a)) == Some(a)
  {
  }

  /** A student record of this revision. Every data field is required, `id`
      and `monthlyFee` included; only the timestamps may be missing. `belt` and
      `bloodType` are plain strings, not the enumerations. */
  datatype Student = Student(
    id: string,
    name: string,
    motherName: string,
    fatherName: string,
    age: int,
    belt: string,
    bloodType: string,
    phone: string,
    observations: string,
    address: string,
    enrollmentDate: string,
    monthlyFee: real,
    createdAt: Option<string>,
    updatedAt: Option<string>)

  /** The belt of a record, when it is one of `BELT_LEVELS`. */
  function KnownBelt(s: Student): (r: Option<BeltLevel>)
    ensures r.Some? <==> s.belt in seq(|BeltLevels|, i requires 0 <= i < |BeltLevels| => Label(BeltLevels[i]))
  {
    assert forall b :: Label(b) == seq(|BeltLevels|, i requires 0 <= i < |BeltLevels| => Label(BeltLevels[i]))[Rank(b)];
    ParseBelt(s.belt)
  }

  /** Because `belt` and `bloodType` are plain strings, a well-typed record can
      carry a belt outside `BELT_LEVELS` (here a label of the other revision)
      and a blood type outside `BLOOD_TYPES`. */
  lemma RecordsAdmitUnlistedLabels()
    ensures var s := Student("1", "Ana", "", "", 10, "Faixa Branca", "A", "", "", "", "2024-01-01", 0.0, None, None);
            KnownBelt(s) == None && BloodGroups.Parse(s.bloodType) == None
  {
  }
}
