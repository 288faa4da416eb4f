/** The student record and belt ranks of the REST revision
    (front/src/types/student.ts). */
module RestTypes {
  import opened Wrappers
  import BloodGroups

  /** The eleven belt levels of this revision, lowest first. */
  datatype BeltLevel =
    | FaixaBranca | Cinza | Amarela | AmarelaPontaVerde | Verde | VerdePontaAzul
    | Azul | AzulPontaVermelha | Vermelha | VermelhaPontaPreta | Preta

  /** The label a belt is stored and shown as. */
  function Label(b: BeltLevel): string
  {
    match b
    case FaixaBranca => "Faixa Branca"
    case Cinza => "Cinza"
    case Amarela => "Amarela"
    case AmarelaPontaVerde => "Amarela ponta Verde"
    case Verde => "Verde"
    case VerdePontaAzul => "Verde ponta Azul"
    case Azul => "Azul"
    case AzulPontaVermelha => "Azul ponta Vermelha"
    case Vermelha => "Vermelha"
    case VermelhaPontaPreta => "Vermelha ponta Preta"
    case Preta => "Preta"
  }

  /** `BELT_LEVELS`: every belt, lowest rank first. */
  const BeltLevels: seq<BeltLevel> :=
    [FaixaBranca, Cinza, Amarela, AmarelaPontaVerde, Verde, VerdePontaAzul,
     Azul, AzulPontaVermelha, Vermelha, VermelhaPontaPreta, Preta]

  /** A belt's rank: its index in `BELT_LEVELS`. */
  function Rank(b: BeltLevel): (r: nat)
    ensures r < |BeltLevels| && BeltLevels[r] == b
  {
    match b
    case FaixaBranca => 0
    case Cinza => 1
    case Amarela => 2
    case AmarelaPontaVerde => 3
    case Verde => 4
    case VerdePontaAzul => 5
    case Azul => 6
    case AzulPontaVermelha => 7
    case Vermelha => 8
    case VermelhaPontaPreta => 9
    case Preta => 10
  }

  /** The `BeltLevel` union read back from a label. */
  function ParseBelt(s: string): (r: Option<BeltLevel>)
    ensures r.Some? ==> Label(r.value) == s
    ensures r.None? ==> forall b :: Label(b) != s
  {
    if s == "Faixa Branca" then Some(FaixaBranca)
    else if s == "Cinza" then Some(Cinza)
    else if s == "Amarela" then Some(Amarela)
    else if s == "Amarela ponta Verde" then Some(AmarelaPontaVerde)
    else if s == "Verde" then Some(Verde)
    else if s == "Verde ponta Azul" then Some(VerdePontaAzul)
    else if s == "Azul" then Some(Azul)
    else if s == "Azul ponta Vermelha" then Some(AzulPontaVermelha)
    else if s == "Vermelha" then Some(Vermelha)
    else if s == "Vermelha ponta Preta" then Some(VermelhaPontaPreta)
    else if s == "Preta" then Some(Preta)
    else None
  }

  /** `BELT_LEVELS` lists each of the eleven belts exactly once (every belt
      occurs, no two positions hold the same belt), and the index of a belt in
      it is its rank, from Faixa Branca (0) to Preta (10). */
  lemma BeltLevelsEnumerateRanks()
    ensures |BeltLevels| == 11
    ensures forall b :: b in BeltLevels
    ensures forall i :: 0 <= i < |BeltLevels| ==> Rank(BeltLevels[i]) == i
    ensures forall i, j :: 0 <= i < j < |BeltLevels| ==> BeltLevels[i] != BeltLevels[j]
    ensures Rank(FaixaBranca) == 0 && Rank(Preta) == 10
  {
    assert forall i :: 0 <= i < |BeltLevels| ==> Rank(BeltLevels[i]) == i;
    forall b ensures b in BeltLevels {
      assert BeltLevels[Rank(b)] == b;
    }
  }

  /** Labels are pairwise distinct and each parses back to its belt, so a
      stored label determines the belt and hence the rank. */
  lemma LabelsDistinct(a: BeltLevel, b: BeltLevel)
    ensures Label(a) == Label(b) ==> a == b
    ensures ParseBelt(Label(a)) == Some(a)
  {
  }

  /** Rank order is a strict total order on belts. */
  predicate Below(a: BeltLevel, b: BeltLevel)
  {
    Rank(a) < Rank(b)
  }

  lemma BelowIsStrictTotalOrder(a: BeltLevel, b: BeltLevel, c: BeltLevel)
    ensures !Below(a, a)
    ensures Below(a, b) && Below(b, c) ==> Below(a, c)
    ensures a != b ==> Below(a, b) || Below(b, a)
  {
  }

  /** A student record of this revision. `id` is missing before the server
      assigns one; `name`, `age` and `belt` are required; every other field may
      be missing (JavaScript `undefined` and `null` are both `None` here). The
      timestamp fields are spelled `createAt` and `updateAT` in this revision. */
  datatype Student = Student(
    id: Option<string>,
    name: string,
    age: int,
    belt: BeltLevel,
    motherName: Option<string>,
    fatherName: Option<string>,
    bloodType: Option<BloodGroups.BloodType>,
    phone: Option<string>,
    address: Option<string>,
    observations: Option<string>,
    enrollmentDate: Option<string>,
    monthlyFee: Option<real>,
    createAt: Option<string>,
    updateAT: Option<string>)
}
