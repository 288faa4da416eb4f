/** The roster table (src/components/StudentTable.tsx): which belt style,
    count label and fallback text each cell shows, what is rendered while the
    list loads or is empty, and the table's own state — the record being
    viewed, the record being edited, and the delete confirmation. */
module Table {
  import opened Wrappers
  import opened JsText
  import Types
  import EditDialog

  // ---------------------------------------------------------------------
  // Belt badges.

  /** The style of a belt that is not one of the six known labels. */
  const DefaultBeltClass: string := "bg-muted text-muted-foreground"

  /** The `colors` record of `getBeltColor`: one class string per label. */
  const BeltClasses: map<string, string> := map[
    "Branca" := "bg-gray-100 text-gray-800 border-gray-300",
    "Amarela" := "bg-yellow-100 text-yellow-800 border-yellow-400",
    "Verde" := "bg-green-100 text-green-800 border-green-500",
    "Azul" := "bg-blue-100 text-blue-800 border-blue-500",
    "Vermelha" := "bg-red-100 text-red-800 border-red-500",
    "Preta" := "bg-gray-900 text-white border-gray-900"]

  /** `getBeltColor`: the class string listed for the label, or the muted
      default. Every listed class string is non-empty, so `||` only falls
      back on a missing key. */
  function BeltColor(belt: string): (r: string)
    ensures r == DefaultBeltClass <==> Types.ParseBelt(belt).None?
    ensures r != DefaultBeltClass ==> r == BeltClasses[belt]
  {
    if belt in BeltClasses && BeltClasses[belt] != "" then BeltClasses[belt] else DefaultBeltClass
  }

  /** The keys of the style table are exactly the labels of `BELT_LEVELS`. */
  lemma {:induction false} BeltClassesCoverLevels()
    ensures forall s :: s in BeltClasses <==> Types.ParseBelt(s).Some?
  {
    forall s ensures s in BeltClasses <==> Types.ParseBelt(s).Some? {
      if s in BeltClasses {
        assert s in {"Branca", "Amarela", "Verde", "Azul", "Vermelha", "Preta"};
      }
    }
  }

  /** Each of the six belts gets its own style, none of them the default. */
  lemma BeltColorsDistinct(a: Types.BeltLevel, b: Types.BeltLevel)
    ensures BeltColor(Types.Label(a)) != DefaultBeltClass
    ensures BeltColor(Types.Label(a)) == BeltColor(Types.Label(b)) ==> a == b
  {
    Types.LabelsDistinct(a, b);
  }

  /** A label of the eleven-rank revision, or any other text the plain
      `belt` string may hold, falls back to the muted style. */
  lemma OtherRevisionLabelIsMuted()
    ensures BeltColor("Faixa Branca") == DefaultBeltClass
  {
  }

  // ---------------------------------------------------------------------
  // The count badge.

  /** The noun after the count: singular exactly for one student. */
  function CountLabel(n: nat): (r: string)
    ensures r == "aluno" <==> n == 1
    ensures r == "alunos" <==> n != 1
  {
    if n == 1 then "aluno" else "alunos"
  }

  /** The badge text, the count and the noun: "1 aluno", "0 alunos". */
  function CountBadge(students: seq<Types.Student>): (r: string)
    ensures var k := |r| - |" " + CountLabel(|students|)|;
            && 0 < k && r[k..] == " " + CountLabel(|students|)
            && ParseInt(r[..k]) == Some(|students|)
  {
    var digits := NatText(|students|);
    var r := digits + " " + CountLabel(|students|);
    ParseIntOfIntText(|students|);
    assert r[..|digits|] == digits;
    r
  }

  // ---------------------------------------------------------------------
  // Fallbacks for missing fields.

  /** A table cell: the text, or "-" when it is empty. */
  function OrDash(s: string): (r: string)
    ensures r != ""
    ensures s != "" ==> r == s
    ensures s == "" ==> r == "-"
  {
    if s != "" then s else "-"
  }

  const NotInformed: string := "Não informado"
  const NoObservations: string := "Nenhuma observação registrada"

  /** A detail-view field: the text, or `fallback` when it is empty. */
  function OrElse(s: string, fallback: string): (r: string)
    requires fallback != ""
    ensures r != ""
    ensures s != "" ==> r == s
    ensures s == "" ==> r == fallback
  {
    if s != "" then s else fallback
  }

  /** The fee cell of the table: the currency text when the fee is positive,
      "-" otherwise (a zero fee, which an empty fee field saves, included). */
  function FeeCell(fee: real, currency: real -> string): (r: string)
    ensures fee > 0.0 ==> r == currency(fee)
    ensures fee <= 0.0 ==> r == "-"
  {
    if fee > 0.0 then currency(fee) else "-"
  }

  /** The fee of the detail view: as in the table, with "Não informado" in
      place of "-". */
  function FeeDetail(fee: real, currency: real -> string): (r: string)
    ensures fee > 0.0 ==> r == currency(fee)
    ensures fee <= 0.0 ==> r == NotInformed
  {
    if fee > 0.0 then currency(fee) else NotInformed
  }

  /** The table and the detail view agree on when a fee is missing: the table
      shows the currency text exactly when the detail view does. */
  lemma FeeViewsAgree(fee: real, currency: real -> string)
    requires currency(fee) != "-" && currency(fee) != NotInformed
    ensures FeeCell(fee, currency) == "-" <==> FeeDetail(fee, currency) == NotInformed
    ensures FeeCell(fee, currency) == "-" <==> fee <= 0.0
  {
  }

  /** A fee left empty in the edit form is saved as 0 and then shown as
      missing in both views. */
  lemma EmptyFeeShownAsMissing(f: EditDialog.FormData, currency: real -> string)
    requires f.monthlyFee == "" && EditDialog.Validate(f).Ok?
    ensures FeeCell(EditDialog.Validate(f).value, currency) == "-"
    ensures FeeDetail(EditDialog.Validate(f).value, currency) == NotInformed
  {
  }

  // ---------------------------------------------------------------------
  // What is rendered.

  /** One table row, cell by cell; `beltClass` styles the belt badge and an
      empty `bloodType` cell stands for the badge. */
  datatype Row = Row(
    key: string,
    name: string,
    age: string,
    belt: string,
    beltClass: string,
    bloodType: string,
    phone: string,
    fee: string)

  function RowOf(s: Types.Student, currency: real -> string): (r: Row)
    ensures r.key == s.id && r.name == s.name && r.belt == s.belt
    ensures ParseInt(r.age) == Some(s.age)
    ensures r.beltClass == BeltColor(s.belt)
    ensures r.bloodType == OrDash(s.bloodType) && r.phone == OrDash(s.phone)
    ensures r.fee == FeeCell(s.monthlyFee, currency)
  {
    ParseIntOfIntText(s.age);
    Row(s.id, s.name, IntText(s.age), s.belt, BeltColor(s.belt), OrDash(s.bloodType), OrDash(s.phone),
        FeeCell(s.monthlyFee, currency))
  }

  /** The card below the header: the empty-state message or the rows. */
  datatype Body = EmptyState | Rows(rows: seq<Row>)

  /** What the component renders: only the spinner while loading, otherwise
      the header with the count badge and the body. */
  datatype View = Spinner | Listing(badge: string, body: Body)

  function Render(loading: bool, students: seq<Types.Student>, currency: real -> string): (v: View)
    ensures v.Spinner? <==> loading
    ensures v.Listing? ==> v.badge == CountBadge(students)
    ensures v.Listing? ==> (v.body.EmptyState? <==> students == [])
    ensures v.Listing? && v.body.Rows? ==>
              |v.body.rows| == |students|
              && forall i :: 0 <= i < |students| ==> v.body.rows[i] == RowOf(students[i], currency)
  {
    if loading then Spinner
    else if |students| == 0 then Listing(CountBadge(students), EmptyState)
    else Listing(CountBadge(students), Rows(seq(|students|, i requires 0 <= i < |students| => RowOf(students[i], currency))))
  }

  /** The number of records a body lists. */
  function ShownRows(b: Body): nat
  {
    match b
    case EmptyState => 0
    case Rows(rows) => |rows|
  }

  /** Once loaded, the badge counts the records the body lists, and those
      are the records given, one row per record, keyed by its id. */
  lemma RenderCountsRows(students: seq<Types.Student>, currency: real -> string)
    ensures var v := Render(false, students, currency);
            && v.Listing? && ShownRows(v.body) == |students|
            && var k := |v.badge| - |" " + CountLabel(ShownRows(v.body))|;
            && 0 < k && v.badge[k..] == " " + CountLabel(ShownRows(v.body))
            && ParseInt(v.badge[..k]) == Some(ShownRows(v.body))
    ensures var v := Render(false, students, currency);
            v.body.Rows? ==> forall i :: 0 <= i < |students| ==> v.body.rows[i].key == students[i].id
  {
  }

  /** Every row the table shows fills its blood-type and phone cells: a
      missing value is drawn as "-", never as an empty cell, and a present
      one as itself. */
  lemma RowsFillOptionalCells(students: seq<Types.Student>, currency: real -> string, i: nat)
    requires Render(false, students, currency).body.Rows? && i < |students|
    ensures var row := Render(false, students, currency).body.rows[i];
            && row.key == students[i].id
            && row.phone != "" && row.bloodType != ""
            && (students[i].phone != "" ==> row.phone == students[i].phone)
            && (students[i].bloodType != "" ==> row.bloodType == students[i].bloodType)
  {
  }

  /** The detail view of one record. */
  datatype Details = Details(
    name: string,
    motherName: string,
    fatherName: string,
    age: string,
    belt: string,
    beltClass: string,
    bloodType: string,
    phone: string,
    enrolledSince: string,
    fee: string,
    address: string,
    observations: string)

  /** The "Dados do Aluno" dialog; `date` stands for the locale date format. */
  function DetailsOf(s: Types.Student, currency: real -> string, date: string -> string): (d: Details)
    ensures d.name == s.name && d.belt == s.belt && d.beltClass == BeltColor(s.belt)
    ensures d.age == IntText(s.age) + " anos"
    ensures d.motherName == OrElse(s.motherName, NotInformed)
    ensures d.fatherName == OrElse(s.fatherName, NotInformed)
    ensures d.bloodType == OrElse(s.bloodType, NotInformed)
    ensures d.phone == OrElse(s.phone, NotInformed)
    ensures d.address == OrElse(s.address, NotInformed)
    ensures d.observations == OrElse(s.observations, NoObservations)
    ensures d.enrolledSince == date(s.enrollmentDate)
    ensures d.fee == FeeDetail(s.monthlyFee, currency)
  {
    Details(s.name, OrElse(s.motherName, NotInformed), OrElse(s.fatherName, NotInformed),
            IntText(s.age) + " anos", s.belt, BeltColor(s.belt),
            OrElse(s.bloodType, NotInformed), OrElse(s.phone, NotInformed),
            date(s.enrollmentDate), FeeDetail(s.monthlyFee, currency),
            OrElse(s.address, NotInformed), OrElse(s.observations, NoObservations))
  }

  /** The row and the detail view of a record show the stored phone and
      blood type exactly when it is non-empty, each falling back to its own
      text otherwise, and style the belt alike. */
  lemma RowAndDetailsAgree(s: Types.Student, currency: real -> string, date: string -> string)
    ensures var row := RowOf(s, currency); var d := DetailsOf(s, currency, date);
            && (row.phone == s.phone <==> s.phone != "")
            && (d.phone == s.phone <==> s.phone != "")
            && (row.bloodType == s.bloodType <==> s.bloodType != "")
            && (d.bloodType == s.bloodType <==> s.bloodType != "")
            && row.beltClass == d.beltClass
  {
  }

  /** Every optional field of the detail view is filled: it shows the stored
      text exactly when that text is non-empty. The age reads back as the
      stored age followed by " anos". */
  lemma DetailsFilled(s: Types.Student, currency: real -> string, date: string -> string)
    ensures var d := DetailsOf(s, currency, date);
            && d.motherName != "" && d.fatherName != "" && d.bloodType != ""
            && d.phone != "" && d.address != "" && d.observations != ""
            && (d.motherName == s.motherName <==> s.motherName != "")
            && (d.fatherName == s.fatherName <==> s.fatherName != "")
            && (d.address == s.address <==> s.address != "")
            && (d.observations == s.observations <==> s.observations != "")
            && |d.age| > 5 && d.age[|d.age| - 5..] == " anos"
            && ParseInt(d.age[..|d.age| - 5]) == Some(s.age)
  {
    var d := DetailsOf(s, currency, date);
    var t := IntText(s.age);
    ParseIntOfIntText(s.age);
    assert d.age[..|d.age| - 5] == t;
  }

  // ---------------------------------------------------------------------
  // The component's state.

  /** The state of the table component: the record whose details are open,
      the record in the edit dialog, the id awaiting delete confirmation and
      whether a delete is running. `deleteCalls` logs the ids passed to
      `onDeleteStudent`. */
  class StudentTable {
    var selected: Option<Types.Student>
    var editing: Option<Types.Student>
    var deleteId: Option<string>
    var deleting: bool
    var deleteCalls: seq<string>
    /** Every value given to `setDeleting`, oldest first. */
    ghost var deletingWrites: seq<bool>

    constructor ()
      ensures selected == None && editing == None && deleteId == None && !deleting
      ensures deleteCalls == [] && deletingWrites == []
    {
      selected, editing, deleteId, deleting, deleteCalls := None, None, None, false, [];
      deletingWrites := [];
    }

    /** The confirmation dialog is open while `deleteId` is truthy. */
    predicate ConfirmOpen()
      reads this
    {
      deleteId.Some? && deleteId.value != ""
    }

    /** The eye button: open the details of `s`. */
    method ShowDetails(s: Types.Student)
      modifies this
      ensures selected == Some(s)
      ensures editing == old(editing) && deleteId == old(deleteId) && deleting == old(deleting)
      ensures deleteCalls == old(deleteCalls) && deletingWrites == old(deletingWrites)
    {
      selected := Some(s);
    }

    /** Closing the details dialog. */
    method CloseDetails()
      modifies this
      ensures selected == None
      ensures editing == old(editing) && deleteId == old(deleteId) && deleting == old(deleting)
      ensures deleteCalls == old(deleteCalls) && deletingWrites == old(deletingWrites)
    {
      selected := None;
    }

    /** The pencil button: hand `s` to the edit dialog. */
    method StartEdit(s: Types.Student)
      modifies this
      ensures editing == Some(s)
      ensures selected == old(selected) && deleteId == old(deleteId) && deleting == old(deleting)
      ensures deleteCalls == old(deleteCalls) && deletingWrites == old(deletingWrites)
    {
      editing := Some(s);
    }

    /** The edit dialog's `onClose`. */
    method CloseEdit()
      modifies this
      ensures editing == None
      ensures selected == old(selected) && deleteId == old(deleteId) && deleting == old(deleting)
      ensures deleteCalls == old(deleteCalls) && deletingWrites == old(deletingWrites)
    {
      editing := None;
    }

    /** The trash button: ask to confirm deleting `id`. */
    method RequestDelete(id: string)
      modifies this
      ensures deleteId == Some(id) && (ConfirmOpen() <==> id != "")
      ensures selected == old(selected) && editing == old(editing) && deleting == old(deleting)
      ensures deleteCalls == old(deleteCalls) && deletingWrites == old(deletingWrites)
    {
      deleteId := Some(id);
    }

    /** Cancelling, or any other close of the confirmation dialog. */
    method DismissDelete()
      modifies this
      ensures deleteId == None && !ConfirmOpen()
      ensures selected == old(selected) && editing == old(editing) && deleting == old(deleting)
      ensures deleteCalls == old(deleteCalls) && deletingWrites == old(deletingWrites)
    {
      deleteId := None;
    }

    /** `handleDelete`. Without a (truthy) id it does nothing. Otherwise it
        marks the delete as running, calls `onDeleteStudent`, and in `finally`
        clears both the flag and the id; the outcome of the call, a failure
        included, is passed on to the caller. */
    method HandleDelete(outcome: Result<(), string>) returns (r: Result<(), string>)
      modifies this
      ensures selected == old(selected) && editing == old(editing)
      ensures !old(ConfirmOpen()) ==>
                && r == Ok(()) && deleteId == old(deleteId) && deleting == old(deleting)
                && deleteCalls == old(deleteCalls) && deletingWrites == old(deletingWrites)
      ensures old(ConfirmOpen()) ==>
                && r == outcome
                && deleteCalls == old(deleteCalls) + [old(deleteId).value]
                && !deleting && deleteId == None && !ConfirmOpen()
                && deletingWrites == old(deletingWrites) + [true, false]
    {
      if deleteId.None? || deleteId.value == "" {
        return Ok(());
      }
      var id := deleteId.value;
      deleting := true;
      deletingWrites := deletingWrites + [true];
      deleteCalls := deleteCalls + [id];
      r := outcome;
      deleting := false;
      deletingWrites := deletingWrites + [false];
      deleteId := None;
    }
  }

  /** Confirming a delete, whatever its outcome, leaves the confirmation
      closed and idle, so a second confirmation calls nothing more. */
  method ConfirmTwice(t: StudentTable, first: Result<(), string>, second: Result<(), string>)
    returns (r: Result<(), string>)
    requires t.ConfirmOpen()
    modifies t
    ensures |t.deleteCalls| == |old(t.deleteCalls)| + 1
    ensures r == Ok(()) && !t.deleting && !t.ConfirmOpen()
  {
    var _ := t.HandleDelete(first);
    r := t.HandleDelete(second);
  }
}
