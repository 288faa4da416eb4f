/** The roster hook of the backend-as-a-service revision
    (src/hooks/useStudents.ts): the mapping between table rows (snake_case,
    nullable columns) and `Student` records, the insert and update payloads,
    and the list and loading flag, which are refetched in full after every
    change. Every store call is a parameter: the result it gave once awaited. */
module Roster {
  import opened Wrappers
  import opened JsText
  import Types

  type Student = Types.Student

  /** A row of the `students` table as the store returns it. */
  datatype Row = Row(
    id: string,
    name: string,
    mother_name: Option<string>,
    father_name: Option<string>,
    age: int,
    belt: string,
    blood_type: Option<string>,
    phone: Option<string>,
    observations: Option<string>,
    address: Option<string>,
    enrollment_date: string,
    monthly_fee: Option<real>,
    created_at: string,
    updated_at: string)

  /** `x || ""` on a nullable text column. */
  function OrEmpty(x: Option<string>): (r: string)
    ensures x.None? ==> r == ""
    ensures x.Some? ==> r == x.value
  {
    match x
    case None => ""
    case Some(v) => v
  }

  /** `Number(x) || 0` on the nullable fee column: `Number(null)` is 0. */
  function FeeOrZero(x: Option<real>): (r: real)
    ensures x.None? ==> r == 0.0
    ensures x.Some? ==> r == x.value
  {
    match x
    case None => 0.0
    case Some(v) => v
  }

  /** `x || null` on an optional text field: the empty string is sent as null. */
  function NullIfEmpty(x: string): (r: Option<string>)
    ensures r.None? <==> x == ""
    ensures r.Some? ==> r.value == x
  {
    if x == "" then None else Some(x)
  }

  /** The row-to-record mapping of `fetchStudents`. */
  function ToStudent(s: Row): Student
  {
    Types.Student(
      s.id, s.name, OrEmpty(s.mother_name), OrEmpty(s.father_name), s.age, s.belt,
      OrEmpty(s.blood_type), OrEmpty(s.phone), OrEmpty(s.observations), OrEmpty(s.address),
      s.enrollment_date, FeeOrZero(s.monthly_fee), Some(s.created_at), Some(s.updated_at))
  }

  /** A null column and an empty one both read as `""`; every other column is
      copied through; a missing fee reads as 0. */
  lemma ToStudentFallbacks(s: Row)
    ensures var r := ToStudent(s);
            && r.id == s.id && r.name == s.name && r.age == s.age && r.belt == s.belt
            && r.enrollmentDate == s.enrollment_date
            && r.createdAt == Some(s.created_at) && r.updatedAt == Some(s.updated_at)
            && (r.motherName == "" <==> s.mother_name in {None, Some("")})
            && (r.fatherName == "" <==> s.father_name in {None, Some("")})
            && (r.bloodType == "" <==> s.blood_type in {None, Some("")})
            && (r.phone == "" <==> s.phone in {None, Some("")})
            && (r.observations == "" <==> s.observations in {None, Some("")})
            && (r.address == "" <==> s.address in {None, Some("")})
            && (s.monthly_fee.None? ==> r.monthlyFee == 0.0)
  {
  }

  /** `(data || []).map(...)`: a missing result reads as no rows. */
  function ToStudents(data: Option<seq<Row>>): (r: seq<Student>)
    ensures data.None? ==> r == []
    ensures data.Some? ==> |r| == |data.value|
                           && forall i :: 0 <= i < |r| ==> r[i] == ToStudent(data.value[i])
  {
    match data
    case None => []
    case Some(rows) => seq(|rows|, i requires 0 <= i < |rows| => ToStudent(rows[i]))
  }

  // ---------------------------------------------------------------------
  // Insert.

  /** The input of `addStudent`: a record without id and timestamps. */
  datatype NewStudent = NewStudent(
    name: string,
    motherName: string,
    fatherName: string,
    age: int,
    belt: string,
    bloodType: string,
    phone: string,
    observations: string,
    address: string,
    enrollmentDate: string,
    monthlyFee: real)

  /** The object `addStudent` inserts. */
  datatype InsertRow = InsertRow(
    name: string,
    mother_name: Option<string>,
    father_name: Option<string>,
    age: int,
    belt: string,
    blood_type: Option<string>,
    phone: Option<string>,
    observations: Option<string>,
    address: Option<string>,
    enrollment_date: string,
    monthly_fee: real)

  /** The insert payload: empty optional text goes out as null; the fee is
      never null (`fee || 0`). */
  function InsertPayload(x: NewStudent): InsertRow
  {
    InsertRow(
      x.name, NullIfEmpty(x.motherName), NullIfEmpty(x.fatherName), x.age, x.belt,
      NullIfEmpty(x.bloodType), NullIfEmpty(x.phone), NullIfEmpty(x.observations),
      NullIfEmpty(x.address), x.enrollmentDate, x.monthlyFee)
  }

  /** The row the store holds once it has given the insert an id and timestamps. */
  function Stored(p: InsertRow, id: string, createdAt: string, updatedAt: string): Row
  {
    Row(id, p.name, p.mother_name, p.father_name, p.age, p.belt, p.blood_type, p.phone,
        p.observations, p.address, p.enrollment_date, Some(p.monthly_fee), createdAt, updatedAt)
  }

  /** `""` → null → `""`, and a null that is not turned back into null is
      exactly a stored empty string. */
  lemma NullIfEmptyRoundTrip(x: string, o: Option<string>)
    ensures OrEmpty(NullIfEmpty(x)) == x
    ensures NullIfEmpty(OrEmpty(o)) == o <==> o != Some("")
  {
  }

  /** Inserting a new student and reading its row back gives back every field
      of the input, with the id and timestamps the store assigned. */
  lemma InsertReadBack(x: NewStudent, id: string, createdAt: string, updatedAt: string)
    ensures ToStudent(Stored(InsertPayload(x), id, createdAt, updatedAt))
         == Types.Student(id, x.name, x.motherName, x.fatherName, x.age, x.belt, x.bloodType,
                          x.phone, x.observations, x.address, x.enrollmentDate, x.monthlyFee,
                          Some(createdAt), Some(updatedAt))
  {
    NullIfEmptyRoundTrip(x.motherName, None);
    NullIfEmptyRoundTrip(x.fatherName, None);
    NullIfEmptyRoundTrip(x.bloodType, None);
    NullIfEmptyRoundTrip(x.phone, None);
    NullIfEmptyRoundTrip(x.observations, None);
    NullIfEmptyRoundTrip(x.address, None);
  }

  // ---------------------------------------------------------------------
  // Update.

  /** `Partial<Student>`: `None` is a field left undefined. An `age` of
      `Some(None)` is a defined `NaN`. */
  datatype Patch = Patch(
    name: Option<string>,
    motherName: Option<string>,
    fatherName: Option<string>,
    age: Option<IntOrNaN>,
    belt: Option<string>,
    bloodType: Option<string>,
    phone: Option<string>,
    observations: Option<string>,
    address: Option<string>,
    enrollmentDate: Option<string>,
    monthlyFee: Option<real>)

  /** A JSON value sent to the store. */
  datatype Json = Text(text: string) | Integer(n: IntOrNaN) | Decimal(x: real)

  /** The columns `updateStudent` may write. */
  datatype Column =
    | NameCol | MotherNameCol | FatherNameCol | AgeCol | BeltCol | BloodTypeCol
    | PhoneCol | ObservationsCol | AddressCol | EnrollmentDateCol | MonthlyFeeCol

  /** The snake_case name of a column on the wire. */
  function WireName(c: Column): string
  {
    match c
    case NameCol => "name"
    case MotherNameCol => "mother_name"
    case FatherNameCol => "father_name"
    case AgeCol => "age"
    case BeltCol => "belt"
    case BloodTypeCol => "blood_type"
    case PhoneCol => "phone"
    case ObservationsCol => "observations"
    case AddressCol => "address"
    case EnrollmentDateCol => "enrollment_date"
    case MonthlyFeeCol => "monthly_fee"
  }

  /** Distinct columns have distinct wire names. */
  lemma WireNamesDistinct(c: Column, e: Column)
    ensures WireName(c) == WireName(e) ==> c == e
  {
  }

  /** The camelCase field of the patch that feeds a column, if defined. */
  function FieldFor(p: Patch, c: Column): Option<Json>
  {
    match c
    case NameCol => if p.name.Some? then Some(Text(p.name.value)) else None
    case MotherNameCol => if p.motherName.Some? then Some(Text(p.motherName.value)) else None
    case FatherNameCol => if p.fatherName.Some? then Some(Text(p.fatherName.value)) else None
    case AgeCol => if p.age.Some? then Some(Integer(p.age.value)) else None
    case BeltCol => if p.belt.Some? then Some(Text(p.belt.value)) else None
    case BloodTypeCol => if p.bloodType.Some? then Some(Text(p.bloodType.value)) else None
    case PhoneCol => if p.phone.Some? then Some(Text(p.phone.value)) else None
    case ObservationsCol => if p.observations.Some? then Some(Text(p.observations.value)) else None
    case AddressCol => if p.address.Some? then Some(Text(p.address.value)) else None
    case EnrollmentDateCol => if p.enrollmentDate.Some? then Some(Text(p.enrollmentDate.value)) else None
    case MonthlyFeeCol => if p.monthlyFee.Some? then Some(Decimal(p.monthlyFee.value)) else None
  }

  const AllColumns: set<Column> :=
    {NameCol, MotherNameCol, FatherNameCol, AgeCol, BeltCol, BloodTypeCol,
     PhoneCol, ObservationsCol, AddressCol, EnrollmentDateCol, MonthlyFeeCol}

  /** `updateData`: the columns of the defined fields, with their values. */
  function UpdateData(p: Patch): map<Column, Json>
  {
    map c | c in AllColumns && FieldFor(p, c).Some? :: FieldFor(p, c).value
  }

  /** The update carries exactly the columns whose fields are defined, each
      with the field's value as given (an empty string stays an empty string,
      it is not nulled). */
  lemma UpdateDataExactKeys(p: Patch)
    ensures var d := UpdateData(p);
            && (NameCol in d <==> p.name.Some?) && (p.name.Some? ==> d[NameCol] == Text(p.name.value))
            && (MotherNameCol in d <==> p.motherName.Some?) && (p.motherName.Some? ==> d[MotherNameCol] == Text(p.motherName.value))
            && (FatherNameCol in d <==> p.fatherName.Some?) && (p.fatherName.Some? ==> d[FatherNameCol] == Text(p.fatherName.value))
            && (AgeCol in d <==> p.age.Some?) && (p.age.Some? ==> d[AgeCol] == Integer(p.age.value))
            && (BeltCol in d <==> p.belt.Some?) && (p.belt.Some? ==> d[BeltCol] == Text(p.belt.value))
            && (BloodTypeCol in d <==> p.bloodType.Some?) && (p.bloodType.Some? ==> d[BloodTypeCol] == Text(p.bloodType.value))
            && (PhoneCol in d <==> p.phone.Some?) && (p.phone.Some? ==> d[PhoneCol] == Text(p.phone.value))
            && (ObservationsCol in d <==> p.observations.Some?) && (p.observations.Some? ==> d[ObservationsCol] == Text(p.observations.value))
            && (AddressCol in d <==> p.address.Some?) && (p.address.Some? ==> d[AddressCol] == Text(p.address.value))
            && (EnrollmentDateCol in d <==> p.enrollmentDate.Some?) && (p.enrollmentDate.Some? ==> d[EnrollmentDateCol] == Text(p.enrollmentDate.value))
            && (MonthlyFeeCol in d <==> p.monthlyFee.Some?) && (p.monthlyFee.Some? ==> d[MonthlyFeeCol] == Decimal(p.monthlyFee.value))
  {
  }

  /** The value a column holds in an update object, `None` when absent. */
  function Entry(data: map<Column, Json>, c: Column): Option<Json>
  {
    if c in data then Some(data[c]) else None
  }

  /** Column by column, for the first `k` columns in the order the source
      assigns them: `data` holds what the patch defines for the column; it
      holds none of the other columns. */
  ghost predicate HoldsFirstFields(p: Patch, data: map<Column, Json>, k: nat)
  {
    && Entry(data, NameCol) == (if k > 0 then FieldFor(p, NameCol) else None)
    && Entry(data, MotherNameCol) == (if k > 1 then FieldFor(p, MotherNameCol) else None)
    && Entry(data, FatherNameCol) == (if k > 2 then FieldFor(p, FatherNameCol) else None)
    && Entry(data, AgeCol) == (if k > 3 then FieldFor(p, AgeCol) else None)
    && Entry(data, BeltCol) == (if k > 4 then FieldFor(p, BeltCol) else None)
    && Entry(data, BloodTypeCol) == (if k > 5 then FieldFor(p, BloodTypeCol) else None)
    && Entry(data, PhoneCol) == (if k > 6 then FieldFor(p, PhoneCol) else None)
    && Entry(data, ObservationsCol) == (if k > 7 then FieldFor(p, ObservationsCol) else None)
    && Entry(data, AddressCol) == (if k > 8 then FieldFor(p, AddressCol) else None)
    && Entry(data, EnrollmentDateCol) == (if k > 9 then FieldFor(p, EnrollmentDateCol) else None)
    && Entry(data, MonthlyFeeCol) == (if k > 10 then FieldFor(p, MonthlyFeeCol) else None)
  }

  /** Column by column: `data` holds a column exactly when the patch defines
      its field, and then holds the field's value. */
  ghost predicate HoldsDefinedFields(p: Patch, data: map<Column, Json>)
  {
    HoldsFirstFields(p, data, 11)
  }

  /** The column-by-column facts, restated over all columns. */
  lemma HoldsDefinedFieldsForAll(p: Patch, data: map<Column, Json>)
    requires HoldsDefinedFields(p, data)
    ensures forall c :: c in data <==> FieldFor(p, c).Some?
    ensures forall c :: c in data ==> data[c] == FieldFor(p, c).value
  {
    forall c ensures (c in data <==> FieldFor(p, c).Some?) && (c in data ==> data[c] == FieldFor(p, c).value) {
      match c
      case NameCol =>
      case MotherNameCol =>
      case FatherNameCol =>
      case AgeCol =>
      case BeltCol =>
      case BloodTypeCol =>
      case PhoneCol =>
      case ObservationsCol =>
      case AddressCol =>
      case EnrollmentDateCol =>
      case MonthlyFeeCol =>
    }
  }

  /** The assignments for the student's and the parents' names. */
  method AddNameColumns(p: Patch, data: map<Column, Json>) returns (r: map<Column, Json>)
    requires HoldsFirstFields(p, data, 0)
    ensures HoldsFirstFields(p, r, 3)
  {
    r := data;
    if p.name.Some? { r := r[NameCol := Text(p.name.value)]; }
    if p.motherName.Some? { r := r[MotherNameCol := Text(p.motherName.value)]; }
    if p.fatherName.Some? { r := r[FatherNameCol := Text(p.fatherName.value)]; }
  }

  /** The assignments for the age, the belt and the blood type. */
  method AddRankColumns(p: Patch, data: map<Column, Json>) returns (r: map<Column, Json>)
    requires HoldsFirstFields(p, data, 3)
    ensures HoldsFirstFields(p, r, 6)
  {
    r := data;
    if p.age.Some? { r := r[AgeCol := Integer(p.age.value)]; }
    if p.belt.Some? { r := r[BeltCol := Text(p.belt.value)]; }
    if p.bloodType.Some? { r := r[BloodTypeCol := Text(p.bloodType.value)]; }
  }

  /** The assignments for the phone, the observations and the address. */
  method AddContactColumns(p: Patch, data: map<Column, Json>) returns (r: map<Column, Json>)
    requires HoldsFirstFields(p, data, 6)
    ensures HoldsFirstFields(p, r, 9)
  {
    r := data;
    if p.phone.Some? { r := r[PhoneCol := Text(p.phone.value)]; }
    if p.observations.Some? { r := r[ObservationsCol := Text(p.observations.value)]; }
    if p.address.Some? { r := r[AddressCol := Text(p.address.value)]; }
  }

  /** The assignments for the enrollment date and the fee. */
  method AddEnrollmentColumns(p: Patch, data: map<Column, Json>) returns (r: map<Column, Json>)
    requires HoldsFirstFields(p, data, 9)
    ensures HoldsFirstFields(p, r, 11)
  {
    r := data;
    if p.enrollmentDate.Some? { r := r[EnrollmentDateCol := Text(p.enrollmentDate.value)]; }
    if p.monthlyFee.Some? { r := r[MonthlyFeeCol := Decimal(p.monthlyFee.value)]; }
  }

  /** `updateData` built as the source builds it: eleven conditional
      assignments, in the source's order, into an initially empty object. */
  method BuildUpdateData(p: Patch) returns (data: map<Column, Json>)
    ensures forall c :: c in data <==> FieldFor(p, c).Some?
    ensures forall c :: c in data ==> data[c] == FieldFor(p, c).value
  {
    data := AddNameColumns(p, map[]);
    data := AddRankColumns(p, data);
    data := AddContactColumns(p, data);
    data := AddEnrollmentColumns(p, data);
    HoldsDefinedFieldsForAll(p, data);
  }

  /** What the builder produces is `updateData`. */
  lemma BuiltIsUpdateData(p: Patch, data: map<Column, Json>)
    requires forall c :: c in data <==> FieldFor(p, c).Some?
    requires forall c :: c in data ==> data[c] == FieldFor(p, c).value
    ensures data == UpdateData(p)
  {
    forall c ensures c in AllColumns {
      match c
      case NameCol =>
      case MotherNameCol =>
      case FatherNameCol =>
      case AgeCol =>
      case BeltCol =>
      case BloodTypeCol =>
      case PhoneCol =>
      case ObservationsCol =>
      case AddressCol =>
      case EnrollmentDateCol =>
      case MonthlyFeeCol =>
    }
  }

  /** A text column after an update: the sent text, or the current value. */
  function TextAfter(d: map<Column, Json>, c: Column, current: string): string
  {
    if c in d && d[c].Text? then d[c].text else current
  }

  function NullableTextAfter(d: map<Column, Json>, c: Column, current: Option<string>): Option<string>
  {
    if c in d && d[c].Text? then Some(d[c].text) else current
  }

  /** An update whose age, if sent, is a number. A `NaN` age goes out as JSON
      null, and what the store does with a null age is not modelled. */
  predicate NumericAge(d: map<Column, Json>)
  {
    AgeCol in d ==> d[AgeCol] != Integer(None)
  }

  /** The store applying an update with a numeric age to a row: each column
      sent overwrites the column, every other column keeps its value. */
  function ApplyUpdate(s: Row, d: map<Column, Json>): Row
    requires NumericAge(d)
  {
    s.(name := TextAfter(d, NameCol, s.name),
       mother_name := NullableTextAfter(d, MotherNameCol, s.mother_name),
       father_name := NullableTextAfter(d, FatherNameCol, s.father_name),
       age := if AgeCol in d && d[AgeCol].Integer? then d[AgeCol].n.value else s.age,
       belt := TextAfter(d, BeltCol, s.belt),
       blood_type := NullableTextAfter(d, BloodTypeCol, s.blood_type),
       phone := NullableTextAfter(d, PhoneCol, s.phone),
       observations := NullableTextAfter(d, ObservationsCol, s.observations),
       address := NullableTextAfter(d, AddressCol, s.address),
       enrollment_date := TextAfter(d, EnrollmentDateCol, s.enrollment_date),
       monthly_fee := if MonthlyFeeCol in d && d[MonthlyFeeCol].Decimal? then Some(d[MonthlyFeeCol].x) else s.monthly_fee)
  }

  /** A record with the defined fields of a patch written over it; a record
      holds no `NaN` age, so the patch's age, if defined, is a number. */
  function Merge(r: Student, p: Patch): Student
    requires p.age != Some(None)
  {
    r.(name := if p.name.Some? then p.name.value else r.name,
       motherName := if p.motherName.Some? then p.motherName.value else r.motherName,
       fatherName := if p.fatherName.Some? then p.fatherName.value else r.fatherName,
       age := if p.age.Some? then p.age.value.value else r.age,
       belt := if p.belt.Some? then p.belt.value else r.belt,
       bloodType := if p.bloodType.Some? then p.bloodType.value else r.bloodType,
       phone := if p.phone.Some? then p.phone.value else r.phone,
       observations := if p.observations.Some? then p.observations.value else r.observations,
       address := if p.address.Some? then p.address.value else r.address,
       enrollmentDate := if p.enrollmentDate.Some? then p.enrollmentDate.value else r.enrollmentDate,
       monthlyFee := if p.monthlyFee.Some? then p.monthlyFee.value else r.monthlyFee)
  }

  /** A partial update changes only the fields it defines: reading the updated
      row back gives the old record with exactly those fields replaced, the id
      and timestamps untouched. */
  lemma UpdateReadBack(s: Row, p: Patch)
    requires p.age != Some(None)
    ensures NumericAge(UpdateData(p))
    ensures ToStudent(ApplyUpdate(s, UpdateData(p))) == Merge(ToStudent(s), p)
  {
    UpdateDataExactKeys(p);
  }

  /** A patch whose age is `NaN` puts JSON null in the update's age column;
      the update is sent all the same. */
  lemma NaNAgeSentAsNull(p: Patch)
    requires p.age == Some(None)
    ensures AgeCol in UpdateData(p) && UpdateData(p)[AgeCol] == Integer(None)
    ensures !NumericAge(UpdateData(p))
  {
    UpdateDataExactKeys(p);
  }

  // ---------------------------------------------------------------------
  // The hook.

  /** A notification shown to the user; `destructive` is the error style. */
  datatype Toast = Toast(title: string, description: string, destructive: bool)

  /** The store calls the hook makes, in order. */
  datatype StoreCall =
    | SelectAll
    | Insert(row: InsertRow)
    | Update(id: string, data: map<Column, Json>)
    | Delete(id: string)

  /** The list after a refetch: the mapped rows, or the old list when the
      select failed. */
  function Refetched(reply: Result<Option<seq<Row>>, string>, before: seq<Student>): seq<Student>
  {
    match reply
    case Ok(data) => ToStudents(data)
    case Err(_) => before
  }

  /** The toasts a refetch adds: one destructive toast when the select failed. */
  function RefetchToasts(reply: Result<Option<seq<Row>>, string>): seq<Toast>
  {
    match reply
    case Ok(_) => []
    case Err(message) => [Toast("Erro ao carregar alunos", message, true)]
  }

  class StudentsHook {
    var students: seq<Student>
    var loading: bool
    var toasts: seq<Toast>
    var calls: seq<StoreCall>
    /** Every value given to `setLoading`, oldest first. */
    ghost var loadingWrites: seq<bool>

    /** The hook's initial state: no students, loading. */
    constructor ()
      ensures students == [] && loading && toasts == [] && calls == [] && loadingWrites == []
    {
      students, loading, toasts, calls := [], true, [], [];
      loadingWrites := [];
    }

    /** `fetchStudents` (run on mount, as `refetch`, after every change and on
        every realtime notification). It never sets `loading` to true. */
    method FetchStudents(reply: Result<Option<seq<Row>>, string>)
      modifies this
      ensures calls == old(calls) + [SelectAll]
      ensures students == Refetched(reply, old(students))
      ensures toasts == old(toasts) + RefetchToasts(reply)
      ensures !loading && loadingWrites == old(loadingWrites) + [false]
    {
      calls := calls + [SelectAll];
      match reply {
        case Ok(data) =>
          students := ToStudents(data);
        case Err(message) =>
          toasts := toasts + [Toast("Erro ao carregar alunos", message, true)];
      }
      loading := false;
      loadingWrites := loadingWrites + [false];
    }

    /** `addStudent`: insert; on success announce it and refetch the whole
        list, on failure report and re-throw. */
    method AddStudent(x: NewStudent, reply: Result<Row, string>, refetch: Result<Option<seq<Row>>, string>)
      returns (r: Result<Row, string>)
      modifies this
      ensures r == reply
      ensures reply.Ok? ==>
                && calls == old(calls) + [Insert(InsertPayload(x)), SelectAll]
                && students == Refetched(refetch, old(students))
                && toasts == old(toasts) + [Toast("Aluno cadastrado!", x.name + " foi adicionado com sucesso.", false)]
                             + RefetchToasts(refetch)
                && !loading && loadingWrites == old(loadingWrites) + [false]
      ensures reply.Err? ==>
                && calls == old(calls) + [Insert(InsertPayload(x))]
                && students == old(students)
                && toasts == old(toasts) + [Toast("Erro ao cadastrar aluno", reply.error, true)]
                && loading == old(loading) && loadingWrites == old(loadingWrites)
    {
      calls := calls + [Insert(InsertPayload(x))];
      match reply {
        case Ok(_) =>
          toasts := toasts + [Toast("Aluno cadastrado!", x.name + " foi adicionado com sucesso.", false)];
          FetchStudents(refetch);
        case Err(message) =>
          toasts := toasts + [Toast("Erro ao cadastrar aluno", message, true)];
      }
      r := reply;
    }

    /** `updateStudent`: send the defined fields of the patch; on success
        announce it and refetch the whole list. */
    method UpdateStudent(id: string, p: Patch, reply: Result<(), string>, refetch: Result<Option<seq<Row>>, string>)
      returns (r: Result<(), string>)
      modifies this
      ensures r == reply
      ensures reply.Ok? ==>
                && calls == old(calls) + [Update(id, UpdateData(p)), SelectAll]
                && students == Refetched(refetch, old(students))
                && toasts == old(toasts) + [Toast("Aluno atualizado!", "Os dados foram salvos com sucesso.", false)]
                             + RefetchToasts(refetch)
                && !loading && loadingWrites == old(loadingWrites) + [false]
      ensures reply.Err? ==>
                && calls == old(calls) + [Update(id, UpdateData(p))]
                && students == old(students)
                && toasts == old(toasts) + [Toast("Erro ao atualizar aluno", reply.error, true)]
                && loading == old(loading) && loadingWrites == old(loadingWrites)
    {
      var data := BuildUpdateData(p);
      BuiltIsUpdateData(p, data);
      calls := calls + [Update(id, data)];
      match reply {
        case Ok(_) =>
          toasts := toasts + [Toast("Aluno atualizado!", "Os dados foram salvos com sucesso.", false)];
          FetchStudents(refetch);
        case Err(message) =>
          toasts := toasts + [Toast("Erro ao atualizar aluno", message, true)];
      }
      r := reply;
    }

    /** `deleteStudent`: delete the row; on success announce it and refetch
        the whole list. */
    method DeleteStudent(id: string, reply: Result<(), string>, refetch: Result<Option<seq<Row>>, string>)
      returns (r: Result<(), string>)
      modifies this
      ensures r == reply
      ensures reply.Ok? ==>
                && calls == old(calls) + [Delete(id), SelectAll]
                && students == Refetched(refetch, old(students))
                && toasts == old(toasts) + [Toast("Aluno removido", "O aluno foi excluído com sucesso.", false)]
                             + RefetchToasts(refetch)
                && !loading && loadingWrites == old(loadingWrites) + [false]
      ensures reply.Err? ==>
                && calls == old(calls) + [Delete(id)]
                && students == old(students)
                && toasts == old(toasts) + [Toast("Erro ao remover aluno", reply.error, true)]
                && loading == old(loading) && loadingWrites == old(loadingWrites)
    {
      calls := calls + [Delete(id)];
      match reply {
        case Ok(_) =>
          toasts := toasts + [Toast("Aluno removido", "O aluno foi excluído com sucesso.", false)];
          FetchStudents(refetch);
        case Err(message) =>
          toasts := toasts + [Toast("Erro ao remover aluno", message, true)];
      }
      r := reply;
    }

    /** A realtime notification of any kind on the table runs the same refetch. */
    method OnTableChange(refetch: Result<Option<seq<Row>>, string>)
      modifies this
      ensures calls == old(calls) + [SelectAll]
      ensures students == Refetched(refetch, old(students))
      ensures toasts == old(toasts) + RefetchToasts(refetch)
      ensures !loading && loadingWrites == old(loadingWrites) + [false]
    {
      FetchStudents(refetch);
    }
  }

  /** The list after a fetch depends only on the reply: when the store gives
      the same answer twice, the second fetch leaves the list as the first
      left it. A failing select leaves the list alone both times and shows
      its toast each time. */
  method FetchTwice(hook: StudentsHook, reply: Result<Option<seq<Row>>, string>)
    modifies hook
    ensures hook.students == Refetched(reply, old(hook.students))
    ensures reply.Ok? ==> hook.students == ToStudents(reply.value) && hook.toasts == old(hook.toasts)
    ensures reply.Err? ==>
              hook.students == old(hook.students)
              && hook.toasts == old(hook.toasts) + RefetchToasts(reply) + RefetchToasts(reply)
    ensures hook.calls == old(hook.calls) + [SelectAll, SelectAll]
    ensures !hook.loading
  {
    hook.FetchStudents(reply);
    hook.FetchStudents(reply);
  }
}
