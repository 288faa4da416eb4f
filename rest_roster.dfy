/** The roster hook of the REST revision (front/src/hooks/useStudents.ts):
    the list of students and the loading flag, kept in step with a REST
    service. Every `fetch` is a parameter: the reply it gave once awaited. */
module RestRoster {
  import opened Wrappers
  import RestTypes
  import BloodGroups

  type Student = RestTypes.Student

  /** What an awaited HTTP call gave the hook. */
  datatype Reply<T> =
    | Delivered(body: T)        // a 2xx response whose JSON body was read
    | Refused(text: string)     // a non-2xx response, with its body text
    | Failed(message: string)   // the request or the JSON read threw

  /** The requests the hook sends, in order. */
  datatype Request =
    | GetAll
    | Post(payload: CreatePayload)
    | Put(id: string)
    | Delete(id: string)

  /** A notification shown to the user; `destructive` is the error style. */
  datatype Toast = Toast(title: string, description: string, destructive: bool)

  /** The body of `POST /students`: the eleven data fields of the input. */
  datatype CreatePayload = CreatePayload(
    name: string,
    motherName: Option<string>,
    fatherName: Option<string>,
    age: int,
    belt: RestTypes.BeltLevel,
    bloodType: Option<BloodGroups.BloodType>,
    phone: Option<string>,
    address: Option<string>,
    observations: Option<string>,
    enrollmentDate: Option<string>,
    monthlyFee: Option<real>)

  /** The payload `addStudent` builds from its input. */
  function Payload(s: Student): CreatePayload
  {
    CreatePayload(s.name, s.motherName, s.fatherName, s.age, s.belt, s.bloodType,
                  s.phone, s.address, s.observations, s.enrollmentDate, s.monthlyFee)
  }

  /** The payload carries every data field unchanged and nothing else: it does
      not depend on the id or the timestamps of the input. */
  lemma PayloadIgnoresIdentity(s: Student, t: Student)
    ensures Payload(s) == Payload(t) <==>
            s.(id := None, createAt := None, updateAT := None) == t.(id := None, createAt := None, updateAT := None)
  {
  }

  /** The error a failed call raises: the response text when a non-2xx
      response has one, the operation's fixed message when the text is empty,
      or the message of what was thrown. */
  function ErrorMessage<T>(reply: Reply<T>, fallback: string): (m: string)
    requires !reply.Delivered?
    ensures reply.Refused? && reply.text != [] ==> m == reply.text
    ensures reply.Refused? && reply.text == [] ==> m == fallback
    ensures reply.Failed? ==> m == reply.message
  {
    match reply
    case Refused(text) => if text != [] then text else fallback
    case Failed(message) => message
  }

  /** The reported message is blank only when the response body and the
      fallback are both blank, or the thrown error had a blank message; with
      a non-blank fallback, a refusal shows its own body exactly when that
      body is non-empty. */
  lemma ErrorMessageNeverBlank<T>(reply: Reply<T>, fallback: string)
    requires !reply.Delivered?
    ensures ErrorMessage(reply, fallback) == "" <==>
              (reply.Refused? && reply.text == "" && fallback == "")
              || (reply.Failed? && reply.message == "")
    ensures reply.Refused? && fallback != "" ==>
              (ErrorMessage(reply, fallback) == reply.text <==> reply.text != "")
  {
  }

  const FetchFallback := "Erro ao buscar alunos"
  const CreateFallback := "Erro ao cadastrar aluno"
  const UpdateFallback := "Erro ao atualizar aluno"
  const DeleteFallback := "Erro ao remover aluno"

  // ---------------------------------------------------------------------
  // The list updates applied after a confirmed success.

  /** `prev.map(s => s.id === updated.id ? updated : s)`. */
  function ReplaceById(xs: seq<Student>, updated: Student): seq<Student>
  {
    if xs == [] then []
    else [if xs[0].id == updated.id then updated else xs[0]] + ReplaceById(xs[1..], updated)
  }

  /** `prev.filter(s => s.id !== id)`. */
  function RemoveById(xs: seq<Student>, id: string): seq<Student>
  {
    if xs == [] then []
    else if xs[0].id == Some(id) then RemoveById(xs[1..], id)
    else [xs[0]] + RemoveById(xs[1..], id)
  }

  /** Replacing keeps the length and the order; the element at each position
      is the returned record, whole, when the ids are equal, and the old
      element otherwise. Two records without an id count as equal ids. */
  lemma {:induction false} ReplaceByIdAt(xs: seq<Student>, updated: Student)
    ensures |ReplaceById(xs, updated)| == |xs|
    ensures forall i :: 0 <= i < |xs| ==>
              ReplaceById(xs, updated)[i] == if xs[i].id == updated.id then updated else xs[i]
  {
    if xs != [] {
      ReplaceByIdAt(xs[1..], updated);
      var r := ReplaceById(xs, updated);
      forall i | 1 <= i < |xs|
        ensures r[i] == if xs[i].id == updated.id then updated else xs[i]
      {
        assert r[i] == ReplaceById(xs[1..], updated)[i - 1];
        assert xs[1..][i - 1] == xs[i];
      }
    }
  }

  /** When no record has the returned id, the list is left as it is. */
  lemma ReplaceByIdAbsent(xs: seq<Student>, updated: Student)
    requires forall i :: 0 <= i < |xs| ==> xs[i].id != updated.id
    ensures ReplaceById(xs, updated) == xs
  {
    ReplaceByIdAt(xs, updated);
  }

  /** The records that stay are exactly those whose id is not `id`. */
  lemma {:induction false} RemoveByIdMembers(xs: seq<Student>, id: string)
    ensures forall s :: s in RemoveById(xs, id) <==> s in xs && s.id != Some(id)
    ensures |RemoveById(xs, id)| <= |xs|
  {
    if xs != [] {
      RemoveByIdMembers(xs[1..], id);
      assert xs == [xs[0]] + xs[1..];
    }
  }

  /** Filtering works piece by piece, so the records that stay keep their order. */
  lemma {:induction false} RemoveByIdAppend(xs: seq<Student>, ys: seq<Student>, id: string)
    ensures RemoveById(xs + ys, id) == RemoveById(xs, id) + RemoveById(ys, id)
  {
    if xs == [] {
      assert xs + ys == ys;
    } else {
      assert (xs + ys)[0] == xs[0];
      assert (xs + ys)[1..] == xs[1..] + ys;
      RemoveByIdAppend(xs[1..], ys, id);
    }
  }

  /** Filtering a list where no record has the id changes nothing; so
      filtering twice for the same id is filtering once. */
  lemma {:induction false} RemoveByIdAbsent(xs: seq<Student>, id: string)
    requires forall s :: s in xs ==> s.id != Some(id)
    ensures RemoveById(xs, id) == xs
  {
    if xs != [] {
      RemoveByIdAbsent(xs[1..], id);
    }
  }

  lemma RemoveByIdIdempotent(xs: seq<Student>, id: string)
    ensures RemoveById(RemoveById(xs, id), id) == RemoveById(xs, id)
  {
    RemoveByIdMembers(xs, id);
    RemoveByIdAbsent(RemoveById(xs, id), id);
  }

  /** The number of records carrying `id`. */
  function CountId(xs: seq<Student>, id: string): nat
  {
    if xs == [] then 0 else (if xs[0].id == Some(id) then 1 else 0) + CountId(xs[1..], id)
  }

  /** Filtering removes exactly the records carrying the id. */
  lemma {:induction false} RemoveByIdLength(xs: seq<Student>, id: string)
    ensures |RemoveById(xs, id)| == |xs| - CountId(xs, id)
  {
    if xs != [] {
      RemoveByIdLength(xs[1..], id);
    }
  }

  /** No two records share an id. */
  predicate UniqueIds(xs: seq<Student>)
  {
    forall i, j :: 0 <= i < j < |xs| && xs[i].id.Some? ==> xs[i].id != xs[j].id
  }

  lemma {:induction false} CountIdUnique(xs: seq<Student>, id: string, k: nat)
    requires UniqueIds(xs) && k < |xs| && xs[k].id == Some(id)
    ensures CountId(xs, id) == 1
  {
    if k == 0 {
      RemoveByIdAbsentCount(xs[1..], id);
    } else {
      assert xs[0].id != Some(id);
      assert UniqueIds(xs[1..]) by {
        forall i, j | 0 <= i < j < |xs[1..]| && xs[1..][i].id.Some?
          ensures xs[1..][i].id != xs[1..][j].id
        {
          assert xs[1..][i] == xs[i + 1] && xs[1..][j] == xs[j + 1];
        }
      }
      CountIdUnique(xs[1..], id, k - 1);
    }
  }

  lemma {:induction false} RemoveByIdAbsentCount(xs: seq<Student>, id: string)
    requires forall i :: 0 <= i < |xs| ==> xs[i].id != Some(id)
    ensures CountId(xs, id) == 0
  {
    if xs != [] {
      RemoveByIdAbsentCount(xs[1..], id);
    }
  }

  /** With unique ids, deleting a present id removes exactly one record, and
      deleting it again removes nothing. */
  lemma RemovePresentUnique(xs: seq<Student>, id: string, k: nat)
    requires UniqueIds(xs) && k < |xs| && xs[k].id == Some(id)
    ensures |RemoveById(xs, id)| == |xs| - 1
    ensures RemoveById(RemoveById(xs, id), id) == RemoveById(xs, id)
  {
    CountIdUnique(xs, id, k);
    RemoveByIdLength(xs, id);
    RemoveByIdIdempotent(xs, id);
  }

  // ---------------------------------------------------------------------
  // The hook.

  class StudentsHook {
    /** `students`, the list the table shows. */
    var students: seq<Student>
    /** `loading`. */
    var loading: bool
    /** Every toast shown, oldest first. */
    var toasts: seq<Toast>
    /** Every request sent, oldest first. */
    var requests: seq<Request>
    /** Every value given to `setLoading`, oldest first. */
    ghost var loadingWrites: seq<bool>

    /** The hook's initial state: no students, loading. */
    constructor ()
      ensures students == [] && loading && toasts == [] && requests == [] && loadingWrites == []
    {
      students, loading, toasts, requests := [], true, [], [];
      loadingWrites := [];
    }

    /** `fetchStudents` (also run on mount and as `refetch`). */
    method FetchStudents(reply: Reply<seq<Student>>)
      modifies this
      ensures requests == old(requests) + [GetAll]
      ensures loadingWrites == old(loadingWrites) + [true, false] && !loading
      ensures reply.Delivered? ==> students == reply.body && toasts == old(toasts)
      ensures !reply.Delivered? ==>
                students == old(students)
                && toasts == old(toasts) + [Toast("Erro ao carregar alunos", ErrorMessage(reply, FetchFallback), true)]
    {
      loading := true;
      loadingWrites := loadingWrites + [true];
      requests := requests + [GetAll];
      match reply {
        case Delivered(data) =>
          students := data;
        case _ =>
          toasts := toasts + [Toast("Erro ao carregar alunos", ErrorMessage(reply, FetchFallback), true)];
      }
      loading := false;
      loadingWrites := loadingWrites + [false];
    }

    /** `addStudent`: post the payload; on success put the returned record
        first and return it, on failure report and re-throw. */
    method AddStudent(input: Student, reply: Reply<Student>) returns (r: Result<Student, string>)
      modifies this
      ensures requests == old(requests) + [Post(Payload(input))]
      ensures loading == old(loading) && loadingWrites == old(loadingWrites)
      ensures reply.Delivered? ==>
                && r == Ok(reply.body)
                && students == [reply.body] + old(students)
                && toasts == old(toasts) + [Toast("Aluno cadastrado!", reply.body.name + " foi adicionado com sucesso.", false)]
      ensures !reply.Delivered? ==>
                && r == Err(ErrorMessage(reply, CreateFallback))
                && students == old(students)
                && toasts == old(toasts) + [Toast("Erro ao cadastrar aluno", r.error, true)]
    {
      requests := requests + [Post(Payload(input))];
      match reply {
        case Delivered(newStudent) =>
          students := [newStudent] + students;
          toasts := toasts + [Toast("Aluno cadastrado!", newStudent.name + " foi adicionado com sucesso.", false)];
          r := Ok(newStudent);
        case _ =>
          var message := ErrorMessage(reply, CreateFallback);
          toasts := toasts + [Toast("Erro ao cadastrar aluno", message, true)];
          r := Err(message);
      }
    }

    /** `updateStudent`: put the changes; on success replace, by the returned
        record's id, every matching record with the returned one. */
    method UpdateStudent(id: string, reply: Reply<Student>) returns (r: Result<(), string>)
      modifies this
      ensures requests == old(requests) + [Put(id)]
      ensures loading == old(loading) && loadingWrites == old(loadingWrites)
      ensures reply.Delivered? ==>
                && r == Ok(())
                && students == ReplaceById(old(students), reply.body)
                && toasts == old(toasts) + [Toast("Aluno atualizado!", "Os dados foram salvos com sucesso.", false)]
      ensures !reply.Delivered? ==>
                && r == Err(ErrorMessage(reply, UpdateFallback))
                && students == old(students)
                && toasts == old(toasts) + [Toast("Erro ao atualizar aluno", r.error, true)]
    {
      requests := requests + [Put(id)];
      match reply {
        case Delivered(updated) =>
          students := ReplaceById(students, updated);
          toasts := toasts + [Toast("Aluno atualizado!", "Os dados foram salvos com sucesso.", false)];
          r := Ok(());
        case _ =>
          var message := ErrorMessage(reply, UpdateFallback);
          toasts := toasts + [Toast("Erro ao atualizar aluno", message, true)];
          r := Err(message);
      }
    }

    /** `deleteStudent`: delete on the server; on success drop every record
        with that id. */
    method DeleteStudent(id: string, reply: Reply<()>) returns (r: Result<(), string>)
      modifies this
      ensures requests == old(requests) + [Delete(id)]
      ensures loading == old(loading) && loadingWrites == old(loadingWrites)
      ensures reply.Delivered? ==>
                && r == Ok(())
                && students == RemoveById(old(students), id)
                && toasts == old(toasts) + [Toast("Aluno removido", "O aluno foi excluído com sucesso.", false)]
      ensures !reply.Delivered? ==>
                && r == Err(ErrorMessage(reply, DeleteFallback))
                && students == old(students)
                && toasts == old(toasts) + [Toast("Erro ao remover aluno", r.error, true)]
    {
      requests := requests + [Delete(id)];
      match reply {
        case Delivered(_) =>
          students := RemoveById(students, id);
          toasts := toasts + [Toast("Aluno removido", "O aluno foi excluído com sucesso.", false)];
          r := Ok(());
        case _ =>
          var message := ErrorMessage(reply, DeleteFallback);
          toasts := toasts + [Toast("Erro ao remover aluno", message, true)];
          r := Err(message);
      }
    }
  }

  /** A sequence of calls: a successful create, an update of the new record
      and its deletion leave the roster as it was when ids were unique and the
      new id was fresh. */
  method CreateEditDelete(hook: StudentsHook, input: Student, created: Student, edited: Student)
    requires created.id.Some? && edited.id == created.id
    requires forall s :: s in hook.students ==> s.id != created.id
    modifies hook
    ensures hook.students == old(hook.students)
  {
    ghost var before := hook.students;
    var _ := hook.AddStudent(input, Delivered(created));
    assert hook.students == [created] + before;
    var _ := hook.UpdateStudent(created.id.value, Delivered(edited));
    ReplaceByIdAt([created] + before, edited);
    assert hook.students == [edited] + before by {
      assert ([created] + before)[0] == created;
      forall i | 1 <= i < |hook.students| ensures hook.students[i] == ([edited] + before)[i] {
        assert ([created] + before)[i] == before[i - 1];
      }
    }
    var _ := hook.DeleteStudent(created.id.value, Delivered(()));
    RemoveByIdAbsent(before, created.id.value);
    assert RemoveById([edited] + before, created.id.value) == RemoveById(before, created.id.value);
  }
}
