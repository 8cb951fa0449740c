/** The backend `StudentService` over its repository, modelled as a map from
    id to stored student. The two exception classes it throws become the
    variants of ServiceError, each with the HTTP status its class maps to. */
module Service {

  import opened Wrappers
  import opened Records
  import opened Decimal

  datatype ServiceError = BadRequest(message: string) | StudentNotFound(message: string)
  {
    /** The status of the class's `@ResponseStatus`. */
    function HttpStatus(): int {
      match this
      case BadRequest(_) => 400
      case StudentNotFound(_) => 404
    }
  }

  type Repository = map<int, Student>

  /** `selectExistsEmail(email)`. */
  predicate EmailTaken(repo: Repository, email: string) {
    exists id :: id in repo && repo[id].email == email
  }

  /** No two stored students share an email. */
  ghost predicate EmailsUnique(repo: Repository) {
    forall a, b :: a in repo && b in repo && repo[a].email == repo[b].email ==> a == b
  }

  /** Each stored student carries the id it is stored under. */
  ghost predicate IdsMatchKeys(repo: Repository) {
    forall id :: id in repo ==> repo[id].id == id
  }

  function EmailTakenMessage(email: string): string {
    "Email " + email + " taken"
  }

  /** As written: no space between the id and "does not exist". */
  function NotFoundMessage(studentId: int): string {
    "Student with the id of " + IntToString(studentId) + "does not exist"
  }

  /** The outcome of an operation and the repository after it. */
  datatype Step = Step(result: Result<(), ServiceError>, repo: Repository)

  /** `addStudent(student)`, the repository assigning `id` to the new row:
      refused with a 400 error when the email is taken, otherwise saved. */
  function Add(repo: Repository, id: int, student: Student): (step: Step)
    ensures step.result.Err? <==> EmailTaken(repo, student.email)
    ensures step.result.Err? ==>
              && step.repo == repo
              && step.result.error == BadRequest(EmailTakenMessage(student.email))
              && step.result.error.HttpStatus() == 400
    ensures step.result.Ok? ==>
              && step.repo.Keys == repo.Keys + {id}
              && step.repo[id] == student.(id := id)
              && forall k :: k in repo && k != id ==> step.repo[k] == repo[k]
  {
    if EmailTaken(repo, student.email) then
      Step(Err(BadRequest(EmailTakenMessage(student.email))), repo)
    else
      Step(Ok(()), repo[id := student.(id := id)])
  }

  /** `deleteStudent(studentId)`: refused with a 404 error when no student
      has that id, otherwise exactly that entry is removed. */
  function Delete(repo: Repository, studentId: int): (step: Step)
    ensures step.result.Err? <==> studentId !in repo
    ensures step.result.Err? ==>
              && step.repo == repo
              && step.result.error == StudentNotFound(NotFoundMessage(studentId))
              && step.result.error.HttpStatus() == 404
    ensures step.result.Ok? ==>
              && step.repo.Keys == repo.Keys - {studentId}
              && forall k :: k in step.repo ==> step.repo[k] == repo[k]
  {
    if studentId !in repo then
      Step(Err(StudentNotFound(NotFoundMessage(studentId))), repo)
    else
      Step(Ok(()), repo - {studentId})
  }

  /** Deleting a student just added under a fresh id restores the repository. */
  lemma DeleteUndoesAdd(repo: Repository, id: int, student: Student)
    requires id !in repo
    requires Add(repo, id, student).result.Ok?
    ensures Delete(Add(repo, id, student).repo, id) == Step(Ok(()), repo)
  {
    var after := Add(repo, id, student).repo;
    assert after - {id} == repo;
  }

  /** Adding never makes two stored students share an email. */
  lemma AddPreservesUniqueEmails(repo: Repository, id: int, student: Student)
    requires EmailsUnique(repo) && IdsMatchKeys(repo)
    ensures EmailsUnique(Add(repo, id, student).repo) && IdsMatchKeys(Add(repo, id, student).repo)
  {
    var after := Add(repo, id, student).repo;
    if !EmailTaken(repo, student.email) {
      forall a, b | a in after && b in after && after[a].email == after[b].email
        ensures a == b
      {
        if a != id && b != id {
          assert after[a] == repo[a] && after[b] == repo[b];
        }
      }
    }
  }

  /** Removing a student never makes two others share an email. */
  lemma DeletePreservesUniqueEmails(repo: Repository, studentId: int)
    requires EmailsUnique(repo) && IdsMatchKeys(repo)
    ensures EmailsUnique(Delete(repo, studentId).repo) && IdsMatchKeys(Delete(repo, studentId).repo)
  {
  }

  /** After a successful delete, deleting the same id is refused. */
  lemma DeleteTwiceNotFound(repo: Repository, studentId: int)
    requires Delete(repo, studentId).result.Ok?
    ensures Delete(Delete(repo, studentId).repo, studentId).result
      == Err(StudentNotFound(NotFoundMessage(studentId)))
  {
  }

  /** Once an email is stored, a second student with it is refused. */
  lemma AddTwiceBadRequest(repo: Repository, id: int, id': int, student: Student, other: Student)
    requires Add(repo, id, student).result.Ok? && other.email == student.email
    ensures Add(Add(repo, id, student).repo, id', other).result
      == Err(BadRequest(EmailTakenMessage(student.email)))
  {
    var after := Add(repo, id, student).repo;
    assert after[id].email == other.email;
  }

  /** The messages as the exceptions carry them. */
  lemma ErrorMessageExamples()
    ensures EmailTakenMessage("tom@example.com") == "Email tom@example.com taken"
    ensures NotFoundMessage(7) == "Student with the id of 7does not exist"
  {
    assert IntToString(7) == "7";
  }

  /** The stored students whose ids lie in [1, n), by ascending id. */
  function Listed(repo: Repository, n: int): seq<Student>
    decreases n
  {
    if n <= 1 then [] else Listed(repo, n - 1) + (if n - 1 in repo then [repo[n - 1]] else [])
  }

  /** Everything listed is stored under its own id, which lies in [1, n). */
  lemma {:induction false} ListedSound(repo: Repository, n: int)
    requires IdsMatchKeys(repo)
    ensures forall i :: 0 <= i < |Listed(repo, n)| ==>
              && Listed(repo, n)[i].id in repo
              && repo[Listed(repo, n)[i].id] == Listed(repo, n)[i]
              && 1 <= Listed(repo, n)[i].id < n
    decreases n
  {
    if n > 1 {
      ListedSound(repo, n - 1);
    }
  }

  /** Every stored student with an id in [1, n) is listed. */
  lemma {:induction false} ListedComplete(repo: Repository, n: int)
    ensures forall id :: id in repo && 1 <= id < n ==> repo[id] in Listed(repo, n)
    decreases n
  {
    if n > 1 {
      ListedComplete(repo, n - 1);
      if n - 1 in repo {
        assert Listed(repo, n)[|Listed(repo, n)| - 1] == repo[n - 1];
      }
    }
  }

  /** The listing is strictly ascending by id. */
  lemma {:induction false} ListedAscending(repo: Repository, n: int)
    requires IdsMatchKeys(repo)
    ensures forall i, j :: 0 <= i < j < |Listed(repo, n)| ==> Listed(repo, n)[i].id < Listed(repo, n)[j].id
    decreases n
  {
    if n > 1 {
      ListedSound(repo, n - 1);
      ListedAscending(repo, n - 1);
    }
  }

  class StudentService {
    var repository: Repository
    /** The next id the persistence layer hands out. */
    var nextId: int

    ghost predicate Valid()
      reads this
    {
      EmailsUnique(repository) && IdsMatchKeys(repository)
      && 1 <= nextId && forall id :: id in repository ==> 1 <= id < nextId
    }

    /** A service over the injected repository `repo`, whose next id is
        `next`. The rows already stored must satisfy the invariant: the
        service itself checks emails only when it adds. */
    constructor (repo: Repository, next: int)
      requires EmailsUnique(repo) && IdsMatchKeys(repo)
      requires 1 <= next && forall id :: id in repo ==> 1 <= id < next
      ensures Valid() && repository == repo && nextId == next
    {
      repository := repo;
      nextId := next;
    }

    /** `getAllStudents()`: every stored student exactly once. The
        repository promises no order; the model lists them by ascending id. */
    method GetAllStudents() returns (all: seq<Student>)
      requires Valid()
      ensures forall i :: 0 <= i < |all| ==> all[i].id in repository && repository[all[i].id] == all[i]
      ensures forall id :: id in repository ==> repository[id] in all
      ensures forall i, j :: 0 <= i < j < |all| ==> all[i].id < all[j].id
    {
      all := [];
      var next := 1;
      while next < nextId
        invariant 1 <= next <= nextId
        invariant all == Listed(repository, next)
      {
        if next in repository {
          all := all + [repository[next]];
        }
        next := next + 1;
      }
      ListedSound(repository, nextId);
      ListedComplete(repository, nextId);
      ListedAscending(repository, nextId);
    }

    /** `addStudent(student)`; the new row gets the next id. */
    method AddStudent(student: Student) returns (r: Result<(), ServiceError>)
      requires Valid()
      modifies this
      ensures Valid()
      ensures Step(r, repository) == Add(old(repository), old(nextId), student)
      ensures nextId == if r.Ok? then old(nextId) + 1 else old(nextId)
    {
      if EmailTaken(repository, student.email) {
        return Err(BadRequest(EmailTakenMessage(student.email)));
      }
      AddPreservesUniqueEmails(repository, nextId, student);
      repository := repository[nextId := student.(id := nextId)];
      nextId := nextId + 1;
      r := Ok(());
    }

    /** `deleteStudent(studentId)`. */
    method DeleteStudent(studentId: int) returns (r: Result<(), ServiceError>)
      requires Valid()
      modifies this`repository
      ensures Valid()
      ensures Step(r, repository) == Delete(old(repository), studentId)
    {
      if studentId !in repository {
        return Err(StudentNotFound(NotFoundMessage(studentId)));
      }
      repository := repository - {studentId};
      r := Ok(());
    }
  }

}
