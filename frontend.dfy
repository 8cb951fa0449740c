/** The students view of the frontend: the component state held by `App`
    (the students list, the `fetching` flag, the drawer flag), the refresh of
    that list from the backend, the delete flow of a table row, the choice of
    what `renderStudents` shows, and the notifications the user sees.
    Remote calls are inputs (their settled outcome); notifications are an
    appended log. */
module Frontend {

  import opened Wrappers
  import opened Records
  import opened Decimal

  /** The parsed JSON body of a failed response. */
  datatype ApiError = ApiError(message: string, status: int, error: string)

  /** `successNotification` or `errorNotification`. */
  datatype Kind = SuccessKind | ErrorKind

  datatype Notification = Notification(kind: Kind, title: string, body: string)

  const IssueTitle: string := "There was an issue"
  const DeletedTitle: string := "Student deleted"
  /** The text around the id in the delete notification. */
  const DeletedLead: string := "Student with the id of "
  const DeletedTail: string := " was deleted successfully."

  predicate IsPrefix(p: string, s: string) {
    |p| <= |s| && s[..|p|] == p
  }

  predicate IsSuffix(p: string, s: string) {
    |p| <= |s| && s[|s| - |p|..] == p
  }

  predicate IsInfix(p: string, s: string) {
    exists k :: 0 <= k <= |s| && IsPrefix(p, s[k..])
  }

  /** In `p + x + q`, `p` is a prefix, `x` occurs, and `q` is a suffix. */
  lemma Framed(p: string, x: string, q: string)
    ensures IsPrefix(p, p + x + q) && IsInfix(x, p + x + q) && IsSuffix(q, p + x + q)
  {
    assert (p + x + q)[|p|..] == x + q;
  }

  /** The text of an error notification, `message [status] [error]`: the
      message, then the status in brackets, then the error label in brackets. */
  function ErrorBody(e: ApiError): (body: string)
    ensures IsPrefix(e.message + " [", body)
    ensures IsInfix(IntToString(e.status), body)
    ensures IsSuffix("] [" + e.error + "]", body)
    ensures |body| == |e.message| + |IntToString(e.status)| + |e.error| + 6
    ensures body[|e.message| + 2..|body| - |e.error| - 4] == IntToString(e.status)
  {
    var p, x, q := e.message + " [", IntToString(e.status), "] [" + e.error + "]";
    Framed(p, x, q);
    assert (p + x + q)[|p|..|p| + |x|] == x;
    p + x + q
  }

  /** Equal texts with the same surroundings have the same middle part. */
  lemma MiddleDetermined(p: string, x: string, y: string, q: string)
    requires p + x + q == p + y + q
    ensures x == y
  {
    assert |x| == |y|;
    assert x == (p + x + q)[|p|..|p| + |x|];
    assert y == (p + y + q)[|p|..|p| + |y|];
  }

  /** With the same message and error label, the text tells the status apart. */
  lemma ErrorBodyDeterminesStatus(a: ApiError, b: ApiError)
    requires a.message == b.message && a.error == b.error
    requires ErrorBody(a) == ErrorBody(b)
    ensures a.status == b.status
  {
    var p := a.message + " [";
    var q := "] [" + a.error + "]";
    var sa, sb := IntToString(a.status), IntToString(b.status);
    assert ErrorBody(a) == p + sa + q;
    assert ErrorBody(b) == p + sb + q;
    MiddleDetermined(p, sa, sb, q);
    IntToStringInjective(a.status, b.status);
  }

  /** The text of the notification after a successful delete. */
  function DeletedBody(studentId: int): (body: string)
    ensures IsInfix(IntToString(studentId), body)
  {
    Framed(DeletedLead, IntToString(studentId), DeletedTail);
    DeletedLead + IntToString(studentId) + DeletedTail
  }

  /** The text names the deleted student's id unambiguously. */
  lemma DeletedBodyDeterminesId(a: int, b: int)
    requires DeletedBody(a) == DeletedBody(b)
    ensures a == b
  {
    var sa, sb := IntToString(a), IntToString(b);
    MiddleDetermined(DeletedLead, sa, sb, DeletedTail);
    IntToStringInjective(a, b);
  }

  function IssueNotification(e: ApiError): Notification {
    Notification(ErrorKind, IssueTitle, ErrorBody(e))
  }

  function DeletedNotification(studentId: int): Notification {
    Notification(SuccessKind, DeletedTitle, DeletedBody(studentId))
  }

  /** What `fetchStudents` reports: one error notification exactly when the
      read failed, built from the parsed error body. */
  function FetchNotifications(response: Result<seq<Student>, ApiError>): (notes: seq<Notification>)
    ensures |notes| == (if response.Err? then 1 else 0)
    ensures response.Err? ==> notes[0].kind == ErrorKind && notes[0].body == ErrorBody(response.error)
  {
    if response.Err? then [IssueNotification(response.error)] else []
  }

  /** An observable step of `removeStudent`: a notification, or a call of the
      callback it was given. */
  datatype Effect = Notify(note: Notification) | InvokeCallback

  function CallbackCount(effects: seq<Effect>): nat {
    if effects == [] then 0
    else (if effects[0].InvokeCallback? then 1 else 0) + CallbackCount(effects[1..])
  }

  function NotificationsOf(effects: seq<Effect>): seq<Notification> {
    if effects == [] then []
    else (if effects[0].Notify? then [effects[0].note] else []) + NotificationsOf(effects[1..])
  }

  /** `removeStudent(studentId, callback)`, given how the delete request
      settled: exactly one notification (success naming the id, or the parsed
      error); the callback runs once, after the notification, and only on
      success. */
  function RemoveStudent(studentId: int, deleted: Result<(), ApiError>): (effects: seq<Effect>)
    ensures CallbackCount(effects) == (if deleted.Ok? then 1 else 0)
    ensures |NotificationsOf(effects)| == 1 && effects[0].Notify?
    ensures deleted.Ok? ==> NotificationsOf(effects)[0] == DeletedNotification(studentId)
    ensures deleted.Err? ==> NotificationsOf(effects)[0] == IssueNotification(deleted.error)
  {
    match deleted
    case Ok(_) =>
      var effects := [Notify(DeletedNotification(studentId)), InvokeCallback];
      assert effects[1..] == [InvokeCallback] && effects[1..][1..] == [];
      assert CallbackCount(effects[1..]) == 1 && NotificationsOf(effects[1..]) == [];
      effects
    case Err(e) => [Notify(IssueNotification(e))]
  }

  /** What `renderStudents` puts on the page: the spinner alone, or the add
      button with the drawer form and either the empty placeholder or the
      table with its count badge. */
  datatype View =
    | Spinner
    | EmptyState(drawerVisible: bool)
    | TableState(drawerVisible: bool, rows: seq<Student>, badge: nat)
  {
    predicate ShowsAddButton() { !Spinner? }
    predicate ShowsEmpty() { EmptyState? }
    predicate ShowsTable() { TableState? }
  }

  function RenderStudents(fetching: bool, students: seq<Student>, showDrawer: bool): (v: View)
    ensures v.Spinner? <==> fetching
    ensures v.ShowsAddButton() <==> !fetching
    ensures v.ShowsEmpty() <==> !fetching && |students| == 0
    ensures v.ShowsTable() <==> !fetching && |students| > 0
    ensures v.ShowsTable() ==> v.rows == students && v.badge == |students|
    ensures !v.Spinner? ==> v.drawerVisible == showDrawer
  {
    if fetching then Spinner
    else if |students| <= 0 then EmptyState(showDrawer)
    else TableState(showDrawer, students, |students|)
  }

  /** The state of the `App` component. */
  class App {
    var students: seq<Student>
    var fetching: bool
    var showDrawer: bool
    var notifications: seq<Notification>

    /** `fetching` is only ever cleared, and while it is set nothing but the
        spinner is on the page, so nothing else can have changed yet. */
    ghost predicate Valid()
      reads this
    {
      fetching ==> students == [] && !showDrawer && notifications == []
    }

    /** The initial `useState` values. */
    constructor ()
      ensures Valid()
      ensures students == [] && fetching && !showDrawer && notifications == []
    {
      students := [];
      fetching := true;
      showDrawer := false;
      notifications := [];
    }

    function Rendered(): View
      reads this
    {
      RenderStudents(fetching, students, showDrawer)
    }

    /** `fetchStudents` once the read has settled: the list is replaced
        wholesale on success and kept on failure, and `fetching` is cleared
        either way. Mounting the component runs it once. */
    method FetchStudents(response: Result<seq<Student>, ApiError>)
      requires Valid()
      modifies this
      ensures Valid() && !fetching
      ensures students == if response.Ok? then response.value else old(students)
      ensures showDrawer == old(showDrawer)
      ensures notifications == old(notifications) + FetchNotifications(response)
    {
      match response {
        case Ok(data) =>
          students := data;
        case Err(e) =>
          notifications := notifications + [IssueNotification(e)];
      }
      fetching := false;
    }

    /** The add button: present only when the spinner is not shown. */
    method ToggleDrawer()
      requires Valid() && Rendered().ShowsAddButton()
      modifies this`showDrawer
      ensures Valid()
      ensures showDrawer == !old(showDrawer)
    {
      showDrawer := !showDrawer;
    }

    /** `setShowDrawer` as called by the drawer form, which is rendered
        whenever the spinner is not. */
    method SetShowDrawer(visible: bool)
      requires Valid() && Rendered().ShowsAddButton()
      modifies this`showDrawer
      ensures Valid()
      ensures showDrawer == visible
    {
      showDrawer := visible;
    }

    /** Confirming the delete prompt of a table row runs
        `removeStudent(student.id, fetchStudents)`: given how the delete and
        the refresh that may follow it settle, the local list changes only
        through that refresh. */
    method ConfirmDelete(student: Student, deleted: Result<(), ApiError>,
                         refreshed: Result<seq<Student>, ApiError>)
      requires Valid() && Rendered().ShowsTable() && student in students
      modifies this
      ensures Valid() && !fetching
      ensures showDrawer == old(showDrawer)
      ensures students == if deleted.Ok? && refreshed.Ok? then refreshed.value else old(students)
      ensures notifications == old(notifications)
        + NotificationsOf(RemoveStudent(student.id, deleted))
        + (if deleted.Ok? then FetchNotifications(refreshed) else [])
    {
      var effects := RemoveStudent(student.id, deleted);
      notifications := notifications + NotificationsOf(effects);
      if CallbackCount(effects) == 1 {
        FetchStudents(refreshed);
      }
    }
  }

  /** A session: mount, refresh twice, a failing refresh, then a delete. */
  method Session(xs: seq<Student>, rest: seq<Student>, e: ApiError) {
    var app := new App();
    assert app.Rendered() == Spinner;
    app.FetchStudents(Ok(xs));
    app.FetchStudents(Ok(xs));
    assert app.students == xs && app.notifications == [];
    app.FetchStudents(Err(e));
    assert app.students == xs && app.notifications == [IssueNotification(e)];
    if xs != [] {
      app.ConfirmDelete(xs[0], Ok(()), Ok(rest));
      assert app.students == rest;
      assert app.notifications == [IssueNotification(e), DeletedNotification(xs[0].id)];
    }
  }

}
