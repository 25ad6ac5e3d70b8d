/** The advent calendar component: its state (team name, task tiles, the open
    task's modal, the password field, the submitting flag and the message
    line) and the handlers that change it, with the password submission as
    a sequence of round trips to the backend ending in one of ten outcomes. */
module Tasks {
  import opened Optional
  import opened JsText
  import opened Backend
  import opened Feedback

  /** How each of the submission's round trips ends: the re-fetch of the task,
      the read of the team's scoreboard row, and the update or insert. */
  datatype Faults = Faults(fetchTask: Fault, readScore: Fault, writeScore: Fault)

  const RELIABLE: Faults := Faults(NoFault, NoFault, NoFault)

  /** The message when the task list cannot be loaded. */
  const LOAD_FAILED_MESSAGE: string := "Could not load tasks. Please try again."

  /** `String(task.password || "")`: a null or empty password is "". */
  function StoredPassword(t: Task): (r: string)
    ensures t.password.Some? ==> r == t.password.value
    ensures t.password.None? ==> r == ""
  {
    t.password.GetOr("")
  }

  /** The outcome of pressing Send with `openTask` open, `team` and `password`
      typed, against a backend holding `rows` and `board`, when the round
      trips end as `f` says. The checks come in the order the handler makes
      them; the first that fails decides the outcome. */
  function Decide(openTask: Option<Task>, team: string, password: string,
                  rows: seq<Task>, board: Scoreboard, f: Faults): (r: Outcome)
    ensures r == NoTask <==> openTask.None?
    ensures r.Awarded? ==> !IsBlank(team) && !IsBlank(password) && r.team == Trim(team) && f == RELIABLE
  {
    if openTask.None? then NoTask
    else if IsBlank(team) then NeedTeam
    else if IsBlank(password) then NeedPassword
    else CheckTask(TaskById(rows, openTask.value.id, f.fetchTask), Trim(team), password, board, f)
  }

  /** The rest of a submission once the task has been re-fetched as `fetched`:
      the password comparison, then the read of the team's row. */
  function CheckTask(fetched: Reply<Task>, name: string, password: string,
                     board: Scoreboard, f: Faults): (r: Outcome)
    ensures r !in {NoTask, NeedTeam, NeedPassword}
    ensures r == WrongPassword <==> fetched.Ok? && password != StoredPassword(fetched.value)
    ensures r.Awarded? ==> && fetched.Ok? && password == StoredPassword(fetched.value)
                           && r == Awarded(fetched.value.points, name)
                           && f.readScore == NoFault && f.writeScore == NoFault
  {
    match fetched
    case Threw => Crashed
    case Error => TaskNotFound
    case Ok(current) =>
      if password != StoredPassword(current) then WrongPassword
      else WriteScore(current.points, name, ScoreRowOf(board, name, f.readScore), board, f.writeScore)
  }

  /** The end of a submission once the team's row has been read as `existing`:
      an update of that row, or an insert when there is none. */
  function WriteScore(points: Option<int>, name: string, existing: Reply<Option<ScoreRow>>,
                      board: Scoreboard, writeFault: Fault): (r: Outcome)
    ensures r.Awarded? <==> existing.Ok? && writeFault == NoFault && (existing.value.None? ==> name !in board)
    ensures r.Awarded? ==> r == Awarded(points, name)
    ensures r == Crashed <==> existing.Threw? || (existing.Ok? && writeFault == Thrown)
  {
    match existing
    case Threw => Crashed
    case Error => ScoreReadFailed
    case Ok(row) =>
      var written := if row.Some? then UpdateAck(writeFault) else InsertAck(board, name, writeFault);
      match written
      case Threw => Crashed
      case Error => if row.Some? then UpdateFailed else InsertFailed
      case Ok(_) => Awarded(points, name)
  }

  /** The scoreboard after an outcome: only an award writes to it. */
  function BoardAfter(board: Scoreboard, o: Outcome): (r: Scoreboard)
    ensures !o.Awarded? ==> r == board
    ensures o.Awarded? ==> && r.Keys == board.Keys + {o.team}
                           && r[o.team] == Some(PriorScore(board, o.team) + OrZero(o.points))
                           && (forall k :: k in board && k != o.team ==> r[k] == board[k])
  {
    if o.Awarded? then Credit(board, o.team, OrZero(o.points)) else board
  }

  /** The guards run first and in this order: an open task, then a non-blank
      team name, then a non-blank password; whichever fails first decides the
      outcome, whatever the backend holds or does. */
  lemma GuardOrder(openTask: Option<Task>, team: string, password: string,
                   rows: seq<Task>, board: Scoreboard, f: Faults)
    ensures openTask.None? ==> Decide(openTask, team, password, rows, board, f) == NoTask
    ensures openTask.Some? && IsBlank(team) ==> Decide(openTask, team, password, rows, board, f) == NeedTeam
    ensures openTask.Some? && !IsBlank(team) && IsBlank(password) ==>
              Decide(openTask, team, password, rows, board, f) == NeedPassword
    ensures Decide(openTask, team, password, rows, board, f) in {NoTask, NeedTeam, NeedPassword} ==>
              openTask.None? || IsBlank(team) || IsBlank(password)
  {
  }

  /** Only the trimmed team name matters: typing the name exactly as it was
      credited, without the surrounding whitespace, gives the same outcome
      and so writes to the same scoreboard row. */
  lemma OnlyTrimmedTeamMatters(openTask: Option<Task>, team: string, password: string,
                               rows: seq<Task>, board: Scoreboard, f: Faults)
    ensures Decide(openTask, Trim(team), password, rows, board, f) == Decide(openTask, team, password, rows, board, f)
  {
    TrimIdempotent(team);
  }

  /** An award happens exactly when the typed string equals the stored
      password character for character (no trimming, no case folding), the
      guards pass and every round trip answers normally. */
  lemma AwardIffExactPassword(t: Task, team: string, password: string,
                              rows: seq<Task>, board: Scoreboard, f: Faults)
    ensures var o := Decide(Some(t), team, password, rows, board, f);
            o.Awarded? ==>
              && f == RELIABLE
              && SingleById(rows, t.id).Some?
              && password == StoredPassword(SingleById(rows, t.id).value)
              && o == Awarded(SingleById(rows, t.id).value.points, Trim(team))
    ensures var o := Decide(Some(t), team, password, rows, board, f);
            && f == RELIABLE && !IsBlank(team) && !IsBlank(password)
            && SingleById(rows, t.id).Some?
            && password == StoredPassword(SingleById(rows, t.id).value)
            ==> o == Awarded(SingleById(rows, t.id).value.points, Trim(team))
  {
  }

  /** A task whose stored password is null, empty or only whitespace can
      never be solved: any password equal to it is blank and is turned away
      before the task is even fetched. */
  lemma BlankPasswordTaskUnsolvable(t: Task, team: string, password: string,
                                    rows: seq<Task>, board: Scoreboard, f: Faults)
    requires forall r :: r in rows && r.id == t.id ==> IsBlank(StoredPassword(r))
    ensures !Decide(Some(t), team, password, rows, board, f).Awarded?
  {
    match TaskById(rows, t.id, f.fetchTask)
    case Ok(current) =>
      assert current in rows && current.id == t.id;
    case Error =>
    case Threw =>
  }

  /** With both fields filled in and the task re-fetched, any typed string
      other than the stored password is refused, whatever the scoreboard
      holds and however its round trips would end. */
  lemma OtherPasswordRefused(t: Task, rows: seq<Task>, team: string, password: string,
                             board: Scoreboard, f: Faults)
    requires IdsAscending(rows) && t in rows
    requires !IsBlank(team) && !IsBlank(password)
    requires password != StoredPassword(t)
    requires f.fetchTask == NoFault
    ensures Decide(Some(t), team, password, rows, board, f) == WrongPassword
  {
    SingleByIdFinds(rows, t.id, t);
  }

  /** The task of the examples below: password "SnowAngel", worth 50. */
  const SNOW_ANGEL: Task := Task(3, Some(50), Some("SnowAngel"), Some(true))

  /** Case matters: with "SnowAngel" stored, "snowangel" is refused. */
  lemma CaseIsNotFolded(board: Scoreboard)
    ensures Decide(Some(SNOW_ANGEL), "Yeti", "snowangel", [SNOW_ANGEL], board, RELIABLE) == WrongPassword
  {
    assert !IsJsWhitespace("Yeti"[0]) && !IsJsWhitespace("snowangel"[0]);
    assert "snowangel" != "SnowAngel" by {
      assert "snowangel"[0] != "SnowAngel"[0];
    }
    OtherPasswordRefused(SNOW_ANGEL, [SNOW_ANGEL], "Yeti", "snowangel", board, RELIABLE);
  }

  /** Spaces matter: with "SnowAngel" stored, "SnowAngel " is refused. */
  lemma PasswordIsNotTrimmed(board: Scoreboard)
    ensures Decide(Some(SNOW_ANGEL), "Yeti", "SnowAngel ", [SNOW_ANGEL], board, RELIABLE) == WrongPassword
  {
    assert !IsJsWhitespace("Yeti"[0]) && !IsJsWhitespace("SnowAngel "[0]);
    assert "SnowAngel " != "SnowAngel" by {
      assert |"SnowAngel "| != |"SnowAngel"|;
    }
    OtherPasswordRefused(SNOW_ANGEL, [SNOW_ANGEL], "Yeti", "SnowAngel ", board, RELIABLE);
  }

  /** A new team typing the stored password of a task gets a row with the
      task's points (0 for null points), keyed by its name without the
      whitespace typed around it. */
  lemma FirstAwardCreatesRow(t: Task, rows: seq<Task>, pre: string, name: string, post: string,
                             board: Scoreboard)
    requires IdsAscending(rows) && t in rows
    requires AllWhitespace(pre) && AllWhitespace(post)
    requires name != [] && !IsJsWhitespace(name[0]) && !IsJsWhitespace(name[|name| - 1])
    requires name !in board
    requires !IsBlank(StoredPassword(t))
    ensures var o := Decide(Some(t), pre + name + post, StoredPassword(t), rows, board, RELIABLE);
            && o == Awarded(t.points, name)
            && BoardAfter(board, o) == board[name := Some(OrZero(t.points))]
  {
    SingleByIdFinds(rows, t.id, t);
    TrimStripsPadding(pre, name, post);
    var o := Decide(Some(t), pre + name + post, StoredPassword(t), rows, board, RELIABLE);
    assert o == Awarded(t.points, name);
    assert BoardAfter(board, o) == Credit(board, name, OrZero(t.points));
  }

  /** Every outcome other than an award leaves the scoreboard untouched; an
      award changes the trimmed team's row and no other. With a row, its score
      becomes `(score || 0) + (points || 0)`; without one, a row is created
      with `points || 0`. */
  lemma AwardWritesOneRow(openTask: Option<Task>, team: string, password: string,
                          rows: seq<Task>, board: Scoreboard, f: Faults)
    ensures var o := Decide(openTask, team, password, rows, board, f);
            !o.Awarded? ==> BoardAfter(board, o) == board
    ensures var o := Decide(openTask, team, password, rows, board, f);
            var after := BoardAfter(board, o);
            o.Awarded? ==>
              && o.team == Trim(team)
              && after.Keys == board.Keys + {o.team}
              && (forall k :: k in board && k != o.team ==> after[k] == board[k])
              && (o.team in board ==> after[o.team] == Some(OrZero(board[o.team]) + OrZero(o.points)))
              && (o.team !in board ==> after[o.team] == Some(OrZero(o.points)))
  {
    var o := Decide(openTask, team, password, rows, board, f);
    if o.Awarded? {
      assert o.team == Trim(team);
      assert o.team in board ==> PriorScore(board, o.team) == OrZero(board[o.team]);
    }
  }

  /** There is no record of solved tasks: submitting the same correct password
      again, with the backend answering normally, credits the task again, so
      the team's score grows by the task's points twice. */
  lemma ResubmissionCreditsAgain(t: Task, team: string, password: string,
                                 rows: seq<Task>, board: Scoreboard)
    requires Decide(Some(t), team, password, rows, board, RELIABLE).Awarded?
    ensures var first := Decide(Some(t), team, password, rows, board, RELIABLE);
            var board1 := BoardAfter(board, first);
            var second := Decide(Some(t), team, password, rows, board1, RELIABLE);
            && second == first
            && BoardAfter(board1, second)[first.team] ==
                 Some(PriorScore(board, first.team) + 2 * OrZero(first.points))
  {
  }

  /** The advent calendar component. `db` stands for the hosted database the
      component talks to; `closeTimerPending` records the one-second timer
      that a successful submission schedules. */
  class AdventCalendar {
    var team: string
    var tasks: seq<Task>
    var loadingTasks: bool
    var openTask: Option<Task>
    var password: string
    var submitting: bool
    var message: string
    var closeTimerPending: bool
    const db: Database

    /** A submission is in progress exactly while its close timer is pending,
        and the modal stays open for all of that time. Tiles follow id order. */
    ghost predicate Valid()
      reads this, db
    {
      && db.Valid()
      && IdsAscending(tasks)
      && closeTimerPending == submitting
      && (submitting ==> openTask.Some?)
    }

    /** The initial state: the team name saved in local storage (or ""), no
        tasks yet and the task list loading, no modal, nothing typed. */
    constructor (savedTeam: Option<string>, db: Database)
      requires db.Valid()
      ensures Valid() && this.db == db
      ensures team == savedTeam.GetOr("") && tasks == [] && loadingTasks
      ensures openTask == None && password == "" && !submitting && message == ""
    {
      team := savedTeam.GetOr("");
      tasks := [];
      loadingTasks := true;
      openTask := None;
      password := "";
      submitting := false;
      message := "";
      closeTimerPending := false;
      this.db := db;
    }

    /** Typing in the team field stores the new value as it is. */
    method SaveTeamName(value: string)
      requires Valid()
      modifies this`team
      ensures Valid() && team == value
    {
      team := value;
    }

    /** Typing in the password field; the field is disabled while submitting. */
    method TypePassword(value: string)
      requires Valid()
      modifies this`password
      ensures Valid()
      ensures password == if old(submitting) then old(password) else value
    {
      if !submitting {
        password := value;
      }
    }

    /** Loads the task list. On an error reply the list stays as it was and the
        message says so; if the query throws, nothing catches it and the list
        stays in its loading state. */
    method LoadTasks(fault: Fault)
      requires Valid()
      modifies this`tasks, this`loadingTasks, this`message
      ensures Valid()
      ensures fault == NoFault ==> tasks == db.taskRows && !loadingTasks && message == old(message)
      ensures fault == ErrorResponse ==> tasks == old(tasks) && !loadingTasks && message == LOAD_FAILED_MESSAGE
      ensures fault == Thrown ==> tasks == old(tasks) && loadingTasks && message == old(message)
    {
      loadingTasks := true;
      var reply := AllTasks(db.taskRows, fault);
      if reply.Ok? {
        tasks := reply.value;
        loadingTasks := false;
      } else if reply.Error? {
        message := LOAD_FAILED_MESSAGE;
        loadingTasks := false;
      }
    }

    /** Opens the modal on `t` with an empty password field and no message. */
    method OnTileClick(t: Task)
      requires Valid()
      modifies this`openTask, this`password, this`message
      ensures Valid()
      ensures openTask == Some(t) && password == "" && message == ""
    {
      openTask := Some(t);
      password := "";
      message := "";
    }

    /** A click on the `i`-th tile of the grid, which is shown once loading is
        over. A tile whose `active` is exactly `false` ignores the click. */
    method ClickTile(i: nat)
      requires Valid() && !loadingTasks && i < |tasks|
      modifies this`openTask, this`password, this`message
      ensures Valid()
      ensures tasks[i].active == Some(false) ==>
                openTask == old(openTask) && password == old(password) && message == old(message)
      ensures tasks[i].active != Some(false) ==>
                openTask == Some(tasks[i]) && password == "" && message == ""
    {
      if tasks[i].active != Some(false) {
        OnTileClick(tasks[i]);
      }
    }

    /** Cancel, or a click on the backdrop: closes the modal unless a
        submission is in progress. */
    method CloseModal()
      requires Valid()
      modifies this`openTask
      ensures Valid()
      ensures openTask == if old(submitting) then old(openTask) else None
    {
      if !submitting {
        openTask := None;
      }
    }

    /** Send. The button is disabled while submitting, so a press never finds a
        submission in progress. Each check that fails exits at once with its
        own message and submission enabled again; only an award writes to the
        scoreboard, and it keeps submission disabled until the close timer. */
    method SubmitPassword(f: Faults)
      requires Valid() && !submitting
      modifies this`message, this`submitting, this`closeTimerPending, db`scoreboard
      ensures Valid()
      ensures var o := Decide(old(openTask), old(team), old(password), old(db.taskRows), old(db.scoreboard), f);
              && message == MessageAfter(old(message), o)
              && submitting == o.Awarded?
              && db.scoreboard == BoardAfter(old(db.scoreboard), o)
    {
      ghost var outcome := Decide(openTask, team, password, db.taskRows, db.scoreboard, f);
      if openTask.None? {
        return;
      }
      if IsBlank(team) {
        message := NEED_TEAM_MESSAGE;
        assert outcome == NeedTeam;
        return;
      }
      if IsBlank(password) {
        message := NEED_PASSWORD_MESSAGE;
        assert outcome == NeedPassword;
        return;
      }

      assert outcome == CheckTask(TaskById(db.taskRows, openTask.value.id, f.fetchTask), Trim(team), password,
                                  db.scoreboard, f);
      CheckPassword(Trim(team), f);
    }

    /** Once both fields are filled in: disable submission, clear the message,
        re-fetch the open task and compare the typed password with its stored
        one before recording the score. */
    method CheckPassword(teamName: string, f: Faults)
      requires Valid() && !submitting && openTask.Some?
      modifies this`message, this`submitting, this`closeTimerPending, db`scoreboard
      ensures Valid()
      ensures var o := CheckTask(TaskById(old(db.taskRows), old(openTask).value.id, f.fetchTask), teamName,
                                 old(password), old(db.scoreboard), f);
              && message == MessageAfter(old(message), o)
              && submitting == o.Awarded?
              && db.scoreboard == BoardAfter(old(db.scoreboard), o)
    {
      submitting := true;
      message := "";

      var current := TaskById(db.taskRows, openTask.value.id, f.fetchTask);
      if current.Threw? {
        message := CRASHED_MESSAGE;
        submitting := false;
        return;
      }
      if current.Error? {
        message := TASK_NOT_FOUND_MESSAGE;
        submitting := false;
        return;
      }
      if password != StoredPassword(current.value) {
        message := WRONG_PASSWORD_MESSAGE;
        submitting := false;
        return;
      }
      RecordScore(current.value.points, teamName, f.readScore, f.writeScore);
    }

    /** The second half of a submission, once the password has been accepted:
        read the team's row, then update it or insert one, then report. */
    method RecordScore(points: Option<int>, teamName: string, readFault: Fault, writeFault: Fault)
      requires db.Valid() && IdsAscending(tasks) && openTask.Some?
      requires submitting && !closeTimerPending
      modifies this`message, this`submitting, this`closeTimerPending, db`scoreboard
      ensures Valid()
      ensures var o := WriteScore(points, teamName, ScoreRowOf(old(db.scoreboard), teamName, readFault),
                                  old(db.scoreboard), writeFault);
              && message == MessageAfter(old(message), o)
              && submitting == o.Awarded?
              && db.scoreboard == BoardAfter(old(db.scoreboard), o)
    {
      var existing := ScoreRowOf(db.scoreboard, teamName, readFault);
      if existing.Threw? {
        message := CRASHED_MESSAGE;
        submitting := false;
        return;
      }
      if existing.Error? {
        message := READ_FAILED_MESSAGE;
        submitting := false;
        return;
      }

      if existing.value.Some? {
        UpdateRow(points, teamName, writeFault);
      } else {
        InsertRow(points, teamName, writeFault);
      }
    }

    /** The team has a row: add the task's points to its score, then report. */
    method UpdateRow(points: Option<int>, teamName: string, writeFault: Fault)
      requires db.Valid() && IdsAscending(tasks) && openTask.Some?
      requires submitting && !closeTimerPending && teamName in db.scoreboard
      modifies this`message, this`submitting, this`closeTimerPending, db`scoreboard
      ensures Valid()
      ensures var o := WriteScore(points, teamName, Ok(Some(ScoreRow(teamName, old(db.scoreboard)[teamName]))),
                                  old(db.scoreboard), writeFault);
              && message == MessageAfter(old(message), o)
              && submitting == o.Awarded?
              && db.scoreboard == BoardAfter(old(db.scoreboard), o)
    {
      ghost var outcome := WriteScore(points, teamName, Ok(Some(ScoreRow(teamName, db.scoreboard[teamName]))),
                                      db.scoreboard, writeFault);
      var newScore := OrZero(db.scoreboard[teamName]) + OrZero(points);
      var written := db.UpdateScore(teamName, newScore, writeFault);
      if written.Threw? {
        message := CRASHED_MESSAGE;
        submitting := false;
        assert outcome == Crashed;
        return;
      }
      if written.Error? {
        message := UPDATE_FAILED_MESSAGE;
        submitting := false;
        assert outcome == UpdateFailed;
        return;
      }
      assert db.scoreboard == Credit(old(db.scoreboard), teamName, OrZero(points));
      assert outcome == Awarded(points, teamName);
      message := MessageAfter(message, Awarded(points, teamName));
      closeTimerPending := true;
    }

    /** The team has no row: create one holding the task's points, then
        report. */
    method InsertRow(points: Option<int>, teamName: string, writeFault: Fault)
      requires db.Valid() && IdsAscending(tasks) && openTask.Some?
      requires submitting && !closeTimerPending && teamName !in db.scoreboard
      modifies this`message, this`submitting, this`closeTimerPending, db`scoreboard
      ensures Valid()
      ensures var o := WriteScore(points, teamName, Ok(None), old(db.scoreboard), writeFault);
              && message == MessageAfter(old(message), o)
              && submitting == o.Awarded?
              && db.scoreboard == BoardAfter(old(db.scoreboard), o)
    {
      ghost var outcome := WriteScore(points, teamName, Ok(None), db.scoreboard, writeFault);
      var written := db.InsertScore(teamName, OrZero(points), writeFault);
      if written.Threw? {
        message := CRASHED_MESSAGE;
        submitting := false;
        assert outcome == Crashed;
        return;
      }
      if written.Error? {
        message := INSERT_FAILED_MESSAGE;
        submitting := false;
        assert outcome == InsertFailed;
        return;
      }
      assert db.scoreboard == Credit(old(db.scoreboard), teamName, OrZero(points));
      assert outcome == Awarded(points, teamName);
      message := MessageAfter(message, Awarded(points, teamName));
      closeTimerPending := true;
    }

    /** The timer a successful submission set: it closes the modal and enables
        submission again. */
    method CloseTimerFires()
      requires Valid() && closeTimerPending
      modifies this`openTask, this`submitting, this`closeTimerPending
      ensures Valid()
      ensures openTask == None && !submitting && !closeTimerPending
    {
      openTask := None;
      submitting := false;
      closeTimerPending := false;
    }
  }
}
