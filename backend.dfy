/** The hosted database as the calendar sees it: the `task` table, which the
    client only reads, and the `scoreboard` table, keyed by team name, which
    the client reads, updates and inserts into. Every query is one round trip
    that may answer normally, answer with an error object, or throw. */
module Backend {
  import opened Optional

  /** A row of `task`. `points` and `password` may be `null`; `active` may be
      `null` as well, and only an explicit `false` disables a tile. */
  datatype Task = Task(id: int, points: Option<int>, password: Option<string>, active: Option<bool>)

  /** A row of `scoreboard` as `select("team, score")` returns it. */
  datatype ScoreRow = ScoreRow(team: string, score: Option<int>)

  /** The scoreboard: team name to its (possibly null) score. */
  type Scoreboard = map<string, Option<int>>

  /** How one round trip ends: normally, with an `error` in the reply, or by
      throwing (the awaited promise rejects). */
  datatype Fault = NoFault | ErrorResponse | Thrown

  /** What an awaited query hands back to the caller. */
  datatype Reply<T> = Ok(value: T) | Error | Threw

  /** `x || 0` for a numeric column that may be null. */
  function OrZero(v: Option<int>): int {
    v.GetOr(0)
  }

  /** Rows in the order `.order("id", { ascending: true })` returns them; `id`
      is the table's key, so no two rows share one. */
  predicate IdsAscending(rows: seq<Task>) {
    forall i, j :: 0 <= i < j < |rows| ==> rows[i].id < rows[j].id
  }

  /** The rows `.eq("id", id)` selects, in table order. */
  function RowsWithId(rows: seq<Task>, id: int): (r: seq<Task>)
    ensures forall t :: t in r <==> t in rows && t.id == id
  {
    if rows == [] then []
    else (if rows[0].id == id then [rows[0]] else []) + RowsWithId(rows[1..], id)
  }

  /** `.single()`: the one matching row, and nothing when zero or several
      rows match (the client library reports both as an error). */
  function SingleById(rows: seq<Task>, id: int): (r: Option<Task>)
    ensures r.Some? ==> r.value in rows && r.value.id == id
    ensures r.Some? <==> |RowsWithId(rows, id)| == 1
  {
    var matching := RowsWithId(rows, id);
    if |matching| == 1 then Some(matching[0]) else None
  }

  lemma {:induction false} NoRowWithId(rows: seq<Task>, id: int)
    requires forall t :: t in rows ==> t.id != id
    ensures RowsWithId(rows, id) == []
  {
    if rows != [] {
      NoRowWithId(rows[1..], id);
    }
  }

  lemma {:induction false} AtMostOneRowWithId(rows: seq<Task>, id: int)
    requires IdsAscending(rows)
    ensures |RowsWithId(rows, id)| <= 1
  {
    if rows != [] {
      AtMostOneRowWithId(rows[1..], id);
      if rows[0].id == id {
        assert forall t :: t in rows[1..] ==> t.id > id;
        NoRowWithId(rows[1..], id);
      }
    }
  }

  /** On a table whose ids are ordered and distinct, `.single()` on an id finds
      exactly the row carrying that id. */
  lemma SingleByIdFinds(rows: seq<Task>, id: int, t: Task)
    requires IdsAscending(rows)
    ensures SingleById(rows, id) == Some(t) <==> t in rows && t.id == id
  {
    AtMostOneRowWithId(rows, id);
    var matching := RowsWithId(rows, id);
    if t in rows && t.id == id {
      assert t in matching;
    }
  }

  /** `.from("task").select().order("id", { ascending: true })` */
  function AllTasks(rows: seq<Task>, fault: Fault): (r: Reply<seq<Task>>)
    ensures r.Ok? <==> fault == NoFault
    ensures r.Ok? ==> r.value == rows
  {
    match fault
    case NoFault => Ok(rows)
    case ErrorResponse => Error
    case Thrown => Threw
  }

  /** `.from("task").select().eq("id", id).single()` */
  function TaskById(rows: seq<Task>, id: int, fault: Fault): (r: Reply<Task>)
    ensures r.Ok? ==> fault == NoFault && r.value in rows && r.value.id == id
    ensures r.Threw? <==> fault == Thrown
  {
    match fault
    case Thrown => Threw
    case ErrorResponse => Error
    case NoFault =>
      match SingleById(rows, id)
      case Some(t) => Ok(t)
      case None => Error
  }

  /** `.from("scoreboard").select("team, score").eq("team", team).maybeSingle()`:
      the team's row if there is one, and no row (not an error) otherwise. */
  function ScoreRowOf(board: Scoreboard, team: string, fault: Fault): (r: Reply<Option<ScoreRow>>)
    ensures r.Ok? <==> fault == NoFault
    ensures r.Ok? ==> (r.value.Some? <==> team in board)
    ensures r.Ok? && r.value.Some? ==> r.value.value == ScoreRow(team, board[team])
  {
    match fault
    case NoFault => Ok(if team in board then Some(ScoreRow(team, board[team])) else None)
    case ErrorResponse => Error
    case Thrown => Threw
  }

  /** The reply to an `update`: it succeeds whether or not a row matched. */
  function UpdateAck(fault: Fault): (r: Reply<()>)
    ensures r.Ok? <==> fault == NoFault
    ensures r.Threw? <==> fault == Thrown
  {
    match fault
    case NoFault => Ok(())
    case ErrorResponse => Error
    case Thrown => Threw
  }

  /** The reply to an `insert`: a second row for an existing team violates the
      table's key and comes back as an error. */
  function InsertAck(board: Scoreboard, team: string, fault: Fault): (r: Reply<()>)
    ensures r.Ok? <==> fault == NoFault && team !in board
    ensures r.Threw? <==> fault == Thrown
  {
    match fault
    case NoFault => if team in board then Error else Ok(())
    case ErrorResponse => Error
    case Thrown => Threw
  }

  /** The score a team has before an award: `existing.score || 0` for a team
      with a row, and nothing for a team without one. */
  function PriorScore(board: Scoreboard, team: string): (r: int)
    ensures team in board && board[team].Some? ==> r == board[team].value
    ensures team !in board || board[team].None? ==> r == 0
  {
    if team in board then OrZero(board[team]) else 0
  }

  /** The whole effect on the scoreboard of one accepted submission: the
      team's row gets its score plus `points`, or a row with `points` is
      created; no other row is touched. */
  function Credit(board: Scoreboard, team: string, points: int): (r: Scoreboard)
    ensures r.Keys == board.Keys + {team}
    ensures r[team] == Some(PriorScore(board, team) + points)
    ensures forall k :: k in board && k != team ==> r[k] == board[k]
  {
    board[team := Some(PriorScore(board, team) + points)]
  }

  /** Crediting `team` with each of `awards` in turn. */
  function CreditAll(board: Scoreboard, team: string, awards: seq<int>): Scoreboard
    decreases |awards|
  {
    if awards == [] then board else CreditAll(Credit(board, team, awards[0]), team, awards[1..])
  }

  function Sum(xs: seq<int>): int {
    if xs == [] then 0 else xs[0] + Sum(xs[1..])
  }

  /** Since nothing records which tasks a team has solved, a team's score after
      a run of accepted submissions is its prior score plus the sum of all of
      their points, repeats included, and every other row is as it was. */
  lemma {:induction false} CreditAllAccumulates(board: Scoreboard, team: string, awards: seq<int>)
    requires awards != []
    ensures CreditAll(board, team, awards).Keys == board.Keys + {team}
    ensures CreditAll(board, team, awards)[team] == Some(PriorScore(board, team) + Sum(awards))
    ensures forall k :: k in board && k != team ==> CreditAll(board, team, awards)[k] == board[k]
    decreases |awards|
  {
    var next := Credit(board, team, awards[0]);
    if awards[1..] != [] {
      CreditAllAccumulates(next, team, awards[1..]);
    } else {
      assert Sum(awards[1..]) == 0;
    }
  }

  /** The backend's two tables. The task rows never change here; the
      scoreboard changes through `UpdateScore` and `InsertScore`. */
  class Database {
    var taskRows: seq<Task>
    var scoreboard: Scoreboard

    ghost predicate Valid()
      reads this
    {
      IdsAscending(taskRows)
    }

    constructor (rows: seq<Task>, board: Scoreboard)
      requires IdsAscending(rows)
      ensures Valid() && taskRows == rows && scoreboard == board
    {
      taskRows := rows;
      scoreboard := board;
    }

    /** `.from("scoreboard").update({ score }).eq("team", team)`: sets the
        score of the team's row, if it has one. A round trip that fails or
        throws changes nothing. */
    method UpdateScore(team: string, score: int, fault: Fault) returns (r: Reply<()>)
      modifies this`scoreboard
      ensures r == UpdateAck(fault)
      ensures scoreboard == if r.Ok? && team in old(scoreboard)
                            then old(scoreboard)[team := Some(score)]
                            else old(scoreboard)
    {
      r := UpdateAck(fault);
      if r.Ok? && team in scoreboard {
        scoreboard := scoreboard[team := Some(score)];
      }
    }

    /** `.from("scoreboard").insert({ team, score })`: adds the team's row,
        unless the team already has one. A round trip that fails or throws
        changes nothing. */
    method InsertScore(team: string, score: int, fault: Fault) returns (r: Reply<()>)
      modifies this`scoreboard
      ensures r == InsertAck(old(scoreboard), team, fault)
      ensures scoreboard == if r.Ok? then old(scoreboard)[team := Some(score)] else old(scoreboard)
    {
      r := InsertAck(scoreboard, team, fault);
      if r.Ok? {
        scoreboard := scoreboard[team := Some(score)];
      }
    }
  }
}
