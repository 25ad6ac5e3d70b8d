/** What the calendar tells the player after pressing Send: the outcomes a
    submission can have, the message each one writes, and a reader that
    recovers the outcome from the message. */
module Feedback {
  import opened Optional
  import opened JsText

  /** How one press of Send ends. */
  datatype Outcome =
    | NoTask                 // no modal is open: nothing happens
    | NeedTeam               // the team name is blank
    | NeedPassword           // the password field is blank
    | TaskNotFound           // the task row could not be re-fetched
    | WrongPassword          // the typed password is not the stored one
    | ScoreReadFailed        // the team's scoreboard row could not be read
    | UpdateFailed           // the team's row could not be updated
    | InsertFailed           // the team's row could not be created
    | Crashed                // one of the round trips threw
    | Awarded(points: Option<int>, team: string)  // points credited to the trimmed team name

  const NEED_TEAM_MESSAGE: string := "Please enter your team name first."
  const NEED_PASSWORD_MESSAGE: string := "Please enter a password."
  const TASK_NOT_FOUND_MESSAGE: string := "Task not found. Please try again."
  const WRONG_PASSWORD_MESSAGE: string := "Incorrect password. Try again."
  const READ_FAILED_MESSAGE: string := "Failed to check scoreboard."
  const UPDATE_FAILED_MESSAGE: string := "Failed to update score."
  const INSERT_FAILED_MESSAGE: string := "Failed to create score."
  const CRASHED_MESSAGE: string := "Something went wrong. Please try again."
  const AWARD_PREFIX: string := "\U{2705} Correct! +"
  const AWARD_MIDDLE: string := " points awarded to "

  /** `"" + task.points` in JavaScript: a null column prints as "null". The
      text is one word that reads back as the points it prints. */
  function PointsText(points: Option<int>): (r: string)
    ensures ReadPoints(r) == Some(points)
    ensures ' ' !in r
  {
    match points
    case None => "null"
    case Some(n) => IntToDecimal(n)
  }

  /** The line-139 success message: the prefix, the points, the middle text,
      the team name and a final full stop. It reads back as exactly the
      points and the team name it reports. */
  function AwardMessage(points: Option<int>, team: string): (r: string)
    ensures ReadAward(r) == Some((points, team))
  {
    var body := PointsText(points) + (AWARD_MIDDLE + team);
    UnframeFramed(AWARD_PREFIX, body, '.');
    AwardBodyReads(points, team);
    assert AWARD_PREFIX + PointsText(points) + AWARD_MIDDLE + team + "." == AWARD_PREFIX + body + ['.'];
    AWARD_PREFIX + PointsText(points) + AWARD_MIDDLE + team + "."
  }

  /** The message line after an outcome; `NoTask` leaves it as it was, and
      every other outcome writes a non-empty message. */
  function MessageAfter(previous: string, o: Outcome): (r: string)
    ensures o.NoTask? ==> r == previous
    ensures !o.NoTask? ==> r != []
  {
    match o
    case NoTask => previous
    case NeedTeam => NEED_TEAM_MESSAGE
    case NeedPassword => NEED_PASSWORD_MESSAGE
    case TaskNotFound => TASK_NOT_FOUND_MESSAGE
    case WrongPassword => WRONG_PASSWORD_MESSAGE
    case ScoreReadFailed => READ_FAILED_MESSAGE
    case UpdateFailed => UPDATE_FAILED_MESSAGE
    case InsertFailed => INSERT_FAILED_MESSAGE
    case Crashed => CRASHED_MESSAGE
    case Awarded(points, name) => AwardMessage(points, name)
  }

  /** Position of the first space in `s`, or |s| when there is none. */
  function FirstSpace(s: string): (k: nat)
    ensures k <= |s|
    ensures forall i :: 0 <= i < k ==> s[i] != ' '
    ensures k < |s| ==> s[k] == ' '
  {
    if s == [] || s[0] == ' ' then 0 else 1 + FirstSpace(s[1..])
  }

  /** Reads the points and the team name back out of a success message. */
  function ReadAward(msg: string): Option<(Option<int>, string)> {
    match Unframe(AWARD_PREFIX, msg, '.')
    case Some(body) => ReadAwardBody(body)
    case None => None
  }

  /** What stands between the prefix `pre` and the final character `last` of
      `msg`, if `msg` has that shape. */
  function Unframe(pre: string, msg: string, last: char): Option<string> {
    if |msg| > |pre| && msg[..|pre|] == pre && msg[|msg| - 1] == last
    then Some(msg[|pre|..|msg| - 1])
    else None
  }

  /** Splits "<points> points awarded to <team>" at its first space. */
  function ReadAwardBody(body: string): Option<(Option<int>, string)> {
    var rest := body[FirstSpace(body)..];
    if |rest| >= |AWARD_MIDDLE| && rest[..|AWARD_MIDDLE|] == AWARD_MIDDLE then
      match ReadPoints(body[..FirstSpace(body)])
      case Some(points) => Some((points, rest[|AWARD_MIDDLE|..]))
      case None => None
    else None
  }

  /** Reads back what `PointsText` prints. */
  function ReadPoints(token: string): Option<Option<int>> {
    if token == "null" then Some(None)
    else
      match ParseInt(token)
      case Some(n) => Some(Some(n))
      case None => None
  }

  lemma {:induction false} FirstSpaceAfterWord(a: string, b: string)
    requires ' ' !in a && b != [] && b[0] == ' '
    ensures FirstSpace(a + b) == |a|
  {
    if a != [] {
      assert (a + b)[1..] == a[1..] + b;
      FirstSpaceAfterWord(a[1..], b);
    }
  }

  lemma AwardBodyReads(points: Option<int>, name: string)
    ensures ReadAwardBody(PointsText(points) + (AWARD_MIDDLE + name)) == Some((points, name))
  {
    var text := PointsText(points);
    var tail := AWARD_MIDDLE + name;
    var body := text + tail;
    FirstSpaceAfterWord(text, tail);
    assert body[..|text|] == text;
    assert body[|text|..] == tail;
    assert tail[..|AWARD_MIDDLE|] == AWARD_MIDDLE;
    assert tail[|AWARD_MIDDLE|..] == name;
  }

  /** `pre + x + [last]`, taken apart again. */
  lemma UnframeFramed(pre: string, x: string, last: char)
    ensures Unframe(pre, pre + x + [last], last) == Some(x)
  {
    var s := pre + x + [last];
    assert s[..|pre|] == pre;
    assert s[|pre|..|s| - 1] == x;
  }

  /** Reads the outcome back out of the message line. */
  function ReadOutcome(msg: string): Option<Outcome> {
    if msg == NEED_TEAM_MESSAGE then Some(NeedTeam)
    else if msg == NEED_PASSWORD_MESSAGE then Some(NeedPassword)
    else if msg == TASK_NOT_FOUND_MESSAGE then Some(TaskNotFound)
    else if msg == WRONG_PASSWORD_MESSAGE then Some(WrongPassword)
    else if msg == READ_FAILED_MESSAGE then Some(ScoreReadFailed)
    else if msg == UPDATE_FAILED_MESSAGE then Some(UpdateFailed)
    else if msg == INSERT_FAILED_MESSAGE then Some(InsertFailed)
    else if msg == CRASHED_MESSAGE then Some(Crashed)
    else
      match ReadAward(msg)
      case Some((points, name)) => Some(Awarded(points, name))
      case None => None
  }

  /** Every message a submission writes tells which outcome it was: no two
      outcomes leave the same message, and an award's message names its
      points and its team. */
  lemma MessageIdentifiesOutcome(previous: string, o: Outcome)
    requires !o.NoTask?
    ensures ReadOutcome(MessageAfter(previous, o)) == Some(o)
  {
    match o
    case Awarded(points, name) =>
      var msg := AwardMessage(points, name);
      assert msg[0] == '\U{2705}';
      assert ReadOutcome(msg) == Some(o);
    case _ =>
  }
}
