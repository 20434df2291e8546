/** The "game done" button of the application: the schedule and the index of the
    game being played (`gameSchedule`, `currentGameIndex`), and `handleGameDone`,
    which stamps the current game and moves on, but never beyond the last game. */
module Cursor {
  import opened Common

  /** The two pieces of application state `handleGameDone` reads and writes. */
  datatype State = State(schedule: seq<Assignment>, cursor: nat)

  /** The entry with `completed` set and the timestamp filled in. */
  function Stamped(a: Assignment, ts: string): (r: Assignment)
    ensures r.game == a.game && r.completed && r.completedAt == Some(ts)
  {
    a.(completed := true, completedAt := Some(ts))
  }

  /** `handleGameDone` with `ts` standing for `new Date().toLocaleString()`. */
  function GameDone(st: State, ts: string): (r: State)
    ensures |r.schedule| == |st.schedule|
    ensures st.cursor < |st.schedule| - 1 ==>
      && r.cursor == st.cursor + 1
      && r.schedule[st.cursor].game == st.schedule[st.cursor].game
      && r.schedule[st.cursor].completed && r.schedule[st.cursor].completedAt == Some(ts)
      && (forall i | 0 <= i < |st.schedule| && i != st.cursor :: r.schedule[i] == st.schedule[i])
    ensures st.cursor >= |st.schedule| - 1 ==> r == st
  {
    if st.cursor < |st.schedule| - 1 then
      State(st.schedule[st.cursor := Stamped(st.schedule[st.cursor], ts)], st.cursor + 1)
    else
      st
  }

  /** The last index the cursor may reach: `length - 1`, or 0 for an empty schedule. */
  function LastIndex(s: seq<Assignment>): (k: nat)
    ensures |s| == 0 ==> k == 0
    ensures |s| > 0 ==> k == |s| - 1
  {
    if |s| == 0 then 0 else |s| - 1
  }

  /** How `st` relates to the schedule `original` it started from with the cursor at 0:
      same length and same games, the cursor within `0 .. LastIndex`, every entry before
      the cursor stamped, every entry from the cursor on as it was. */
  predicate Consistent(st: State, original: seq<Assignment>)
  {
    && |st.schedule| == |original|
    && st.cursor <= LastIndex(original)
    && (forall i | 0 <= i < |original| :: st.schedule[i].game == original[i].game)
    && (forall i | 0 <= i < st.cursor :: st.schedule[i].completed && st.schedule[i].completedAt.Some?)
    && (forall i | st.cursor <= i < |original| :: st.schedule[i] == original[i])
  }

  lemma ConsistentStart(original: seq<Assignment>)
    ensures Consistent(State(original, 0), original)
  {
  }

  /** One press of the button keeps the state consistent with the original schedule. */
  lemma GameDoneConsistent(st: State, original: seq<Assignment>, ts: string)
    requires Consistent(st, original)
    ensures Consistent(GameDone(st, ts), original)
  {
  }

  /** The state after one press per timestamp of `tss`, in order. */
  function Presses(st: State, tss: seq<string>): (r: State)
    ensures |r.schedule| == |st.schedule|
  {
    if tss == [] then st else GameDone(Presses(st, tss[..|tss| - 1]), tss[|tss| - 1])
  }

  /** Any number of presses from the start keeps the state consistent. */
  lemma {:induction false} PressesConsistent(original: seq<Assignment>, tss: seq<string>)
    ensures Consistent(Presses(State(original, 0), tss), original)
  {
    if tss != [] {
      PressesConsistent(original, tss[..|tss| - 1]);
      GameDoneConsistent(Presses(State(original, 0), tss[..|tss| - 1]), original, tss[|tss| - 1]);
    }
  }

  /** After `k` presses the cursor is at `k`, or at the last index once it got there. */
  lemma {:induction false} PressesCursor(original: seq<Assignment>, tss: seq<string>)
    ensures Presses(State(original, 0), tss).cursor == if |tss| < LastIndex(original) then |tss| else LastIndex(original)
  {
    if tss != [] {
      PressesCursor(original, tss[..|tss| - 1]);
    }
  }

  /** On a freshly generated schedule (nothing completed) the last game is never
      marked completed, however often the button is pressed. */
  lemma LastNeverCompleted(original: seq<Assignment>, tss: seq<string>)
    requires |original| > 0
    requires forall i | 0 <= i < |original| :: !original[i].completed
    ensures !Presses(State(original, 0), tss).schedule[|original| - 1].completed
  {
    PressesConsistent(original, tss);
  }

  /** The application state: the schedule on display and the current game. */
  class Session {
    var gameSchedule: seq<Assignment>
    var currentGameIndex: nat

    function Current(): State
      reads this
    {
      State(gameSchedule, currentGameIndex)
    }

    /** What `generateSchedule` in `App` leaves behind: the new schedule, cursor 0. */
    constructor (schedule: seq<Assignment>)
      ensures Current() == State(schedule, 0)
    {
      gameSchedule := schedule;
      currentGameIndex := 0;
    }

    /** `handleGameDone`: copy the schedule, stamp the current entry, advance. */
    method HandleGameDone(ts: string)
      modifies this
      ensures Current() == GameDone(old(Current()), ts)
    {
      if currentGameIndex < |gameSchedule| - 1 {
        var updatedSchedule := gameSchedule;
        updatedSchedule := updatedSchedule[currentGameIndex := updatedSchedule[currentGameIndex].(completed := true)];
        updatedSchedule := updatedSchedule[currentGameIndex := updatedSchedule[currentGameIndex].(completedAt := Some(ts))];
        gameSchedule := updatedSchedule;
        currentGameIndex := currentGameIndex + 1;
      }
    }
  }
}
