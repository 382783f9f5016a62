/** The interaction loop of todo.js (`main`): a two-state machine, Running and
    Stopped, that reads one menu choice per round and dispatches it to the
    registry. The user's answers are a sequence of input lines consumed in the
    order the prompts ask for them; the clock is a function from the round
    number to an instant. Saving is recorded as an event carrying the collection
    that would be written. */
module Menu {
  import opened Wrappers
  import opened JsStrings
  import opened Registry

  datatype Phase = Running | Stopped

  /** What the clock gives in one round: `Date.now().toString()` for a new id
      and `new Date().toLocaleString()` for a timestamp. */
  datatype Instant = Instant(id: string, local: string)

  /** The instant the clock gives in round `round`. Naming the application
      lets `Run` and `RunMenu` read the clock through a function of values only,
      which keeps the heap out of the loop's proof. */
  function Now(clock: nat -> Instant, round: nat): Instant {
    clock(round)
  }

  /** One round of the loop: the collection after it, how many input lines it
      read (the menu choice included), whether it saved and whether it stopped. */
  datatype Turn = Turn(tasks: seq<Task>, used: nat, save: bool, stop: bool)

  /** The choices that run a registry operation and save afterwards. */
  predicate Mutating(choice: string) {
    choice == "2" || choice == "3" || choice == "4"
  }

  /** One round, given the input lines from the menu choice on. None when the
      lines run out before the round has all its answers (the program then waits
      for input for ever). Choice "1" and "5" only print, "6" stops, any other
      line is rejected, and "2", "3" and "4" replace the collection by the result
      of add, complete or delete and save it, whatever that result is. */
  function Dispatch(tasks: seq<Task>, lines: seq<string>, now: Instant): (r: Option<Turn>)
    requires |lines| > 0
    ensures r.Some? ==> 1 <= r.value.used <= |lines|
  {
    var choice := lines[0];
    if choice == "2" then
      if |lines| < 2 then None
      else if !TitleGiven(lines[1]) then Some(Turn(AddTask(tasks, lines[1], "", now.id, now.local).tasks, 2, true, false))
      else if |lines| < 3 then None
      else Some(Turn(AddTask(tasks, lines[1], lines[2], now.id, now.local).tasks, 3, true, false))
    else if choice == "3" then
      if tasks == [] then Some(Turn(CompleteTask(tasks, "", now.local).tasks, 1, true, false))
      else if |lines| < 2 then None
      else Some(Turn(CompleteTask(tasks, lines[1], now.local).tasks, 2, true, false))
    else if choice == "4" then
      if tasks == [] then Some(Turn(DeleteTask(tasks, "", None).tasks, 1, true, false))
      else if |lines| < 2 then None
      else if Selected(lines[1], |tasks|).None? then Some(Turn(DeleteTask(tasks, lines[1], None).tasks, 2, true, false))
      else if |lines| < 3 then None
      else Some(Turn(DeleteTask(tasks, lines[1], Some(lines[2])).tasks, 3, true, false))
    else
      Some(Turn(tasks, 1, false, choice == "6"))
  }

  /** What a round does, whatever the collection: only "6" stops, exactly "2",
      "3" and "4" save, only they can wait for more input, every other line
      changes nothing, and "3" and "4" on an empty collection ask nothing more
      and save it unchanged. ("2" with an empty title is `EmptyTitleSavesUnchanged`.) */
  lemma {:induction false} DispatchShape(tasks: seq<Task>, lines: seq<string>, now: Instant)
    requires |lines| > 0
    ensures var r := Dispatch(tasks, lines, now);
      && (r.Some? ==> (r.value.stop <==> lines[0] == "6"))
      && (r.Some? ==> (r.value.save <==> Mutating(lines[0])))
      && (r.None? ==> Mutating(lines[0]))
      && (!Mutating(lines[0]) ==> r == Some(Turn(tasks, 1, false, lines[0] == "6")))
      && ((lines[0] == "3" || lines[0] == "4") && tasks == [] ==> r == Some(Turn(tasks, 1, true, false)))
  {
    if tasks == [] {
      assert CompleteTask(tasks, "", now.local).tasks == tasks;
      assert DeleteTask(tasks, "", None).tasks == tasks;
    }
  }

  /** "2" with an empty title reads no description and saves the collection unchanged. */
  lemma {:induction false} EmptyTitleSavesUnchanged(tasks: seq<Task>, lines: seq<string>, now: Instant)
    requires |lines| >= 2 && lines[0] == "2" && !TitleGiven(lines[1])
    ensures Dispatch(tasks, lines, now) == Some(Turn(tasks, 2, true, false))
  {
    assert AddTask(tasks, lines[1], "", now.id, now.local).tasks == tasks;
  }

  /** "3" or "4" on a non-empty collection with a number that selects nothing
      reads only that answer and saves the collection unchanged; "4" whose
      deletion is declined reads the confirmation too and saves it unchanged.
      So neither answer is ever taken as the next menu choice. */
  lemma {:induction false} DispatchRejects(tasks: seq<Task>, lines: seq<string>, now: Instant)
    requires |lines| >= 2 && (lines[0] == "3" || lines[0] == "4") && tasks != []
    ensures Selected(lines[1], |tasks|).None? ==> Dispatch(tasks, lines, now) == Some(Turn(tasks, 2, true, false))
    ensures lines[0] == "4" && |lines| >= 3 && Selected(lines[1], |tasks|).Some? && !Confirmed(Some(lines[2]))
        ==> Dispatch(tasks, lines, now) == Some(Turn(tasks, 3, true, false))
  {
  }

  /** The loop's state and the saves it has made so far, oldest first. */
  datatype Session = Session(tasks: seq<Task>, phase: Phase, saves: seq<seq<Task>>)

  /** The state after applying one round. */
  function Apply(s: Session, t: Turn): Session {
    Session(t.tasks, if t.stop then Stopped else s.phase, if t.save then s.saves + [t.tasks] else s.saves)
  }

  /** The whole run of `while (isRunning)` from session `s` on the remaining lines,
      `round` being the number of rounds already played. It ends when the
      session is Stopped or the input runs out. */
  function Run(s: Session, lines: seq<string>, clock: nat -> Instant, round: nat): Session
    decreases |lines|
  {
    if s.phase == Stopped || lines == [] then s
    else match Dispatch(s.tasks, lines, Now(clock, round))
      case None => s
      case Some(t) => Run(Apply(s, t), lines[t.used..], clock, round + 1)
  }

  /** `main` after `loadTasks()` returned `loaded`: the `while (isRunning)` loop,
      run imperatively over the input lines, one `Dispatch` per round. It ends
      in the state the specification `Run` gives. */
  method RunMenu(loaded: seq<Task>, lines: seq<string>, clock: nat -> Instant)
    returns (tasks: seq<Task>, phase: Phase, saves: seq<seq<Task>>)
    ensures Session(tasks, phase, saves) == Run(Session(loaded, Running, []), lines, clock, 0)
  {
    tasks, phase, saves := loaded, Running, [];
    var rest, round := lines, 0;
    while phase == Running && rest != []
      invariant Run(Session(loaded, Running, []), lines, clock, 0)
             == Run(Session(tasks, phase, saves), rest, clock, round)
      decreases |rest|
    {
      var turn := Dispatch(tasks, rest, Now(clock, round));
      if turn.None? {
        // the program waits for an answer that never comes
        RunWaits(Session(tasks, phase, saves), rest, clock, round);
        break;
      }
      var t := turn.value;
      RunContinues(Session(tasks, phase, saves), rest, clock, round, t);
      tasks, phase, saves := t.tasks,
        if t.stop then Stopped else phase,
        if t.save then saves + [t.tasks] else saves;
      rest := rest[t.used..];
      round := round + 1;
    }
  }

  /** A round that waits for input ends the run where it is. */
  lemma {:induction false} RunWaits(s: Session, lines: seq<string>, clock: nat -> Instant, round: nat)
    requires |lines| > 0 && Dispatch(s.tasks, lines, Now(clock, round)) == None
    ensures Run(s, lines, clock, round) == s
  {
  }

  /** A round that completes moves the run on to the next round, on the lines
      it left unread. */
  lemma {:induction false} RunContinues(s: Session, lines: seq<string>, clock: nat -> Instant, round: nat, t: Turn)
    requires s.phase == Running && |lines| > 0
    requires Dispatch(s.tasks, lines, Now(clock, round)) == Some(t)
    ensures Run(s, lines, clock, round) == Run(Apply(s, t), lines[t.used..], clock, round + 1)
  {
  }

  // ---------------------------------------------------------------------------
  // Properties of the loop
  // ---------------------------------------------------------------------------

  /** The menu choices a run reads, in order: the first line of every round it
      starts, including a last round that waits for input. Titles, task numbers
      and confirmation answers are not among them. */
  function Choices(s: Session, lines: seq<string>, clock: nat -> Instant, round: nat): seq<string>
    decreases |lines|
  {
    if s.phase == Stopped || lines == [] then []
    else match Dispatch(s.tasks, lines, Now(clock, round))
      case None => [lines[0]]
      case Some(t) => [lines[0]] + Choices(Apply(s, t), lines[t.used..], clock, round + 1)
  }

  /** Only the menu choice "6" moves the loop from Running to Stopped: a run
      stops exactly when the last choice it reads is "6", and no earlier choice
      is "6". A "6" typed as a title or an answer does not stop it. */
  lemma {:induction false} StopsOnlyOnSix(s: Session, lines: seq<string>, clock: nat -> Instant, round: nat)
    requires s.phase == Running
    ensures var c := Choices(s, lines, clock, round);
      && (forall i :: 0 <= i < |c| - 1 ==> c[i] != "6")
      && (Run(s, lines, clock, round).phase == Stopped <==> c != [] && c[|c| - 1] == "6")
    decreases |lines|
  {
    if lines != [] {
      DispatchShape(s.tasks, lines, Now(clock, round));
      match Dispatch(s.tasks, lines, Now(clock, round))
      case None =>
      case Some(t) =>
        if !t.stop {
          StopsOnlyOnSix(Apply(s, t), lines[t.used..], clock, round + 1);
        }
    }
  }

  /** A "6" typed as the title of a new task is not a menu choice: the loop
      adds the task, saves and keeps running. */
  lemma {:induction false} SixAsTitleKeepsRunning(s: Session, clock: nat -> Instant, round: nat)
    requires s.phase == Running
    ensures Choices(s, ["2", "6", ""], clock, round) == ["2"]
    ensures Run(s, ["2", "6", ""], clock, round).phase == Running
  {
    TitleKept("6");
    var lines := ["2", "6", ""];
    var t := Dispatch(s.tasks, lines, Now(clock, round)).value;
    assert !t.stop && t.used == 3;
    assert lines[t.used..] == [];
  }

  /** A "6" at the menu prompt stops the loop at once, with nothing changed and
      nothing saved. */
  lemma {:induction false} SixStops(s: Session, rest: seq<string>, clock: nat -> Instant, round: nat)
    requires s.phase == Running
    ensures Run(s, ["6"] + rest, clock, round) == s.(phase := Stopped)
  {
    var lines := ["6"] + rest;
    assert Dispatch(s.tasks, lines, clock(round)) == Some(Turn(s.tasks, 1, false, true));
  }

  /** Once there has been a save, the last save holds the collection in memory:
      the collection only ever changes in a round that saves it. */
  predicate SavedCurrent(s: Session) {
    s.saves != [] ==> s.saves[|s.saves| - 1] == s.tasks
  }

  lemma {:induction false} RunKeepsSavedCurrent(s: Session, lines: seq<string>, clock: nat -> Instant, round: nat)
    requires SavedCurrent(s)
    ensures SavedCurrent(Run(s, lines, clock, round))
    ensures s.saves <= Run(s, lines, clock, round).saves
    decreases |lines|
  {
    if s.phase == Running && lines != [] {
      match Dispatch(s.tasks, lines, clock(round))
      case None =>
      case Some(t) =>
        RunKeepsSavedCurrent(Apply(s, t), lines[t.used..], clock, round + 1);
    }
  }

  /** A round only ever produces records the registry could have produced. */
  lemma {:induction false} DispatchKeepsWellFormed(tasks: seq<Task>, lines: seq<string>, now: Instant)
    requires |lines| > 0
    requires AllWellFormed(tasks)
    ensures Dispatch(tasks, lines, now).Some? ==> AllWellFormed(Dispatch(tasks, lines, now).value.tasks)
  {
    if lines[0] == "2" && |lines| >= 2 {
      AddKeepsWellFormed(tasks, lines[1], "", now.id, now.local);
      if |lines| >= 3 {
        AddKeepsWellFormed(tasks, lines[1], lines[2], now.id, now.local);
      }
    } else if lines[0] == "3" && tasks != [] && |lines| >= 2 {
      CompleteKeepsWellFormed(tasks, lines[1], now.local);
    } else if lines[0] == "4" && tasks != [] && |lines| >= 2 {
      DeleteKeepsWellFormed(tasks, lines[1], None);
      if |lines| >= 3 {
        DeleteKeepsWellFormed(tasks, lines[1], Some(lines[2]));
      }
    }
  }

  lemma {:induction false} RunKeepsWellFormed(s: Session, lines: seq<string>, clock: nat -> Instant, round: nat)
    requires AllWellFormed(s.tasks)
    ensures AllWellFormed(Run(s, lines, clock, round).tasks)
    decreases |lines|
  {
    if s.phase == Running && lines != [] {
      DispatchKeepsWellFormed(s.tasks, lines, clock(round));
      match Dispatch(s.tasks, lines, clock(round))
      case None =>
      case Some(t) =>
        RunKeepsWellFormed(Apply(s, t), lines[t.used..], clock, round + 1);
    }
  }

  // ---------------------------------------------------------------------------
  // An end-to-end session
  // ---------------------------------------------------------------------------

  /** A title without surrounding white space is given and kept as typed. */
  lemma {:induction false} TitleKept(title: string)
    requires title != [] && Trimmed(title)
    ensures TitleGiven(title) && Trim(title) == title
  {
    TrimOfTrimmed(title);
  }

  lemma {:induction false} YesConfirms(answer: string)
    requires answer == "y"
    ensures Confirmed(Some(answer))
  {
    TrimOfTrimmed(answer);
    ConfirmedSpellings(Some(answer));
  }

  lemma {:induction false} SelectsFirst(input: string, count: nat)
    requires count >= 1 && input == "1"
    ensures Selected(input, count) == Some(0)
  {
    assert Decimal(1) == "1";
    assert input == Decimal(1) + "";
    ParseIntOfDecimal(1, "");
  }

  function Milk(clock: nat -> Instant): Task {
    Task(clock(0).id, "Buy milk", "", false, clock(0).local, None)
  }

  function Mom(clock: nat -> Instant): Task {
    Task(clock(2).id, "Call mom", "urgent", false, clock(2).local, None)
  }

  /** One round that runs all its prompts and saves, as a step of `Run`. */
  lemma {:induction false} RunStep(s: Session, lines: seq<string>, clock: nat -> Instant, round: nat, t: Turn, rest: seq<string>)
    requires s.phase == Running && |lines| > 0 && !t.stop && t.save
    requires Dispatch(s.tasks, lines, clock(round)) == Some(t)
    requires lines[t.used..] == rest
    ensures Run(s, lines, clock, round) == Run(Session(t.tasks, Running, s.saves + [t.tasks]), rest, clock, round + 1)
  {
  }

  /** A round of choice "2" with a title reads the description too and appends
      the new record. */
  lemma {:induction false} DispatchAdds(tasks: seq<Task>, lines: seq<string>, now: Instant)
    requires |lines| >= 3 && lines[0] == "2" && TitleGiven(lines[1])
    ensures Dispatch(tasks, lines, now)
         == Some(Turn(tasks + [Task(now.id, Trim(lines[1]), Trim(lines[2]), false, now.local, None)], 3, true, false))
  {
  }

  /** A round of choice "3" that selects task k marks exactly that task. */
  lemma {:induction false} DispatchCompletes(tasks: seq<Task>, lines: seq<string>, now: Instant, k: nat)
    requires |lines| >= 2 && lines[0] == "3" && tasks != [] && Selected(lines[1], |tasks|) == Some(k)
    ensures Dispatch(tasks, lines, now)
         == Some(Turn(tasks[k := if tasks[k].completed then tasks[k] else Mark(tasks[k], now.local)], 2, true, false))
  {
    var r := CompleteTask(tasks, lines[1], now.local).tasks;
    assert r == tasks[k := if tasks[k].completed then tasks[k] else Mark(tasks[k], now.local)];
  }

  /** A round of choice "4" that selects task k and is confirmed removes exactly
      that task. */
  lemma {:induction false} DispatchDeletes(tasks: seq<Task>, lines: seq<string>, now: Instant, k: nat)
    requires |lines| >= 3 && lines[0] == "4" && tasks != [] && Selected(lines[1], |tasks|) == Some(k)
    requires Confirmed(Some(lines[2]))
    ensures Dispatch(tasks, lines, now) == Some(Turn(tasks[..k] + tasks[k + 1..], 3, true, false))
  {
  }

  lemma {:induction false} RoundAddMilk(clock: nat -> Instant, lines: seq<string>)
    requires |lines| >= 3 && lines[0] == "2" && lines[1] == "Buy milk" && lines[2] == ""
    ensures Dispatch([], lines, clock(0)) == Some(Turn([Milk(clock)], 3, true, false))
  {
    TitleKept(lines[1]);
    TrimOfTrimmed(lines[2]);
    DispatchAdds([], lines, clock(0));
  }

  /** Completing the only task, which is still pending. */
  lemma {:induction false} DispatchCompletesOnly(task: Task, lines: seq<string>, now: Instant)
    requires |lines| >= 2 && lines[0] == "3" && !task.completed && Selected(lines[1], 1) == Some(0)
    ensures Dispatch([task], lines, now) == Some(Turn([Mark(task, now.local)], 2, true, false))
  {
    DispatchCompletes([task], lines, now, 0);
    assert [task][0 := Mark(task, now.local)] == [Mark(task, now.local)];
  }

  lemma {:induction false} RoundCompleteFirst(clock: nat -> Instant, lines: seq<string>)
    requires |lines| >= 2 && lines[0] == "3" && lines[1] == "1"
    ensures Dispatch([Milk(clock)], lines, clock(1)) == Some(Turn([Mark(Milk(clock), clock(1).local)], 2, true, false))
  {
    SelectsFirst(lines[1], 1);
    DispatchCompletesOnly(Milk(clock), lines, clock(1));
  }

  lemma {:induction false} RoundAddMom(clock: nat -> Instant, lines: seq<string>)
    requires |lines| >= 3 && lines[0] == "2" && lines[1] == "Call mom" && lines[2] == "urgent"
    ensures var done := Mark(Milk(clock), clock(1).local);
      Dispatch([done], lines, clock(2)) == Some(Turn([done, Mom(clock)], 3, true, false))
  {
    TitleKept(lines[1]);
    TrimOfTrimmed(lines[2]);
    var done := Mark(Milk(clock), clock(1).local);
    DispatchAdds([done], lines, clock(2));
    assert [done] + [Mom(clock)] == [done, Mom(clock)];
  }

  lemma {:induction false} RoundStatistics(tasks: seq<Task>, lines: seq<string>, now: Instant)
    requires |lines| >= 1 && lines[0] == "5"
    ensures Dispatch(tasks, lines, now) == Some(Turn(tasks, 1, false, false))
  {
  }

  /** Deleting the first of two tasks, confirmed. */
  lemma {:induction false} DispatchDeletesFirst(first: Task, second: Task, lines: seq<string>, now: Instant)
    requires |lines| >= 3 && lines[0] == "4" && Selected(lines[1], 2) == Some(0) && Confirmed(Some(lines[2]))
    ensures Dispatch([first, second], lines, now) == Some(Turn([second], 3, true, false))
  {
    var tasks := [first, second];
    DispatchDeletes(tasks, lines, now, 0);
    assert tasks[..0] + tasks[1..] == [second];
  }

  lemma {:induction false} RoundDeleteFirst(clock: nat -> Instant, lines: seq<string>)
    requires |lines| >= 3 && lines[0] == "4" && lines[1] == "1" && lines[2] == "y"
    ensures var done := Mark(Milk(clock), clock(1).local);
      Dispatch([done, Mom(clock)], lines, clock(4)) == Some(Turn([Mom(clock)], 3, true, false))
  {
    SelectsFirst(lines[1], 2);
    YesConfirms(lines[2]);
    DispatchDeletesFirst(Mark(Milk(clock), clock(1).local), Mom(clock), lines, clock(4));
  }

  /** A completion of the only task followed by a second add, after one save. */
  lemma {:induction false} CompleteThenAdd(clock: nat -> Instant, lines: seq<string>, first: Task, done: Task, second: Task)
    requires |lines| >= 5
    requires Dispatch([first], lines, clock(1)) == Some(Turn([done], 2, true, false))
    requires Dispatch([done], lines[2..], clock(2)) == Some(Turn([done, second], 3, true, false))
    ensures Run(Session([first], Running, [[first]]), lines, clock, 1)
         == Run(Session([done, second], Running, [[first], [done], [done, second]]), lines[5..], clock, 3)
  {
    var l2 := lines[2..];
    assert [[first]] + [[done]] == [[first], [done]];
    RunStep(Session([first], Running, [[first]]), lines, clock, 1, Turn([done], 2, true, false), l2);
    assert l2[3..] == lines[5..];
    assert [[first], [done]] + [[done, second]] == [[first], [done], [done, second]];
    RunStep(Session([done], Running, [[first], [done]]), l2, clock, 2, Turn([done, second], 3, true, false), lines[5..]);
  }

  /** The shape of the first three rounds below, for any three tasks: an add
      to the empty collection, a completion of its task and a second add. */
  lemma {:induction false} ThreeSavingRounds(clock: nat -> Instant, lines: seq<string>, first: Task, done: Task, second: Task)
    requires |lines| >= 8
    requires Dispatch([], lines, clock(0)) == Some(Turn([first], 3, true, false))
    requires Dispatch([first], lines[3..], clock(1)) == Some(Turn([done], 2, true, false))
    requires Dispatch([done], lines[5..], clock(2)) == Some(Turn([done, second], 3, true, false))
    ensures Run(Session([], Running, []), lines, clock, 0)
         == Run(Session([done, second], Running, [[first], [done], [done, second]]), lines[8..], clock, 3)
  {
    var l3 := lines[3..];
    assert [] + [[first]] == [[first]];
    RunStep(Session([], Running, []), lines, clock, 0, Turn([first], 3, true, false), l3);
    assert l3[2..] == lines[5..] && l3[5..] == lines[8..];
    CompleteThenAdd(clock, l3, first, done, second);
  }

  /** A round that only prints, then a saving round, then "6": the session
      stops with one more save. */
  lemma {:induction false} PrintSaveStop(s: Session, lines: seq<string>, clock: nat -> Instant, round: nat, t: Turn)
    requires s.phase == Running && |lines| == t.used + 2 && !t.stop && t.save
    requires Dispatch(s.tasks, lines, clock(round)) == Some(Turn(s.tasks, 1, false, false))
    requires Dispatch(s.tasks, lines[1..], clock(round + 1)) == Some(t)
    requires lines[t.used + 1] == "6"
    ensures Run(s, lines, clock, round) == Session(t.tasks, Stopped, s.saves + [t.tasks])
  {
    var rest := lines[t.used + 1..];
    assert lines[1..][t.used..] == rest;
    RunStep(s, lines[1..], clock, round + 1, t, rest);
    assert rest == ["6"] + [];
    SixStops(Session(t.tasks, Running, s.saves + [t.tasks]), [], clock, round + 2);
  }

  /** The first three rounds of the session below: two adds and a completion. */
  lemma {:induction false} FirstThreeRounds(clock: nat -> Instant, lines: seq<string>)
    requires |lines| >= 8
    requires lines[0] == "2" && lines[1] == "Buy milk" && lines[2] == ""
    requires lines[3] == "3" && lines[4] == "1"
    requires lines[5] == "2" && lines[6] == "Call mom" && lines[7] == "urgent"
    ensures var done := Mark(Milk(clock), clock(1).local);
      Run(Session([], Running, []), lines, clock, 0)
      == Run(Session([done, Mom(clock)], Running, [[Milk(clock)], [done], [done, Mom(clock)]]), lines[8..], clock, 3)
  {
    var milk, mom := Milk(clock), Mom(clock);
    var done := Mark(milk, clock(1).local);
    RoundAddMilk(clock, lines);
    RoundCompleteFirst(clock, lines[3..]);
    RoundAddMom(clock, lines[5..]);
    ThreeSavingRounds(clock, lines, milk, done, mom);
  }

  /** The last two rounds of the session below, from the state the first three
      leave: the statistics, a confirmed deletion of task 1, and the exit. */
  lemma {:induction false} LastRounds(clock: nat -> Instant, lines: seq<string>)
    requires |lines| == 5
    requires lines[0] == "5" && lines[1] == "4" && lines[2] == "1" && lines[3] == "y" && lines[4] == "6"
    ensures var milk, mom := Milk(clock), Mom(clock);
      var done := Mark(milk, clock(1).local);
      Run(Session([done, mom], Running, [[milk], [done], [done, mom]]), lines, clock, 3)
      == Session([mom], Stopped, [[milk], [done], [done, mom], [mom]])
  {
    var milk, mom := Milk(clock), Mom(clock);
    var done := Mark(milk, clock(1).local);
    var s3 := Session([done, mom], Running, [[milk], [done], [done, mom]]);
    RoundStatistics(s3.tasks, lines, clock(3));
    RoundDeleteFirst(clock, lines[1..]);
    PrintSaveStop(s3, lines, clock, 3, Turn([mom], 3, true, false));
    assert s3.saves + [[mom]] == [[milk], [done], [done, mom], [mom]];
  }

  /** What the statistics round of the session below reports. */
  lemma {:induction false} HalfDone(done: Task, pending: Task)
    requires done.completed && !pending.completed
    ensures Statistics([done, pending]) == Stats(2, 1, 1, Some(50))
  {
    assert CountCompleted([done, pending]) == 1;
    assert RoundPercent(1, 2) == 50;
  }

  /** Starting from an empty store: add "Buy milk", complete task 1, add
      "Call mom" with description "urgent", look at the statistics (two tasks,
      one completed, 50 per cent), delete task 1 with "y", and exit. One task
      remains, "Call mom", and each of the four operations saved. */
  lemma {:induction false} EndToEnd(clock: nat -> Instant, lines: seq<string>)
    requires |lines| == 13
    requires lines[0] == "2" && lines[1] == "Buy milk" && lines[2] == ""
    requires lines[3] == "3" && lines[4] == "1"
    requires lines[5] == "2" && lines[6] == "Call mom" && lines[7] == "urgent"
    requires lines[8] == "5" && lines[9] == "4" && lines[10] == "1" && lines[11] == "y" && lines[12] == "6"
    ensures var milk, mom := Milk(clock), Mom(clock);
      var done := Mark(milk, clock(1).local);
      && Run(Session([], Running, []), lines[..8], clock, 0) == Session([done, mom], Running, [[milk], [done], [done, mom]])
      && Statistics([done, mom]) == Stats(2, 1, 1, Some(50))
      && Run(Session([], Running, []), lines, clock, 0) == Session([mom], Stopped, [[milk], [done], [done, mom], [mom]])
  {
    var milk, mom := Milk(clock), Mom(clock);
    var done := Mark(milk, clock(1).local);
    FirstThreeRounds(clock, lines[..8]);
    assert lines[..8][8..] == [];
    FirstThreeRounds(clock, lines);
    LastRounds(clock, lines[8..]);
    HalfDone(done, mom);
  }
}
