/** The task registry of todo.js: an ordered collection of task records and the
    operations of the menu on it. Add, complete and delete are pure functions
    from the whole collection, and what the user typed at their prompts, to an
    `Update`: the new collection and the message the operation ends with.
    showStatistics is a function from the collection to the four figures it
    prints (`Stats`). Identifiers and timestamps are supplied by the caller.
    Positions are the 1-based display indices the user types. */
module Registry {
  import opened Wrappers
  import opened JsStrings

  /** A task record as todo.js stores it. `completedAt` is absent until the task
      is first completed. */
  datatype Task = Task(
    id: string,
    title: string,
    description: string,
    completed: bool,
    createdAt: string,
    completedAt: Option<string>)

  /** The console message an operation ends with (its wording is not modelled). */
  datatype Note =
    | Added         // "task added"
    | EmptyTitle    // "the title cannot be empty"
    | NoTasks       // "no tasks to mark / to delete"
    | InvalidNumber // "wrong task number"
    | AlreadyDone   // "this task is already completed"
    | MarkedDone    // "task marked completed"
    | Deleted       // "task deleted"
    | Cancelled     // "deletion cancelled"

  /** What an operation hands back: the new collection and its message. */
  datatype Update = Update(tasks: seq<Task>, note: Note)

  /** A record the registry itself could have produced: a non-empty trimmed
      title, a trimmed description, and a completion time exactly when it is
      completed. */
  predicate WellFormed(t: Task) {
    && t.title != [] && Trimmed(t.title)
    && Trimmed(t.description)
    && (t.completed <==> t.completedAt.Some?)
  }

  predicate AllWellFormed(tasks: seq<Task>) {
    forall i :: 0 <= i < |tasks| ==> WellFormed(tasks[i])
  }

  // ---------------------------------------------------------------------------
  // addTask
  // ---------------------------------------------------------------------------

  /** Whether a title survives the `!title.trim()` check. */
  predicate TitleGiven(title: string) {
    Trim(title) != []
  }

  /** addTask: a title that is empty after trimming leaves the collection as it
      is; otherwise a new, not yet completed record with the trimmed title and
      description is appended at the end. */
  function AddTask(tasks: seq<Task>, title: string, description: string, id: string, now: string): (r: Update)
    ensures !TitleGiven(title) <==> r == Update(tasks, EmptyTitle)
    ensures TitleGiven(title) ==> r.note == Added
    ensures TitleGiven(title) ==>
      && |r.tasks| == |tasks| + 1
      && r.tasks[..|tasks|] == tasks
      && var t := r.tasks[|tasks|];
         t.id == id && t.title == Trim(title) && t.description == Trim(description)
         && !t.completed && t.completedAt == None && t.createdAt == now
  {
    if !TitleGiven(title) then Update(tasks, EmptyTitle)
    else
      var created := Task(id, Trim(title), Trim(description), false, now, None);
      Update(tasks + [created], Added)
  }

  /** What the user typed for one add, with the id and time the clock gave. */
  datatype Entry = Entry(title: string, description: string, id: string, now: string)

  /** A series of adds, one after the other, starting from `tasks`. */
  function AddAll(tasks: seq<Task>, entries: seq<Entry>): seq<Task>
    decreases |entries|
  {
    if entries == [] then tasks
    else
      var e := entries[0];
      AddAll(AddTask(tasks, e.title, e.description, e.id, e.now).tasks, entries[1..])
  }

  /** The record a successful add of `e` appends. */
  function Record(e: Entry): Task {
    Task(e.id, Trim(e.title), Trim(e.description), false, e.now, None)
  }

  /** Adds with given titles append one record each, in the order they were
      made, and leave the earlier records as they were. */
  lemma {:induction false} AddAllAppends(tasks: seq<Task>, entries: seq<Entry>)
    requires forall i :: 0 <= i < |entries| ==> TitleGiven(entries[i].title)
    ensures var r := AddAll(tasks, entries);
      && |r| == |tasks| + |entries|
      && r[..|tasks|] == tasks
      && forall i :: 0 <= i < |entries| ==> r[|tasks| + i] == Record(entries[i])
    decreases |entries|
  {
    if entries != [] {
      var e, rest := entries[0], entries[1..];
      var next := AddTask(tasks, e.title, e.description, e.id, e.now).tasks;
      assert next == tasks + [Record(e)];
      assert forall i :: 0 <= i < |rest| ==> TitleGiven(rest[i].title) by {
        forall i | 0 <= i < |rest| ensures TitleGiven(rest[i].title) {
          assert rest[i] == entries[i + 1];
        }
      }
      AddAllAppends(next, rest);
      var r := AddAll(next, rest);
      assert AddAll(tasks, entries) == r;
      AppendThenRest(tasks, next, rest, r, entries);
    }
  }

  /** The inductive step of `AddAllAppends`: what the first add appended,
      followed by what the remaining adds appended. */
  lemma {:induction false} AppendThenRest(tasks: seq<Task>, next: seq<Task>, rest: seq<Entry>, r: seq<Task>, entries: seq<Entry>)
    requires |entries| > 0 && rest == entries[1..] && next == tasks + [Record(entries[0])]
    requires |r| == |next| + |rest| && r[..|next|] == next
    requires forall i :: 0 <= i < |rest| ==> r[|next| + i] == Record(rest[i])
    ensures |r| == |tasks| + |entries| && r[..|tasks|] == tasks
    ensures forall i :: 0 <= i < |entries| ==> r[|tasks| + i] == Record(entries[i])
  {
    assert r[..|tasks|] == r[..|next|][..|tasks|];
    forall i | 0 <= i < |entries| ensures r[|tasks| + i] == Record(entries[i]) {
      if i == 0 {
        assert r[|tasks|] == r[..|next|][|tasks|];
      } else {
        assert rest[i - 1] == entries[i];
        assert r[|next| + (i - 1)] == Record(rest[i - 1]);
      }
    }
  }

  // ---------------------------------------------------------------------------
  // Selecting a task by its display index
  // ---------------------------------------------------------------------------

  /** The 0-based position that the answer `input` to "task number" selects in a
      collection of `count` tasks, or None when `parseInt(input)` is NaN, below 1
      or above `count`. */
  function Selected(input: string, count: nat): (r: Option<nat>)
    ensures r.Some? <==> ParseInt(input).Some? && 1 <= ParseInt(input).value <= count
    ensures r.Some? ==> r.value < count && r.value + 1 == ParseInt(input).value
  {
    match ParseInt(input)
    case None => None
    case Some(n) => if n < 1 || n > count then None else Some(n - 1)
  }

  // ---------------------------------------------------------------------------
  // completeTask
  // ---------------------------------------------------------------------------

  /** The record after marking it completed at `now`; every other field is kept. */
  function Mark(t: Task, now: string): Task {
    t.(completed := true, completedAt := Some(now))
  }

  /** `tasks.map((task, index) => index === k ? Mark(task) : task)`, where an
      already completed task is returned as it is. */
  function MarkAt(tasks: seq<Task>, k: nat, now: string): (r: seq<Task>)
    ensures |r| == |tasks|
    ensures forall i :: 0 <= i < |tasks| && i != k ==> r[i] == tasks[i]
    ensures k < |tasks| ==> r[k] == if tasks[k].completed then tasks[k] else Mark(tasks[k], now)
  {
    seq(|tasks|, i requires 0 <= i < |tasks| =>
      if i == k && !tasks[i].completed then Mark(tasks[i], now) else tasks[i])
  }

  /** completeTask: with no tasks nothing is asked and nothing changes; an answer
      that selects no task changes nothing; a selected task that is already
      completed is left untouched (its completion time is not overwritten);
      otherwise exactly that task becomes completed at `now`. */
  function CompleteTask(tasks: seq<Task>, input: string, now: string): (r: Update)
    ensures |r.tasks| == |tasks|
    ensures tasks == [] ==> r == Update(tasks, NoTasks)
    ensures tasks != [] && Selected(input, |tasks|).None? ==> r == Update(tasks, InvalidNumber)
    ensures r.note == AlreadyDone || r.note == MarkedDone <==> tasks != [] && Selected(input, |tasks|).Some?
    ensures r.note == AlreadyDone || r.note == MarkedDone ==>
      var k := Selected(input, |tasks|).value;
      && (forall i :: 0 <= i < |tasks| && i != k ==> r.tasks[i] == tasks[i])
      && (r.note == AlreadyDone <==> tasks[k].completed)
      && (r.note == AlreadyDone ==> r.tasks == tasks)
      && (r.note == MarkedDone ==> r.tasks[k] == Mark(tasks[k], now))
  {
    if tasks == [] then Update(tasks, NoTasks)
    else match Selected(input, |tasks|)
      case None => Update(tasks, InvalidNumber)
      case Some(k) =>
        if tasks[k].completed then
          assert MarkAt(tasks, k, now) == tasks;
          Update(MarkAt(tasks, k, now), AlreadyDone)
        else Update(MarkAt(tasks, k, now), MarkedDone)
  }

  /** Completing the same index twice is completing it once, whatever the clock
      says the second time. */
  lemma {:induction false} CompleteIdempotent(tasks: seq<Task>, input: string, now: string, later: string)
    ensures CompleteTask(CompleteTask(tasks, input, now).tasks, input, later).tasks
         == CompleteTask(tasks, input, now).tasks
  {
    var once := CompleteTask(tasks, input, now);
    if tasks != [] && Selected(input, |tasks|).Some? {
      var k := Selected(input, |tasks|).value;
      assert once.tasks[k].completed;
    }
  }

  /** Completion never reverts: a task that was completed stays exactly as it
      was, and a task that had not been completed either stays as it was or
      becomes the record marked at `now`. */
  lemma {:induction false} CompleteOnlyAdvances(tasks: seq<Task>, input: string, now: string)
    ensures var r := CompleteTask(tasks, input, now).tasks;
      forall i :: 0 <= i < |tasks| ==>
        && (tasks[i].completed ==> r[i] == tasks[i])
        && (r[i] == tasks[i] || r[i] == Mark(tasks[i], now))
  {
  }

  // ---------------------------------------------------------------------------
  // deleteTask
  // ---------------------------------------------------------------------------

  /** The tokens accepted as "yes, delete": "y", "yes" and the Russian "да". */
  const Affirmatives: set<string> := {"y", "yes", "\U{0434}\U{0430}"}

  /** `(raw || '').trim().toLowerCase()` is one of the affirmative tokens. */
  predicate Confirmed(raw: Option<string>) {
    ToLower(Trim(raw.GetOr(""))) in Affirmatives
  }

  /** `t` spells one of the affirmative tokens, each letter in either case. */
  predicate AffirmativeSpelling(t: string) {
    || (|t| == 1 && t[0] in {'y', 'Y'})
    || (|t| == 3 && t[0] in {'y', 'Y'} && t[1] in {'e', 'E'} && t[2] in {'s', 'S'})
    || (|t| == 2 && t[0] in {'\U{0434}', '\U{0414}'} && t[1] in {'\U{0430}', '\U{0410}'})
  }

  /** Which letters lower-case to the letters of the affirmative tokens. */
  lemma {:induction false} LowerCharTo(c: char)
    ensures LowerChar(c) == 'y' <==> c == 'y' || c == 'Y'
    ensures LowerChar(c) == 'e' <==> c == 'e' || c == 'E'
    ensures LowerChar(c) == 's' <==> c == 's' || c == 'S'
    ensures LowerChar(c) == '\U{0434}' <==> c == '\U{0434}' || c == '\U{0414}'
    ensures LowerChar(c) == '\U{0430}' <==> c == '\U{0430}' || c == '\U{0410}'
  {
  }

  lemma {:induction false} SpellingsOfOne(t: string)
    requires |t| == 1
    ensures ToLower(t) in Affirmatives <==> AffirmativeSpelling(t)
  {
    ToLowerAt(t);
    LowerCharTo(t[0]);
    assert ToLower(t) == [LowerChar(t[0])];
    assert t == [t[0]];
  }

  lemma {:induction false} SpellingsOfTwo(t: string)
    requires |t| == 2
    ensures ToLower(t) in Affirmatives <==> AffirmativeSpelling(t)
  {
    ToLowerAt(t);
    LowerCharTo(t[0]);
    LowerCharTo(t[1]);
    assert ToLower(t) == [LowerChar(t[0]), LowerChar(t[1])];
    assert t == [t[0], t[1]];
  }

  lemma {:induction false} SpellingsOfThree(t: string)
    requires |t| == 3
    ensures ToLower(t) in Affirmatives <==> AffirmativeSpelling(t)
  {
    ToLowerAt(t);
    LowerCharTo(t[0]);
    LowerCharTo(t[1]);
    LowerCharTo(t[2]);
    assert ToLower(t) == [LowerChar(t[0]), LowerChar(t[1]), LowerChar(t[2])];
    assert t == [t[0], t[1], t[2]];
  }

  /** The confirmation is affirmative exactly when the trimmed answer is "y",
      "yes" or "да" (Cyrillic) in any mix of cases. */
  lemma {:induction false} ConfirmedSpellings(raw: Option<string>)
    ensures Confirmed(raw) <==> AffirmativeSpelling(Trim(raw.GetOr("")))
  {
    Spellings(Trim(raw.GetOr("")));
  }

  /** A missing answer counts as the empty one and declines. */
  lemma {:induction false} MissingAnswerDeclines()
    ensures !Confirmed(None)
  {
    assert Trim("") == "";
    assert ToLower("") == "";
  }

  lemma {:induction false} Spellings(t: string)
    ensures ToLower(t) in Affirmatives <==> AffirmativeSpelling(t)
  {
    if |t| == 1 {
      SpellingsOfOne(t);
    } else if |t| == 2 {
      SpellingsOfTwo(t);
    } else if |t| == 3 {
      SpellingsOfThree(t);
    } else {
      SpellingsOfOther(t);
    }
  }

  lemma {:induction false} SpellingsOfOther(t: string)
    requires |t| != 1 && |t| != 2 && |t| != 3
    ensures ToLower(t) !in Affirmatives && !AffirmativeSpelling(t)
  {
    ToLowerAt(t);
    var l := ToLower(t);
    assert |l| == |t|;
    assert l != "y" && l != "yes" && l != "\U{0434}\U{0430}";
  }

  /** `tasks.filter((_, index) => index !== k)`. */
  function Without(tasks: seq<Task>, k: int): (r: seq<Task>)
    ensures 0 <= k < |tasks| ==> r == tasks[..k] + tasks[k + 1..]
    ensures !(0 <= k < |tasks|) ==> r == tasks
  {
    if tasks == [] then []
    else (if k == 0 then [] else [tasks[0]]) + Without(tasks[1..], k - 1)
  }

  /** Removing position k keeps the elements before it in place, moves the ones
      after it down by one, and loses exactly one copy of the removed element. */
  lemma {:induction false} RemovedAt(tasks: seq<Task>, k: nat)
    requires k < |tasks|
    ensures var r := tasks[..k] + tasks[k + 1..];
      && |r| == |tasks| - 1
      && (forall i :: 0 <= i < k ==> r[i] == tasks[i])
      && (forall i :: k <= i < |r| ==> r[i] == tasks[i + 1])
  {
  }

  /** deleteTask: with no tasks nothing is asked and nothing changes; an answer
      that selects no task changes nothing; a selected task is removed exactly
      when the confirmation is affirmative, the others keeping their order. */
  function DeleteTask(tasks: seq<Task>, input: string, confirmation: Option<string>): (r: Update)
    ensures tasks == [] ==> r == Update(tasks, NoTasks)
    ensures tasks != [] && Selected(input, |tasks|).None? ==> r == Update(tasks, InvalidNumber)
    ensures tasks != [] && Selected(input, |tasks|).Some? ==>
      var k := Selected(input, |tasks|).value;
      if Confirmed(confirmation) then
        && r.note == Deleted
        && |r.tasks| == |tasks| - 1
        && (forall i :: 0 <= i < k ==> r.tasks[i] == tasks[i])
        && (forall i :: k <= i < |r.tasks| ==> r.tasks[i] == tasks[i + 1])
      else r == Update(tasks, Cancelled)
  {
    if tasks == [] then Update(tasks, NoTasks)
    else match Selected(input, |tasks|)
      case None => Update(tasks, InvalidNumber)
      case Some(k) =>
        if Confirmed(confirmation) then
          RemovedAt(tasks, k);
          Update(Without(tasks, k), Deleted)
        else Update(tasks, Cancelled)
  }

  /** A confirmed deletion loses exactly one copy of the selected record and
      nothing else. */
  lemma {:induction false} DeleteLosesOne(tasks: seq<Task>, input: string, confirmation: Option<string>)
    requires tasks != [] && Selected(input, |tasks|).Some? && Confirmed(confirmation)
    ensures var k := Selected(input, |tasks|).value;
      multiset(DeleteTask(tasks, input, confirmation).tasks) + multiset{tasks[k]} == multiset(tasks)
  {
    var k := Selected(input, |tasks|).value;
    assert DeleteTask(tasks, input, confirmation).tasks == tasks[..k] + tasks[k + 1..];
    RemovalMultiset(tasks, k);
  }

  lemma {:induction false} RemovalMultiset(tasks: seq<Task>, k: nat)
    requires k < |tasks|
    ensures multiset(tasks[..k] + tasks[k + 1..]) + multiset{tasks[k]} == multiset(tasks)
  {
    assert tasks == tasks[..k] + [tasks[k]] + tasks[k + 1..];
  }

  // ---------------------------------------------------------------------------
  // Keeping records well formed
  // ---------------------------------------------------------------------------

  /** Add only ever appends a record the registry could have produced. */
  lemma {:induction false} AddKeepsWellFormed(tasks: seq<Task>, title: string, description: string, id: string, now: string)
    requires AllWellFormed(tasks)
    ensures AllWellFormed(AddTask(tasks, title, description, id, now).tasks)
  {
    var added := AddTask(tasks, title, description, id, now).tasks;
    if TitleGiven(title) {
      var x := added[|tasks|];
      assert added == tasks + [x];
      TrimIdempotent(title);
      TrimIdempotent(description);
      assert WellFormed(x);
      AppendKeepsWellFormed(tasks, x);
    }
  }

  lemma {:induction false} AppendKeepsWellFormed(tasks: seq<Task>, x: Task)
    requires AllWellFormed(tasks) && WellFormed(x)
    ensures AllWellFormed(tasks + [x])
  {
    forall i | 0 <= i < |tasks| + 1 ensures WellFormed((tasks + [x])[i]) {
      if i < |tasks| {
        assert (tasks + [x])[i] == tasks[i];
      }
    }
  }

  lemma {:induction false} RemovalKeepsWellFormed(tasks: seq<Task>, k: nat)
    requires AllWellFormed(tasks) && k < |tasks|
    ensures AllWellFormed(tasks[..k] + tasks[k + 1..])
  {
    var r := tasks[..k] + tasks[k + 1..];
    forall i | 0 <= i < |r| ensures WellFormed(r[i]) {
      if i < k {
        assert r[i] == tasks[i];
      } else {
        assert r[i] == tasks[i + 1];
      }
    }
  }

  /** Completing sets the completion time together with the flag. */
  lemma {:induction false} CompleteKeepsWellFormed(tasks: seq<Task>, input: string, now: string)
    requires AllWellFormed(tasks)
    ensures AllWellFormed(CompleteTask(tasks, input, now).tasks)
  {
  }

  /** Deleting preserves the well-formedness of every record, since it keeps a
      subset of them. */
  lemma {:induction false} DeleteKeepsWellFormed(tasks: seq<Task>, input: string, confirmation: Option<string>)
    requires AllWellFormed(tasks)
    ensures AllWellFormed(DeleteTask(tasks, input, confirmation).tasks)
  {
    if tasks != [] && Selected(input, |tasks|).Some? && Confirmed(confirmation) {
      var k := Selected(input, |tasks|).value;
      assert DeleteTask(tasks, input, confirmation).tasks == tasks[..k] + tasks[k + 1..];
      RemovalKeepsWellFormed(tasks, k);
    }
  }


  // ---------------------------------------------------------------------------
  // showStatistics
  // ---------------------------------------------------------------------------

  /** `tasks.filter(t => t.completed).length`. */
  function CountCompleted(tasks: seq<Task>): (n: nat)
    ensures n <= |tasks|
  {
    if tasks == [] then 0
    else (if tasks[0].completed then 1 else 0) + CountCompleted(tasks[1..])
  }

  lemma {:induction false} CountCompletedAppend(a: seq<Task>, b: seq<Task>)
    ensures CountCompleted(a + b) == CountCompleted(a) + CountCompleted(b)
  {
    if a != [] {
      assert (a + b)[0] == a[0];
      assert (a + b)[1..] == a[1..] + b;
      CountCompletedAppend(a[1..], b);
    } else {
      assert a + b == b;
    }
  }

  /** `Math.round(completed / total * 100)` on exact rationals: the integer
      nearest to 100 * completed / total, halves rounded up. */
  function RoundPercent(completed: nat, total: nat): (p: int)
    requires total > 0
    ensures 2 * total * p - total <= 200 * completed < 2 * total * p + total
    ensures completed <= total ==> 0 <= p <= 100
  {
    var p := (200 * completed + total) / (2 * total);
    DivisionBounds(200 * completed + total, 2 * total);
    if completed <= total then ScaledBelow(2 * total, p, 101); p else p
  }

  /** Euclidean division bounds its quotient. */
  lemma {:induction false} DivisionBounds(q: nat, d: nat)
    requires d > 0
    ensures 0 <= q / d && d * (q / d) <= q < d * (q / d) + d
  {
  }

  /** Multiplying by a positive factor keeps the order. */
  lemma {:induction false} ScaledBelow(d: nat, a: int, b: int)
    requires d > 0 && d * a < d * b
    ensures a < b
  {
  }

  /** The figures showStatistics prints; `progress` is None where it prints the
      encouragement instead of a percentage. */
  datatype Stats = Stats(total: nat, completed: nat, pending: int, progress: Option<int>)

  /** showStatistics: the counts always add up, and a percentage between 0 and
      100, the rounded share of completed tasks, is shown exactly when there is a
      task. */
  function Statistics(tasks: seq<Task>): (s: Stats)
    ensures s.total == |tasks| && s.completed == CountCompleted(tasks)
    ensures s.completed <= s.total && s.pending == s.total - s.completed && s.pending >= 0
    ensures s.progress.None? <==> s.total == 0
    ensures s.progress.Some? ==> 0 <= s.progress.value <= 100 && s.progress.value == RoundPercent(s.completed, s.total)
  {
    var total := |tasks|;
    var completed := CountCompleted(tasks);
    Stats(total, completed, total - completed,
          if total > 0 then Some(RoundPercent(completed, total)) else None)
  }

  /** The completed count of a collection with position k replaced by `x`. */
  lemma {:induction false} CountCompletedReplace(tasks: seq<Task>, k: nat, x: Task)
    requires k < |tasks|
    ensures CountCompleted(tasks[..k] + [x] + tasks[k + 1..])
         == CountCompleted(tasks[..k]) + CountCompleted([x]) + CountCompleted(tasks[k + 1..])
  {
    CountCompletedAppend(tasks[..k] + [x], tasks[k + 1..]);
    CountCompletedAppend(tasks[..k], [x]);
  }

  /** Adding a task does not change the completed count. */
  lemma {:induction false} AddKeepsCount(tasks: seq<Task>, title: string, description: string, id: string, now: string)
    ensures CountCompleted(AddTask(tasks, title, description, id, now).tasks) == CountCompleted(tasks)
  {
    var added := AddTask(tasks, title, description, id, now).tasks;
    if TitleGiven(title) {
      assert added == tasks + [added[|tasks|]];
      CountCompletedAppend(tasks, [added[|tasks|]]);
    }
  }

  lemma {:induction false} CountMarkAt(tasks: seq<Task>, k: nat, now: string)
    requires k < |tasks|
    ensures CountCompleted(MarkAt(tasks, k, now))
         == CountCompleted(tasks) + (if tasks[k].completed then 0 else 1)
  {
    var m := MarkAt(tasks, k, now);
    var pre, post := tasks[..k], tasks[k + 1..];
    assert tasks == pre + [tasks[k]] + post;
    CountCompletedReplace(tasks, k, tasks[k]);
    var m' := pre + [m[k]] + post;
    assert m == m' by {
      forall i | 0 <= i < |m| ensures m[i] == m'[i] {
        if i < k { assert m'[i] == pre[i]; }
        else if i > k { assert m'[i] == post[i - k - 1]; }
      }
    }
    CountCompletedReplace(tasks, k, m[k]);
  }

  lemma {:induction false} CountWithout(tasks: seq<Task>, k: nat)
    requires k < |tasks|
    ensures CountCompleted(Without(tasks, k))
         == CountCompleted(tasks) - (if tasks[k].completed then 1 else 0)
  {
    assert tasks == tasks[..k] + [tasks[k]] + tasks[k + 1..];
    CountCompletedReplace(tasks, k, tasks[k]);
    CountCompletedAppend(tasks[..k], tasks[k + 1..]);
  }

  /** Completing raises the completed count by one exactly when it marks a task. */
  lemma {:induction false} CompleteCount(tasks: seq<Task>, input: string, now: string)
    ensures var r := CompleteTask(tasks, input, now);
      CountCompleted(r.tasks) == CountCompleted(tasks) + (if r.note == MarkedDone then 1 else 0)
  {
    if tasks != [] && Selected(input, |tasks|).Some? {
      CountMarkAt(tasks, Selected(input, |tasks|).value, now);
    }
  }

  /** Deleting lowers the completed count by one exactly when it removes a
      completed task. */
  lemma {:induction false} DeleteCount(tasks: seq<Task>, input: string, confirmation: Option<string>)
    ensures var r := DeleteTask(tasks, input, confirmation);
      CountCompleted(r.tasks) == CountCompleted(tasks)
        - (if r.note == Deleted && tasks[Selected(input, |tasks|).value].completed then 1 else 0)
  {
    if tasks != [] && Selected(input, |tasks|).Some? {
      CountWithout(tasks, Selected(input, |tasks|).value);
    }
  }

  /** The figures of two scenarios: no tasks, and four tasks of which one is
      completed. */
  lemma {:induction false} StatisticsExamples(a: Task, b: Task, c: Task, d: Task)
    requires a.completed && !b.completed && !c.completed && !d.completed
    ensures Statistics([]) == Stats(0, 0, 0, None)
    ensures Statistics([a, b, c, d]) == Stats(4, 1, 3, Some(25))
  {
    assert [a, b, c, d][1..] == [b, c, d];
    assert [b, c, d][1..] == [c, d];
    assert [c, d][1..] == [d];
    assert CountCompleted([d]) == 0;
    assert CountCompleted([c, d]) == 0;
    assert CountCompleted([b, c, d]) == 0;
    assert CountCompleted([a, b, c, d]) == 1;
    assert RoundPercent(1, 4) == 25;
  }

  // ---------------------------------------------------------------------------
  // showTasks
  // ---------------------------------------------------------------------------

  /** One entry of the task list: its display number, its completion marker, its
      title, the description line (only for a non-empty description) and the
      creation time. */
  datatype Row = Row(number: nat, marker: string, title: string, description: Option<string>, createdAt: string)

  /** What showTasks prints: the "list is empty" notice, or one row per task. */
  datatype Listing = EmptyNotice | Rows(rows: seq<Row>)

  function Marker(completed: bool): string {
    if completed then "[X]" else "[]"
  }

  /** The first line of a row: `${number}.${status} ${title}`. */
  function Heading(row: Row): string {
    Decimal(row.number) + ("." + row.marker + " " + row.title)
  }

  /** showTasks: the notice when there are no tasks, otherwise the tasks in
      order, task i shown with number i + 1, the marker "[X]" when completed and
      "[]" otherwise, and its description only when it is not empty. */
  function ShowTasks(tasks: seq<Task>): (l: Listing)
    ensures l.EmptyNotice? <==> tasks == []
    ensures l.Rows? ==> |l.rows| == |tasks|
    ensures l.Rows? ==> forall i :: 0 <= i < |tasks| ==>
      && l.rows[i].number == i + 1
      && l.rows[i].marker == (if tasks[i].completed then "[X]" else "[]")
      && l.rows[i].title == tasks[i].title
      && (l.rows[i].description.Some? <==> tasks[i].description != [])
      && (l.rows[i].description.Some? ==> l.rows[i].description.value == tasks[i].description)
      && l.rows[i].createdAt == tasks[i].createdAt
  {
    if tasks == [] then EmptyNotice
    else Rows(seq(|tasks|, i requires 0 <= i < |tasks| =>
      Row(i + 1, Marker(tasks[i].completed), tasks[i].title,
          if tasks[i].description != [] then Some(tasks[i].description) else None,
          tasks[i].createdAt)))
  }

  /** The display index is what the selection reads back: answering the "task
      number" prompt with the number of row i, or with its whole first line,
      selects task i. */
  lemma {:induction false} DisplayIndexSelects(tasks: seq<Task>, i: nat)
    requires i < |tasks|
    ensures ShowTasks(tasks).Rows?
    ensures var row := ShowTasks(tasks).rows[i];
      && Selected(Decimal(row.number), |tasks|) == Some(i)
      && Selected(Heading(row), |tasks|) == Some(i)
  {
    var row := ShowTasks(tasks).rows[i];
    assert row.number == i + 1;
    SelectsNumber(i + 1, [], |tasks|);
    assert Decimal(i + 1) + [] == Decimal(i + 1);
    SelectsNumber(i + 1, "." + row.marker + " " + row.title, |tasks|);
  }

  /** A number from 1 to `count`, written in decimal and followed by anything
      that is not a digit, selects the task at that display index. */
  lemma {:induction false} SelectsNumber(n: nat, rest: string, count: nat)
    requires 1 <= n <= count
    requires rest == [] || !IsDigit(rest[0], 10)
    ensures Selected(Decimal(n) + rest, count) == Some(n - 1)
  {
    ParseIntOfDecimal(n, rest);
  }
}
