# A verified model of the todo.js task manager

todo.js is an interactive command-line task manager. It loads a list of tasks
from `tasks.json`, shows a six-option menu in a loop, and saves the list after
every add, complete or delete. This project models its core in Dafny:

- the task registry: `addTask`, `completeTask` and `deleteTask` are pure
  functions from the current collection, plus what the user typed at their
  prompts, to an `Update`: the new collection and the message the operation ends
  with. `showStatistics` is a function from the collection to the four figures
  it prints (`Stats`);
- `showTasks`: the 1-based display numbers and the `[X]` / `[]` completion markers;
- the `main` loop: a two-state machine (Running, Stopped). It is written as an
  imperative method that consumes a sequence of input lines. It is proved equal
  to a recursive specification, `Run`.

The JavaScript library behaviour the code relies on is modelled explicitly in
module `JsStrings`:

- `String.prototype.trim`;
- `String.prototype.toLowerCase` for the letters that matter here;
- the global `parseInt` without a radix, as section 19.2.5 of ECMA-262 defines it.
  Leading white space is skipped, then one optional sign is read, then the longest
  run of digits. A leading "0x" or "0X" switches to hexadecimal. No digit at all
  gives NaN, which is `None` here.

Ids (`Date.now().toString()`) and timestamps (`new Date().toLocaleString()`) are
parameters. In the loop they come from a `clock` function of the round number.
Saving is recorded as an event that holds the collection that would be written.

Modules: `Wrappers` (Option), `JsStrings`, `Registry`, `Menu`.

Where one might expect otherwise, the model follows the code:

- Ids are not guaranteed to be unique. `Date.now()` can repeat and nothing checks
  it, so no uniqueness is claimed.
- Choices "2", "3" and "4" save even when the operation rejects its input (empty
  title, bad number, declined deletion). The save then writes the unchanged
  collection.
- For an already completed task, `completeTask` returns a new array holding the
  same records. As values, that is the same collection.

## Model

| member | source | states |
|---|---|---|
| `JsStrings.Trim` | todo.js:61 | the trimmed string neither starts nor ends with white space and is no longer than the input |
| `JsStrings.TrimEmptyIffSpaces` | todo.js:61-64 | `title.trim()` is empty exactly when every character of the title is white space |
| `JsStrings.TrimIsInfix` | todo.js:68-69 | trimming keeps a contiguous infix and drops only white space before and after it |
| `JsStrings.TrimIdempotent` | todo.js:68-69 | trimming an already trimmed title or description changes nothing |
| `JsStrings.ToLowerAt` | todo.js:137 | the modelled lower-casing keeps the length and maps every character on its own |
| `JsStrings.ParseIntNaN` | todo.js:89-91 | `parseInt` is NaN exactly when no decimal digit follows the white space and sign, or "0x" has no hex digit after it; a negative value needs a typed minus sign |
| `JsStrings.ParseInt` | todo.js:89 | no contract; characterised by `ParseIntNaN`, `ParseIntSkipsSpace`, `ParseIntOfDecimal` and `ParseIntOfNegative` |
| `JsStrings.ParseIntSkipsSpace` | todo.js:128 | leading white space does not change what `parseInt` reads |
| `JsStrings.ParseIntOfDecimal` | todo.js:89 | a decimal numeral followed by a non-digit reads back as its value; the trailing text is ignored |
| `JsStrings.ParseIntOfNegative` | todo.js:128-130 | a minus sign before a numeral gives the negated value |
| `JsStrings.ParseIntOfThree` | todo.js:89 | "3" reads as 3 |
| `JsStrings.ParseIntOfTwelveAbc` | todo.js:89 | "12abc" reads as 12 |
| `JsStrings.ParseIntOfFraction` | todo.js:89 | "2.5" reads as 2 |
| `JsStrings.ParseIntOfMinusOne` | todo.js:128 | "-1" reads as -1 |
| `JsStrings.Decimal` | todo.js:45-46 | the displayed number is a non-empty run of decimal digits with no leading zero |
| `JsStrings.DecimalValue` | todo.js:45-46 | the displayed numeral reads back as the number it shows |
| `Registry.AddTask` | todo.js:58-75 | an empty trimmed title leaves the collection unchanged, with the empty-title message; otherwise the old collection gains exactly one record at the end, holding the given id, the trimmed title and description, not completed, with no completion time and the given creation time |
| `Registry.AddAllAppends` | todo.js:58-75 | a series of adds with given titles adds one record per add, in order, and leaves the earlier records unchanged |
| `Registry.AddKeepsWellFormed` | todo.js:66-72 | add only appends a record with a non-empty trimmed title, a trimmed description and no completion time |
| `Registry.AddKeepsCount` | todo.js:70 | a new task is never completed, so adding leaves the completed count unchanged |
| `Registry.Selected` | todo.js:89-94 | an index answer selects position n-1 exactly when `parseInt` gives a number n with 1 <= n <= length; NaN, below 1 and above the length select nothing |
| `Registry.MarkAt` | todo.js:96-110 | the mapped collection has the same length and every element but the k-th is unchanged; the k-th is kept if already completed and marked otherwise |
| `Registry.CompleteTask` | todo.js:80-113 | the length is preserved; an empty collection or an invalid index leaves it unchanged; for a valid index only that element may change: left untouched if already completed, otherwise marked completed at `now` with every other field kept |
| `Registry.CompleteIdempotent` | todo.js:97-101 | completing the same index a second time, at any later time, changes nothing, so `completedAt` is not overwritten |
| `Registry.CompleteOnlyAdvances` | todo.js:98-107 | completion never reverts: a completed task stays as it was; any other task either stays or becomes the marked record |
| `Registry.CompleteKeepsWellFormed` | todo.js:103-107 | completion preserves well-formedness: the completion flag and the completion time are set together |
| `Registry.CompleteCount` | todo.js:96-110 | the completed count rises by exactly one when a task is marked, and is unchanged otherwise |
| `Registry.LowerCharTo` | todo.js:137 | the only letters that lower-case to y, e, s, д and а are those letters and their capitals |
| `Registry.Confirmed` | todo.js:137-139 | no contract; characterised by `ConfirmedSpellings` and `MissingAnswerDeclines` |
| `Registry.ConfirmedSpellings` | todo.js:136-139 | the deletion is confirmed exactly when the trimmed answer is "y", "yes" or "да", with any mix of upper and lower case |
| `Registry.MissingAnswerDeclines` | todo.js:137 | a missing answer is treated as the empty string and declines |
| `Registry.Without` | todo.js:140 | filtering out index k gives the elements before k followed by those after it; an index outside the collection filters out nothing |
| `Registry.RemovedAt` | todo.js:140 | removal shortens by one, keeps the elements before k in place and moves the later ones down by one |
| `Registry.DeleteTask` | todo.js:118-147 | an empty collection or an invalid index leaves it unchanged; for a valid index, a confirmed answer removes exactly that element and keeps the order of the rest (length minus one); any other answer leaves the collection unchanged |
| `Registry.DeleteLosesOne` | todo.js:139-142 | a confirmed deletion loses exactly one copy of the selected record and nothing else (as multisets) |
| `Registry.DeleteKeepsWellFormed` | todo.js:140 | deletion preserves well-formedness of every record |
| `Registry.DeleteCount` | todo.js:140 | the completed count drops by one exactly when a completed task is deleted |
| `Registry.CountCompleted` | todo.js:156 | the completed count is at most the number of tasks |
| `Registry.CountCompletedAppend` | todo.js:156 | the count of a concatenation is the sum of the counts |
| `Registry.RoundPercent` | todo.js:163-164 | the percentage is the integer nearest to 100·completed/total, with halves rounded up as `Math.round` does, and lies in 0..100 when completed <= total |
| `Registry.Statistics` | todo.js:152-168 | total is the length; completed is the completed count and is at most total; pending = total - completed >= 0; a percentage is produced exactly when total > 0 and is then the rounded share, between 0 and 100 |
| `Registry.StatisticsExamples` | todo.js:155-165 | no tasks gives 0/0/0 and no percentage; four tasks with one completed give 4/1/3 and 25 |
| `Registry.ShowTasks` | todo.js:37-53 | the empty-list notice appears exactly for no tasks; otherwise there is one row per task in order, numbered i+1, marked "[X]" if completed and "[]" otherwise, with the description line only when it is non-empty |
| `Registry.DisplayIndexSelects` | todo.js:43-46 | typing a row's displayed number, or its whole heading line, at the "task number" prompt selects that same task |
| `Menu.Dispatch` | todo.js:216-244 | a round that finishes reads at least the menu line and never more lines than there are |
| `Menu.DispatchShape` | todo.js:219-244 | only "6" stops; a round saves exactly for "2", "3" and "4", and only those can wait for more input; every other choice changes nothing; "3" and "4" on an empty collection ask nothing more and save it unchanged |
| `Menu.EmptyTitleSavesUnchanged` | todo.js:223-226 | "2" with an empty title reads no description and saves the unchanged collection |
| `Menu.DispatchRejects` | todo.js:227-234 | "3" or "4" on a non-empty collection with a number that selects nothing reads two lines and saves the collection unchanged; "4" with a declined confirmation reads three lines and saves it unchanged |
| `Menu.DispatchAdds` | todo.js:223-226 | "2" with a title reads a description and replaces the collection with the old one plus the new record, then saves |
| `Menu.DispatchCompletes` | todo.js:227-230 | "3" selecting task k replaces the collection with one where only position k may change, then saves |
| `Menu.DispatchDeletes` | todo.js:231-234 | "4" selecting task k with an affirmative answer replaces the collection with one where position k is removed, then saves |
| `Menu.RoundStatistics` | todo.js:235-237 | "5" changes nothing and does not save |
| `Menu.Run` | todo.js:215-245 | no contract; the specification of the loop, characterised by `RunMenu`, `StopsOnlyOnSix`, `RunKeepsSavedCurrent` and `RunKeepsWellFormed` |
| `Menu.RunMenu` | todo.js:209-246 | the `while (isRunning)` loop over the input lines ends in exactly the state, phase and list of saves that the specification `Run` gives |
| `Menu.StopsOnlyOnSix` | todo.js:215-241 | a run stops exactly when the last menu choice it reads is "6", and no earlier menu choice is "6"; titles, task numbers and answers are not menu choices |
| `Menu.SixAsTitleKeepsRunning` | todo.js:223-226 | "6" typed as a title is not a menu choice: the add goes through and the loop keeps running |
| `Menu.SixStops` | todo.js:238-241 | "6" at the menu prompt stops at once, with nothing changed and nothing saved |
| `Menu.RunKeepsSavedCurrent` | todo.js:223-234 | the collection changes only in rounds that save it, so after any save the last save holds the collection in memory; saves are only ever appended |
| `Menu.RunKeepsWellFormed` | todo.js:215-245 | a session that starts with well-formed records only ever holds well-formed records |
| `Menu.HalfDone` | todo.js:155-164 | two tasks with one completed give 2/1/1 and 50 per cent |
| `Menu.EndToEnd` | todo.js:209-246 | starting empty: add "Buy milk", complete 1, add "Call mom"/"urgent"; statistics then give 2/1/1/50; delete 1 with "y" and exit leaves only "Call mom", after four saves |

## Left out

- Loading and saving (`loadTasks`, `saveTasks`, todo.js:7-32): file I/O and JSON
  encoding are foreign calls. A save is an event in the session that holds the
  collection written. A load is the initial collection given to `RunMenu`.
- Reading input (`getUserinput`, todo.js:174-186): readline and promises. The
  answers are a sequence of lines. When the lines run out in the middle of a round,
  the model ends the run in the state it had reached. The program itself would keep
  waiting for input.
- `generateId` and `new Date().toLocaleString()`: the clock is a parameter. Id
  uniqueness is not claimed, because the code does not enforce it.
- The console text, `showMenu`, and the top-level `.catch` (todo.js:248).
- Registry.RoundPercent: uses exact rational rounding, not floating-point
  `Math.round((completed / total) * 100)`. These can differ by one where the exact
  value is a half and the floating-point product falls just below it; for example,
  29 of 200 gives exactly 14.5.
- JsStrings.ToLower: lower-cases only the ASCII letters and the basic Cyrillic
  capitals U+0400 to U+042F. No other character lower-cases to a letter of "y",
  "yes" or "да", so the confirmation verdict is unaffected.
- Strings are sequences of Unicode scalar values, not UTF-16 code units. Every
  character that `trim`, `toLowerCase` and `parseInt` inspect here is a single
  code unit.
- JsStrings.ParseInt: reads arbitrarily long digit runs exactly, whereas a
  JavaScript number loses precision beyond 2^53. Such numbers exceed any
  collection length either way, so the range check gives the same verdict. A
  negative zero reads as 0, which the range check rejects either way.
- Records loaded from a file with missing or non-string fields: every field here
  has a type.
