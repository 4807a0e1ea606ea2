# AdventOfCode 2020 in C#: the result engine and the puzzle solvers

This project models, in Dafny, the core of an Advent of Code 2020 solution
written in C#. The core has two halves.

The first half is a small value-or-error library:

- `Error`: a tree of errors. Each error has an id, messages, an optional
  offending value, nested errors and the place it was created. It renders
  itself as indented lines.
- `Result<T>`: either a `Success` or a `Failure`.
- The async plumbing that lets a method `await` a result. An awaited failure
  short-circuits the method, and the method's builder turns the
  short-circuit back into a failure.
- `Result.From` and `Validate.All`, which combine several results into one.
- `Flatten` and `Validate`, extension methods on collections and values.
- `Maybe<T>`, an optional value.

The second half is the puzzle solvers that use the library:

- Day 1: pairs and triples of expense entries that sum to 2020.
- Day 2: password policies, under two readings.
- Day 3: trees met on a toboggan slope over a repeating map.
- Day 5: binary-space-partitioned boarding passes, and the one free seat.
- Day 6: questions answered by anyone or by everyone in a group.
- Day 7: which bags can hold a shiny gold bag, and how many bags one holds.
- The `Day` record that every solver returns.

Exceptions are explicit. `Errors.Outcome<T>` is either `Returned(value)` or
`Threw(exception)`. C# `null` is `Option.None`, and only where the code can
receive it. An async method returning `Result<T>` is modelled as its body's
outcome passed through `Results.Settle`, the method builder's catch.

Every solver's steps are modelled as functions. The steps that the C# code
performs with loops over mutable state are also modelled as methods and
proved equal to those functions:

- Day 3's position walk;
- Day 5's seat halving and the search for the free seat;
- Day 6's letter tally over an `int[26]`;
- Day 7's dictionary of bags, built rule by rule;
- Day 1's pair and triple searches.

Each puzzle's published example is worked through as a lemma.

## Model

| member | source | states |
|---|---|---|
| Optional.Present | AdventOfCode/Common/Validate.cs:26 | keeps exactly the present entries, in order, and drops none of them |
| Optional.PresentAll | AdventOfCode/Common/Validate.cs:26 | nothing is dropped from a sequence with no null entry |
| Errors.Create | AdventOfCode/Common/Error.cs:31-47 | a null message throws `ArgumentNullException("message")`; a null entry in `nested` throws `NullReferenceException`, raised when the base constructor renders the tree; otherwise the error keeps id, messages, value and origin, and a missing `nested` becomes empty |
| Errors.Nest | AdventOfCode/Common/Error.cs:55-63 | the indexer refuses a null array and throws on a null entry; otherwise it appends the added errors to the nested ones and keeps id, messages, value and origin |
| Errors.ToString | AdventOfCode/Common/Error.cs:97-98 | the rendering at indentation 0 equals the preorder lines of the tree joined by newlines |
| Errors.ExceptionString | AdventOfCode/Common/Error.cs:126-130 | the exception message is the header "An Error was thrown as an exception", a new line, "  on <file>:line <line>", a new line, then the preorder lines of the tree at indentation 2 joined by newlines |
| Errors.RenderLines | AdventOfCode/Common/Error.cs:111-117 | the recursive rendering equals the reference definition: preorder lines joined with newlines, each nested error two columns deeper |
| Errors.LinesCount | AdventOfCode/Common/Error.cs:111-117 | the reference rendering has exactly one entry per error of the tree; an entry spans several text lines when its error has several messages or a message holds a newline |
| Errors.LinesIndented | AdventOfCode/Common/Error.cs:113-115 | every line of an error rendered at `indent` starts with `indent` spaces |
| Days.NewDay | AdventOfCode/Day.cs:12-17 | the day is built exactly when title, partA and partB are all present; otherwise it throws `ArgumentNullException` naming the first missing one, checked in that order |
| Days.ConstructorsAgree | AdventOfCode/Day.cs:21-26 | the tuple constructor succeeds exactly when the three-argument one does and builds the same day; only the parameter names in its exceptions differ ("A", "B") |
| Days.EqualsSpec | AdventOfCode/Day.cs:36-54 | `Equals` holds exactly for equal title and answers; `==` is `Equals` on a boxed day; `!=` is its negation; a day never equals null |
| Days.ToStringRoundTrip | AdventOfCode/Day.cs:71-72 | the three-line rendering reads back to the same day when title and first answer hold no newline |
| Days.ToStringInjective | AdventOfCode/Day.cs:71-72 | under the same condition, two days that render the same are equal |
| Results.Deconstruct | AdventOfCode/Common/Result.cs:26-43 | exactly one of value and error is present: the value for a success, the error for a failure |
| Results.TagRender | AdventOfCode/Common/Result.cs:308 | an error nested under an id renders as the line "[id]: " with the original error's rendering two columns deeper beneath it |
| Results.TagSize | AdventOfCode/Common/Result.cs:308 | nesting under an id adds exactly one error to the tree |
| Results.Await | AdventOfCode/Common/Result.cs:127-133 | awaiting returns exactly for a success, giving its value; a failure throws the short-circuit `ErrorException` carrying its error |
| Results.AwaitTagged | AdventOfCode/Common/Result.cs:304-310 | as `Await`, but the short-circuit carries the failure's error nested under the id |
| Results.ResultBuilder.constructor | AdventOfCode/Common/Result.cs:349-350 | a new builder holds no task |
| Results.ResultBuilder.SetResult | AdventOfCode/Common/Result.cs:408-409 | the builder's `Task` becomes a success holding the result |
| Results.ResultBuilder.SetException | AdventOfCode/Common/Result.cs:388-400 | a short-circuit becomes a failed `Task` holding its error; any other exception leaves the `Task` as it was and is handed back to be rethrown |
| Results.RunAsync | AdventOfCode/Common/Result.cs:342-459 | running a body through a fresh builder gives what `Settle` gives; the method ends normally exactly when the body returned or short-circuited |
| Results.BindSuccess | AdventOfCode/Common/Result.cs:127-131 | awaiting a success in an async method continues with its value |
| Results.BindFailure | AdventOfCode/Common/Result.cs:131 | awaiting a failure ends the method with that failure's error, whatever follows |
| Results.BindReturn | AdventOfCode/Common/Result.cs:388-409 | `return await r` gives r back, less a failure's offending value |
| Results.SettleRethrows | AdventOfCode/Common/Result.cs:395-399 | an exception other than the short-circuit leaves the async method unchanged |
| Results.From | AdventOfCode/Common/Result.cs:476-484 | a success is kept as it is; a failure becomes a failure whose error nests the original under the id |
| Results.FromAction | AdventOfCode/Common/Result.cs:468-471 | runs the action and tags its result as `From` does; an exception from the action passes through |
| Results.SlotTagged | AdventOfCode/Common/Result.cs:495-496 | the error half of a deconstructed, tagged slot is the slot's tagged error, or nothing for a success |
| Results.From2 | AdventOfCode/Common/Result.cs:491-501 | succeeds exactly when both slots do, with the pair of values; otherwise one failure without id or message nests the tagged error of each failing slot, in slot order |
| Results.From7 | AdventOfCode/Common/Result.cs:508-528 | as `From2`, over seven slots |
| Results.Values | AdventOfCode/Common/Result.cs:206 | for an all-successful collection, the values one for one and in order |
| Results.FailedErrors | AdventOfCode/Common/Result.cs:207-219 | the failing elements' errors are empty exactly when every element succeeded |
| Results.CollectSpec | AdventOfCode/Common/Result.cs:201-222 | the corrected fold is empty only on an empty collection; it gives every value in order when all succeed, and otherwise one failure nesting every failing element's error, in order |
| Results.AwaitAll | AdventOfCode/Common/Result.cs:199-230 | awaiting a collection (corrected) returns the values when all succeed; otherwise it short-circuits with one error, without id, message or value, nesting every failing element's error |
| Results.AwaitAllInAsync | AdventOfCode/Common/Result.cs:199-230 | inside an async method, awaiting a collection continues with all the values, or ends the method with a failure listing every failing element's error |
| Results.SettleAll | AdventOfCode/Common/Result.cs:199-230 | an async method that only awaits a collection never throws; it succeeds with each element's value in place exactly when every element succeeded, and otherwise fails listing the failing errors |
| Results.CollectAsWrittenFails | AdventOfCode/Common/Result.cs:210-215 | as written, once an element fails, the fold stays a failure |
| Results.AwaitAllAsWrittenEscapes | AdventOfCode/Common/Result.cs:227 | as written, a failing element makes the awaiter throw the bare error, which the builder does not catch: the async method throws instead of failing |
| Results.AwaitAllEmpty | AdventOfCode/Common/Result.cs:199-230 | as written, an empty collection folds to null and awaiting it throws `NullReferenceException`; corrected, it gives no values |
| Results.CollectDropsEarlierFailure | AdventOfCode/Common/Result.cs:210-213 | as written, a second failure replaces the first, so only the later error and its own nested errors survive; the corrected fold keeps both errors |
| Results.CollectDropsEarlierFailureExample | AdventOfCode/Common/Result.cs:210-213 | a concrete pair of failures whose first error is lost as written |
| Results.CollectAgreesOnSuccess | AdventOfCode/Common/Result.cs:201-226 | on a non-empty, all-successful collection, the awaiter as written and the corrected one agree |
| Successes.NewSuccess | AdventOfCode/Common/Success.cs:19-20 | a null value throws `ArgumentNullException("value")`; otherwise a success holding the value |
| Successes.ConversionRoundTrip | AdventOfCode/Common/Success.cs:28-38 | converting a value to a success and back gives the value |
| Successes.EqualsSpec | AdventOfCode/Common/Success.cs:56-59 | equal to a success exactly when the values are equal; never equal to null or to another kind of object; always equal to itself |
| Successes.EqualsHash | AdventOfCode/Common/Success.cs:64-65 | equal successes have equal hash codes |
| Failures.NewFailure | AdventOfCode/Common/Failure.cs:19-23 | a null error throws `ArgumentNullException("error")`; otherwise a failure holding the error and the offending value, which may be missing |
| Failures.FailureToString | AdventOfCode/Common/Failure.cs:28-29 | the error's preorder lines, joined by newlines |
| Failures.FailureToStringLines | AdventOfCode/Common/Failure.cs:28-29 | the rendering holds one entry per error of the failure's tree, and equals the error's own rendering |
| Validation.Failed | AdventOfCode/Common/Validate.cs:22-23 | a result's error as a list: empty exactly for a success |
| Validation.Gather | AdventOfCode/Common/Validate.cs:26 | as written: a null slot makes the error constructor throw `NullReferenceException`; otherwise one failure with the id, the message and the slots' errors |
| Validation.All2 | AdventOfCode/Common/Validate.cs:16-28 | corrected: succeeds exactly when both results do, with the pair of values; otherwise one failure with the id and message nesting exactly the failing results' errors, in order |
| Validation.All2AsWrittenSpec | AdventOfCode/Common/Validate.cs:16-28 | as written, one failing and one succeeding result throw `NullReferenceException`; when both fail or both succeed, it agrees with `All2` |
| Validation.All2AsWrittenExample | AdventOfCode/Common/Validate.cs:26 | a concrete failing check beside a passing one already throws as written |
| Validation.All7 | AdventOfCode/Common/Validate.cs:35-57 | as `All2`, over seven results |
| Validation.SlotFailed | AdventOfCode/Common/Validate.cs:46-52 | the error half of a deconstructed result, filtered for null, is that result's error list |
| Validation.All7AsWrittenMixed | AdventOfCode/Common/Validate.cs:54-55 | as written, seven results of which some but not all fail throw `NullReferenceException` |
| Validation.All7AsWrittenAllFail | AdventOfCode/Common/Validate.cs:54-55 | as written, seven failing results give what `All7` gives |
| Extensions.FlattenSpec | AdventOfCode/Common/Extensions.cs:39-64 | no result only for an empty collection (C# null); the values in order when all succeed; otherwise one error with the id, message and collection, nesting every failing element's error in order |
| Extensions.Add | AdventOfCode/Common/Extensions.cs:72-73 | the values with the new value appended at the end, the earlier values unchanged |
| Extensions.Succeed | AdventOfCode/Common/Extensions.cs:81-82 | awaiting `value.Success()` gives the value back |
| Extensions.FiringIsFilter | AdventOfCode/Common/Extensions.cs:96-99 | the messages are those of the validators whose predicate holds, in validator order; there are none exactly when no predicate holds |
| Extensions.Validate | AdventOfCode/Common/Extensions.cs:91-104 | the value unchanged exactly when no rule fires; otherwise one error with the id, the messages of exactly the firing rules in order, and the value |
| Extensions.ContainsAfterStore | AdventOfCode/Common/Extensions.cs:112-115 | after storing under a key, the check holds there exactly when the stored value is not null; other keys are unaffected |
| Maybes.Make | AdventOfCode/Common/Maybe.cs:12-18 | marking a null value as present throws `InvalidOperationException`; otherwise the maybe holds the value exactly when it is marked present |
| Maybes.FromNullable | AdventOfCode/Common/Maybe.cs:92-93 | the conversion never throws and holds a value exactly when it is not null |
| Maybes.SomeOf | AdventOfCode/Common/Maybe.cs:124-125 | `Some(v)` holds v; `Some(v, false)` is `None`; `Some(null, true)` throws `InvalidOperationException("Can not set 'null' as a value.")` |
| Maybes.EqualsSpec | AdventOfCode/Common/Maybe.cs:22-31 | equal to another maybe exactly when they hold the same thing; equal to a plain value exactly when it holds that value; equal to null exactly when empty; never equal to anything else |
| Maybes.NotEq | AdventOfCode/Common/Maybe.cs:108-109 | `!=` between maybes holds exactly for different maybes |
| Maybes.EqValue | AdventOfCode/Common/Maybe.cs:100-105 | `maybe == value` in either order holds exactly when the maybe holds that value |
| Maybes.NotEqValue | AdventOfCode/Common/Maybe.cs:112-117 | `maybe != value` in either order holds exactly when the maybe does not hold that value |
| Maybes.EqualsHash | AdventOfCode/Common/Maybe.cs:34-35 | equal maybes have equal hash codes; an empty maybe's hash is 0 |
| Maybes.ToString | AdventOfCode/Common/Maybe.cs:72-73 | the empty string for an empty maybe |
| Maybes.Select | AdventOfCode/Common/Maybe.cs:59-69 | a null callback throws `ArgumentNullException`, onSome checked first; otherwise the callback for the case at hand runs and its result is converted back to a maybe |
| Maybes.OnSomeSpec | AdventOfCode/Common/Maybe.cs:38-39 | maps a present value through the function, turns absence into the result type's default, and refuses a null function |
| Maybes.OnSomeAction | AdventOfCode/Common/Maybe.cs:41-49 | the action sees the value only when there is one, and the receiver comes back unchanged; calling a null action throws |
| Maybes.Unwrap | AdventOfCode/Common/Maybe.cs:76-80 | the value when present; otherwise `InvalidOperationException` |
| Maybes.UnwrapFromNullable | AdventOfCode/Common/Maybe.cs:76-93 | converting a non-null value and unwrapping it gives the value back |
| Maybes.Where | AdventOfCode/Common/Maybe.cs:82-89 | a null predicate throws; otherwise the maybe itself when it holds a value that passes, else `None` |
| Maybes.WhereIdempotent | AdventOfCode/Common/Maybe.cs:82-89 | filtering twice by the same predicate is filtering once |
| Maybes.WhereWhere | AdventOfCode/Common/Maybe.cs:82-89 | filtering by p and then by q is filtering by "p and q" |
| Day1.ParseLine | AdventOfCode/Day1.cs:37-40 | a line that parses as a number gives that number; any other line gives a failure whose id is the line's index and whose message names the line |
| Day1.ParseInput | AdventOfCode/Day1.cs:33-42 | corrected collection awaiter: the numbers one per line and in order exactly when every line parses; otherwise one failure listing every unparsable line's error, in order |
| Day1.ParseInputAsWrittenThrows | AdventOfCode/Day1.cs:37-41 | with the collection awaiter as written, one unparsable line makes `ParseInput` throw instead of failing |
| Day1.FirstIndex | AdventOfCode/Day1.cs:58-63 | the first index from `from` on that holds the target, or none when no later index does |
| Day1.FirstPair | AdventOfCode/Day1.cs:56-65 | the first pair in the order of the two nested loops whose entries sum to the target (an entry may pair with itself); no earlier pair does, and none means no pair at all |
| Day1.FirstTriple | AdventOfCode/Day1.cs:81-93 | the first triple in the order of the three nested loops whose entries sum to 2020; no earlier triple does, and none means no triple at all |
| Day1.RunPartA | AdventOfCode/Day1.cs:51-67 | the loops compute Part A: fewer than two numbers fail; otherwise the product of the first pair summing to 2020, or the failure "No two numbers add to 2020." |
| Day1.RunPartB | AdventOfCode/Day1.cs:76-95 | the loops compute Part B: fewer than three numbers fail; otherwise the product of the first triple summing to 2020, or the failure "No three numbers add to 2020." |
| Day1.PartASpec | AdventOfCode/Day1.cs:56-66 | with at least two numbers, Part A succeeds exactly when two entries sum to 2020, and its answer is the product of such a pair |
| Day1.PartBSpec | AdventOfCode/Day1.cs:81-94 | with at least three numbers, Part B succeeds exactly when three entries sum to 2020, and its answer is the product of such a triple |
| Day1.SamplePair | AdventOfCode.Test/Day1Tests.cs:11-16 | in the published report the first pair summing to 2020 is entries 0 and 3 |
| Day1.SampleTriple | AdventOfCode.Test/Day1Tests.cs:11-16 | in the published report the first triple summing to 2020 is entries 1, 2 and 4 |
| Day1.SamplePartA | AdventOfCode.Test/Day1Tests.cs:11-16 | part A of the published report is the product 1721 * 299 |
| Day1.SamplePartB | AdventOfCode.Test/Day1Tests.cs:11-16 | part B of the published report is the product 979 * 366 * 675 |
| Day1.Run | AdventOfCode/Day1.cs:16-25 | corrected collection awaiter: the day, titled "--- Day 1: Report Repair ---", exactly when the input parses and both parts succeed; an input that does not parse gives its failure nested under "ParseInput" |
| Day1.SampleAnswers | AdventOfCode.Test/Day1Tests.cs:11-16 | the published example gives 514579 and 241861950 |
| Day2.ParseNumber | AdventOfCode/Day2.cs:50-51 | `int.Parse` returns the number of a well-formed decimal and otherwise throws `FormatException` |
| Day2.ParseFormat | AdventOfCode/Day2.cs:36-54 | a line printed as "min-max letter: password" parses back to exactly that policy and password, when the letter is not a space and the password holds no ": " |
| Day2.SplitLine | AdventOfCode/Day2.cs:40 | a printed line splits at its first ": " into the policy and the password |
| Day2.SplitPolicy | AdventOfCode/Day2.cs:43 | a printed policy splits at its space into the bounds and the letter |
| Day2.SplitBounds | AdventOfCode/Day2.cs:46 | printed bounds split at their "-" into the two numbers |
| Day2.ParseInput | AdventOfCode/Day2.cs:32-55 | returns exactly when every line parses, with one entry per line, in order; otherwise it throws what the first bad line throws |
| Day2.CountAIsAccepted | AdventOfCode/Day2.cs:67-78 | Part A counts exactly the entries whose letter occurs between min and max times |
| Day2.CountAAppend | AdventOfCode/Day2.cs:71-77 | the count over two batches is the sum of their counts |
| Day2.At | AdventOfCode/Day2.cs:97-98 | reading a password position returns its character exactly when the index is inside the password, and otherwise throws `IndexOutOfRangeException` |
| Day2.CheckBWellFormed | AdventOfCode/Day2.cs:96-98 | for a policy with 1 <= min <= max, the check never throws and accepts exactly when the password is long enough and exactly one of the two 1-based positions holds the letter |
| Day2.CheckBThrows | AdventOfCode/Day2.cs:96-97 | a password long enough for max but a min below 1 makes the check read index -1 and throw |
| Day2.CountBIsAccepted | AdventOfCode/Day2.cs:91-101 | with well-formed policies, Part B never throws and counts exactly the entries it accepts |
| Day2.ParseAll | AdventOfCode/Day2.cs:32-55 | lines that each parse to an entry parse to those entries, in order |
| Day2.SampleParse | AdventOfCode.Test/Day2Tests.cs:11-16 | the three published lines parse to the three published entries |
| Day2.SampleValidA | AdventOfCode.Test/Day2Tests.cs:11-16 | under the count reading the first and third published passwords are valid and the second is not |
| Day2.SampleCountA | AdventOfCode.Test/Day2Tests.cs:11-16 | so two published passwords pass the count reading |
| Day2.CountAOfThree | AdventOfCode/Day2.cs:70-76 | the fold over three entries adds one for each accepted entry |
| Day2.SampleCountB | AdventOfCode.Test/Day2Tests.cs:11-16 | and one passes the position reading |
| Day2.RunCounts | AdventOfCode/Day2.cs:15-23 | a line that does not parse makes `Run` throw; with well-formed policies, the day holds the number of entries each reading accepts |
| Day2.SampleAnswers | AdventOfCode.Test/Day2Tests.cs:11-16 | the published example gives 2 and 1 |
| Day3.Step | AdventOfCode/Day3.cs:78-79 | `++` moves by exactly the slope and keeps the slope |
| Day3.StepPosition | AdventOfCode/Day3.cs:44-47 | k uses of `++` from (0, 0) reach k times the slope |
| Day3.PositionRightward | AdventOfCode/Day3.cs:44-47 | a slope that does not go left never gives a negative column |
| Day3.Remainder | AdventOfCode/Day3.cs:134 | C#'s `%`: the Euclidean remainder for a non-negative column, and a remainder in (-n, 0] for a negative one |
| Day3.HitIsTree | AdventOfCode/Day3.cs:131-134 | on a map whose rows are non-empty, the indexer never throws for a non-negative column, and it answers exactly whether the square, with the row repeated to the right, is a tree |
| Day3.HitRepeats | AdventOfCode/Day3.cs:134 | the map repeats to the right: moving one row-width further gives the same answer |
| Day3.HitNegativeColumn | AdventOfCode/Day3.cs:134 | a negative column inside the row's width throws `IndexOutOfRangeException`, although the same square one width to the right is readable |
| Day3.Hits | AdventOfCode/Day3.cs:43-50 | the trees counted in n steps are at most n |
| Day3.HitsAreTrees | AdventOfCode/Day3.cs:43-50 | on a map with non-empty rows and a slope that does not go left, the count never throws and equals the number of steps that land on a tree |
| Day3.HitsThrowPersists | AdventOfCode/Day3.cs:45-49 | once a step throws, counting further steps throws the same exception |
| Day3.CountHits | AdventOfCode/Day3.cs:43-50 | the `for` loop over Height steps with `toboggan++` computes the step-by-step count |
| Day3.ProductPrefixThrows | AdventOfCode/Day3.cs:41-53 | once a slope's count throws, the whole product throws the same exception |
| Day3.ProductAppend | AdventOfCode/Day3.cs:41-53 | the product over two lists of slopes is the product of the two products |
| Day3.ProductZero | AdventOfCode/Day3.cs:52 | a slope that meets no tree makes the whole product 0 |
| Day3.RunSlopes | AdventOfCode/Day3.cs:37-54 | the fold over the slopes, each with its own loop, computes the product of the per-slope counts |
| Day3.RunDay | AdventOfCode/Day3.cs:14-28 | `Run` returns exactly when both products return; the day is titled "--- Day 3: Toboggan Trajectory ---", part A prints the product for slope (3, 1) and part B the product for the five slopes (1, 1), (3, 1), (5, 1), (7, 1), (1, 2) |
| Day3.ProductWellFormed | AdventOfCode/Day3.cs:20-26 | on a map with non-empty rows, slopes that all go right never make the product throw, and it returns the product over the slopes of the number of steps down the map that land on a tree |
| Day3.RunWellFormed | AdventOfCode/Day3.cs:14-28 | on a map with non-empty rows, `Run` always returns a day: part A is the number of steps on slope (3, 1) that land on a tree, part B the product of those numbers over the five slopes |
| Day3.Run | AdventOfCode/Day3.cs:14-28 | the imperative `Run` returns what `RunDay` returns |
| Day3.SampleSlope31 | AdventOfCode.Test/Day3Tests.cs:12-18 | the published map meets 7 trees on slope (3, 1) |
| Day3.SampleSlope11 | AdventOfCode.Test/Day3Tests.cs:12-18 | the published map meets 2 trees on slope (1, 1) |
| Day3.SampleSlope51 | AdventOfCode.Test/Day3Tests.cs:12-18 | the published map meets 3 trees on slope (5, 1) |
| Day3.SampleSlope71 | AdventOfCode.Test/Day3Tests.cs:12-18 | the published map meets 4 trees on slope (7, 1) |
| Day3.SampleSlope12 | AdventOfCode.Test/Day3Tests.cs:12-18 | the published map meets 2 trees on slope (1, 2) |
| Day3.SamplePartB | AdventOfCode.Test/Day3Tests.cs:12-18 | the five published slopes meet 2, 7, 3, 4 and 2 trees, whose product is 336 |
| Day3.SampleAnswers | AdventOfCode.Test/Day3Tests.cs:12-18 | the published example gives 7 and 336 |
| Day5.IdDecomposes | AdventOfCode/Day5.cs:116-121 | a ticket's id is row * 8 + column, so with a column below 8 it gives back both |
| Day5.IdsDiffer | AdventOfCode/Day5.cs:116-121 | two seats share an id exactly when they share row and column |
| Day5.SeatNumberBound | AdventOfCode/Day5.cs:125-143 | n halvings name one of 2^n seats |
| Day5.ComputePosition | AdventOfCode/Day5.cs:125-143 | halving [0, 2^n - 1] once per letter ends on the seat the letters name in binary, front half first |
| Day5.RowBit | AdventOfCode/Day5.cs:84-91 | F and B are the only row letters, F keeps the front; any other letter fails with its index as id and the letter as value |
| Day5.ColumnBit | AdventOfCode/Day5.cs:93-100 | L and R are the only column letters, L keeps the left; any other letter fails with its index as id and the letter as value |
| Day5.RowResults | AdventOfCode/Day5.cs:84-91 | one result per upper-cased character among the first seven |
| Day5.ColumnResults | AdventOfCode/Day5.cs:93-100 | one result per upper-cased character among the last three |
| Day5.Gathered | AdventOfCode/Day5.cs:84-100 | corrected collection awaiter: the letter results succeed together exactly when each does, with their values in order; otherwise one failure under the part's name |
| Day5.LettersKnown | AdventOfCode/Day5.cs:82-100 | corrected collection awaiter: a ten-character ticket's letters all succeed exactly when it is well formed, and then they spell its halvings |
| Day5.Decode | AdventOfCode/Day5.cs:76-106 | corrected collection awaiter: `Ticket.From` succeeds exactly on well-formed tickets, with the seat they name; otherwise a failure labelled with the ticket's id over the length failure, or the "Rows" or the "Columns" failure listing every unknown letter |
| Day5.TicketFrom | AdventOfCode/Day5.cs:76-143 | corrected collection awaiter: the halving loop over the letters gives what `Decode` gives |
| Day5.RowsAsWrittenThrow | AdventOfCode/Common/Result.cs:224-228 | with the collection awaiter as written, one unknown row letter makes the awaiter throw |
| Day5.DecodeBounds | AdventOfCode/Day5.cs:76-121 | a decoded seat has row below 128, column below 8 and id below 1024 |
| Day5.Decoded | AdventOfCode/Day5.cs:29-36 | one decoded ticket per line, each with its own index as id |
| Day5.ParseInput | AdventOfCode/Day5.cs:29-36 | corrected collection awaiter: parsing succeeds exactly when every line is well formed, giving the tickets in order; otherwise the failure nests every failing line's error |
| Day5.DecodedSucceed | AdventOfCode/Day5.cs:29-36 | corrected collection awaiter: every line decodes exactly when every line is well formed |
| Day5.HighestId | AdventOfCode/Day5.cs:41-42 | the fold from 0 is at least every id and is 0 or one of them |
| Day5.LowestId | AdventOfCode/Day5.cs:56-59 | the least id of a non-empty list: at most every id and one of them |
| Day5.FirstGap | AdventOfCode/Day5.cs:62-65 | the first free seat in the range whose neighbours are both taken, or none when no seat in the range is such a gap |
| Day5.PartBSpec | AdventOfCode/Day5.cs:47-67 | a repeated id throws "Id has already been set."; otherwise an answer exists exactly when a gap lies between the lowest and the highest id, and it is the lowest gap |
| Day5.PartB | AdventOfCode/Day5.cs:47-67 | part B throws only "Id has already been set." or "Unable to find empty seat." |
| Day5.RunPartB | AdventOfCode/Day5.cs:47-67 | the imperative pass that records ids and bounds and then searches gives what `PartB` gives |
| Day5.ScanStep | AdventOfCode/Day5.cs:51-60 | one more ticket adds its id to the occupied set and updates the lowest and highest ids; a new id keeps the ids distinct |
| Day5.OccupiedStep | AdventOfCode/Day5.cs:51-55 | the occupied set of a list is that of its prefix plus the last id |
| Day5.DistinctStep | AdventOfCode/Day5.cs:51-55 | a last id not already occupied keeps the ids distinct |
| Day5.DuplicateFound | AdventOfCode/Day5.cs:53 | an id already occupied by an earlier ticket means the ids are not distinct |
| Day5.Run | AdventOfCode/Day5.cs:16-24 | corrected collection awaiter: a parse failure comes back tagged "Parse Input"; otherwise `Run` returns exactly when part B does, with both parts' answers |
| Day5.SeatNumberSteps | AdventOfCode/Day5.cs:125-143 | the seat named by halvings is reached by doubling and adding one halving at a time |
| Day5.SampleTicket | AdventOfCode/Day5.cs:76-121 | a well-formed ticket decodes to the seat its row and column halvings name |
| Day5.SampleTicket1 | AdventOfCode.Test/Day5Tests.cs:16-19 | FBFBBFFRLR is row 44, column 5, id 357 |
| Day5.SampleTicket2 | AdventOfCode.Test/Day5Tests.cs:21-24 | BFFFBBFRRR is row 70, column 7, id 567 |
| Day5.SampleTicket3 | AdventOfCode.Test/Day5Tests.cs:26-29 | FFFBBBFRRR is row 14, column 7, id 119 |
| Day5.SampleTicket4 | AdventOfCode.Test/Day5Tests.cs:31-34 | BBFFBBFRLL is row 102, column 4, id 820 |
| Day5.ParseAll | AdventOfCode/Day5.cs:29-36 | lines that each decode parse to those tickets in order |
| Day5.SampleLine | AdventOfCode.Test/Day5Tests.cs:40-43 | each published pass decodes under its own index |
| Day5.SampleParse | AdventOfCode.Test/Day5Tests.cs:40-43 | the four published passes parse to the four published seats |
| Day5.SamplePartA | AdventOfCode.Test/Day5Tests.cs:40-43 | the highest id among them is 820 |
| Day5.SamplePartB | AdventOfCode/Day5.cs:47-67 | among the four published seats there is no gap, so part B throws "Unable to find empty seat." |
| Day5.SampleRun | AdventOfCode/Day5.cs:16-24 | so `Run` on the four published passes throws |
| Day6.ParseInput | AdventOfCode/Day6.cs:27-44 | the in-place fold over the lines builds exactly the groups `Grouped` describes |
| Day6.GroupedCount | AdventOfCode/Day6.cs:31-41 | k empty lines give k + 1 groups |
| Day6.GroupedConcat | AdventOfCode/Day6.cs:31-41 | the groups laid end to end are exactly the non-empty lines in input order |
| Day6.GroupedSingle | AdventOfCode/Day6.cs:31-41 | lines with no empty one form a single group |
| Day6.GroupedStep | AdventOfCode/Day6.cs:33-40 | an empty line opens a new group; any other line joins the last group |
| Day6.GroupedSplit | AdventOfCode/Day6.cs:31-41 | the groups of a, an empty line, then b are the groups of a followed by the groups of b |
| Day6.GroupedFirst | AdventOfCode/Day6.cs:31-41 | a group of non-empty lines, an empty line, then the rest, is that group followed by the groups of the rest |
| Day6.Letter | AdventOfCode/Day6.cs:58 | index k of the tally is the letter with code 97 + k |
| Day6.CountsSnoc | AdventOfCode/Day6.cs:58-61 | one more letter adds one to its own count and leaves the other 25 |
| Day6.Tally | AdventOfCode/Day6.cs:55-64 | the tally loops over a group give the counts `Tallied` describes, or throw |
| Day6.TallyLine | AdventOfCode/Day6.cs:58-61 | the loop over one line succeeds exactly when the line is all lower-case letters, and then the array holds the counts of everything seen so far |
| Day6.LetterOutside | AdventOfCode/Day6.cs:58-61 | a line with a character outside a..z makes its group's text fall outside a..z |
| Day6.CountQuestions | AdventOfCode/Day6.cs:67-71 | the fold over the first n questions counts at most n |
| Day6.CountQuestionsCardinality | AdventOfCode/Day6.cs:67-71 | the fold counts exactly the set of questions that count |
| Day6.InConcat | AdventOfCode/Day6.cs:55-64 | a letter is in the group's text exactly when it is in one of its lines |
| Day6.AnyoneAnswered | AdventOfCode/Day6.cs:69-71 | a letter's tally is above 0 exactly when some person in the group answered it |
| Day6.AtMostOnce | AdventOfCode/Day6.cs:58-61 | a line without repeats holds a letter at most once |
| Day6.OccurrencesPerLine | AdventOfCode/Day6.cs:55-64 | without repeats within a line, a letter's tally is at most the group size, and equal to it exactly when every line has it |
| Day6.EveryoneAnswered | AdventOfCode/Day6.cs:69-70 | without repeats within a line, a letter's tally equals the group size exactly when everyone in the group answered it |
| Day6.CountQuestionsAll | AdventOfCode/Day6.cs:67-71 | when every question counts, the fold counts n |
| Day6.EmptyGroup | AdventOfCode/Day6.cs:31-41 | an empty group has an all-zero tally, so it adds 26 to the "everyone" count and nothing to the "anyone" count |
| Day6.GroupCount | AdventOfCode/Day6.cs:53-71 | a group adds at most 26 |
| Day6.Total | AdventOfCode/Day6.cs:52-72 | the total over the groups is at most 26 per group |
| Day6.TotalThrows | AdventOfCode/Day6.cs:58-61 | the total throws exactly when some group holds a character outside a..z, and then it is an index out of range |
| Day6.TotalPrefixThrows | AdventOfCode/Day6.cs:52-72 | once a prefix of the groups throws, the whole fold throws the same |
| Day6.RunPart | AdventOfCode/Day6.cs:47-73 | the imperative tally-and-add over the groups gives what `Answer` gives |
| Day6.RunDay | AdventOfCode/Day6.cs:14-22 | `Run` returns a day titled "--- Day 6: Custom Customs ---" exactly when every group is all lower-case letters |
| Day6.Run | AdventOfCode/Day6.cs:14-22 | the imperative `Run` gives what `RunDay` gives |
| Day6.GroupCountIsQuestions | AdventOfCode/Day6.cs:53-71 | for a group of lower-case letters with no letter twice on a line, the count is the number of questions anyone in the group answered, or, for part B, that everyone answered |
| Day6.EmptyGroupQuestions | AdventOfCode/Day6.cs:53-71 | an empty group has all 26 questions answered by everyone and none by anyone |
| Day6.TotalIsQuestions | AdventOfCode/Day6.cs:52-72 | over such groups the total is the sum, group by group, of the questions anyone (or everyone) answered |
| Day6.RunAnswers | AdventOfCode/Day6.cs:14-22 | when every group is such a group, `Run` returns the day whose part A is the sum over the groups of the questions anyone answered and part B the sum of the questions everyone answered |
| Day6.SampleGroupedFrom | AdventOfCode/Day6.cs:31-41 | a sample group, an empty line and the rest group as that group and the rest's groups |
| Day6.SampleGrouped | AdventOfCode.Test/Day6Tests.cs:13-16 | the published example forms the five published groups |
| Day6.CountQuestionsBySet | AdventOfCode/Day6.cs:67-71 | the count over 26 questions is the size of the set of questions that count |
| Day6.GroupCountBySets | AdventOfCode/Day6.cs:53-71 | a group of letters adds the number of questions anyone answered, or the number everyone answered |
| Day6.TotalOfFive | AdventOfCode/Day6.cs:52-72 | the fold over five groups adds their five counts |
| Day6.TotalStep | AdventOfCode/Day6.cs:52-72 | one more group adds its count to the running total |
| Day6.SampleGroup0 | AdventOfCode.Test/Day6Tests.cs:13-16 | the group "abc" adds 3 and 3 |
| Day6.SampleGroup1 | AdventOfCode.Test/Day6Tests.cs:13-16 | the group "a", "b", "c" adds 3 and 0 |
| Day6.SampleGroup2 | AdventOfCode.Test/Day6Tests.cs:13-16 | the group "ab", "ac" adds 3 and 1 |
| Day6.SampleGroup3 | AdventOfCode.Test/Day6Tests.cs:13-16 | the group of four "a" lines adds 1 and 1 |
| Day6.SampleGroup4 | AdventOfCode.Test/Day6Tests.cs:13-16 | the group "b" adds 1 and 1 |
| Day6.SampleAnswers | AdventOfCode.Test/Day6Tests.cs:13-16 | the published example gives 11 and 6 |
| Day7.Clean | AdventOfCode/Day7.cs:33 | removing "bags", "bag" and "." never lengthens a line and leaves no "." |
| Day7.Gather | AdventOfCode/Day7.cs:37-46 | enumerating the mapped items gives one value per item |
| Day7.GatherAll | AdventOfCode/Day7.cs:37-51 | items that each map to a value gather to exactly those values |
| Day7.GatherThrows | AdventOfCode/Day7.cs:37-51 | the first item whose mapping throws decides the exception |
| Day7.GatherEach | AdventOfCode/Day7.cs:37-51 | a gathered list holds each item's value at its own index |
| Day7.Positive | AdventOfCode/Day7.cs:46 | the filter keeps only positive counts and never adds items |
| Day7.ReadRule | AdventOfCode/Day7.cs:34-46 | every content of a rule read from a line has a positive count |
| Day7.ParseItemShape | AdventOfCode/Day7.cs:39-45 | an item " <count> <name> " reads back as its count and name |
| Day7.NoOther | AdventOfCode/Day7.cs:40-46 | "no other" reads as count 0 and the filter drops it, so such a bag holds nothing |
| Day7.CleanPlain | AdventOfCode/Day7.cs:33 | text without "." or "bag" followed by a space survives cleaning |
| Day7.CleanCore | AdventOfCode/Day7.cs:33 | an item's count and name survive cleaning |
| Day7.CleanWord | AdventOfCode/Day7.cs:33 | cleaning removes a "bag" or "bags" that follows a space |
| Day7.CleanItem | AdventOfCode/Day7.cs:33 | cleaning an item leaves its count and name and drops its " bag" or " bags" |
| Day7.SplitItems | AdventOfCode/Day7.cs:37 | splitting the cleaned contents at "," gives one piece per content |
| Day7.PositivePairs | AdventOfCode/Day7.cs:46 | filtering contents that all have positive counts gives them back unchanged |
| Day7.CleanLine | AdventOfCode/Day7.cs:33 | cleaning a written rule leaves its key, "contain" and the contents without "bag", "bags" or "." |
| Day7.ContainSplit | AdventOfCode/Day7.cs:34 | only the one "contain" of a cleaned rule cuts it, into the key part and the contents part |
| Day7.ItemsRead | AdventOfCode/Day7.cs:37-46 | the pieces after "contain" read back as the rule's contents |
| Day7.ReadBack | AdventOfCode/Day7.cs:34-46 | a cleaned rule reads back as the rule |
| Day7.ParseFormat | AdventOfCode/Day7.cs:33-46 | reading a rule written in the puzzle's format gives the rule back |
| Day7.Ensure | AdventOfCode/Day7.cs:48 | an absent name gets an empty bag; present entries are unchanged |
| Day7.AddContent | AdventOfCode/Day7.cs:53-57 | one content gives the child an entry and adds no other key |
| Day7.AddContents | AdventOfCode/Day7.cs:51-58 | the inner loop keeps the key and every earlier entry |
| Day7.AddContentsKeys | AdventOfCode/Day7.cs:51-58 | the inner loop gives an entry to each child and to nothing else |
| Day7.AddRuleTo | AdventOfCode/Day7.cs:48-58 | the imperative body for one line makes the change `AddRule` describes |
| Day7.AddContentTo | AdventOfCode/Day7.cs:53-57 | the imperative inner-loop body makes the change `AddContent` describes |
| Day7.ParseInput | AdventOfCode/Day7.cs:28-62 | the imperative loop over the lines gives what `Parsed` gives, the graph or the first exception |
| Day7.AddContentShape | AdventOfCode/Day7.cs:53-57 | one content adds the child to the key's bag unless the key already names it, adds the key to the child's parents unless present, and changes nothing else |
| Day7.AddContentValid | AdventOfCode/Day7.cs:53-57 | adding a content with a positive count keeps the graph valid: links both ways, no repeated child or parent, and every name has an entry |
| Day7.StillLinked | AdventOfCode/Day7.cs:48-58 | a link stays once made |
| Day7.LinksStay | AdventOfCode/Day7.cs:48-58 | links made for a rule stay as the graph grows |
| Day7.AddContentsLinks | AdventOfCode/Day7.cs:51-58 | after a rule's contents are added, the key names each as a child and each lists the key as a parent |
| Day7.EnsureValid | AdventOfCode/Day7.cs:48 | adding an empty entry keeps the graph valid and only adds to it |
| Day7.AddRuleValid | AdventOfCode/Day7.cs:48-58 | each rule keeps the graph valid, only adds to it, and leaves its key linked to each of its contents |
| Day7.KeepLinks | AdventOfCode/Day7.cs:31-59 | the links of the earlier rules survive each later rule |
| Day7.BuildValid | AdventOfCode/Day7.cs:28-62 | the graph built from rules with positive counts is valid and holds every rule's links |
| Day7.BuildListed | AdventOfCode/Day7.cs:48-58 | every child the built graph records for a colour is a content some rule with that colour lists |
| Day7.BuildMentions | AdventOfCode/Day7.cs:48-53 | every colour with an entry is some rule's colour or a colour some rule lists |
| Day7.BuildUnkeyed | AdventOfCode/Day7.cs:48-58 | a colour no rule is about has no children |
| Day7.BuildExact | AdventOfCode/Day7.cs:28-62 | when no colour has two rules and no rule lists a colour twice, each rule's colour has an entry whose children are exactly the rule's contents, in order |
| Day7.Written | AdventOfCode/Day7.cs:31 | the lines of a list of rules, one per rule, each in the puzzle's format |
| Day7.ParsedWritten | AdventOfCode/Day7.cs:28-62 | reading the written lines of rules the format can carry builds the same graph as the rules themselves |
| Day7.GatherKeeps | AdventOfCode/Day7.cs:37-51 | every gathered value satisfies what every mapped value does |
| Day7.GatherCounted | AdventOfCode/Day7.cs:37-46 | rules read from lines carry only positive counts |
| Day7.ParsedValid | AdventOfCode/Day7.cs:28-62 | every graph `ParseInput` returns is valid |
| Day7.ParsedRule | AdventOfCode/Day7.cs:28-62 | each line's rule is in the returned graph: its key has an entry linked both ways to each bag the line lists |
| Day7.Recurse | AdventOfCode/Day7.cs:71-79 | the imperative walk up the parents adds to the ancestor set exactly what `Visit` finds, or throws what it throws |
| Day7.RunPartA | AdventOfCode/Day7.cs:67-85 | the imperative part A gives what `PartA` gives: an unknown start bag throws "Bag does not exist", otherwise the number of ancestors |
| Day7.VisitClosed | AdventOfCode/Day7.cs:71-79 | what the walk finds holds the start bag's parents, and every bag that can hold a found bag is found |
| Day7.VisitLeast | AdventOfCode/Day7.cs:71-79 | what the walk finds lies inside every upward-closed set holding the start bag's parents, so it finds only bags that can hold the start bag |
| Day7.VisitReaches | AdventOfCode/Day7.cs:71-79 | every bag the walk finds was itself visited, deeper on the stack, and that visit returned |
| Day7.VisitNoCycle | AdventOfCode/Day7.cs:71-79 | when the walk returns, the start bag is not among its own ancestors: a bag that can hold itself exhausts any stack |
| Day7.VisitRanked | AdventOfCode/Day7.cs:71-79 | on a graph without cycles whose parents all have entries, the walk returns once the stack is deep enough |
| Day7.VisitDeeper | AdventOfCode/Day7.cs:71-79 | once the walk fits on the stack, a deeper stack changes nothing |
| Day7.ParentListed | AdventOfCode/Day7.cs:57 | a parent recorded for a colour is the colour of a rule listing it |
| Day7.HoldersIn | AdventOfCode/Day7.cs:57 | the parents of a colour are among any set holding every colour whose rule lists it |
| Day7.UpwardBuild | AdventOfCode/Day7.cs:57 | a set holding the colour of every rule that lists one of its members is closed upwards in the built graph |
| Day7.RankedBuild | AdventOfCode/Day7.cs:48-58 | ranks that grow from each rule's colour to the colours it lists grow from each bag to its parents in the built graph |
| Day7.InnerCounts | AdventOfCode/Day7.cs:94-96 | with positive counts a bag holds at least one bag per child, and none exactly when it has no children |
| Day7.InnerRanked | AdventOfCode/Day7.cs:94-96 | on a graph without cycles whose children all have entries, part B's recursion returns once the stack is deep enough |
| Day7.InnerSelfThrows | AdventOfCode/Day7.cs:94-96 | a bag that holds a bag of its own colour never gets an answer |
| Day7.SumChildrenThrows | AdventOfCode/Day7.cs:95-96 | a child whose count throws makes the sum throw |
| Day7.InnerUnpacked | AdventOfCode/Day7.cs:94-96 | part B's count is the length of the independent unpacking that lists each bag inside, copied once per unit of its count, and throws exactly when the unpacking does |
| Day7.SumChildrenUnpacked | AdventOfCode/Day7.cs:95-96 | the sum over children is the length of the unpacked children: each child once per unit of its count, followed as often by what it holds |
| Day7.ExampleBuilt | AdventOfCode/Day7.cs:28-62 | the three example rules build the expected graph |
| Day7.ExampleAbove | AdventOfCode/Day7.cs:67-85 | in the example graph exactly one bag can hold the shiny gold bag |
| Day7.ExampleBelow | AdventOfCode/Day7.cs:90-99 | in the example graph the shiny gold bag holds three bags |
| Day7.ExampleAnswers | AdventOfCode/Day7.cs:15-23 | the example answers are "1" and "3" |
| Day7.RunDay | AdventOfCode/Day7.cs:15-23 | `Run` returns only a day titled "--- Day 7: Handy Haversacks ---" on a graph holding the shiny gold bag; part A is the number of bags the upward walk finds and part B the count the downward recursion returns, and it returns exactly when both recursions do; without the shiny gold bag, "Bag does not exist" is thrown |
| Day7.Run | AdventOfCode/Day7.cs:15-23 | the imperative `Run` gives what `RunDay` gives |
| Day7Examples.FirstPartA | AdventOfCode.Test/Day7Tests.cs:16-18 | in the first published example, over any distinct colours, the upward walk from shiny gold finds exactly bright white, muted yellow, light red and dark orange |
| Day7Examples.FirstPartB | AdventOfCode.Test/Day7Tests.cs:16-18 | in the first published example a shiny gold bag holds 32 bags |
| Day7Examples.FirstAnswersOver | AdventOfCode.Test/Day7Tests.cs:16-18 | reading the first example's written rules and answering gives the day ("4", "32") for any colours the format can carry, once the stack has room for three calls |
| Day7Examples.FirstAnswers | AdventOfCode.Test/Day7Tests.cs:16-18 | with the puzzle's own colours, `Run` on the first example gives "--- Day 7: Handy Haversacks ---", "4", "32" |
| Day7Examples.SecondPartA | AdventOfCode.Test/Day7Tests.cs:20-22 | in the second published example no bag can hold a shiny gold bag: the walk finds nothing |
| Day7Examples.SecondPartB | AdventOfCode.Test/Day7Tests.cs:20-22 | in the second published example a shiny gold bag holds 126 bags: 2, 6, 14, 30, 62, 126 up the chain |
| Day7Examples.SecondAnswersOver | AdventOfCode.Test/Day7Tests.cs:20-22 | reading the second example's written rules and answering gives the day ("0", "126") for any colours the format can carry, once the stack has room for seven calls |
| Day7Examples.SecondAnswers | AdventOfCode.Test/Day7Tests.cs:20-22 | with the puzzle's own colours, `Run` on the second example gives "--- Day 7: Handy Haversacks ---", "0", "126" |
| Strings.Pad | AdventOfCode/Common/Error.cs:113 | `"".PadLeft(n)` is n spaces |
| Strings.PadAdd | AdventOfCode/Common/Error.cs:113-115 | padding by a and then by b is padding by a + b, which nested lines rely on |
| Strings.JoinAppend | AdventOfCode/Common/Error.cs:115 | joining two non-empty lists is joining each, with the separator between |
| Strings.IndexOf | AdventOfCode/Day7.cs:34 | the first place from a start where the separator occurs, or none when it occurs nowhere after it |
| Strings.JoinSplit | AdventOfCode/Day7.cs:34 | splitting at a separator loses nothing: joining the pieces with it gives the text back |
| Strings.SplitPiecesFree | AdventOfCode/Day7.cs:34 | no piece of a split holds the separator |
| Strings.SplitAt | AdventOfCode/Day7.cs:34 | the first occurrence of the separator ends the first piece |
| Strings.SplitOnce | AdventOfCode/Day7.cs:39 | a split into at most two pieces cuts at the first separator, or gives the text whole when it has none |
| Strings.TrimStart | AdventOfCode/Day7.cs:36 | trimming the start drops exactly the leading white space |
| Strings.TrimEnd | AdventOfCode/Day7.cs:36 | trimming the end drops exactly the trailing white space |
| Strings.TrimPadded | AdventOfCode/Day7.cs:36 | trimming white space around a core gives the core |
| Strings.UpperCase | AdventOfCode/Day5.cs:85 | upper-casing maps each character, a..z to A..Z and the rest unchanged |
| Strings.Occurrences | AdventOfCode/Day2.cs:72 | a character occurs at most |s| times, and zero times exactly when it is absent |
| Strings.ParseInt | AdventOfCode/Day2.cs:50-51 | text parses exactly when it is a run of decimal digits, or a sign followed by one; the value is the digits' value, negated after "-"; anything else, the empty text included, does not parse |
| Strings.ParseIntToString | AdventOfCode/Day2.cs:50-51 | printing an integer and parsing it back gives the integer |
| Strings.NatToStringValue | AdventOfCode/Day6.cs:72 | a number printed in decimal reads back as the number |

Members without a row are proof helpers that model nothing of their own:
the `Arithmetic` lemmas (facts about products, division and regrouped sums
that the Day 3 and Day 5 proofs use), lemmas about sequences and strings,
the per-colour and per-rule steps of the Day 7 examples, and
`Successes.ToString`, which hands the value to its `show` parameter.

## Left out

- Reading input files (`ReadAllLines`), `Program.cs` and the console output are I/O and are not modelled; every solver takes its lines as a parameter.
- Day 4 is a stub in the repository and is not modelled.
- `[CallerFilePath]`, `[CallerLineNumber]` and `[CallerMemberName]` are compiler-supplied; errors created inside the model carry the repository path and line of their call site as a fixed `Origin`.
- The scheduling behind `async`/`await` (continuations, threads, `ConfigureAwait`) is not modelled; an async method is its body's outcome caught by the builder, which is all a caller of these synchronous completions observes.
- Hash-code arithmetic (`Day.GetHashCode`'s unchecked `* 397 ^ ...`, string hashes) is not modelled: element hashes are a parameter, and only "equal values hash equally" is stated.
- Maybes.ToString: only the empty case is stated; with a value the text is the value's own `ToString`, passed in as a parameter.
- Maybes.HashCode: only the empty case (0) is stated; with a value the hash is the value's own hash, a parameter.
- Integer widths are not modelled: Day 1's `decimal`, Day 3's `int` count and `long` product, Day 5's `int` ids and Day 7's checked `Sum` are unbounded integers, so an `OverflowException` from Day 7's part B on a huge graph is not modelled.
- Day1.ParseLine: `decimal.TryParse` is modelled on whole numbers with an optional sign; fractions, surrounding white space, group separators, a trailing sign ("12-", which `NumberStyles.Number` accepts) and culture-specific formats are read as unparsable.
- Strings.ParseInt: `int.Parse`'s acceptance of surrounding white space and its `OverflowException` are not modelled; a leading `+` or `-` is.
- `Regex.Replace` in Day 7 is modelled by a left-to-right scan for the alternatives "bags", "bag" and ".", which is what the .NET engine does for that pattern; regular expressions in general are not modelled.
- Errors.Create: the source's only `Error` constructor (Error.cs:31-47) takes `(message, id, nested)`, while its callers (Extensions.cs:29 and 102, Validate.cs:26, Result.cs:308) pass an id, one or more messages and a value. The model follows the callers: an error has an id, a list of messages, an optional value and nested errors. Three things rest on that reading: the "[id]: " line of `Results.TagRender`, the layout of several messages in `Errors.MessageText`, and the choice that `Results.From2` and `Results.From7` drop the null entry of a passing slot (Result.cs:498), whereas `Validate.All` as written throws on the same null entry (Validate.cs:26, `Validation.All7AsWrittenMixed`).
- Failures.NewFailure: the source's only `Failure` constructor (Failure.cs:19-23) takes `(error, value)`, while Day1.cs:39, 54, 66, 79 and 94 and Day5.cs:82, 90 and 99 call `(id, message[, value])` and `(message:, value:)` forms it does not declare. The model reads each such call as a failure holding `Error(id, [message], value, [], origin)` and no value of its own, so the offending value travels on the error, and it is that error, value included, which a short-circuit (`Results.BindReturn`) carries on.
- Strings.TrimStart, Strings.TrimEnd: white space is ' ', '\t', '\n' and '\r' only; .NET's `Trim` also removes '\v', '\f', U+00A0 and the other Unicode white-space characters, which the model keeps.
- Strings.UpperCase: only the ASCII letters a..z are upper-cased; .NET's culture-sensitive `ToUpper` also maps other letters (such as 'é' to 'É'), so a Day 5 pass with such a letter carries a different error value in the source.
- A `null` string inside a collection (a null line, a null password) is not modelled; only the nulls the code tests for are.
- Day5.ComputePosition: requires a non-empty list of halvings; every call in the source passes seven or three.
- Day 7's `Bag` objects are modelled as values in a `map`; the in-place sharing between the dictionary and the local `bag` and `child` variables is reproduced by re-reading the entry between the two updates, not by references.
- `HashSet<string>` iteration order in Day 7 is modelled as insertion order; neither answer depends on the order.
- Day7.Visit, Day7.Inner: the call stack is a `depth` parameter, and an exhausted stack is a `StackOverflowException` outcome; how deep the real stack is, is not modelled.
- LINQ's lazy evaluation is modelled as eager evaluation in order, which gives the same values and the first exception thrown.
- Results.From2, Results.From7: the failure they build uses a `Failure` constructor that takes only nested errors, whose definition is not part of this model; it is read as a failure without id or messages nesting the tagged error of each failing slot.
- Day 7's published example files are not part of the repository. The two examples the test expects are written out in `Day7Examples` as rules over the puzzle's colours, and their lines are those rules in the puzzle's format (`Day7.Written`), not a character-by-character copy of the files.
- The published example inputs of Days 1, 2, 3, 5 and 6 are written out as constants from the puzzle statements, since the input files are not part of the repository.

## Findings

| source | as written | input that shows it | evidently intended | confidence | as-written member | corrected member |
|---|---|---|---|---|---|---|
| AdventOfCode/Common/Result.cs:227 | the collection awaiter throws the bare `Error`, not the `ErrorException` the builder catches | any collection with one failing element, e.g. one unparsable line in Day 1 (Day1.ParseInput, Day1.Run) or one unknown letter in a Day 5 pass (Day5.Gathered, Day5.Decode, Day5.TicketFrom, Day5.ParseInput, Day5.Run) | the async method returns a failure carrying the collected errors | high (not executed) | Results.AwaitAllAsWrittenEscapes | Results.SettleAll |
| AdventOfCode/Common/Result.cs:212-213 | when two failures meet in the fold, only the later one is kept | two failing elements with different errors | every failing element's error is nested in the result | medium (not executed) | Results.CollectDropsEarlierFailureExample | Results.CollectSpec |
| AdventOfCode/Common/Result.cs:201,224-228 | an empty collection folds to `null`, and awaiting it calls `GetType()` on null | an empty collection of results, e.g. an empty input file | an empty collection gives an empty list of values | medium (not executed) | Results.AwaitAllEmpty | Results.AwaitAll |
| AdventOfCode/Common/Validate.cs:26,54-55 | the nested array holds `null` for every passing slot, and the `Error` constructor renders it at once | one failing check beside one passing check | the failure nests only the errors of the failing slots | high (not executed) | Validation.All7AsWrittenMixed | Validation.All7 |
