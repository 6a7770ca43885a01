# HippoMocks, modelled in Dafny

HippoMocks is a header-only C++ mocking library. This project models its
sequential core and proves properties of the model:

- **The single-header generator** (`CreateSingleInclude.py`). It expands
  `HippoMocks/hippomocks.h` depth first. Each quoted include whose target
  exists under `HippoMocks/` is replaced by that file's expansion, and every
  other line is written right-stripped. Each file is bracketed by
  `// start` / `// end` markers. The result is wrapped in a five-line banner
  and an `#endif` trailer.
  - `amalgamator.dfy` holds a class `SingleInclude` whose methods append to
    the output the way the nested `parseFile` does.
  - Those methods are proved equal to pure functions (`Expand`,
    `ExpandLines`, `ExpandLine`), and the properties are proved about the
    functions.
  - Python's recursion limit is the `depth` parameter. An include cycle ends
    in that error, and that is how it is modelled.
- **The expectation engine of `MockRepository`** (`HippoMocks/hippomocks.h`).
  - Registrations are filed into `neverCalls`, `expectations` or `optionals`.
  - An invocation is dispatched by three reverse scans: never-calls, then
    unsatisfied expectations, then optionals.
  - A selected call is counted and its `Out`/`In` arguments are written back;
    it returns a `Return` value or a `Do` result, or rethrows a `Throw`
    exception.
  - `VerifyAll`, `VerifyPartial` and `reset` check or clear the repository.
  - Exceptions are an `Outcome` value. A latent exception, stored while the
    stack unwinds, is a field.
  - `mockcalls.dfy` states the engine as functions of a `RepoState`, and
    `mockprops.dfy` proves its properties.
  - `repository.dfy` is the class: its methods update the fields in place
    with reverse-scan loops, and each is proved to agree with its function.
- **Argument tuples** (`HippoMocks/detail/oldtuple.h`, `argtuple.dfy`):
  - the per-position comparison with the `_` wildcard;
  - `assign_to` writing `Out` values through the caller's references, on an
    array;
  - `assign_from` capturing `In` arguments;
  - the `(a,b,...)` printer;
  - applying a `Do` functor to the sixteen-field tuple.
- **Exception texts** (`HippoMocks/detail/exceptions.h`, `mockerrors.dfy`):
  one header line followed by the repository dump.
- **The instruction-length table and prologue copier**
  (`injector/injector.cpp`, `injector.dfy`). `simpleSize` is a masked table
  lookup on a little-endian word. `copy` copies whole instructions between
  byte arrays.
- **`Injection<T>`** (`injector/injection.h`, `injection.dfy`): the install
  state machine. The code patcher's `inject`/`uninject` are recorded as
  effects.
- **The yaffut test runner** (`HippoMocksTest/yaffut.h`, `yaffut.dfy`):
  - the sorted test registry;
  - the suite-prefix rule, with its `size_t` wrap-around;
  - `Run` and its pass/fail counters;
  - `Report`, `List` and `Main`'s argument handling;
  - the `check`/`equal`/`unequal` assertions.

  Test bodies are an oracle `TestId -> bool`.

`wrappers.dfy` holds `Option` and the decimal/hexadecimal rendering
of numbers that the printers use.

Where the prose description of the generator and its code differ, the model
follows the code:

- A quoted include of a missing file is written right-stripped like every
  other line, not byte for byte.
- A failed run leaves what it already wrote in the output. There is no
  all-or-nothing behaviour.

## Model

| member | source | states |
|---|---|---|
| Amalgamator.RStrip | CreateSingleInclude.py:34-36 | `line.rstrip()` is the longest prefix not ending in whitespace; all that is dropped is whitespace |
| Amalgamator.Banner | CreateSingleInclude.py:39-43 | the banner is five lines |
| Amalgamator.SkipSpace | CreateSingleInclude.py:10 | a `\s*` never lengthens the text |
| Amalgamator.SkipSpaceDropsLeadingRun | CreateSingleInclude.py:10 | `\s*` consumes exactly the leading whitespace run and leaves the suffix |
| Amalgamator.LineEnd | CreateSingleInclude.py:10 | the index of the first newline, before which `.` can match |
| Amalgamator.QuotedCapture | CreateSingleInclude.py:10 | the greedy `(.*)"` capture is shorter than its input |
| Amalgamator.QuotedCaptureIsGreedy | CreateSingleInclude.py:10 | the group ends at the last quote before the first newline; there is no match when no quote precedes the newline |
| Amalgamator.SingleInclude.constructor | CreateSingleInclude.py:18 | the output starts empty |
| Amalgamator.SingleInclude.Write | CreateSingleInclude.py:20-21 | `write` appends its string to the output |
| Amalgamator.SingleInclude.ParseFile | CreateSingleInclude.py:23-37 | `parseFile` appends exactly `Expand(fs, filename, depth).out`, and fails as `Expand` does |
| Amalgamator.SingleInclude.ParseLines | CreateSingleInclude.py:27-36 | the `for line in f` loop appends the lines' expansions in order, and stops at the first failure |
| Amalgamator.SingleInclude.ParseLine | CreateSingleInclude.py:28-36 | one iteration appends the target's expansion for a resolvable include, else the right-stripped line |
| Amalgamator.Generate | CreateSingleInclude.py:9-48 | `generate` writes the banner, the entry expansion and, when it completed, the trailer |
| Amalgamator.ParseIncludeLine | CreateSingleInclude.py:10-30 | `#include "h"` matches and `m.group(1)` is exactly `h`, whatever quotes `h` holds |
| Amalgamator.QuoteThenNewline | CreateSingleInclude.py:10 | the capture before the closing quote and newline is the header itself |
| Amalgamator.AngleIncludeNeverMatches | CreateSingleInclude.py:10 | an angle-bracket include never matches the pattern |
| Amalgamator.ResolvedIncludeIsReplaced | CreateSingleInclude.py:28-32 | a resolvable include is replaced by the whole expansion of `HippoMocks/` + header, and the directive is not written |
| Amalgamator.MissingIncludePassesThrough | CreateSingleInclude.py:31-34 | an include of a missing target is written back as it stood; only the root is searched |
| Amalgamator.ExpandLinesAppend | CreateSingleInclude.py:27-36 | the loop is a fold: the lines `a + b` write what `a` writes, then what `b` writes |
| Amalgamator.IncludeSplicedInPlace | CreateSingleInclude.py:27-36 | the target's expansion is spliced in place between what the lines before it and the lines after it write |
| Amalgamator.ExpandLinesStep | CreateSingleInclude.py:27-36 | one more iteration appends that line's expansion |
| Amalgamator.ErrorStopsTheLoop | CreateSingleInclude.py:27-36 | after a failure, later lines write nothing |
| Amalgamator.PlainLinesKeepOrder | CreateSingleInclude.py:34-36 | lines that are not resolvable includes come out one for one, in order, right-stripped with "\n" |
| Amalgamator.RepeatedIncludeExpandedTwice | CreateSingleInclude.py:23-37 | there is no single inclusion: a header included twice is expanded twice |
| Amalgamator.CompletedLinesEachCompleted | CreateSingleInclude.py:27-36 | a completed loop completed each of its iterations |
| Amalgamator.SelfIncludeNeverCompletes | CreateSingleInclude.py:23-37 | there is no visited set: a file that includes itself fails for every recursion budget |
| Amalgamator.ExpandStable | CreateSingleInclude.py:23-37 | once an expansion completes, a larger recursion budget gives the same output |
| Amalgamator.ExpandLinesStable | CreateSingleInclude.py:27-36 | the same, for the loop |
| Amalgamator.ExpandLineStable | CreateSingleInclude.py:28-36 | the same, for one line |
| Amalgamator.ExpansionBracketed | CreateSingleInclude.py:26-37 | every expansion starts with `// start F`, and a completed one ends with `// end F` |
| Amalgamator.OnlyTimestampDiffers | CreateSingleInclude.py:39-47 | two runs on the same tree differ only in the `Generated:` line |
| ArgTuple.Padded | HippoMocks/detail/oldtuple.h:37-60 | the sixteen-field layout: the declared arguments in order, then `NullType` |
| ArgTuple.Unpad | HippoMocks/detail/oldtuple.h:37-60 | the arguments of a layout are the fields before the first `NullType` |
| ArgTuple.UnpadOf | HippoMocks/detail/oldtuple.h:37-60 | any prefix of arguments followed by `NullType` is what `Unpad` returns |
| ArgTuple.UnpadPadded | HippoMocks/detail/oldtuple.h:37-60 | padding, then unpadding, gives the arguments back |
| ArgTuple.PaddedUnpad | HippoMocks/detail/oldtuple.h:37-60 | every valid layout is the padding of its arguments |
| ArgTuple.TupleMatchesPositionwise | HippoMocks/detail/oldtuple.h:131-149 | `copy_tuple == ref_tuple` iff every position compares equal (`comparer`, hippomocks.h:270-287) |
| ArgTuple.ExactAndWildcardTuples | HippoMocks/detail/oldtuple.h:131-149 | exact values match exactly equal arguments; all-`_` matches every call |
| ArgTuple.PrintTo | HippoMocks/detail/oldtuple.h:188-207 | `printTo` prints `(`, the arguments separated by commas with `NullType` printing nothing, then `)` |
| ArgTuple.PrintedExamples | HippoMocks/detail/oldtuple.h:63-82 | two ints print `(1,2)`, no arguments print `()`, and `_`/`Out` print `_` |
| ArgTuple.LastComma | HippoMocks/detail/oldtuple.h:188-207 | finds the last comma of a printed list |
| ArgTuple.SplitJoined | HippoMocks/detail/oldtuple.h:188-207 | the comma layout reads back: splitting a printed list gives the items, when they hold no comma |
| ArgTuple.AssignTo | HippoMocks/detail/oldtuple.h:169-187 | `assign_to` writes each `Out(v)`'s `v` through the argument array and leaves other positions unchanged |
| ArgTuple.AssignedToStable | HippoMocks/detail/oldtuple.h:169-187 | writing back twice is writing back once, and it does not change whether the call matches |
| ArgTuple.AssignFrom | HippoMocks/detail/oldtuple.h:150-168 | `assign_from` copies the argument into the variable of each `In`, in order |
| ArgTuple.AssignedFromUntouched | HippoMocks/detail/oldtuple.h:150-168 | a variable that no `In` names keeps its value |
| ArgTuple.AssignedFromLastWriter | HippoMocks/detail/oldtuple.h:150-168 | a captured variable holds the argument of the last `In` naming it |
| ArgTuple.InvokeGetsDeclaredArgs | HippoMocks/detail/oldtuple.h:222-246 | `Invocable` on a tuple calls the functor with exactly the declared arguments; `DoWrapper`s drop trailing `NullType` (lines 256-462) |
| MockErrors.FirstLine | HippoMocks/detail/exceptions.h:81 | the text before the first newline of `what()` |
| MockErrors.SplitAtFirstNewline | HippoMocks/detail/exceptions.h:87-103 | `header + "\n" + body` splits back into the header and body |
| MockErrors.NoNewlineInConcat | HippoMocks/detail/exceptions.h:87-103 | joining newline-free pieces gives a newline-free header |
| MockErrors.ExpectationMessage | HippoMocks/detail/exceptions.h:87-103 | `what()` is `Function <name><args or (...)> called with mismatching expectation!`, a newline, then exactly the dump |
| MockErrors.NoResultSetUpMessage | HippoMocks/detail/exceptions.h:170-205 | `No result set up on call to <name><args or (...)>`, a newline, then the dump |
| MockErrors.CallMissingMessage | HippoMocks/detail/exceptions.h:134-143 | `Function with expectation not called!`, a newline, then the dump |
| MockErrors.NotImplementedMessage | HippoMocks/detail/exceptions.h:109-132 | `Function called without expectation!`, a newline, then the dump |
| MockErrors.ZombieMockMessage | HippoMocks/detail/exceptions.h:145-168 | `Function called on mock that has already been destroyed!`, a newline, then the dump |
| MockCalls.LastHit | HippoMocks/hippomocks.h:3908-3931 | a reverse-iterator scan finds the newest call that passes the test, and none after it passes |
| MockCalls.FirstOf | HippoMocks/hippomocks.h:2791-2815 | a forward scan finds the oldest registration of the function |
| MockCalls.FuncName | HippoMocks/hippomocks.h:2791-2815 | `funcName` is the name of the oldest registration of the function in `expectations`, else in `optionals`, else in `neverCalls`; it is NULL iff none of the three lists holds one |
| MockCalls.TranslateX | HippoMocks/hippomocks.h:459-465 | `translateX(x)` is the first key in key order whose value is `x + 1`, or `(-1, 0)` |
| MockCalls.TranslateXFindsRegistration | HippoMocks/hippomocks.h:459-465 | with one `X` per registration, `translateX` gives back the key that was registered |
| MockCalls.CallTextVerdict | HippoMocks/hippomocks.h:3941-3967 | a call's line ends in `satisfied.`/`not satisfied.` for `Once` and `used.`/`not used.` otherwise |
| MockCalls.DumpEmptyIff | HippoMocks/hippomocks.h:3969-3995 | the repository dump is empty iff all three lists are empty |
| MockProperties.SelectOrder | HippoMocks/hippomocks.h:3905-3934 | dispatch order: a matching never-call wins; then the newest unsatisfied matching expectation; then the newest matching optional |
| MockProperties.NoMatchIff | HippoMocks/hippomocks.h:2837-2878 | the mismatch error is reached iff no never-call, unsatisfied expectation or optional matches |
| MockProperties.SelectedIsRegistered | HippoMocks/hippomocks.h:3905-3934 | the selected call exists |
| MockProperties.UpdateKeepsValid | HippoMocks/hippomocks.h:578-594 | changing a call within its maximum and with registered predecessors keeps the repository well formed |
| MockProperties.SatisfiedKeepsValid | HippoMocks/hippomocks.h:2773-2775 | marking a call satisfied keeps the repository well formed |
| MockProperties.PerformedKeepsValid | HippoMocks/hippomocks.h:2708-2712 | counting a call below its maximum keeps the repository well formed |
| MockProperties.DoThrowFrame | HippoMocks/hippomocks.h:2773-2789 | `doThrow` changes only its call's `satisfied` flag, besides the latent exception |
| MockProperties.ReturnCallFrame | HippoMocks/hippomocks.h:2761-2770 | `doReturnCall` changes only its call |
| MockProperties.VoidCallFrame | HippoMocks/hippomocks.h:2748-2758 | `doVoidCall` changes only its call, besides the latent exception |
| MockProperties.UpdateFramed | HippoMocks/hippomocks.h:2708-2712 | replacing one call changes only that call |
| MockProperties.DoThrowCallFramed | HippoMocks/hippomocks.h:2773-2789 | `doThrow` changes only its call |
| MockProperties.VoidCallPerforms | HippoMocks/hippomocks.h:2748-2753 | below its maximum, `doVoidCall` counts the call |
| MockProperties.VoidCallThrows | HippoMocks/hippomocks.h:2754-2757 | at its maximum, `doVoidCall` is `doThrow` |
| MockProperties.MismatchOnlyLatent | HippoMocks/hippomocks.h:2867-2877 | the mismatch branch changes at most the latent exception |
| MockProperties.RaiseAsOnlyLatent | HippoMocks/detail/exceptions.h:68-71 | raising, latently or not, changes at most the latent exception |
| MockProperties.NeverCalledFrame | HippoMocks/hippomocks.h:3907-3915 | the never-call branch only marks its call satisfied |
| MockProperties.ExpectNeverStep | HippoMocks/hippomocks.h:3907-3915 | a never-call hit in `DoExpectation` updates at most the selected call |
| MockProperties.ExpectCallStep | HippoMocks/hippomocks.h:3916-3931 | an expectation or optional hit updates at most the selected call |
| MockProperties.ExpectFrame | HippoMocks/hippomocks.h:3905-3934 | `DoExpectation` keeps the repository well formed and updates at most one call; lists and latent exception unchanged |
| MockProperties.DoThrowFramed | HippoMocks/hippomocks.h:2773-2789 | `doThrow` is a step that updates at most its call |
| MockProperties.ExpectVoidNeverStep | HippoMocks/hippomocks.h:2839-2847 | a never-call hit in `DoVoidExpectation` updates at most the selected call |
| MockProperties.ExpectVoidNoMatchStep | HippoMocks/hippomocks.h:2867-2877 | a mismatch in `DoVoidExpectation` updates no call |
| MockProperties.LatentIsFramed | HippoMocks/hippomocks.h:2025-2028 | setting the latent exception alone changes no call or list |
| MockProperties.ExpectVoidCallStep | HippoMocks/hippomocks.h:2848-2866 | a void expectation or optional hit updates at most the selected call |
| MockProperties.CallFramedIsFramed | HippoMocks/hippomocks.h:2837-2878 | a change to the selected call alone updates at most one call |
| MockProperties.ExpectVoidFrame | HippoMocks/hippomocks.h:2837-2878 | `DoVoidExpectation` keeps the repository well formed (no call counted past its maximum) and updates at most one call |
| MockProperties.NeverCallThrows | HippoMocks/hippomocks.h:3907-3915 | a matching never-call marks it satisfied and raises `ExpectationException` |
| MockProperties.PerformedCall | HippoMocks/hippomocks.h:2708-2719 | a performed call has `called + 1`, is satisfied iff that reaches the minimum, and has `Out`/`In` written back |
| MockProperties.ReturnedValue | HippoMocks/hippomocks.h:2727-2745 | `Throw` is rethrown; a `Return` value wins over `Do`; `Do` alone gives its result; neither raises `NoResultSetUpException` |
| MockProperties.OverMaximumReturning | HippoMocks/hippomocks.h:2761-2770 | a returning call at its maximum raises `ExpectationException` and changes nothing |
| MockProperties.OverMaximumVoid | HippoMocks/hippomocks.h:2748-2789 | a void call at its maximum is marked satisfied and raises, or with `makeLatent` becomes latent or is dropped |
| MockProperties.UnmatchedVoid | HippoMocks/hippomocks.h:2867-2877 | an unmatched void call raises; in a mocked destructor it becomes latent while unwinding, or is dropped when one is pending |
| MockProperties.OnceIsConsumed | HippoMocks/hippomocks.h:3916-3923 | an expectation performed up to its `Once` is satisfied and is never selected as an expectation again |
| MockProperties.VerifyAllIff | HippoMocks/hippomocks.h:2969-2982 | `VerifyAll` rethrows the latent exception; else it raises `CallMissingException` iff some expectation is unsatisfied; optionals and never-calls play no part |
| MockProperties.VerifyPartialRule | HippoMocks/hippomocks.h:2983-2997 | `VerifyPartial(obj)` does nothing when an exception is pending or `obj` has no unsatisfied expectation; else it raises `CallMissingException`, latently while unwinding |
| MockProperties.ResetForgets | HippoMocks/hippomocks.h:2946-2967 | after `reset`, nothing matches and nothing is missing |
| MockProperties.AddCallFiles | HippoMocks/hippomocks.h:1994-2018 | `Never` goes to `neverCalls`, `min == max` to `expectations`, anything else to `optionals` unchanged; the repository stays well formed |
| MockProperties.AutoExpectOrders | HippoMocks/hippomocks.h:1994-2000 | with `autoExpect`, a new expectation matches only after the previous one is satisfied |
| MockProperties.VoidCallWhileUnwinding | HippoMocks/hippomocks.h:2748-2789 | with `makeLatent` while unwinding, `doVoidCall` raises none of the library's errors |
| MockProperties.ExpectVoidWhileUnwinding | HippoMocks/hippomocks.h:2837-2878 | a void dispatch with `makeLatent` while unwinding raises none of the library's errors |
| MockProperties.DestroyedWhileUnwinding | HippoMocks/hippomocks.h:3082-3089 | a mock destroyed during unwinding never raises a library error; only a `Throw` escapes |
| MockProperties.StaticRegisterFirstWins | HippoMocks/hippomocks.h:2697-2705 | a function pointer keeps the `X` of its first registration, and registering again changes nothing |
| MockRepo.MockRepository.constructor | HippoMocks/hippomocks.h:2880-2887 | a new repository has empty lists, `autoExpect` as given and no latent exception |
| MockRepo.MockRepository.AddCall | HippoMocks/hippomocks.h:2003-2018 | the new state is `AddCall` of the old one |
| MockRepo.MockRepository.RegisterExpect | HippoMocks/hippomocks.h:3643-3655 | a fresh call with the given registration type is filed by `addCall` |
| MockRepo.MockRepository.RegisterExpectDestructor | HippoMocks/hippomocks.h:3113-3131 | the destructor call is built with `Once` and filed under the requested type |
| MockRepo.MockRepository.Update | HippoMocks/hippomocks.h:578-594 | replaces one call and keeps the repository well formed |
| MockRepo.MockRepository.With | HippoMocks/hippomocks.h:578-582 | sets the argument pattern of the call and nothing else; the pattern has one entry per parameter of the call |
| MockRepo.MockRepository.After | HippoMocks/hippomocks.h:583-586 | appends a predecessor to the call |
| MockRepo.MockRepository.Do | HippoMocks/hippomocks.h:588 | sets the `Do` functor |
| MockRepo.MockRepository.Match | HippoMocks/hippomocks.h:590 | sets the match predicate |
| MockRepo.MockRepository.Return | HippoMocks/hippomocks.h:591 | sets the return value, on a call whose function returns a value |
| MockRepo.MockRepository.Throw | HippoMocks/hippomocks.h:594 | sets the exception to throw |
| MockRepo.MockRepository.BasicStaticRegisterExpect | HippoMocks/hippomocks.h:2697-2705 | the first registration stores `X` and one replacement; the stored `X` is returned |
| MockRepo.MockRepository.Scan | HippoMocks/hippomocks.h:3907-3931 | the reverse-iterator loop returns the newest hit (`LastHit`) |
| MockRepo.MockRepository.RaiseLatentException | HippoMocks/detail/exceptions.h:69-71 | while unwinding, the exception is stored as latent; otherwise it is thrown |
| MockRepo.MockRepository.Raise | HippoMocks/hippomocks.h:2777-2788 | with `makeLatent`, nothing when a latent exception is pending, else raised latently; otherwise thrown |
| MockRepo.MockRepository.DoCall | HippoMocks/hippomocks.h:2708-2719 | counts the call, writes back `Out`/`In` through the arrays, and reports the `Throw` exception |
| MockRepo.MockRepository.DoReturnCall | HippoMocks/hippomocks.h:2727-2770 | the state, outcome, arguments and variables are `ReturnCall`'s |
| MockRepo.MockRepository.DoThrow | HippoMocks/hippomocks.h:2773-2789 | agrees with `DoThrow`: the call marked satisfied, then the raise |
| MockRepo.MockRepository.DoVoidCall | HippoMocks/hippomocks.h:2748-2758 | agrees with `VoidCall` |
| MockRepo.MockRepository.ThrowNeverCall | HippoMocks/hippomocks.h:3907-3915 | marks the never-call satisfied and raises `ExpectationException` |
| MockRepo.MockRepository.RaiseMismatch | HippoMocks/hippomocks.h:2867-2877 | the mismatch raise names the function by `funcName` and prints the actual arguments |
| MockRepo.MockRepository.Choose | HippoMocks/hippomocks.h:3905-3934 | the three scans select `Select(State(), q)` |
| MockRepo.MockRepository.ReturnDispatch | HippoMocks/hippomocks.h:3905-3934 | the dispatch to the chosen call agrees with `Expect` |
| MockRepo.MockRepository.DoExpectation | HippoMocks/hippomocks.h:3905-3934 | `DoExpectation` agrees with `Expect` and keeps the repository well formed |
| MockRepo.MockRepository.VoidDispatch | HippoMocks/hippomocks.h:2837-2878 | the void dispatch to the chosen call agrees with `ExpectVoid` |
| MockRepo.MockRepository.DoVoidExpectation | HippoMocks/hippomocks.h:2837-2878 | `DoVoidExpectation` agrees with `ExpectVoid` and keeps the repository well formed |
| MockRepo.MockRepository.VerifyAll | HippoMocks/hippomocks.h:2969-2982 | the outcome is `VerifyAllOutcome` |
| MockRepo.MockRepository.VerifyPartial | HippoMocks/hippomocks.h:2983-2997 | the state and outcome are `VerifyPartialStep`'s |
| MockRepo.MockRepository.Reset | HippoMocks/hippomocks.h:2946-2967 | the three lists are emptied and their calls deleted |
| MockRepo.MockRepository.MockedDestructor | HippoMocks/hippomocks.h:3082-3089 | a void dispatch with `makeLatent`, then `VerifyPartial` unless it threw (`Destroyed`) |
| Injector.FirstFit | injector/injector.cpp:26-39 | the first table row before the mask-0 sentinel with `word & mask == ins`; none when no row fits |
| Injector.SimpleSize | injector/injector.cpp:18-39 | the size is 0, 1, 2 or 4 |
| Injector.PushRegisterIsOneByte | injector/injector.cpp:20 | any byte 0x50 to 0x5F decodes to size 1 |
| Injector.MovFromStackIsFourBytes | injector/injector.cpp:21 | `8B 44 24 xx` decodes to size 4 |
| Injector.TestEaxIsTwoBytes | injector/injector.cpp:22 | `85 C0` decodes to size 2 |
| Injector.Walk | injector/injector.cpp:41-57 | the walk stops on success at `>= count`, overshooting by less than 4; it fails at an unknown instruction |
| Injector.CopyBounds | injector/injector.cpp:41-57 | `copy` gives 0 for `count == 0`, `count <= done < count + 4` on success, and 0 on failure |
| Injector.WalkSteps | injector/injector.cpp:44-55 | each step advances by the decoded instruction size |
| Injector.WalkReached | injector/injector.cpp:44 | the walk stops once `count` bytes are behind |
| Injector.WalkStuck | injector/injector.cpp:46-50 | an unknown instruction stops the walk with failure |
| Injector.PrologueExample | injector/injector.cpp:15-22 | `push ebp; mov eax,[esp+4]` covers the 5-byte jump exactly |
| Injector.MemCopy | injector/injector.cpp:51 | `memcpy` copies `n` bytes and writes nothing else |
| Injector.PrefixGrows | injector/injector.cpp:51-54 | copying the next bytes extends the equal prefix |
| Injector.Copy | injector/injector.cpp:41-57 | returns `Copied(Walk(...))`; the bytes before the stop are copied and nothing after is written |
| Injections.Uninjects | injector/injection.h:74-81 | counts `uninject` calls; at most the log length |
| Injections.Injects | injector/injection.h:64-72 | counts `inject` calls; at most the log length |
| Injections.EffectsSplit | injector/injection.h:64-81 | every logged call is an `inject` or an `uninject` |
| Injections.InitialNotInstalled | injector/injection.h:33-45 | a new injection is not installed and has called nothing |
| Injections.InstallNullRefused | injector/injection.h:66-69 | `install(NULL, f)` returns false and changes nothing |
| Injections.InstallReports | injector/injection.h:64-72 | a non-NULL install calls `inject` once; it returns true iff installed afterwards |
| Injections.InstallAtIsInstall | injector/injection.h:50-61 | the module overload refuses a NULL module or offset, else is `install` at base + offset |
| Injections.UninstallOnce | injector/injection.h:74-81 | `uninstall` calls `uninject` on the trampoline exactly once when installed, else nothing; afterwards not installed |
| Injections.UninstallIdempotent | injector/injection.h:74-81 | a second `uninstall` does nothing |
| Injections.InstallThenUninstall | injector/injection.h:64-81 | a successful install then uninstall undoes exactly the trampoline made |
| Injections.Injection.constructor | injector/injection.h:33-35 | `fnOriginal` starts NULL |
| Injections.Injection.Installed | injector/injection.h:42-45 | `isInstalled()` is `fnOriginal != NULL` |
| Injections.Injection.Install | injector/injection.h:64-72 | agrees with `InstallStep` |
| Injections.Injection.InstallAt | injector/injection.h:50-61 | agrees with `InstallAtStep` |
| Injections.Injection.Uninstall | injector/injection.h:74-81 | agrees with `UninstallStep` |
| Injections.Injection.Destroy | injector/injection.h:37-40 | the destructor uninstalls; nothing stays installed |
| Yaffut.StrLessIrreflexive | HippoMocksTest/yaffut.h:69 | the key order of `std::map<std::string, ...>` is irreflexive |
| Yaffut.StrLessTransitive | HippoMocksTest/yaffut.h:69 | and transitive |
| Yaffut.StrLessTotal | HippoMocksTest/yaffut.h:69 | and total |
| Yaffut.Lookup | HippoMocksTest/yaffut.h:69-70 | `find` fails iff the name is not a key |
| Yaffut.KeysCons | HippoMocksTest/yaffut.h:69 | the keys of a longer registry |
| Yaffut.InsertKeys | HippoMocksTest/yaffut.h:87-90 | `Register` adds exactly its name to the keys |
| Yaffut.InsertSorted | HippoMocksTest/yaffut.h:87-90 | `Register` keeps the tests in key order |
| Yaffut.InsertAboveHead | HippoMocksTest/yaffut.h:87-90 | inserting after the first key keeps every key above it |
| Yaffut.InsertLookup | HippoMocksTest/yaffut.h:87-90 | after `Register(name, f)` the name finds `f`, and every other name finds what it found before |
| Yaffut.FirstIndex | HippoMocksTest/yaffut.h:77 | `find(':')`: the first index of the character, or none iff it is absent |
| Yaffut.SuiteNameRule | HippoMocksTest/yaffut.h:75-79 | `EqualsSuiteName` iff `s` starts with `name` and the first `:` is absent or in the last two places; the unsigned wrap admits one-character names |
| Yaffut.SuitePrefixSelects | HippoMocksTest/yaffut.h:75-79 | `Suite::` selects the tests of that suite |
| Yaffut.FullNameIsNoSuite | HippoMocksTest/yaffut.h:75-79 | a full `Suite::Case` name is not a suite name |
| Yaffut.Selection | HippoMocksTest/yaffut.h:106-111 | each test `Run(name)` selects passes the filter and is registered |
| Yaffut.RunCounts | HippoMocksTest/yaffut.h:103-133 | each selected test runs once, in key order, adding one to exactly one of `m_pass` and `m_fail` |
| Yaffut.NamedTestIsSelected | HippoMocksTest/yaffut.h:109-110 | a registered name given to `Run` is run |
| Yaffut.AllRunsEverything | HippoMocksTest/yaffut.h:109 | `Run("All")` runs every test in key order |
| Yaffut.EmptyNameSelectsAll | HippoMocksTest/yaffut.h:75-79 | the empty name passes `EqualsSuiteName` for every test |
| Yaffut.ListAsWrittenPrintsAll | HippoMocksTest/yaffut.h:92-102 | as written, `List` prints every test whatever the filter |
| Yaffut.ListAsWrittenCounterexample | HippoMocksTest/yaffut.h:97-100 | with filter `A::`, test `B::y` is printed anyway |
| Yaffut.ListIntendedNumbers | HippoMocksTest/yaffut.h:92-102 | the intended listing numbers the matching tests from 0, in order, and prints nothing else |
| Yaffut.MatchingIff | HippoMocksTest/yaffut.h:97-98 | a test is listed iff it is registered and passes the filter |
| Yaffut.ReportFailLine | HippoMocksTest/yaffut.h:134-142 | a `[FAIL]` line appears iff some test failed; the total is `m_pass + m_fail` against the test count |
| Yaffut.SkipSpace | HippoMocksTest/yaffut.h:187-189 | `>>` skips leading white space |
| Yaffut.DigitRun | HippoMocksTest/yaffut.h:187-189 | the digits `>>` consumes |
| Yaffut.ReadDigits | HippoMocksTest/yaffut.h:187-189 | no number iff the text does not start with a digit |
| Yaffut.ParseInt | HippoMocksTest/yaffut.h:187-190 | a number read into an `int` is within its range |
| Yaffut.DigitRunOfDigits | HippoMocksTest/yaffut.h:187-189 | a string of digits is consumed whole |
| Yaffut.ReadDecimal | HippoMocksTest/yaffut.h:187-189 | a number's decimal digits read back as the number |
| Yaffut.ParseIntRoundTrip | HippoMocksTest/yaffut.h:187-190 | every `int`, written in decimal, reads back as itself |
| Yaffut.NameIsNotANumber | HippoMocksTest/yaffut.h:187-202 | a test name is never read as a number, so it runs by name |
| Yaffut.Target | HippoMocksTest/yaffut.h:187-202 | a number `k` below the count runs the test at `max(k, 0)`; a larger one runs nothing; anything else runs by name |
| Yaffut.Arguments | HippoMocksTest/yaffut.h:174-181 | with more than one argument all of `argv` (program name included) is run; else `All` |
| Yaffut.RunArgumentsCounts | HippoMocksTest/yaffut.h:183-208 | the argument loop only adds runs, each counted once as a pass or failure |
| Yaffut.NoArgumentsRunsAll | HippoMocksTest/yaffut.h:174-208 | with no arguments every test runs once, in key order |
| Yaffut.Check | HippoMocksTest/yaffut.h:325-331 | `check` throws iff its condition is false, with message `at + expr` |
| Yaffut.Equal | HippoMocksTest/yaffut.h:301-315 | `equal` throws iff the values differ, with the expected/actual message |
| Yaffut.Unequal | HippoMocksTest/yaffut.h:333-347 | `unequal` throws iff the values are equal |
| Yaffut.EqualUnequalComplement | HippoMocksTest/yaffut.h:301-347 | exactly one of `equal` and `unequal` throws, with the same message |
| Yaffut.MismatchStartsAsCheck | HippoMocksTest/yaffut.h:219-233 | a mismatch message starts with `at + expr` |
| Yaffut.Factory.constructor | HippoMocksTest/yaffut.h:74-84 | the singleton starts with no tests and both counters zero |
| Yaffut.Factory.Register | HippoMocksTest/yaffut.h:87-90 | `m_Tests[name] = create`: the registry becomes `Insert(...)`, stays sorted, and the counters are unchanged |
| Yaffut.Factory.Fail | HippoMocksTest/yaffut.h:91 | `Fail()` is `m_fail` |
| Yaffut.Factory.List | HippoMocksTest/yaffut.h:92-102 | lists only the matching tests, numbered consecutively (the corrected behaviour) |
| Yaffut.Factory.Run | HippoMocksTest/yaffut.h:103-133 | the counters become `RunTally` of the old ones |
| Yaffut.Factory.RunArgument | HippoMocksTest/yaffut.h:185-202 | one turn of `Main`'s loop runs what `Target` names |
| Yaffut.Factory.Report | HippoMocksTest/yaffut.h:134-142 | the printed lines are `ReportLines` |
| Yaffut.Factory.Start | HippoMocksTest/yaffut.h:143-212 | `-h`/`-l`/`-v` answer 0 and run nothing; otherwise every argument runs, then the report, and the answer is the failure count |
| Text.DigitChar | HippoMocks/hippomocks.h:3943 | a digit character has the digit's value |
| Text.NatToDecimal | HippoMocks/hippomocks.h:3943 | `os << n` prints digits only, without a leading zero |
| Text.IntToDecimal | HippoMocks/hippomocks.h:3943 | a `-` is printed iff the number is negative |
| Text.DecimalRoundTrip | HippoMocks/hippomocks.h:3943 | printed decimal reads back as the number |
| Text.NatToHex | HippoMocks/hippomocks.h:3958 | the mock's address is printed as lower-case hexadecimal digits, at least one, without a leading zero |
| Text.HexRoundTrip | HippoMocks/hippomocks.h:3958 | the printed hexadecimal digits read back as the address |

## Left out

- The injector's `inject`, `uninject` and `NearAllocate` are left out. They
  allocate executable memory and patch code, and the code still has TODOs.
  - `uninject` reads the saved layout at offsets that differ from what
    `inject` writes (injector/injector.cpp:86-88 against 97-101), so no
    round trip holds.
  - `Injection<T>` takes the pointer `inject` returns as a parameter, and
    records both calls in an effect log.
  - Pointer arithmetic `hModule + offset` is on unbounded naturals: address
    wrap-around is not modelled.
- Vtable rewriting, `mock<T>` construction, `BasicRegisterExpect`'s
  `funcTables` writes, `virtual_index` and the `Replace` type of C function
  mocking are left out; they are ABI and raw-memory operations.
  - Only the `funcMap` lookup (`translateX`) and the `staticFuncMap`
    bookkeeping are kept.
  - A patched C function is recorded as a (function, replacement) pair.
- The zombie check in `mockFuncs::expectation` is not modelled. The message
  of `ZombieMockException` is modelled.
- `reset` also resets every mock's function tables. Only the three lists and
  their calls are modelled.
- `~MockRepository` is left out. It rethrows or prints a masked latent
  exception, and it destroys the mocks; this is console output and object
  teardown.
- Real C++ exception propagation and `std::uncaught_exception()` are not
  modelled.
  - Exceptions are an `Outcome`, and "the stack is unwinding" is the
    `unwinding` parameter.
  - The `HM_NO_EXCEPTIONS` abort path and the Linux `Stackdump:` backtraces
    appended to three messages are left out.
- MockCalls.FuncName: `funcName` may return NULL, and streaming a NULL
  `char *` is undefined behaviour. The exception text takes it as an empty
  name.
- MockCalls.CallSubject: the mock's address is printed as lower-case
  hexadecimal after the literal `0x`. What `os << pointer` prints is
  implementation-defined; on common libraries it carries its own `0x` prefix.
- Argument values are integers, strings or unprintable objects (`???`).
  - Comparing a `std::reference_wrapper` by address is not modelled.
  - The side effects of a `Do` functor or a match predicate are not
    modelled: they are pure functions of the arguments.
  - The result of a `Do` functor on a void function is discarded, as in the
    source.
- RegistrationType counts (`unsigned`) are bounded by `UintMax`, but `called`
  never wraps, because a call stops running at its maximum.
- The amalgamator's file system is a map: `os.path.exists`, `open`,
  `os.makedirs`, the output file and `datetime.now()` are left out. The
  timestamp is a parameter, and `.decode('utf-8')` is taken as the identity.
- The yaffut runner's console output is left out: the help and version
  texts, `pid(...)`, and the per-test `[OK]`/`[FAIL]` lines. `demangle` is
  left out too; its type names are parameters.
- The `double` overloads of `equal`/`unequal` are left out: they compare
  floating point with an epsilon.
- Yaffut.Factory.Run: `m_pass`/`m_fail` are `size_t` and are not modelled
  as wrapping, because 2^64 test runs cannot happen.
  - `Main`'s `(int)` cast of the failure count is not modelled either.
  - `istringstream` is taken in the C locale.
- Yaffut.Target: a negative number with no test registered dereferences
  `end()` in the source, which is undefined behaviour. The model runs
  nothing.
- Yaffut.Factory.List models the listing with the braces its layout
  intends, and `Yaffut.ListAsWritten` models the code as written (see
  Findings). Standard error and standard output are taken as one stream.
- Packaging (`conanfile.py`) only copies files and is not modelled.

## Findings

| source | as written | input that shows it | evidently intended | confidence | as-written member | corrected member |
|---|---|---|---|---|---|---|
| HippoMocksTest/yaffut.h:97-100 | the `if` of `List` has no braces, so only the `i++ << ")\t"` is conditional and every test name is printed whatever the filter | `List("A::")` with tests `A::x` and `B::y` prints `0)\tA::x` and then `B::y` | only the matching tests are printed, each after its number | medium, not executed | Yaffut.ListAsWrittenCounterexample | Yaffut.ListIntendedNumbers |
