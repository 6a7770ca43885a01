/** The expectation engine of `MockRepository` (HippoMocks/hippomocks.h) as
    functions of the repository's state.  The class in repository.dfy runs the
    same steps in place and is proved to agree with these functions; the
    properties of the engine are proved here, about the functions.

    C++ objects become identities: a mock (`base_mock *`) is a `MockId`, with
    0 for the NULL mock of free functions, and a `Call *` is a `CallId` into
    the `calls` map, which plays the heap.  The sixteen `TCall`
    specialisations become one `Call` whose argument pattern is a sequence. */
module MockCalls {
  import opened Wrappers
  import Text
  import opened ArgTuple
  import opened MockErrors

  /** `std::numeric_limits<unsigned>::max()`. */
  const UintMax: nat := 0xFFFF_FFFF
  type Uint = x: nat | x <= UintMax

  /** How many calls are allowed: at least `minimum`, at most `maximum`. */
  datatype RegistrationType = RegistrationType(minimum: Uint, maximum: Uint)

  const Any: RegistrationType := RegistrationType(0, UintMax)
  const Never: RegistrationType := RegistrationType(0, 0)
  const Once: RegistrationType := RegistrationType(1, 1)

  type MockId = nat
  type CallId = nat
  /** `std::pair<int, int>`: base-class offset and virtual-function index. */
  type FuncIndex = (int, int)

  /** One registration (`Call`/`TCall`).  `args` is the `With(...)` pattern
      (a zero-arity call always has the empty one), `matcher` the `Match`
      predicate, `functor` the `Do` function, `retVal` the `Return` value and
      `userThrow` the `Throw` exception.  `arity` and `returnsValue` are the
      template's parameter count and whether it returns a value, which the
      C++ compiler checks `With` and `Return` against. */
  datatype Call = Call(
    mock: MockId,
    funcIndex: FuncIndex,
    args: Option<seq<Pattern>>,
    matcher: Option<seq<Value> -> bool>,
    functor: Option<seq<Value> -> Value>,
    retVal: Option<Value>,
    userThrow: Option<Value>,
    previousCalls: seq<CallId>,
    called: Uint,
    expectation: RegistrationType,
    satisfied: bool,
    lineno: int,
    funcName: string,
    fileName: string,
    arity: nat,
    returnsValue: bool)

  /** The `Call` constructor: nothing set up, never called, not satisfied. */
  function NewCall(reg: RegistrationType, mock: MockId, index: FuncIndex, arity: nat, returnsValue: bool,
                   lineno: int, funcName: string, fileName: string): Call
  {
    Call(mock, index, if arity == 0 then Some([]) else None, None, None, None, None, [],
         0, reg, false, lineno, funcName, fileName, arity, returnsValue)
  }

  /** The fields of `MockRepository` the engine works on. */
  datatype RepoState = RepoState(
    neverCalls: seq<CallId>,
    expectations: seq<CallId>,
    optionals: seq<CallId>,
    calls: map<CallId, Call>,
    autoExpect: bool,
    latent: Option<MockException>)

  /** An invocation of a mocked function: which mock, which function, and the
      arguments as the `ref_tuple` holds them. */
  datatype Invocation = Invocation(mock: MockId, funcno: FuncIndex, args: seq<Value>)

  /** Every listed call exists, every `After` predecessor exists, and no call
      has been performed more often than its maximum. */
  ghost predicate Valid(s: RepoState) {
    (forall i :: 0 <= i < |s.neverCalls| ==> s.neverCalls[i] in s.calls) &&
    (forall i :: 0 <= i < |s.expectations| ==> s.expectations[i] in s.calls) &&
    (forall i :: 0 <= i < |s.optionals| ==> s.optionals[i] in s.calls) &&
    (forall id :: id in s.calls ==> s.calls[id].called <= s.calls[id].expectation.maximum) &&
    (forall id, k :: id in s.calls && 0 <= k < |s.calls[id].previousCalls| ==>
       s.calls[id].previousCalls[k] in s.calls)
  }

  // ---------------------------------------------------------------------------
  // Matching

  /** `TCall::matchesArgs`: true when neither `With` nor `Match` was given,
      otherwise the tuple comparison or the match predicate. */
  predicate MatchesArgs(c: Call, actual: seq<Value>) {
    (c.args.None? && c.matcher.None?) ||
    (c.args.Some? && |c.args.value| == |actual| && TupleMatches(c.args.value, actual)) ||
    (c.matcher.Some? && c.matcher.value(actual))
  }

  /** `satisfied(previousCalls)`: every `After` predecessor is satisfied. */
  predicate PreviousSatisfied(calls: map<CallId, Call>, prev: seq<CallId>) {
    forall k :: 0 <= k < |prev| ==> prev[k] in calls && calls[prev[k]].satisfied
  }

  /** `MockRepository::matches`. */
  predicate Matches(calls: map<CallId, Call>, id: CallId, q: Invocation) {
    id in calls &&
    calls[id].mock == q.mock &&
    calls[id].funcIndex == q.funcno &&
    MatchesArgs(calls[id], q.args) &&
    PreviousSatisfied(calls, calls[id].previousCalls)
  }

  /** `MockRepository::isUnsatisfied`. */
  predicate IsUnsatisfied(calls: map<CallId, Call>, id: CallId, q: Invocation) {
    id in calls && !calls[id].satisfied && Matches(calls, id, q)
  }

  /** The test each of the three scans applies: expectations are only taken
      while unsatisfied. */
  predicate Hit(calls: map<CallId, Call>, id: CallId, q: Invocation, unsatisfiedOnly: bool) {
    if unsatisfiedOnly then IsUnsatisfied(calls, id, q) else Matches(calls, id, q)
  }

  /** A reverse-iterator scan: the position of the newest call that passes
      the test. */
  function LastHit(calls: map<CallId, Call>, ids: seq<CallId>, q: Invocation, unsatisfiedOnly: bool): (r: Option<nat>)
    ensures r.Some? ==> r.value < |ids| && Hit(calls, ids[r.value], q, unsatisfiedOnly)
    ensures r.Some? ==> forall j :: r.value < j < |ids| ==> !Hit(calls, ids[j], q, unsatisfiedOnly)
    ensures r.None? ==> forall j :: 0 <= j < |ids| ==> !Hit(calls, ids[j], q, unsatisfiedOnly)
    decreases |ids|
  {
    if ids == [] then None
    else if Hit(calls, ids[|ids| - 1], q, unsatisfiedOnly) then Some(|ids| - 1)
    else LastHit(calls, ids[..|ids| - 1], q, unsatisfiedOnly)
  }

  /** Which call an invocation is dispatched to. */
  datatype Target = NeverHit(id: CallId) | ExpectationHit(id: CallId) | OptionalHit(id: CallId) | NoMatch

  /** The three scans of `DoExpectation` and `DoVoidExpectation`, in their
      order: never-calls, then unsatisfied expectations, then optionals. */
  function Select(s: RepoState, q: Invocation): Target {
    match LastHit(s.calls, s.neverCalls, q, false)
    case Some(i) => NeverHit(s.neverCalls[i])
    case None =>
      match LastHit(s.calls, s.expectations, q, true)
      case Some(i) => ExpectationHit(s.expectations[i])
      case None =>
        match LastHit(s.calls, s.optionals, q, false)
        case Some(i) => OptionalHit(s.optionals[i])
        case None => NoMatch
  }

  // ---------------------------------------------------------------------------
  // Looking up names

  predicate SameFunction(calls: map<CallId, Call>, id: CallId, mock: MockId, funcno: FuncIndex) {
    id in calls && calls[id].mock == mock && calls[id].funcIndex == funcno
  }

  /** A forward scan: the position of the oldest call of the function. */
  function FirstOf(calls: map<CallId, Call>, ids: seq<CallId>, mock: MockId, funcno: FuncIndex): (r: Option<nat>)
    ensures r.Some? ==> r.value < |ids| && SameFunction(calls, ids[r.value], mock, funcno)
    ensures r.Some? ==> forall j :: 0 <= j < r.value ==> !SameFunction(calls, ids[j], mock, funcno)
    ensures r.None? ==> forall j :: 0 <= j < |ids| ==> !SameFunction(calls, ids[j], mock, funcno)
    decreases |ids|
  {
    if ids == [] then None
    else if SameFunction(calls, ids[0], mock, funcno) then Some(0)
    else match FirstOf(calls, ids[1..], mock, funcno)
      case Some(i) => Some(i + 1)
      case None => None
  }

  /** `MockRepository::funcName`: the name of the first registration of the
      function in `expectations`, else in `optionals`, else in `neverCalls`;
      None is the NULL the C++ returns when there is none. */
  function FuncName(s: RepoState, mock: MockId, funcno: FuncIndex): (r: Option<string>)
    ensures r.None? <==>
      (forall j :: 0 <= j < |s.expectations| ==> !SameFunction(s.calls, s.expectations[j], mock, funcno)) &&
      (forall j :: 0 <= j < |s.optionals| ==> !SameFunction(s.calls, s.optionals[j], mock, funcno)) &&
      (forall j :: 0 <= j < |s.neverCalls| ==> !SameFunction(s.calls, s.neverCalls[j], mock, funcno))
    ensures FirstOf(s.calls, s.expectations, mock, funcno).Some? ==>
      r == Some(s.calls[s.expectations[FirstOf(s.calls, s.expectations, mock, funcno).value]].funcName)
    ensures FirstOf(s.calls, s.expectations, mock, funcno).None? &&
            FirstOf(s.calls, s.optionals, mock, funcno).Some? ==>
      r == Some(s.calls[s.optionals[FirstOf(s.calls, s.optionals, mock, funcno).value]].funcName)
    ensures FirstOf(s.calls, s.expectations, mock, funcno).None? &&
            FirstOf(s.calls, s.optionals, mock, funcno).None? &&
            FirstOf(s.calls, s.neverCalls, mock, funcno).Some? ==>
      r == Some(s.calls[s.neverCalls[FirstOf(s.calls, s.neverCalls, mock, funcno).value]].funcName)
  {
    match FirstOf(s.calls, s.expectations, mock, funcno)
    case Some(i) => Some(s.calls[s.expectations[i]].funcName)
    case None =>
      match FirstOf(s.calls, s.optionals, mock, funcno)
      case Some(i) => Some(s.calls[s.optionals[i]].funcName)
      case None =>
        match FirstOf(s.calls, s.neverCalls, mock, funcno)
        case Some(i) => Some(s.calls[s.neverCalls[i]].funcName)
        case None => None
  }

  /** The name as the exception text streams it; a NULL name is taken as
      empty. */
  function NameText(name: Option<string>): string {
    match name
    case Some(n) => n
    case None => ""
  }

  /** Lexicographic order of `std::pair<int, int>`, the key order of the
      mock's `funcMap`. */
  predicate PairLess(a: FuncIndex, b: FuncIndex) {
    a.0 < b.0 || (a.0 == b.0 && a.1 < b.1)
  }

  /** A `std::map<std::pair<int, int>, int>` as its entries in key order. */
  predicate IsFuncMap(m: seq<(FuncIndex, int)>) {
    forall i, j :: 0 <= i < j < |m| ==> PairLess(m[i].0, m[j].0)
  }

  /** `mock::translateX`: the first key, in key order, whose value is `x + 1`;
      `(-1, 0)` when there is none. */
  function TranslateX(m: seq<(FuncIndex, int)>, x: int): (r: FuncIndex)
    ensures (forall i :: 0 <= i < |m| ==> m[i].1 != x + 1) ==> r == (-1, 0)
    ensures forall i :: 0 <= i < |m| && m[i].1 == x + 1 && (forall j :: 0 <= j < i ==> m[j].1 != x + 1) ==>
              r == m[i].0
    decreases |m|
  {
    if m == [] then (-1, 0)
    else if m[0].1 == x + 1 then m[0].0
    else TranslateX(m[1..], x)
  }

  /** Registration stores `X + 1` under the function's key; with one `X` per
      registration site, translateX gives back the key the site registered. */
  lemma TranslateXFindsRegistration(m: seq<(FuncIndex, int)>, k: nat)
    requires IsFuncMap(m)
    requires forall i, j :: 0 <= i < j < |m| ==> m[i].1 != m[j].1
    requires k < |m|
    ensures TranslateX(m, m[k].1 - 1) == m[k].0
  {
  }

  // ---------------------------------------------------------------------------
  // Printing

  /** `operator<<(ostream, const Call &)`; the mock's address is printed as
      hexadecimal after the literal "0x". */
  function CallText(c: Call): string {
    CallSubject(c) + Verdict(c)
  }

  /** Where the call was registered, what it is for, and its mock. */
  function CallSubject(c: Call): string {
    c.fileName + "(" + Text.IntToDecimal(c.lineno) + ") "
    + (if c.expectation == Once then "Expectation for " else "Result set for ")
    + c.funcName
    + (match c.args case Some(ps) => PatternsText(ps) case None => "(...)")
    + " on the mock at 0x" + Text.NatToHex(c.mock) + " was "
  }

  /** Whether the call was satisfied, and the line's end. */
  function Verdict(c: Call): string {
    (if !c.satisfied then "not " else "")
    + (if c.expectation == Once then "satisfied." else "used.") + "\n"
  }

  /** Every listed call printed in list order. */
  function CallsText(calls: map<CallId, Call>, ids: seq<CallId>): string
    decreases |ids|
  {
    if ids == [] then ""
    else CallsText(calls, ids[..|ids| - 1]) + (if ids[|ids| - 1] in calls then CallText(calls[ids[|ids| - 1]]) else "")
  }

  /** One block of the repository dump; an empty list prints nothing. */
  function Section(header: string, calls: map<CallId, Call>, ids: seq<CallId>): string {
    if ids == [] then "" else header + "\n" + CallsText(calls, ids) + "\n"
  }

  /** The titles of the three sections of the dump. */
  const ExpectationsTitle: string := "Expectations set:"
  const NeverCallsTitle: string := "Functions explicitly expected to not be called:"
  const OptionalsTitle: string := "Optional results set up:"

  /** `operator<<(ostream, const MockRepository &)`. */
  function Dump(s: RepoState): string {
    Section(ExpectationsTitle, s.calls, s.expectations)
    + Section(NeverCallsTitle, s.calls, s.neverCalls)
    + Section(OptionalsTitle, s.calls, s.optionals)
  }

  /** The line of a call ends with the verdict: an `Expect` registration is
      "satisfied." or "not satisfied.", any other "used." or "not used.". */
  lemma CallTextVerdict(c: Call)
    ensures var t := CallText(c);
            var verdict := (if !c.satisfied then "not " else "")
                           + (if c.expectation == Once then "satisfied." else "used.") + "\n";
            |verdict| <= |t| && t[|t| - |verdict|..] == verdict
  {
    var verdict := (if !c.satisfied then "not " else "")
                   + (if c.expectation == Once then "satisfied." else "used.") + "\n";
    assert verdict == Verdict(c);
    assert CallText(c) == CallSubject(c) + verdict;
  }

  /** Nothing registered, nothing dumped; and the dump only grows with the
      registrations. */
  lemma DumpEmptyIff(s: RepoState)
    ensures Dump(s) == "" <==> s.expectations == [] && s.neverCalls == [] && s.optionals == []
  {
  }

  // ---------------------------------------------------------------------------
  // Registration

  /** `addAutoExpectTo`: with `autoExpect` on, the call is ordered after the
      newest expectation. */
  function AutoExpected(s: RepoState, c: Call): Call {
    if s.autoExpect && |s.expectations| > 0
    then c.(previousCalls := c.previousCalls + [s.expectations[|s.expectations| - 1]])
    else c
  }

  /** `addCall(call, expect)`: `Never` to `neverCalls`, an exact count to
      `expectations` (both ordered after the newest expectation when
      `autoExpect` is on), anything else to `optionals`. */
  function AddCall(s: RepoState, id: CallId, c: Call, reg: RegistrationType): RepoState {
    if reg == Never then
      s.(neverCalls := s.neverCalls + [id], calls := s.calls[id := AutoExpected(s, c)])
    else if reg.minimum == reg.maximum then
      s.(expectations := s.expectations + [id], calls := s.calls[id := AutoExpected(s, c)])
    else
      s.(optionals := s.optionals + [id], calls := s.calls[id := c])
  }

  // ---------------------------------------------------------------------------
  // Dispatch

  /** How a dispatch ends: the mocked function returns (with a value on the
      returning path), raises one of the library's exceptions, or rethrows
      the exception the registration was given with `Throw`. */
  datatype Outcome = Completed(value: Option<Value>) | Raised(error: MockException) | UserThrown(thrown: Value)

  /** The repository, the caller's arguments and the `In` variables after a
      dispatch, and how it ended. */
  datatype Step = Step(state: RepoState, outcome: Outcome, args: seq<Value>, cells: seq<Value>)

  /** `doCall`'s counting: `called` goes up by one and the call is satisfied
      once it reached its minimum. */
  function Performed(c: Call): Call
    requires c.called < c.expectation.maximum
  {
    c.(called := c.called + 1, satisfied := c.called + 1 >= c.expectation.minimum)
  }

  /** `call->getArgs()` as printed into an exception. */
  function StoredArgsText(c: Call): Option<string> {
    match c.args
    case Some(ps) => Some(PatternsText(ps))
    case None => None
  }

  /** Every `In` of the call's pattern names one of `n` variables. */
  predicate CellsFit(c: Call, n: nat) {
    c.args.Some? ==> forall i :: 0 <= i < |c.args.value| && c.args.value[i].In? ==> c.args.value[i].cell < n
  }

  predicate AllCellsFit(calls: map<CallId, Call>, n: nat) {
    forall id :: id in calls ==> CellsFit(calls[id], n)
  }

  /** The caller's arguments after `assignArgs` (its `assign_to` half). */
  function ArgsAfter(c: Call, actual: seq<Value>): seq<Value> {
    if c.args.Some? && |c.args.value| == |actual| then AssignedTo(c.args.value, actual) else actual
  }

  /** The `In` variables after `assignArgs` (its `assign_from` half, which
      reads the arguments `assign_to` has just written). */
  function CellsAfter(c: Call, actual: seq<Value>, cells: seq<Value>): seq<Value>
    requires CellsFit(c, |cells|)
  {
    if c.args.Some? && |c.args.value| == |actual|
    then AssignedFrom(c.args.value, ArgsAfter(c, actual), cells)
    else cells
  }

  /** `doReturnFunctor`: the `Do` functor runs first; a `Return` value wins
      over its result; with neither, `NoResultSetUpException`.  `s` is the
      state after the call was counted, which the exception's dump shows. */
  function ReturnValue(s: RepoState, c: Call, actual: seq<Value>): Outcome {
    if c.functor.Some? && c.retVal.None? then Completed(Some(c.functor.value(actual)))
    else if c.retVal.Some? then Completed(c.retVal)
    else Raised(NoResultSetUpError(Dump(s), StoredArgsText(c), c.funcName))
  }

  /** `doReturnCall`. */
  function ReturnCall(s: RepoState, id: CallId, actual: seq<Value>, cells: seq<Value>): Step
    requires id in s.calls && CellsFit(s.calls[id], |cells|)
  {
    var c := s.calls[id];
    if c.called < c.expectation.maximum then
      var s' := s.(calls := s.calls[id := Performed(c)]);
      var args' := ArgsAfter(c, actual);
      var cells' := CellsAfter(c, actual, cells);
      if c.userThrow.Some? then Step(s', UserThrown(c.userThrow.value), args', cells')
      else Step(s', ReturnValue(s', c, args'), args', cells')
    else
      Step(s, Raised(ExpectationError(Dump(s), StoredArgsText(c), c.funcName)), actual, cells)
  }

  /** `RAISELATENTEXCEPTION(e)`: while another exception is unwinding the
      stack (`std::uncaught_exception()`), `e` becomes the latent exception
      and the function returns; otherwise `e` is thrown. */
  function RaiseLatent(s: RepoState, e: MockException, unwinding: bool): (RepoState, Outcome) {
    if unwinding then (s.(latent := Some(e)), Completed(None)) else (s, Raised(e))
  }

  /** The raise that `doThrow` and the mismatch branch of
      `DoVoidExpectation` share: with `makeLatent`, nothing when a latent
      exception is already pending and `RAISELATENTEXCEPTION` otherwise;
      without it, `RAISEEXCEPTION`. */
  function RaiseAs(s: RepoState, e: MockException, makeLatent: bool, unwinding: bool): (RepoState, Outcome) {
    if makeLatent then
      if s.latent.Some? then (s, Completed(None)) else RaiseLatent(s, e, unwinding)
    else (s, Raised(e))
  }

  /** `doThrow(call, makeLatent)`: the call is marked satisfied, then an
      `ExpectationException` is raised -- latently, and not at all when a
      latent exception is already pending, if `makeLatent`. */
  function DoThrow(s: RepoState, id: CallId, makeLatent: bool, unwinding: bool): (RepoState, Outcome)
    requires id in s.calls
  {
    var c := s.calls[id];
    var s' := s.(calls := s.calls[id := c.(satisfied := true)]);
    RaiseAs(s', ExpectationError(Dump(s'), StoredArgsText(c), c.funcName), makeLatent, unwinding)
  }

  /** `doVoidCall`. */
  function VoidCall(s: RepoState, id: CallId, actual: seq<Value>, cells: seq<Value>, makeLatent: bool, unwinding: bool): Step
    requires id in s.calls && CellsFit(s.calls[id], |cells|)
  {
    var c := s.calls[id];
    if c.called < c.expectation.maximum then
      var s' := s.(calls := s.calls[id := Performed(c)]);
      var args' := ArgsAfter(c, actual);
      var cells' := CellsAfter(c, actual, cells);
      if c.userThrow.Some? then Step(s', UserThrown(c.userThrow.value), args', cells')
      else Step(s', Completed(None), args', cells')
    else
      var (s', o) := DoThrow(s, id, makeLatent, unwinding);
      Step(s', o, actual, cells)
  }

  /** The exception for an invocation nothing matches. */
  function Unmatched(s: RepoState, q: Invocation): MockException {
    ExpectationError(Dump(s), Some(ArgsText(q.args)), NameText(FuncName(s, q.mock, q.funcno)))
  }

  /** The never-call branch of `DoExpectation`: the call is marked
      satisfied and an `ExpectationException` naming it is raised. */
  function NeverCalled(s: RepoState, id: CallId): (RepoState, Outcome)
    requires id in s.calls
  {
    var c := s.calls[id];
    var s' := s.(calls := s.calls[id := c.(satisfied := true)]);
    (s', Raised(ExpectationError(Dump(s'), StoredArgsText(c), c.funcName)))
  }

  /** The last branch of `DoVoidExpectation`, reached when nothing matches. */
  function Mismatch(s: RepoState, q: Invocation, makeLatent: bool, unwinding: bool): (RepoState, Outcome) {
    RaiseAs(s, Unmatched(s, q), makeLatent, unwinding)
  }

  /** `DoExpectation<Z>`: the dispatch of a function that returns a value. */
  function Expect(s: RepoState, q: Invocation, cells: seq<Value>): Step
    requires Valid(s) && AllCellsFit(s.calls, |cells|)
  {
    match Select(s, q)
    case NeverHit(id) =>
      var (s', o) := NeverCalled(s, id);
      Step(s', o, q.args, cells)
    case ExpectationHit(id) => ReturnCall(s, id, q.args, cells)
    case OptionalHit(id) => ReturnCall(s, id, q.args, cells)
    case NoMatch => Step(s, Raised(Unmatched(s, q)), q.args, cells)
  }

  /** `DoVoidExpectation`: the dispatch of a void function; `makeLatent` is
      set by the mocked destructor. */
  function ExpectVoid(s: RepoState, q: Invocation, cells: seq<Value>, makeLatent: bool, unwinding: bool): Step
    requires Valid(s) && AllCellsFit(s.calls, |cells|)
  {
    match Select(s, q)
    case NeverHit(id) =>
      var (s', o) := DoThrow(s, id, makeLatent, unwinding);
      Step(s', o, q.args, cells)
    case ExpectationHit(id) => VoidCall(s, id, q.args, cells, makeLatent, unwinding)
    case OptionalHit(id) => VoidCall(s, id, q.args, cells, makeLatent, unwinding)
    case NoMatch =>
      var (s', o) := Mismatch(s, q, makeLatent, unwinding);
      Step(s', o, q.args, cells)
  }

  // ---------------------------------------------------------------------------
  // Verification

  predicate SomeExpectationUnsatisfied(s: RepoState) {
    exists i :: 0 <= i < |s.expectations| && s.expectations[i] in s.calls && !s.calls[s.expectations[i]].satisfied
  }

  /** `VerifyAll`. */
  function VerifyAllOutcome(s: RepoState): Outcome {
    if s.latent.Some? then Raised(s.latent.value)
    else if SomeExpectationUnsatisfied(s) then Raised(CallMissingError(Dump(s)))
    else Completed(None)
  }

  predicate SomeUnsatisfiedOn(s: RepoState, obj: MockId) {
    exists i :: 0 <= i < |s.expectations| && s.expectations[i] in s.calls &&
      s.calls[s.expectations[i]].mock == obj && !s.calls[s.expectations[i]].satisfied
  }

  /** `VerifyPartial(obj)`, run when a mock is destroyed. */
  function VerifyPartialStep(s: RepoState, obj: MockId, unwinding: bool): (RepoState, Outcome) {
    if s.latent.Some? || !SomeUnsatisfiedOn(s, obj) then (s, Completed(None))
    else RaiseLatent(s, CallMissingError(Dump(s)), unwinding)
  }

  /** `mock::mockedDestructor`: the destructor is dispatched as a void call
      with `makeLatent` set, and unless that throws, the mock's expectations
      are checked by `VerifyPartial`. */
  function Destroyed(s: RepoState, mock: MockId, funcMap: seq<(FuncIndex, int)>, x: int,
                     cells: seq<Value>, unwinding: bool): (RepoState, Outcome)
    requires Valid(s) && AllCellsFit(s.calls, |cells|)
  {
    var st := ExpectVoid(s, Invocation(mock, TranslateX(funcMap, x), []), cells, true, unwinding);
    if st.outcome.Completed? then VerifyPartialStep(st.state, mock, unwinding) else (st.state, st.outcome)
  }

  /** `BasicStaticRegisterExpect`'s bookkeeping: a function pointer keeps the
      `X` of its first registration, and the stored value is returned. */
  function StaticRegister(m: map<nat, int>, func: nat, x: int): (map<nat, int>, int) {
    if func in m then (m, m[func]) else (m[func := x], x)
  }

  /** `reset`: all three lists emptied and their calls deleted. */
  function Reset(s: RepoState): RepoState {
    s.(neverCalls := [], expectations := [], optionals := [], calls := map[])
  }
}
