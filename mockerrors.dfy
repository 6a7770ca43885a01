/** The exception classes of detail/exceptions.h.  Each constructor builds its
    message by streaming pieces into a `stringstream`, which amounts to string
    concatenation; `std::endl` contributes "\n".  The repository dump that
    every message ends with (`text << *repo`) is passed in as `dump`, already
    rendered, and a tuple that is printed is passed in already rendered by its
    `printTo` (None for a null tuple pointer). */
module MockErrors {
  import opened Wrappers

  datatype Kind = Expectation | NotImplemented | CallMissing | ZombieMock | NoResultSetUp

  /** A `BaseException`: the concrete class and the text `txt` it stores. */
  datatype MockException = MockException(kind: Kind, txt: string)

  /** `BaseException::what()`. */
  function What(e: MockException): string {
    e.txt
  }

  /** A printed tuple, or `(...)` in place of a null one. */
  function TupleText(tuple: Option<string>): string {
    match tuple
    case Some(t) => t
    case None => "(...)"
  }

  function ExpectationHeader(funcName: string, tuple: Option<string>): string {
    "Function " + funcName + TupleText(tuple) + " called with mismatching expectation!"
  }

  function NoResultSetUpHeader(funcName: string, tuple: Option<string>): string {
    "No result set up on call to " + funcName + TupleText(tuple)
  }

  const CallMissingHeader: string := "Function with expectation not called!"
  const NotImplementedHeader: string := "Function called without expectation!"
  /** Kept in pieces: the lemmas below show each piece is newline-free. */
  const ZombieMockHeader: string := "Function called " + "on mock that has " + "already been destroyed!"

  /** `ExpectationException(repo, tuple, funcName)`. */
  function ExpectationError(dump: string, tuple: Option<string>, funcName: string): MockException {
    MockException(Expectation, ExpectationHeader(funcName, tuple) + "\n" + dump)
  }

  /** `NoResultSetUpException(repo, tuple, funcName)`. */
  function NoResultSetUpError(dump: string, tuple: Option<string>, funcName: string): MockException {
    MockException(NoResultSetUp, NoResultSetUpHeader(funcName, tuple) + "\n" + dump)
  }

  /** `CallMissingException(repo)`. */
  function CallMissingError(dump: string): MockException {
    MockException(CallMissing, CallMissingHeader + "\n" + dump)
  }

  /** `NotImplementedException(repo)`. */
  function NotImplementedError(dump: string): MockException {
    MockException(NotImplemented, NotImplementedHeader + "\n" + dump)
  }

  /** `ZombieMockException(repo)`. */
  function ZombieMockError(dump: string): MockException {
    MockException(ZombieMock, ZombieMockHeader + "\n" + dump)
  }

  // ---------------------------------------------------------------------------
  // Reading a message back

  /** The text before the first newline. */
  function FirstLine(s: string): (r: string)
    ensures r <= s
    ensures '\n' !in r
    ensures |r| < |s| ==> s[|r|] == '\n'
    decreases |s|
  {
    if s == [] || s[0] == '\n' then [] else [s[0]] + FirstLine(s[1..])
  }

  /** The text after the first newline. */
  function Rest(s: string): string {
    var h := FirstLine(s);
    if |h| < |s| then s[|h| + 1..] else []
  }

  /** Splitting `header + "\n" + body` at its first newline gives the header
      and the body back, when the header has no newline of its own. */
  lemma {:induction false} SplitAtFirstNewline(header: string, body: string)
    requires '\n' !in header
    ensures FirstLine(header + "\n" + body) == header
    ensures Rest(header + "\n" + body) == body
    decreases |header|
  {
    var s := header + "\n" + body;
    if header != [] {
      assert s[1..] == header[1..] + "\n" + body;
      SplitAtFirstNewline(header[1..], body);
    }
    assert s[|header| + 1..] == body;
  }

  lemma NoNewlineInConcat(a: string, b: string)
    requires '\n' !in a && '\n' !in b
    ensures '\n' !in a + b
  {
    assert forall i :: 0 <= i < |a + b| ==> (a + b)[i] == if i < |a| then a[i] else b[i - |a|];
  }

  /** Every message is one header line followed by the repository dump: the
      first line of `what()` names the failure, with the function and its
      printed arguments or `(...)`, and the rest is exactly the dump. */
  lemma ExpectationMessage(dump: string, tuple: Option<string>, funcName: string)
    requires '\n' !in funcName && '\n' !in TupleText(tuple)
    ensures FirstLine(What(ExpectationError(dump, tuple, funcName))) == ExpectationHeader(funcName, tuple)
    ensures Rest(What(ExpectationError(dump, tuple, funcName))) == dump
  {
    var t := TupleText(tuple);
    NoNewlineInConcat("Function ", funcName);
    NoNewlineInConcat("Function " + funcName, t);
    NoNewlineInConcat("Function " + funcName + t, " called with mismatching expectation!");
    SplitAtFirstNewline(ExpectationHeader(funcName, tuple), dump);
  }

  lemma NoResultSetUpMessage(dump: string, tuple: Option<string>, funcName: string)
    requires '\n' !in funcName && '\n' !in TupleText(tuple)
    ensures FirstLine(What(NoResultSetUpError(dump, tuple, funcName))) == NoResultSetUpHeader(funcName, tuple)
    ensures Rest(What(NoResultSetUpError(dump, tuple, funcName))) == dump
  {
    var t := TupleText(tuple);
    NoNewlineInConcat("No result set up on call to ", funcName);
    NoNewlineInConcat("No result set up on call to " + funcName, t);
    SplitAtFirstNewline(NoResultSetUpHeader(funcName, tuple), dump);
  }

  /** The messages with a fixed header line: the header, then the dump. */
  lemma CallMissingMessage(dump: string)
    ensures FirstLine(What(CallMissingError(dump))) == CallMissingHeader
    ensures Rest(What(CallMissingError(dump))) == dump
  {
    SplitAtFirstNewline(CallMissingHeader, dump);
  }

  lemma NotImplementedMessage(dump: string)
    ensures FirstLine(What(NotImplementedError(dump))) == NotImplementedHeader
    ensures Rest(What(NotImplementedError(dump))) == dump
  {
    SplitAtFirstNewline(NotImplementedHeader, dump);
  }

  lemma ZombieMockMessage(dump: string)
    ensures FirstLine(What(ZombieMockError(dump))) == ZombieMockHeader
    ensures Rest(What(ZombieMockError(dump))) == dump
  {
    NoNewlineInConcat("Function called ", "on mock that has ");
    NoNewlineInConcat("Function called " + "on mock that has ", "already been destroyed!");
    SplitAtFirstNewline(ZombieMockHeader, dump);
  }
}
