/** What the expectation engine of HippoMocks/hippomocks.h promises, proved
    about the functions of module MockCalls. */
module MockProperties {
  import opened Wrappers
  import opened ArgTuple
  import opened MockErrors
  import opened MockCalls

  /** The target's call, when there is one. */
  predicate Targets(t: Target, id: CallId) {
    !t.NoMatch? && t.id == id
  }

  /** Dispatch order: a matching never-call wins over everything; an
      expectation is taken only when no never-call matches, and it is the
      newest unsatisfied matching one; an optional only when nothing before
      it applies, and it is the newest matching one. */
  lemma SelectOrder(s: RepoState, q: Invocation)
    ensures Select(s, q).NeverHit? <==> exists k :: 0 <= k < |s.neverCalls| && Matches(s.calls, s.neverCalls[k], q)
    ensures Select(s, q).NeverHit? ==>
      exists k :: 0 <= k < |s.neverCalls| && s.neverCalls[k] == Select(s, q).id && Matches(s.calls, s.neverCalls[k], q)
    ensures Select(s, q).ExpectationHit? ==>
      exists k :: 0 <= k < |s.expectations| && s.expectations[k] == Select(s, q).id &&
        IsUnsatisfied(s.calls, s.expectations[k], q) &&
        forall j :: k < j < |s.expectations| ==> !IsUnsatisfied(s.calls, s.expectations[j], q)
    ensures Select(s, q).OptionalHit? ==>
      (forall j :: 0 <= j < |s.expectations| ==> !IsUnsatisfied(s.calls, s.expectations[j], q)) &&
      exists k :: 0 <= k < |s.optionals| && s.optionals[k] == Select(s, q).id &&
        Matches(s.calls, s.optionals[k], q) &&
        forall j :: k < j < |s.optionals| ==> !Matches(s.calls, s.optionals[j], q)
  {
    var n := LastHit(s.calls, s.neverCalls, q, false);
    if n.None? {
      var e := LastHit(s.calls, s.expectations, q, true);
      if e.Some? {
        assert s.expectations[e.value] == Select(s, q).id;
      } else {
        var o := LastHit(s.calls, s.optionals, q, false);
        if o.Some? {
          assert s.optionals[o.value] == Select(s, q).id;
        }
      }
    } else {
      assert s.neverCalls[n.value] == Select(s, q).id;
    }
  }

  /** An invocation falls through to the mismatch error exactly when no
      never-call, no unsatisfied expectation and no optional matches it. */
  lemma NoMatchIff(s: RepoState, q: Invocation)
    ensures Select(s, q) == NoMatch <==>
      (forall j :: 0 <= j < |s.neverCalls| ==> !Matches(s.calls, s.neverCalls[j], q)) &&
      (forall j :: 0 <= j < |s.expectations| ==> !IsUnsatisfied(s.calls, s.expectations[j], q)) &&
      (forall j :: 0 <= j < |s.optionals| ==> !Matches(s.calls, s.optionals[j], q))
  {
    var n := LastHit(s.calls, s.neverCalls, q, false);
    var e := LastHit(s.calls, s.expectations, q, true);
    var o := LastHit(s.calls, s.optionals, q, false);
    if n.Some? {
      assert Matches(s.calls, s.neverCalls[n.value], q);
    } else if e.Some? {
      assert IsUnsatisfied(s.calls, s.expectations[e.value], q);
    } else if o.Some? {
      assert Matches(s.calls, s.optionals[o.value], q);
    }
  }

  /** The selected call is registered. */
  lemma SelectedIsRegistered(s: RepoState, q: Invocation)
    requires Valid(s)
    ensures !Select(s, q).NoMatch? ==> Select(s, q).id in s.calls
  {
    SelectOrder(s, q);
  }

  /** Changing one registered call in a way that keeps its predecessors
      registered and stays within its maximum keeps the repository well
      formed. */
  lemma UpdateKeepsValid(s: RepoState, id: CallId, c: Call)
    requires Valid(s) && id in s.calls
    requires forall k :: 0 <= k < |c.previousCalls| ==> c.previousCalls[k] in s.calls
    requires c.called <= c.expectation.maximum
    ensures Valid(s.(calls := s.calls[id := c]))
  {
    var s' := s.(calls := s.calls[id := c]);
    forall i, k | i in s'.calls && 0 <= k < |s'.calls[i].previousCalls|
      ensures s'.calls[i].previousCalls[k] in s'.calls
    {
      if i != id {
        assert s'.calls[i] == s.calls[i];
      }
    }
  }

  /** Marking one registered call satisfied keeps the repository well
      formed. */
  lemma SatisfiedKeepsValid(s: RepoState, id: CallId)
    requires Valid(s) && id in s.calls
    ensures Valid(s.(calls := s.calls[id := s.calls[id].(satisfied := true)]))
  {
    UpdateKeepsValid(s, id, s.calls[id].(satisfied := true));
  }

  /** Performing one registered call below its maximum keeps the
      repository well formed. */
  lemma PerformedKeepsValid(s: RepoState, id: CallId)
    requires Valid(s) && id in s.calls && s.calls[id].called < s.calls[id].expectation.maximum
    ensures Valid(s.(calls := s.calls[id := Performed(s.calls[id])]))
  {
    UpdateKeepsValid(s, id, Performed(s.calls[id]));
  }

  /** What `doThrow`, `doReturnCall` and `doVoidCall` change: the one call
      they were given, and for `doThrow` the latent exception. */
  lemma DoThrowFrame(s: RepoState, id: CallId, makeLatent: bool, unwinding: bool)
    requires Valid(s) && id in s.calls
    ensures var s' := DoThrow(s, id, makeLatent, unwinding).0;
      Valid(s') && s'.calls == s.calls[id := s.calls[id].(satisfied := true)] &&
      s'.neverCalls == s.neverCalls && s'.expectations == s.expectations &&
      s'.optionals == s.optionals && s'.autoExpect == s.autoExpect
  {
    var c := s.calls[id];
    var marked := s.(calls := s.calls[id := c.(satisfied := true)]);
    var e := ExpectationError(Dump(marked), StoredArgsText(c), c.funcName);
    SatisfiedKeepsValid(s, id);
    RaiseAsOnlyLatent(marked, e, makeLatent, unwinding);
    assert DoThrow(s, id, makeLatent, unwinding) == RaiseAs(marked, e, makeLatent, unwinding);
  }

  lemma ReturnCallFrame(s: RepoState, id: CallId, actual: seq<Value>, cells: seq<Value>)
    requires Valid(s) && id in s.calls && CellsFit(s.calls[id], |cells|)
    ensures var s' := ReturnCall(s, id, actual, cells).state;
      Valid(s') && s'.calls.Keys == s.calls.Keys &&
      (forall i :: i in s.calls && i != id ==> s'.calls[i] == s.calls[i]) &&
      s'.neverCalls == s.neverCalls && s'.expectations == s.expectations &&
      s'.optionals == s.optionals && s'.autoExpect == s.autoExpect && s'.latent == s.latent
  {
    var c := s.calls[id];
    if c.called < c.expectation.maximum {
      PerformedKeepsValid(s, id);
    }
  }

  /** Only the call `id` may have changed, and the repository is still
      well formed; the latent exception is not constrained. */
  ghost predicate CallFramed(s: RepoState, s': RepoState, id: CallId) {
    Valid(s') && s'.calls.Keys == s.calls.Keys &&
    (forall i :: i in s.calls && i != id ==> s'.calls[i] == s.calls[i]) &&
    s'.neverCalls == s.neverCalls && s'.expectations == s.expectations &&
    s'.optionals == s.optionals && s'.autoExpect == s.autoExpect
  }

  lemma VoidCallFrame(s: RepoState, id: CallId, actual: seq<Value>, cells: seq<Value>, makeLatent: bool, unwinding: bool)
    requires Valid(s) && id in s.calls && CellsFit(s.calls[id], |cells|)
    ensures CallFramed(s, VoidCall(s, id, actual, cells, makeLatent, unwinding).state, id)
  {
    var c := s.calls[id];
    if c.called < c.expectation.maximum {
      PerformedKeepsValid(s, id);
      VoidCallPerforms(s, id, actual, cells, makeLatent, unwinding);
      UpdateFramed(s, id, Performed(c));
    } else {
      VoidCallThrows(s, id, actual, cells, makeLatent, unwinding);
      DoThrowCallFramed(s, id, makeLatent, unwinding);
    }
  }

  /** Replacing the call `id` by a call the repository stays well formed
      with changes only that call. */
  lemma UpdateFramed(s: RepoState, id: CallId, c: Call)
    requires id in s.calls && Valid(s.(calls := s.calls[id := c]))
    ensures CallFramed(s, s.(calls := s.calls[id := c]), id)
  {
  }

  lemma DoThrowCallFramed(s: RepoState, id: CallId, makeLatent: bool, unwinding: bool)
    requires Valid(s) && id in s.calls
    ensures CallFramed(s, DoThrow(s, id, makeLatent, unwinding).0, id)
  {
    DoThrowFrame(s, id, makeLatent, unwinding);
  }

  /** Below its maximum, `doVoidCall` leaves the call performed. */
  lemma VoidCallPerforms(s: RepoState, id: CallId, actual: seq<Value>, cells: seq<Value>, makeLatent: bool, unwinding: bool)
    requires id in s.calls && CellsFit(s.calls[id], |cells|)
    requires s.calls[id].called < s.calls[id].expectation.maximum
    ensures VoidCall(s, id, actual, cells, makeLatent, unwinding).state == s.(calls := s.calls[id := Performed(s.calls[id])])
  {
  }

  /** At its maximum, `doVoidCall` is `doThrow`. */
  lemma VoidCallThrows(s: RepoState, id: CallId, actual: seq<Value>, cells: seq<Value>, makeLatent: bool, unwinding: bool)
    requires id in s.calls && CellsFit(s.calls[id], |cells|)
    requires s.calls[id].called >= s.calls[id].expectation.maximum
    ensures VoidCall(s, id, actual, cells, makeLatent, unwinding).state == DoThrow(s, id, makeLatent, unwinding).0
  {
  }

  /** The mismatch branch changes at most the latent exception. */
  lemma MismatchOnlyLatent(s: RepoState, q: Invocation, makeLatent: bool, unwinding: bool)
    ensures var s' := Mismatch(s, q, makeLatent, unwinding).0;
      s' == s.(latent := s'.latent)
  {
    RaiseAsOnlyLatent(s, Unmatched(s, q), makeLatent, unwinding);
  }

  /** Raising, latently or not, changes at most the latent exception. */
  lemma RaiseAsOnlyLatent(s: RepoState, e: MockException, makeLatent: bool, unwinding: bool)
    ensures var s' := RaiseAs(s, e, makeLatent, unwinding).0;
      s' == s.(latent := s'.latent)
  {
    if makeLatent && s.latent.None? && unwinding {
      assert RaiseAs(s, e, makeLatent, unwinding).0 == s.(latent := Some(e));
    }
  }

  /** The state a dispatch leaves: the repository is still well formed --
      in particular no call is ever counted past its maximum -- the three
      lists, `autoExpect` and the set of calls are unchanged, and no call but
      the selected one has changed. */
  ghost predicate FramedStep(s: RepoState, s': RepoState, t: Target) {
    Valid(s') && s'.calls.Keys == s.calls.Keys &&
    (forall i :: i in s.calls && !Targets(t, i) ==> s'.calls[i] == s.calls[i]) &&
    s'.neverCalls == s.neverCalls && s'.expectations == s.expectations &&
    s'.optionals == s.optionals && s'.autoExpect == s.autoExpect
  }

  /** The never-call branch only marks its call satisfied. */
  lemma NeverCalledFrame(s: RepoState, id: CallId)
    requires Valid(s) && id in s.calls
    ensures FramedStep(s, NeverCalled(s, id).0, NeverHit(id)) && NeverCalled(s, id).0.latent == s.latent
  {
    SatisfiedKeepsValid(s, id);
    var marked := s.(calls := s.calls[id := s.calls[id].(satisfied := true)]);
    UpdateFramed(s, id, s.calls[id].(satisfied := true));
    CallFramedIsFramed(s, marked, NeverHit(id));
    assert NeverCalled(s, id).0 == marked;
  }

  lemma ExpectNeverStep(s: RepoState, q: Invocation, cells: seq<Value>)
    requires Valid(s) && AllCellsFit(s.calls, |cells|) && Select(s, q).NeverHit?
    ensures FramedStep(s, Expect(s, q, cells).state, Select(s, q)) && Expect(s, q, cells).state.latent == s.latent
  {
    SelectedIsRegistered(s, q);
    var id := Select(s, q).id;
    NeverCalledFrame(s, id);
    assert Expect(s, q, cells).state == NeverCalled(s, id).0;
  }

  lemma ExpectCallStep(s: RepoState, q: Invocation, cells: seq<Value>)
    requires Valid(s) && AllCellsFit(s.calls, |cells|) && (Select(s, q).ExpectationHit? || Select(s, q).OptionalHit?)
    ensures FramedStep(s, Expect(s, q, cells).state, Select(s, q)) && Expect(s, q, cells).state.latent == s.latent
  {
    SelectedIsRegistered(s, q);
    var id := Select(s, q).id;
    ReturnCallFrame(s, id, q.args, cells);
    assert Expect(s, q, cells) == ReturnCall(s, id, q.args, cells);
  }

  /** A returning dispatch is a framed step that leaves the latent exception
      alone. */
  lemma ExpectFrame(s: RepoState, q: Invocation, cells: seq<Value>)
    requires Valid(s) && AllCellsFit(s.calls, |cells|)
    ensures FramedStep(s, Expect(s, q, cells).state, Select(s, q))
    ensures Expect(s, q, cells).state.latent == s.latent
  {
    var t := Select(s, q);
    if t.NeverHit? {
      ExpectNeverStep(s, q, cells);
    } else if !t.NoMatch? {
      ExpectCallStep(s, q, cells);
    }
  }

  /** `doThrow` only marks its call satisfied, besides the latent
      exception. */
  lemma DoThrowFramed(s: RepoState, id: CallId, makeLatent: bool, unwinding: bool)
    requires Valid(s) && id in s.calls
    ensures FramedStep(s, DoThrow(s, id, makeLatent, unwinding).0, NeverHit(id))
  {
    DoThrowCallFramed(s, id, makeLatent, unwinding);
    CallFramedIsFramed(s, DoThrow(s, id, makeLatent, unwinding).0, NeverHit(id));
  }

  lemma ExpectVoidNeverStep(s: RepoState, q: Invocation, cells: seq<Value>, makeLatent: bool, unwinding: bool)
    requires Valid(s) && AllCellsFit(s.calls, |cells|) && Select(s, q).NeverHit?
    ensures FramedStep(s, ExpectVoid(s, q, cells, makeLatent, unwinding).state, Select(s, q))
  {
    SelectedIsRegistered(s, q);
    var id := Select(s, q).id;
    DoThrowFramed(s, id, makeLatent, unwinding);
    assert ExpectVoid(s, q, cells, makeLatent, unwinding).state == DoThrow(s, id, makeLatent, unwinding).0;
  }

  /** The mismatch branch changes at most the latent exception. */
  lemma ExpectVoidNoMatchStep(s: RepoState, q: Invocation, cells: seq<Value>, makeLatent: bool, unwinding: bool)
    requires Valid(s) && AllCellsFit(s.calls, |cells|) && Select(s, q).NoMatch?
    ensures FramedStep(s, ExpectVoid(s, q, cells, makeLatent, unwinding).state, Select(s, q))
  {
    var s' := Mismatch(s, q, makeLatent, unwinding).0;
    MismatchOnlyLatent(s, q, makeLatent, unwinding);
    LatentIsFramed(s, s'.latent, Select(s, q));
    assert ExpectVoid(s, q, cells, makeLatent, unwinding).state == s';
  }

  /** Setting the latent exception alone is a framed step. */
  lemma LatentIsFramed(s: RepoState, latent: Option<MockException>, t: Target)
    requires Valid(s)
    ensures FramedStep(s, s.(latent := latent), t)
  {
  }

  lemma ExpectVoidCallStep(s: RepoState, q: Invocation, cells: seq<Value>, makeLatent: bool, unwinding: bool)
    requires Valid(s) && AllCellsFit(s.calls, |cells|) && (Select(s, q).ExpectationHit? || Select(s, q).OptionalHit?)
    ensures FramedStep(s, ExpectVoid(s, q, cells, makeLatent, unwinding).state, Select(s, q))
  {
    SelectedIsRegistered(s, q);
    var id := Select(s, q).id;
    VoidCallFrame(s, id, q.args, cells, makeLatent, unwinding);
    assert ExpectVoid(s, q, cells, makeLatent, unwinding) == VoidCall(s, id, q.args, cells, makeLatent, unwinding);
    CallFramedIsFramed(s, VoidCall(s, id, q.args, cells, makeLatent, unwinding).state, Select(s, q));
  }

  /** A change to the selected call alone is a framed step. */
  lemma CallFramedIsFramed(s: RepoState, s': RepoState, t: Target)
    requires !t.NoMatch? && CallFramed(s, s', t.id)
    ensures FramedStep(s, s', t)
  {
  }

  /** A void dispatch is a framed step too; it may set the latent
      exception. */
  lemma ExpectVoidFrame(s: RepoState, q: Invocation, cells: seq<Value>, makeLatent: bool, unwinding: bool)
    requires Valid(s) && AllCellsFit(s.calls, |cells|)
    ensures FramedStep(s, ExpectVoid(s, q, cells, makeLatent, unwinding).state, Select(s, q))
  {
    var t := Select(s, q);
    if t.NeverHit? {
      ExpectVoidNeverStep(s, q, cells, makeLatent, unwinding);
    } else if !t.NoMatch? {
      ExpectVoidCallStep(s, q, cells, makeLatent, unwinding);
    } else {
      ExpectVoidNoMatchStep(s, q, cells, makeLatent, unwinding);
    }
  }

  /** A matching never-call makes the function throw an
      `ExpectationException` naming that registration, and marks it
      satisfied; nothing else about the repository changes. */
  lemma NeverCallThrows(s: RepoState, q: Invocation, cells: seq<Value>, k: nat)
    requires Valid(s) && AllCellsFit(s.calls, |cells|)
    requires k < |s.neverCalls| && Matches(s.calls, s.neverCalls[k], q)
    ensures var t := Select(s, q);
      var st := Expect(s, q, cells);
      t.NeverHit? && st.outcome.Raised? && st.outcome.error.kind == Expectation &&
      st.state.calls == s.calls[t.id := s.calls[t.id].(satisfied := true)] &&
      st.args == q.args && st.cells == cells
  {
    SelectOrder(s, q);
  }

  /** Performing a call below its maximum counts it, makes it satisfied
      exactly when the count reached its minimum, writes the `Out` values
      into the arguments and copies the `In` arguments out. */
  lemma PerformedCall(s: RepoState, q: Invocation, cells: seq<Value>)
    requires Valid(s) && AllCellsFit(s.calls, |cells|)
    requires Select(s, q).ExpectationHit? || Select(s, q).OptionalHit?
    requires s.calls[Select(s, q).id].called < s.calls[Select(s, q).id].expectation.maximum
    ensures var id := Select(s, q).id;
      var c := s.calls[id];
      var st := Expect(s, q, cells);
      st.state.calls[id].called == c.called + 1 &&
      (st.state.calls[id].satisfied <==> c.called + 1 >= c.expectation.minimum) &&
      st.state.calls == s.calls[id := Performed(c)] &&
      st.args == ArgsAfter(c, q.args) && st.cells == CellsAfter(c, q.args, cells)
  {
    SelectedIsRegistered(s, q);
    var id := Select(s, q).id;
    var c := s.calls[id];
    var st := ReturnCall(s, id, q.args, cells);
    assert Expect(s, q, cells) == st;
    assert st.state == s.(calls := s.calls[id := Performed(c)]);
    assert st.args == ArgsAfter(c, q.args) && st.cells == CellsAfter(c, q.args, cells);
  }

  /** The result of a returning call: a `Throw` exception is rethrown, a
      `Return` value is returned (even when a `Do` functor is also set), a
      `Do` functor's result is returned when there is no `Return`, and with
      neither the call raises `NoResultSetUpException`. */
  lemma ReturnedValue(s: RepoState, q: Invocation, cells: seq<Value>)
    requires Valid(s) && AllCellsFit(s.calls, |cells|)
    requires Select(s, q).ExpectationHit? || Select(s, q).OptionalHit?
    requires s.calls[Select(s, q).id].called < s.calls[Select(s, q).id].expectation.maximum
    ensures var c := s.calls[Select(s, q).id];
      var o := Expect(s, q, cells).outcome;
      (c.userThrow.Some? ==> o == UserThrown(c.userThrow.value)) &&
      (c.userThrow.None? && c.retVal.Some? ==> o == Completed(c.retVal)) &&
      (c.userThrow.None? && c.retVal.None? && c.functor.Some? ==>
         o == Completed(Some(c.functor.value(ArgsAfter(c, q.args))))) &&
      (c.userThrow.None? && c.retVal.None? && c.functor.None? ==>
         o.Raised? && o.error.kind == NoResultSetUp)
  {
    SelectedIsRegistered(s, q);
  }

  /** A returning call selected at its maximum raises an
      `ExpectationException` and changes nothing. */
  lemma OverMaximumReturning(s: RepoState, q: Invocation, cells: seq<Value>)
    requires Valid(s) && AllCellsFit(s.calls, |cells|)
    requires Select(s, q).ExpectationHit? || Select(s, q).OptionalHit?
    requires s.calls[Select(s, q).id].called == s.calls[Select(s, q).id].expectation.maximum
    ensures var st := Expect(s, q, cells);
      st.state == s && st.outcome.Raised? && st.outcome.error.kind == Expectation
  {
    SelectedIsRegistered(s, q);
  }

  /** A void call selected at its maximum is marked satisfied and raises the
      `ExpectationException`; with `makeLatent` it is stored while the stack
      unwinds and dropped when a latent exception is already pending. */
  lemma OverMaximumVoid(s: RepoState, q: Invocation, cells: seq<Value>, makeLatent: bool, unwinding: bool)
    requires Valid(s) && AllCellsFit(s.calls, |cells|)
    requires Select(s, q).ExpectationHit? || Select(s, q).OptionalHit?
    requires s.calls[Select(s, q).id].called == s.calls[Select(s, q).id].expectation.maximum
    ensures var id := Select(s, q).id;
      var st := ExpectVoid(s, q, cells, makeLatent, unwinding);
      st.state.calls == s.calls[id := s.calls[id].(satisfied := true)] &&
      (!makeLatent ==> st.outcome.Raised? && st.outcome.error.kind == Expectation) &&
      (makeLatent && s.latent.Some? ==> st.outcome == Completed(None) && st.state.latent == s.latent) &&
      (makeLatent && s.latent.None? && unwinding ==>
         st.outcome == Completed(None) && st.state.latent.Some? && st.state.latent.value.kind == Expectation)
  {
    SelectedIsRegistered(s, q);
    var id := Select(s, q).id;
    var d := DoThrow(s, id, makeLatent, unwinding);
    assert VoidCall(s, id, q.args, cells, makeLatent, unwinding) == Step(d.0, d.1, q.args, cells);
    assert ExpectVoid(s, q, cells, makeLatent, unwinding) == Step(d.0, d.1, q.args, cells);
  }

  /** A mismatch inside a mocked destructor is kept as the latent exception
      while the stack is unwinding, dropped when one is already pending, and
      thrown otherwise. */
  lemma UnmatchedVoid(s: RepoState, q: Invocation, cells: seq<Value>, makeLatent: bool, unwinding: bool)
    requires Valid(s) && AllCellsFit(s.calls, |cells|)
    requires Select(s, q) == NoMatch
    ensures var st := ExpectVoid(s, q, cells, makeLatent, unwinding);
      st.state.calls == s.calls && st.args == q.args && st.cells == cells &&
      (!makeLatent || (s.latent.None? && !unwinding) ==> st.state == s && st.outcome == Raised(Unmatched(s, q))) &&
      (makeLatent && s.latent.Some? ==> st.state == s && st.outcome == Completed(None)) &&
      (makeLatent && s.latent.None? && unwinding ==>
         st.state.latent == Some(Unmatched(s, q)) && st.outcome == Completed(None))
  {
  }

  /** An expectation performed up to its `Once` is consumed: afterwards it is
      satisfied and no invocation is dispatched to it as an expectation
      again. */
  lemma OnceIsConsumed(s: RepoState, q: Invocation, cells: seq<Value>, later: Invocation)
    requires Valid(s) && AllCellsFit(s.calls, |cells|)
    requires Select(s, q).ExpectationHit?
    requires s.calls[Select(s, q).id].expectation == Once && s.calls[Select(s, q).id].called == 0
    ensures var s' := Expect(s, q, cells).state;
      s'.calls[Select(s, q).id].satisfied && Select(s', later) != ExpectationHit(Select(s, q).id)
  {
    var id := Select(s, q).id;
    PerformedCall(s, q, cells);
    var s' := Expect(s, q, cells).state;
    assert s'.calls[id].satisfied;
    if Select(s', later) == ExpectationHit(id) {
      SelectOrder(s', later);
      assert false;
    }
  }

  /** `VerifyAll` rethrows a pending latent exception; otherwise it fails,
      with `CallMissingException`, exactly when some expectation is
      unsatisfied -- optionals and never-calls play no part. */
  lemma VerifyAllIff(s: RepoState)
    ensures s.latent.Some? ==> VerifyAllOutcome(s) == Raised(s.latent.value)
    ensures s.latent.None? ==>
      (VerifyAllOutcome(s).Raised? <==>
        exists i :: 0 <= i < |s.expectations| && s.expectations[i] in s.calls && !s.calls[s.expectations[i]].satisfied)
    ensures s.latent.None? && VerifyAllOutcome(s).Raised? ==> VerifyAllOutcome(s).error.kind == CallMissing
    ensures VerifyAllOutcome(s).Completed? <==> VerifyAllOutcome(s.(optionals := [], neverCalls := [])).Completed?
  {
  }

  /** `VerifyPartial(obj)` does nothing while a latent exception is pending
      or when every expectation on `obj` is satisfied; otherwise it raises
      `CallMissingException`, latently while unwinding. */
  lemma VerifyPartialRule(s: RepoState, obj: MockId, unwinding: bool)
    ensures var (s', o) := VerifyPartialStep(s, obj, unwinding);
      s'.calls == s.calls && s'.expectations == s.expectations &&
      (s.latent.Some? || !SomeUnsatisfiedOn(s, obj) ==> s' == s && o == Completed(None)) &&
      (s.latent.None? && SomeUnsatisfiedOn(s, obj) && !unwinding ==>
         s' == s && o.Raised? && o.error.kind == CallMissing) &&
      (s.latent.None? && SomeUnsatisfiedOn(s, obj) && unwinding ==>
         s'.latent.Some? && s'.latent.value.kind == CallMissing && o == Completed(None))
  {
  }

  /** After `reset` nothing matches and nothing is missing. */
  lemma ResetForgets(s: RepoState, q: Invocation)
    ensures Valid(Reset(s))
    ensures Select(Reset(s), q) == NoMatch
    ensures s.latent.None? ==> VerifyAllOutcome(Reset(s)) == Completed(None)
  {
    NoMatchIff(Reset(s), q);
  }

  /** `addCall` files a registration in exactly one list, chosen by its
      `RegistrationType`, and keeps the repository well formed. */
  lemma AddCallFiles(s: RepoState, id: CallId, c: Call, reg: RegistrationType)
    requires Valid(s) && id !in s.calls
    requires c.called <= c.expectation.maximum
    requires forall k :: 0 <= k < |c.previousCalls| ==> c.previousCalls[k] in s.calls
    ensures var s' := AddCall(s, id, c, reg);
      Valid(s') && id in s'.calls &&
      (reg == Never ==> s'.neverCalls == s.neverCalls + [id] && s'.expectations == s.expectations && s'.optionals == s.optionals) &&
      (reg != Never && reg.minimum == reg.maximum ==>
         s'.expectations == s.expectations + [id] && s'.neverCalls == s.neverCalls && s'.optionals == s.optionals) &&
      (reg.minimum != reg.maximum ==>
         s'.optionals == s.optionals + [id] && s'.neverCalls == s.neverCalls && s'.expectations == s.expectations &&
         s'.calls[id] == c)
  {
    var s' := AddCall(s, id, c, reg);
    forall i, k | i in s'.calls && 0 <= k < |s'.calls[i].previousCalls|
      ensures s'.calls[i].previousCalls[k] in s'.calls
    {
      if i != id {
        assert s'.calls[i] == s.calls[i];
      }
    }
  }

  /** With `autoExpect` on, a new expectation or never-call cannot match
      until the expectation registered before it has been satisfied: the
      registrations are checked in the order they were written. */
  lemma AutoExpectOrders(s: RepoState, id: CallId, c: Call, reg: RegistrationType, q: Invocation)
    requires Valid(s) && s.autoExpect && |s.expectations| > 0 && id !in s.calls
    requires reg.minimum == reg.maximum
    requires Matches(AddCall(s, id, c, reg).calls, id, q)
    ensures var prev := s.expectations[|s.expectations| - 1];
      prev in s.calls && s.calls[prev].satisfied
  {
    var prev := s.expectations[|s.expectations| - 1];
    var s' := AddCall(s, id, c, reg);
    var p := s'.calls[id].previousCalls;
    assert p[|p| - 1] == prev;
    assert prev != id;
  }

  lemma VoidCallWhileUnwinding(s: RepoState, id: CallId, actual: seq<Value>, cells: seq<Value>)
    requires id in s.calls && CellsFit(s.calls[id], |cells|)
    ensures !VoidCall(s, id, actual, cells, true, true).outcome.Raised?
  {
    var c := s.calls[id];
    if c.called >= c.expectation.maximum {
      assert VoidCall(s, id, actual, cells, true, true).outcome == DoThrow(s, id, true, true).1;
    }
  }

  /** A void dispatch with `makeLatent` while the stack unwinds never raises
      one of the library's errors. */
  lemma ExpectVoidWhileUnwinding(s: RepoState, q: Invocation, cells: seq<Value>)
    requires Valid(s) && AllCellsFit(s.calls, |cells|)
    ensures !ExpectVoid(s, q, cells, true, true).outcome.Raised?
  {
    SelectedIsRegistered(s, q);
    var t := Select(s, q);
    if t.NeverHit? {
      assert ExpectVoid(s, q, cells, true, true).outcome == DoThrow(s, t.id, true, true).1;
    } else if !t.NoMatch? {
      VoidCallWhileUnwinding(s, t.id, q.args, cells);
      assert ExpectVoid(s, q, cells, true, true) == VoidCall(s, t.id, q.args, cells, true, true);
    }
  }

  /** A mock destroyed while another exception unwinds the stack never
      raises one of the library's errors: a mismatch, an over-used
      destructor expectation or a missing call becomes the latent exception
      instead.  Only an exception given with `Throw` escapes. */
  lemma DestroyedWhileUnwinding(s: RepoState, mock: MockId, funcMap: seq<(FuncIndex, int)>, x: int, cells: seq<Value>)
    requires Valid(s) && AllCellsFit(s.calls, |cells|)
    ensures !Destroyed(s, mock, funcMap, x, cells, true).1.Raised?
  {
    ExpectVoidWhileUnwinding(s, Invocation(mock, TranslateX(funcMap, x), []), cells);
  }

  /** A function pointer registered again keeps the `X` of its first
      registration, and the same value is returned both times. */
  lemma StaticRegisterFirstWins(m: map<nat, int>, func: nat, x: int, y: int)
    ensures var (m1, r1) := StaticRegister(m, func, x);
      r1 == (if func in m then m[func] else x) && func in m1 && m1[func] == r1 &&
      StaticRegister(m1, func, y) == (m1, r1)
  {
  }
}
