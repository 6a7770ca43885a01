/** `MockRepository` (HippoMocks/hippomocks.h) as a class: the three call
    lists and the calls themselves are fields that registration, dispatch,
    verification and `reset` update in place, with reverse scans as in the
    C++.  Every method is proved to agree with the function of module
    MockCalls that specifies it; the properties of those functions are in
    module MockProperties. */
module MockRepo {
  import opened Wrappers
  import opened ArgTuple
  import opened MockErrors
  import opened MockCalls
  import MockProperties

  class MockRepository {
    var neverCalls: seq<CallId>
    var expectations: seq<CallId>
    var optionals: seq<CallId>
    /** The `Call` objects the three lists point to. */
    var calls: map<CallId, Call>
    var autoExpect: bool
    /** `latentException`. */
    var latent: Option<MockException>
    /** The identity the next registration gets (a fresh `new Call`). */
    var nextId: CallId
    /** `staticFuncMap`: function pointer to registration number. */
    var staticFuncMap: map<nat, int>
    /** `staticReplaces`: the (function, replacement) pairs patched in. */
    var staticReplaces: seq<(nat, nat)>

    /** The fields the expectation engine works on. */
    function State(): RepoState
      reads this
    {
      RepoState(neverCalls, expectations, optionals, calls, autoExpect, latent)
    }

    ghost predicate Valid()
      reads this
    {
      MockCalls.Valid(State()) && forall id :: id in calls ==> id < nextId
    }

    /** The fields outside the engine are left alone. */
    twostate predicate SameBookkeeping()
      reads this
    {
      nextId == old(nextId) && staticFuncMap == old(staticFuncMap) && staticReplaces == old(staticReplaces)
    }

    /** `MockRepository()`; `autoExpect` is `DEFAULT_AUTOEXPECT`. */
    constructor(autoExpect: bool)
      ensures Valid()
      ensures State() == RepoState([], [], [], map[], autoExpect, None)
      ensures staticFuncMap == map[] && staticReplaces == []
    {
      neverCalls := [];
      expectations := [];
      optionals := [];
      calls := map[];
      this.autoExpect := autoExpect;
      latent := None;
      nextId := 0;
      staticFuncMap := map[];
      staticReplaces := [];
    }

    // -------------------------------------------------------------------------
    // Registration

    /** `addCall` with `addAutoExpectTo`. */
    method AddCall(id: CallId, c: Call, reg: RegistrationType)
      requires id !in calls
      modifies this
      ensures State() == MockCalls.AddCall(old(State()), id, c, reg)
      ensures SameBookkeeping()
    {
      if reg == Never {
        calls := calls[id := AutoExpected(State(), c)];
        neverCalls := neverCalls + [id];
      } else if reg.minimum == reg.maximum {
        calls := calls[id := AutoExpected(State(), c)];
        expectations := expectations + [id];
      } else {
        optionals := optionals + [id];
        calls := calls[id := c];
      }
    }

    /** `RegisterExpect_`: a new call for the function, filed by `addCall`. */
    method RegisterExpect(mock: MockId, index: FuncIndex, arity: nat, returnsValue: bool, reg: RegistrationType,
                          funcName: string, fileName: string, lineNo: int) returns (id: CallId)
      requires Valid()
      modifies this
      ensures Valid() && id !in old(calls)
      ensures State() == MockCalls.AddCall(old(State()), id, NewCall(reg, mock, index, arity, returnsValue, lineNo, funcName, fileName), reg)
      ensures staticFuncMap == old(staticFuncMap) && staticReplaces == old(staticReplaces)
    {
      id := nextId;
      var c := NewCall(reg, mock, index, arity, returnsValue, lineNo, funcName, fileName);
      MockProperties.AddCallFiles(State(), id, c, reg);
      AddCall(id, c, reg);
      nextId := nextId + 1;
    }

    /** `RegisterExpectDestructor`: the call is built with `Once` but filed
        under the registration type it was asked for. */
    method RegisterExpectDestructor(mock: MockId, funcIndex: int, reg: RegistrationType,
                                    fileName: string, lineNo: int) returns (id: CallId)
      requires Valid()
      modifies this
      ensures Valid() && id !in old(calls)
      ensures State() == MockCalls.AddCall(old(State()), id, NewCall(Once, mock, (0, funcIndex), 0, false, lineNo, "destructor", fileName), reg)
      ensures staticFuncMap == old(staticFuncMap) && staticReplaces == old(staticReplaces)
    {
      id := nextId;
      var c := NewCall(Once, mock, (0, funcIndex), 0, false, lineNo, "destructor", fileName);
      MockProperties.AddCallFiles(State(), id, c, reg);
      AddCall(id, c, reg);
      nextId := nextId + 1;
    }

    /** Replace one registered call, keeping the repository well formed. */
    method Update(id: CallId, c: Call)
      requires Valid() && id in calls
      requires forall k :: 0 <= k < |c.previousCalls| ==> c.previousCalls[k] in calls
      requires c.called <= c.expectation.maximum
      modifies this
      ensures Valid()
      ensures State() == old(State()).(calls := old(calls)[id := c])
      ensures SameBookkeeping()
    {
      MockProperties.UpdateKeepsValid(State(), id, c);
      calls := calls[id := c];
    }

    /** `TCall::With`: the argument pattern. */
    method With(id: CallId, ps: seq<Pattern>)
      requires Valid() && id in calls && |ps| == calls[id].arity
      modifies this
      ensures Valid()
      ensures State() == old(State()).(calls := old(calls)[id := old(calls[id]).(args := Some(ps))])
      ensures SameBookkeeping()
    {
      Update(id, calls[id].(args := Some(ps)));
    }

    /** `TCall::After`: `prev` has to be satisfied before this call matches. */
    method After(id: CallId, prev: CallId)
      requires Valid() && id in calls && prev in calls
      modifies this
      ensures Valid()
      ensures State() == old(State()).(calls := old(calls)[id := old(calls[id]).(previousCalls := old(calls[id]).previousCalls + [prev])])
      ensures SameBookkeeping()
    {
      Update(id, calls[id].(previousCalls := calls[id].previousCalls + [prev]));
    }

    /** `TCall::Do`. */
    method Do(id: CallId, f: seq<Value> -> Value)
      requires Valid() && id in calls
      modifies this
      ensures Valid()
      ensures State() == old(State()).(calls := old(calls)[id := old(calls[id]).(functor := Some(f))])
      ensures SameBookkeeping()
    {
      Update(id, calls[id].(functor := Some(f)));
    }

    /** `TCall::Match`. */
    method Match(id: CallId, m: seq<Value> -> bool)
      requires Valid() && id in calls
      modifies this
      ensures Valid()
      ensures State() == old(State()).(calls := old(calls)[id := old(calls[id]).(matcher := Some(m))])
      ensures SameBookkeeping()
    {
      Update(id, calls[id].(matcher := Some(m)));
    }

    /** `TCall::Return`. */
    method Return(id: CallId, v: Value)
      requires Valid() && id in calls && calls[id].returnsValue
      modifies this
      ensures Valid()
      ensures State() == old(State()).(calls := old(calls)[id := old(calls[id]).(retVal := Some(v))])
      ensures SameBookkeeping()
    {
      Update(id, calls[id].(retVal := Some(v)));
    }

    /** `TCall::Throw`. */
    method Throw(id: CallId, e: Value)
      requires Valid() && id in calls
      modifies this
      ensures Valid()
      ensures State() == old(State()).(calls := old(calls)[id := old(calls[id]).(userThrow := Some(e))])
      ensures SameBookkeeping()
    {
      Update(id, calls[id].(userThrow := Some(e)));
    }

    /** `BasicStaticRegisterExpect`: the first registration of a function
        pointer stores its `X` and patches the function; the stored `X` is
        returned. */
    method BasicStaticRegisterExpect(func: nat, fp: nat, x: int) returns (r: int)
      modifies this
      ensures (staticFuncMap, r) == StaticRegister(old(staticFuncMap), func, x)
      ensures staticReplaces == old(staticReplaces) + (if func in old(staticFuncMap) then [] else [(func, fp)])
      ensures State() == old(State()) && nextId == old(nextId)
    {
      if func !in staticFuncMap {
        staticFuncMap := staticFuncMap[func := x];
        staticReplaces := staticReplaces + [(func, fp)];
      }
      r := staticFuncMap[func];
    }

    // -------------------------------------------------------------------------
    // Dispatch

    /** One reverse scan of a list: the position of the newest call that
        passes `matches` (or `isUnsatisfied`). */
    method Scan(ids: seq<CallId>, q: Invocation, unsatisfiedOnly: bool) returns (r: Option<nat>)
      ensures r == LastHit(calls, ids, q, unsatisfiedOnly)
    {
      var i := |ids|;
      while i > 0
        invariant 0 <= i <= |ids|
        invariant LastHit(calls, ids, q, unsatisfiedOnly) == LastHit(calls, ids[..i], q, unsatisfiedOnly)
      {
        assert ids[..i][i - 1] == ids[i - 1];
        if Hit(calls, ids[i - 1], q, unsatisfiedOnly) {
          return Some(i - 1);
        }
        assert ids[..i][..i - 1] == ids[..i - 1];
        i := i - 1;
      }
      return None;
    }

    /** `RAISELATENTEXCEPTION(e)` with `SetLatentException`. */
    method RaiseLatentException(e: MockException, unwinding: bool) returns (o: Outcome)
      modifies this
      ensures (State(), o) == RaiseLatent(old(State()), e, unwinding)
      ensures SameBookkeeping()
    {
      if unwinding {
        latent := Some(e);
        o := Completed(None);
      } else {
        o := Raised(e);
      }
    }

    /** The shared tail of `doThrow` and of an unmatched void call. */
    method Raise(e: MockException, makeLatent: bool, unwinding: bool) returns (o: Outcome)
      modifies this
      ensures (State(), o) == RaiseAs(old(State()), e, makeLatent, unwinding)
      ensures SameBookkeeping()
    {
      if makeLatent {
        if latent.Some? {
          o := Completed(None);
        } else {
          o := RaiseLatentException(e, unwinding);
        }
      } else {
        o := Raised(e);
      }
    }

    /** `doCall`: count the call, write back the `Out` and `In` arguments,
        and hand back the exception it was given with `Throw`, if any. */
    method DoCall(id: CallId, args: array<Value>, cells: array<Value>) returns (thrown: Option<Value>)
      requires id in calls && calls[id].called < calls[id].expectation.maximum
      requires CellsFit(calls[id], cells.Length) && args != cells
      modifies this, args, cells
      ensures State() == old(State()).(calls := old(calls)[id := Performed(old(calls[id]))])
      ensures args[..] == ArgsAfter(old(calls[id]), old(args[..]))
      ensures cells[..] == CellsAfter(old(calls[id]), old(args[..]), old(cells[..]))
      ensures thrown == old(calls[id]).userThrow
      ensures SameBookkeeping()
    {
      var c := calls[id];
      calls := calls[id := Performed(c)];
      if c.args.Some? && |c.args.value| == args.Length {
        AssignTo(c.args.value, args);
        AssignFrom(c.args.value, args[..], cells);
      }
      thrown := c.userThrow;
    }

    /** `doReturnCall` with `doReturnFunctor`. */
    method DoReturnCall(id: CallId, args: array<Value>, cells: array<Value>) returns (o: Outcome)
      requires id in calls && CellsFit(calls[id], cells.Length) && args != cells
      modifies this, args, cells
      ensures Step(State(), o, args[..], cells[..]) == ReturnCall(old(State()), id, old(args[..]), old(cells[..]))
      ensures SameBookkeeping()
    {
      var c := calls[id];
      if c.called < c.expectation.maximum {
        var thrown := DoCall(id, args, cells);
        if thrown.Some? {
          o := UserThrown(thrown.value);
        } else {
          o := ReturnValue(State(), c, args[..]);
        }
      } else {
        o := Raised(ExpectationError(Dump(State()), StoredArgsText(c), c.funcName));
      }
    }

    /** `doThrow`. */
    method DoThrow(id: CallId, makeLatent: bool, unwinding: bool) returns (o: Outcome)
      requires id in calls
      modifies this
      ensures (State(), o) == MockCalls.DoThrow(old(State()), id, makeLatent, unwinding)
      ensures SameBookkeeping()
    {
      var c := calls[id];
      calls := calls[id := c.(satisfied := true)];
      o := Raise(ExpectationError(Dump(State()), StoredArgsText(c), c.funcName), makeLatent, unwinding);
    }

    /** `doVoidCall` with `doVoidFunctor` (whose result is discarded). */
    method DoVoidCall(id: CallId, args: array<Value>, cells: array<Value>, makeLatent: bool, unwinding: bool) returns (o: Outcome)
      requires id in calls && CellsFit(calls[id], cells.Length) && args != cells
      modifies this, args, cells
      ensures Step(State(), o, args[..], cells[..]) == VoidCall(old(State()), id, old(args[..]), old(cells[..]), makeLatent, unwinding)
      ensures SameBookkeeping()
    {
      var c := calls[id];
      if c.called < c.expectation.maximum {
        var thrown := DoCall(id, args, cells);
        if thrown.Some? {
          o := UserThrown(thrown.value);
        } else {
          o := Completed(None);
        }
      } else {
        o := DoThrow(id, makeLatent, unwinding);
      }
    }

    /** A matching never-call in `DoExpectation`. */
    method ThrowNeverCall(id: CallId) returns (o: Outcome)
      requires id in calls
      modifies this
      ensures (State(), o) == NeverCalled(old(State()), id)
      ensures SameBookkeeping()
    {
      var c := calls[id];
      calls := calls[id := c.(satisfied := true)];
      o := Raised(ExpectationError(Dump(State()), StoredArgsText(c), c.funcName));
    }

    /** The end of `DoVoidExpectation` when nothing matched. */
    method RaiseMismatch(q: Invocation, makeLatent: bool, unwinding: bool) returns (o: Outcome)
      modifies this
      ensures (State(), o) == Mismatch(old(State()), q, makeLatent, unwinding)
      ensures SameBookkeeping()
    {
      o := Raise(Unmatched(State(), q), makeLatent, unwinding);
    }

    /** The three reverse scans that open `DoExpectation` and
        `DoVoidExpectation`: never-calls, then unsatisfied expectations,
        then optionals. */
    method Choose(q: Invocation) returns (t: Target)
      ensures t == Select(State(), q)
    {
      var n := Scan(neverCalls, q, false);
      if n.Some? {
        return NeverHit(neverCalls[n.value]);
      }
      var e := Scan(expectations, q, true);
      if e.Some? {
        return ExpectationHit(expectations[e.value]);
      }
      var p := Scan(optionals, q, false);
      if p.Some? {
        return OptionalHit(optionals[p.value]);
      }
      return NoMatch;
    }

    /** The dispatch to the call `Choose` picked, for a returning function. */
    method ReturnDispatch(q: Invocation, t: Target, args: array<Value>, cells: array<Value>) returns (o: Outcome)
      requires MockCalls.Valid(State()) && AllCellsFit(calls, cells.Length) && args != cells
      requires t == Select(State(), q) && q.args == args[..]
      modifies this, args, cells
      ensures Step(State(), o, args[..], cells[..]) == Expect(old(State()), q, old(cells[..]))
      ensures SameBookkeeping()
    {
      MockProperties.SelectedIsRegistered(State(), q);
      match t
      case NeverHit(id) =>
        o := ThrowNeverCall(id);
      case ExpectationHit(id) =>
        o := DoReturnCall(id, args, cells);
      case OptionalHit(id) =>
        o := DoReturnCall(id, args, cells);
      case NoMatch =>
        o := Raised(Unmatched(State(), q));
    }

    /** `DoExpectation<Z>`: dispatch a call of a function returning a value;
        `args` holds the caller's arguments and `cells` the variables the
        `In` patterns copy into. */
    method DoExpectation(mock: MockId, funcno: FuncIndex, args: array<Value>, cells: array<Value>) returns (o: Outcome)
      requires Valid() && AllCellsFit(calls, cells.Length) && args != cells
      modifies this, args, cells
      ensures Valid()
      ensures Step(State(), o, args[..], cells[..]) == Expect(old(State()), Invocation(mock, funcno, old(args[..])), old(cells[..]))
      ensures SameBookkeeping()
    {
      var q := Invocation(mock, funcno, args[..]);
      ghost var s, cs := State(), cells[..];
      var t := Choose(q);
      o := ReturnDispatch(q, t, args, cells);
      MockProperties.ExpectFrame(s, q, cs);
    }

    /** The dispatch to the call `Choose` picked, for a void function. */
    method VoidDispatch(q: Invocation, t: Target, args: array<Value>, cells: array<Value>,
                        makeLatent: bool, unwinding: bool) returns (o: Outcome)
      requires MockCalls.Valid(State()) && AllCellsFit(calls, cells.Length) && args != cells
      requires t == Select(State(), q) && q.args == args[..]
      modifies this, args, cells
      ensures Step(State(), o, args[..], cells[..]) == ExpectVoid(old(State()), q, old(cells[..]), makeLatent, unwinding)
      ensures SameBookkeeping()
    {
      ghost var s, cs := State(), cells[..];
      MockProperties.SelectedIsRegistered(s, q);
      match t
      case NeverHit(id) =>
        ghost var st := MockCalls.DoThrow(s, id, makeLatent, unwinding);
        assert ExpectVoid(s, q, cs, makeLatent, unwinding) == Step(st.0, st.1, q.args, cs);
        o := DoThrow(id, makeLatent, unwinding);
        assert State() == st.0 && o == st.1;
      case ExpectationHit(id) =>
        assert ExpectVoid(s, q, cs, makeLatent, unwinding) == VoidCall(s, id, q.args, cs, makeLatent, unwinding);
        o := DoVoidCall(id, args, cells, makeLatent, unwinding);
      case OptionalHit(id) =>
        assert ExpectVoid(s, q, cs, makeLatent, unwinding) == VoidCall(s, id, q.args, cs, makeLatent, unwinding);
        o := DoVoidCall(id, args, cells, makeLatent, unwinding);
      case NoMatch =>
        ghost var st := Mismatch(s, q, makeLatent, unwinding);
        assert ExpectVoid(s, q, cs, makeLatent, unwinding) == Step(st.0, st.1, q.args, cs);
        o := RaiseMismatch(q, makeLatent, unwinding);
        assert State() == st.0 && o == st.1;
    }

    /** `DoVoidExpectation`: dispatch a call of a void function; the mocked
        destructor sets `makeLatent`, and `unwinding` is
        `std::uncaught_exception()`. */
    method DoVoidExpectation(mock: MockId, funcno: FuncIndex, args: array<Value>, cells: array<Value>,
                             makeLatent: bool, unwinding: bool) returns (o: Outcome)
      requires Valid() && AllCellsFit(calls, cells.Length) && args != cells
      modifies this, args, cells
      ensures Valid()
      ensures Step(State(), o, args[..], cells[..]) ==
              ExpectVoid(old(State()), Invocation(mock, funcno, old(args[..])), old(cells[..]), makeLatent, unwinding)
      ensures SameBookkeeping()
    {
      var q := Invocation(mock, funcno, args[..]);
      ghost var s, cs := State(), cells[..];
      var t := Choose(q);
      o := VoidDispatch(q, t, args, cells, makeLatent, unwinding);
      MockProperties.ExpectVoidFrame(s, q, cs, makeLatent, unwinding);
    }

    // -------------------------------------------------------------------------
    // Verification

    /** `VerifyAll`: rethrow the latent exception, else look for an
        unsatisfied expectation. */
    method VerifyAll() returns (o: Outcome)
      ensures o == VerifyAllOutcome(State())
    {
      if latent.Some? {
        return Raised(latent.value);
      }
      var i := 0;
      while i < |expectations|
        invariant 0 <= i <= |expectations|
        invariant forall j :: 0 <= j < i ==> !(expectations[j] in calls && !calls[expectations[j]].satisfied)
      {
        var id := expectations[i];
        if id in calls && !calls[id].satisfied {
          return Raised(CallMissingError(Dump(State())));
        }
        i := i + 1;
      }
      return Completed(None);
    }

    /** `VerifyPartial(obj)`: nothing while a latent exception is pending;
        otherwise every unsatisfied expectation on `obj` raises
        `CallMissingException` latently, so while unwinding the scan goes on
        and stores it again. */
    method VerifyPartial(obj: MockId, unwinding: bool) returns (o: Outcome)
      modifies this
      ensures (State(), o) == VerifyPartialStep(old(State()), obj, unwinding)
      ensures SameBookkeeping()
    {
      o := Completed(None);
      if latent.Some? {
        return;
      }
      ghost var s := State();
      var i := 0;
      while i < |expectations|
        invariant 0 <= i <= |expectations|
        invariant State() == s.(latent := latent) && SameBookkeeping()
        invariant o == Completed(None)
        invariant latent.Some? ==> unwinding && latent.value == CallMissingError(Dump(s))
        invariant latent.Some? <==>
          exists j :: 0 <= j < i && expectations[j] in calls && calls[expectations[j]].mock == obj &&
            !calls[expectations[j]].satisfied
      {
        var id := expectations[i];
        if id in calls && calls[id].mock == obj && !calls[id].satisfied {
          o := RaiseLatentException(CallMissingError(Dump(State())), unwinding);
          if o.Raised? {
            return;
          }
        }
        i := i + 1;
      }
    }

    /** `reset`: the three lists are emptied and their calls deleted; the
        latent exception stays. */
    method Reset()
      requires Valid()
      modifies this
      ensures Valid()
      ensures State() == MockCalls.Reset(old(State()))
      ensures SameBookkeeping()
    {
      expectations := [];
      neverCalls := [];
      optionals := [];
      calls := map[];
    }

    /** `mock::mockedDestructor`: a void dispatch with `makeLatent`, then
        `VerifyPartial` on the mock unless the dispatch threw. */
    method MockedDestructor(mock: MockId, funcMap: seq<(FuncIndex, int)>, x: int, cells: array<Value>, unwinding: bool) returns (o: Outcome)
      requires Valid() && AllCellsFit(calls, cells.Length)
      modifies this, cells
      ensures Valid()
      ensures (State(), o) == Destroyed(old(State()), mock, funcMap, x, old(cells[..]), unwinding)
      ensures SameBookkeeping()
    {
      ghost var s, cs := State(), cells[..];
      var noArgs := new Value[0];
      assert noArgs[..] == [];
      ghost var st := ExpectVoid(s, Invocation(mock, TranslateX(funcMap, x), []), cs, true, unwinding);
      o := DoVoidExpectation(mock, TranslateX(funcMap, x), noArgs, cells, true, unwinding);
      assert State() == st.state && o == st.outcome;
      if o.Completed? {
        o := VerifyPartial(mock, unwinding);
      }
    }
  }
}
