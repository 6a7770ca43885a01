/** Argument tuples of detail/oldtuple.h, with the per-type helpers they use
    from hippomocks.h (`comparer`, `printArg`, `in_assign`, `out_assign`).

    The C++ tuples always have sixteen fields; the ones past the declared
    arity hold `NullType`.  Here a tuple is the sequence of its declared
    arguments, and `Slot` sequences of length `MaxArity` model the padded
    sixteen-field layout where the padding itself matters (printing and
    invocation). */
module ArgTuple {
  import Text
  import opened Wrappers

  const MaxArity: nat := 16

  /** An argument value as a mocked function receives it.  `Opaque` stands for
      a type without a stream operator, which prints through `NotPrintable`. */
  datatype Value = Int(i: int) | Str(s: string) | Opaque(id: nat)

  /** One stored field of a `copy_tuple` (what `With(...)` recorded):
      an exact value, the `_` wildcard, `Out(v)` (a wildcard that writes `v`
      back through a reference parameter) or `In(x)` (a wildcard that
      captures the argument into the variable `x`, here cell `cell`). */
  datatype Pattern = Exact(v: Value) | Wildcard | Out(v: Value) | In(cell: nat)

  /** A field of the sixteen-field layout: `NullType` or an argument. */
  datatype Slot<T> = Null | Arg(value: T)

  // ---------------------------------------------------------------------------
  // The sixteen-field layout

  /** The declared arguments followed by `NullType` up to sixteen fields. */
  function Padded<T>(args: seq<T>): (slots: seq<Slot<T>>)
    requires |args| <= MaxArity
    ensures |slots| == MaxArity
    ensures forall i :: 0 <= i < |args| ==> slots[i] == Arg(args[i])
    ensures forall i :: |args| <= i < MaxArity ==> slots[i] == Null
  {
    seq(MaxArity, i requires 0 <= i < MaxArity => if i < |args| then Arg(args[i]) else Null)
  }

  /** A layout a C++ tuple type can have: sixteen fields, and no argument
      after a `NullType` (the defaults are trailing template arguments). */
  predicate IsPadded<T>(slots: seq<Slot<T>>) {
    |slots| == MaxArity &&
    forall i, j :: 0 <= i < j < |slots| && slots[i].Null? ==> slots[j].Null?
  }

  /** The arguments of a layout: the fields before the first `NullType`. */
  function Unpad<T>(slots: seq<Slot<T>>): (args: seq<T>)
    ensures |args| <= |slots|
    ensures forall i :: 0 <= i < |args| ==> slots[i] == Arg(args[i])
    ensures |args| < |slots| ==> slots[|args|].Null?
    decreases |slots|
  {
    if slots == [] || slots[0].Null? then [] else [slots[0].value] + Unpad(slots[1..])
  }

  /** The arguments of a layout are exactly the fields before its first
      `NullType`: any such prefix is what Unpad returns. */
  lemma {:induction false} UnpadOf<T>(slots: seq<Slot<T>>, args: seq<T>)
    requires |args| <= |slots|
    requires forall i :: 0 <= i < |args| ==> slots[i] == Arg(args[i])
    requires |args| < |slots| ==> slots[|args|].Null?
    ensures Unpad(slots) == args
    decreases |args|
  {
    if args != [] {
      assert forall i :: 0 <= i < |args| - 1 ==> slots[1..][i] == slots[i + 1];
      UnpadOf(slots[1..], args[1..]);
    }
  }

  /** Padding and then dropping the padding gives the arguments back. */
  lemma UnpadPadded<T>(args: seq<T>)
    requires |args| <= MaxArity
    ensures IsPadded(Padded(args))
    ensures Unpad(Padded(args)) == args
  {
    UnpadOf(Padded(args), args);
  }

  /** Every layout a tuple type can have is the padding of its arguments. */
  lemma PaddedUnpad<T>(slots: seq<Slot<T>>)
    requires IsPadded(slots)
    ensures |Unpad(slots)| <= MaxArity && Padded(Unpad(slots)) == slots
  {
    var args := Unpad(slots);
    forall i | |args| <= i < MaxArity
      ensures slots[i] == Null
    {
      if i > |args| {
        assert slots[|args|].Null?;
      }
    }
  }

  // ---------------------------------------------------------------------------
  // copy_tuple::operator==

  /** `comparer<T>::compare(stored, actual)`: a stored `DontCare`, and so
      every `OutParam` and `InParam`, which derive from it, matches anything;
      a stored value compares with `==`. */
  predicate Compare(p: Pattern, v: Value) {
    match p
    case Exact(w) => w == v
    case _ => true
  }

  /** `copy_tuple == ref_tuple`: the conjunction of the comparisons of the
      sixteen fields, `NullType` fields comparing equal; the tuple types of a
      call and its registration have the same arity. */
  predicate TupleMatches(ps: seq<Pattern>, vs: seq<Value>)
    requires |ps| == |vs|
    decreases |ps|
  {
    ps == [] || (Compare(ps[0], vs[0]) && TupleMatches(ps[1..], vs[1..]))
  }

  /** The tuple comparison is the per-position comparison at every position. */
  lemma {:induction false} TupleMatchesPositionwise(ps: seq<Pattern>, vs: seq<Value>)
    requires |ps| == |vs|
    ensures TupleMatches(ps, vs) <==> forall i :: 0 <= i < |ps| ==> Compare(ps[i], vs[i])
    decreases |ps|
  {
    if ps != [] {
      TupleMatchesPositionwise(ps[1..], vs[1..]);
      assert forall i :: 1 <= i < |ps| ==> ps[1..][i - 1] == ps[i] && vs[1..][i - 1] == vs[i];
    }
  }

  /** A registration made of exact values only matches exactly the call with
      those values, and an all-wildcard registration matches every call. */
  lemma ExactAndWildcardTuples(vs: seq<Value>, ws: seq<Value>)
    requires |vs| == |ws|
    ensures TupleMatches(seq(|vs|, i requires 0 <= i < |vs| => Exact(vs[i])), ws) <==> vs == ws
    ensures TupleMatches(seq(|vs|, i requires 0 <= i < |vs| => Wildcard), ws)
  {
    var exact := seq(|vs|, i requires 0 <= i < |vs| => Exact(vs[i]));
    var any := seq(|vs|, i requires 0 <= i < |vs| => Wildcard);
    TupleMatchesPositionwise(exact, ws);
    TupleMatchesPositionwise(any, ws);
    if TupleMatches(exact, ws) {
      assert forall i :: 0 <= i < |vs| ==> Compare(exact[i], ws[i]);
      assert vs == ws;
    }
  }

  // ---------------------------------------------------------------------------
  // printTo

  /** `os << arg` for one value. */
  function Show(v: Value): string {
    match v
    case Int(i) => Text.IntToDecimal(i)
    case Str(s) => s
    case Opaque(_) => "???"
  }

  /** `os << arg` for a stored field: the `DontCare` family prints as `_`. */
  function ShowPattern(p: Pattern): string {
    match p
    case Exact(v) => Show(v)
    case _ => "_"
  }

  /** The printed items separated by commas. */
  function Joined(items: seq<string>): string
    decreases |items|
  {
    if items == [] then ""
    else if |items| == 1 then items[0]
    else Joined(items[..|items| - 1]) + "," + items[|items| - 1]
  }

  function Parenthesized(items: seq<string>): string {
    "(" + Joined(items) + ")"
  }

  /** `printTo`: `(`, then every field through `printArg` -- with a comma
      before every field but the first, and nothing at all for `NullType` --
      then `)`.  `slots` holds each field already rendered by `os <<`. */
  method PrintTo(slots: seq<Slot<string>>) returns (text: string)
    requires IsPadded(slots)
    ensures text == Parenthesized(Unpad(slots))
  {
    ghost var args := Unpad(slots);
    text := "(";
    var i := 0;
    while i < |slots|
      invariant 0 <= i <= |slots|
      invariant text == "(" + Joined(args[..if i < |args| then i else |args|])
    {
      if slots[i].Arg? {
        assert i < |args|;
        assert args[..i + 1][..i] == args[..i];
        if i > 0 {
          text := text + ",";
        }
        text := text + slots[i].value;
      }
      i := i + 1;
    }
    assert args[..|args|] == args;
    text := text + ")";
  }

  /** The argument list of a call, as `ref_tuple::printTo` prints it. */
  function ArgsText(vs: seq<Value>): string {
    Parenthesized(seq(|vs|, i requires 0 <= i < |vs| => Show(vs[i])))
  }

  /** The registered pattern, as `copy_tuple::printTo` prints it. */
  function PatternsText(ps: seq<Pattern>): string {
    Parenthesized(seq(|ps|, i requires 0 <= i < |ps| => ShowPattern(ps[i])))
  }

  /** Two integer arguments print as `(1,2)`, none as `()`, a wildcard as `_`. */
  lemma PrintedExamples()
    ensures ArgsText([Int(1), Int(2)]) == "(1,2)"
    ensures ArgsText([]) == "()"
    ensures PatternsText([Exact(Int(-3)), Wildcard, Out(Int(5))]) == "(-3,_,_)"
  {
    assert Show(Int(1)) == "1" && Show(Int(2)) == "2";
    var two := seq(2, i requires 0 <= i < 2 => Show([Int(1), Int(2)][i]));
    assert two == ["1", "2"];
    assert Joined(["1", "2"]) == Joined(["1"]) + "," + "2";
    var pats := [Exact(Int(-3)), Wildcard, Out(Int(5))];
    assert ShowPattern(pats[0]) == "-3" by {
      assert Text.NatToDecimal(3) == "3";
    }
    var three := seq(3, i requires 0 <= i < 3 => ShowPattern(pats[i]));
    assert three == ["-3", "_", "_"];
    assert Joined(["-3", "_", "_"]) == Joined(["-3", "_"]) + "," + "_";
    assert Joined(["-3", "_"]) == Joined(["-3"]) + "," + "_";
  }

  /** Index of the last comma of `s`. */
  function LastComma(s: string): (r: Option<nat>)
    ensures r.Some? ==> r.value < |s| && s[r.value] == ',' && forall j :: r.value < j < |s| ==> s[j] != ','
    ensures r.None? ==> forall j :: 0 <= j < |s| ==> s[j] != ','
    decreases |s|
  {
    if s == [] then None
    else if s[|s| - 1] == ',' then Some(|s| - 1)
    else LastComma(s[..|s| - 1])
  }

  /** Splitting the printed list at its commas. */
  function Split(s: string): seq<string>
    decreases |s|
  {
    match LastComma(s)
    case None => [s]
    case Some(i) => Split(s[..i]) + [s[i + 1..]]
  }

  /** The comma-separated layout can be read back: when no item holds a
      comma, splitting the printed list gives the items again. */
  lemma {:induction false} SplitJoined(items: seq<string>)
    requires |items| >= 1
    requires forall k, j :: 0 <= k < |items| && 0 <= j < |items[k]| ==> items[k][j] != ','
    ensures Split(Joined(items)) == items
    decreases |items|
  {
    if |items| > 1 {
      var front := items[..|items| - 1];
      var last := items[|items| - 1];
      var jf := Joined(front);
      var s := jf + "," + last;
      assert Joined(items) == s;
      var lc := LastComma(s);
      assert s[|jf|] == ',';
      assert lc.Some?;
      assert forall j :: |jf| < j < |s| ==> s[j] == last[j - |jf| - 1];
      assert lc.value == |jf|;
      assert s[..|jf|] == jf;
      assert s[|jf| + 1..] == last;
      SplitJoined(front);
    } else {
      assert LastComma(items[0]).None?;
    }
  }

  // ---------------------------------------------------------------------------
  // assign_to / assign_from

  /** The caller's arguments after `assign_to`: each position stored as
      `Out(v)` now holds `v`; every other position keeps its value. */
  function AssignedTo(ps: seq<Pattern>, vs: seq<Value>): (ws: seq<Value>)
    requires |ps| == |vs|
    ensures |ws| == |vs|
  {
    seq(|vs|, i requires 0 <= i < |vs| => if ps[i].Out? then ps[i].v else vs[i])
  }

  /** `assign_to`: `out_assign` on every field, writing through the caller's
      reference (or pointer) parameters. */
  method AssignTo(ps: seq<Pattern>, args: array<Value>)
    requires |ps| == args.Length
    modifies args
    ensures args[..] == AssignedTo(ps, old(args[..]))
  {
    var i := 0;
    while i < args.Length
      invariant 0 <= i <= args.Length
      invariant forall k :: 0 <= k < i ==> args[k] == AssignedTo(ps, old(args[..]))[k]
      invariant forall k :: i <= k < args.Length ==> args[k] == old(args[k])
    {
      if ps[i].Out? {
        args[i] := ps[i].v;
      }
      i := i + 1;
    }
  }

  /** Writing the out-parameters twice is the same as writing them once, and
      it does not change whether the call matches its registration. */
  lemma AssignedToStable(ps: seq<Pattern>, vs: seq<Value>)
    requires |ps| == |vs|
    ensures AssignedTo(ps, AssignedTo(ps, vs)) == AssignedTo(ps, vs)
    ensures TupleMatches(ps, AssignedTo(ps, vs)) <==> TupleMatches(ps, vs)
  {
    TupleMatchesPositionwise(ps, vs);
    TupleMatchesPositionwise(ps, AssignedTo(ps, vs));
  }

  /** The bound variables after `assign_from`: the fields are visited in
      order, and each one stored as `In(x)` copies its argument into `x`. */
  function AssignedFrom(ps: seq<Pattern>, vs: seq<Value>, cells: seq<Value>): (r: seq<Value>)
    requires |ps| == |vs|
    requires forall i :: 0 <= i < |ps| && ps[i].In? ==> ps[i].cell < |cells|
    ensures |r| == |cells|
    decreases |ps|
  {
    if ps == [] then cells
    else
      var n := |ps| - 1;
      var before := AssignedFrom(ps[..n], vs[..n], cells);
      if ps[n].In? then before[ps[n].cell := vs[n]] else before
  }

  /** `assign_from`: `in_assign` on every field. */
  method AssignFrom(ps: seq<Pattern>, args: seq<Value>, cells: array<Value>)
    requires |ps| == |args|
    requires forall i :: 0 <= i < |ps| && ps[i].In? ==> ps[i].cell < cells.Length
    modifies cells
    ensures cells[..] == AssignedFrom(ps, args, old(cells[..]))
  {
    var i := 0;
    while i < |ps|
      invariant 0 <= i <= |ps|
      invariant cells[..] == AssignedFrom(ps[..i], args[..i], old(cells[..]))
    {
      assert ps[..i + 1][..i] == ps[..i] && args[..i + 1][..i] == args[..i];
      if ps[i].In? {
        cells[ps[i].cell] := args[i];
      }
      i := i + 1;
    }
    assert ps[..i] == ps && args[..i] == args;
  }

  /** After `assign_from`, a variable that no `In` captures keeps its
      value. */
  lemma {:induction false} AssignedFromUntouched(ps: seq<Pattern>, vs: seq<Value>, cells: seq<Value>, x: nat)
    requires |ps| == |vs|
    requires forall i :: 0 <= i < |ps| && ps[i].In? ==> ps[i].cell < |cells|
    requires x < |cells|
    requires forall i :: 0 <= i < |ps| ==> ps[i] != In(x)
    ensures AssignedFrom(ps, vs, cells)[x] == cells[x]
    decreases |ps|
  {
    if ps != [] {
      var n := |ps| - 1;
      assert forall i :: 0 <= i < n ==> ps[..n][i] == ps[i];
      AssignedFromUntouched(ps[..n], vs[..n], cells, x);
    }
  }

  /** After `assign_from`, a captured variable holds the argument at the last
      position that captures it. */
  lemma {:induction false} AssignedFromLastWriter(ps: seq<Pattern>, vs: seq<Value>, cells: seq<Value>, x: nat, k: nat)
    requires |ps| == |vs|
    requires forall i :: 0 <= i < |ps| && ps[i].In? ==> ps[i].cell < |cells|
    requires k < |ps| && ps[k] == In(x)
    requires forall j :: k < j < |ps| ==> ps[j] != In(x)
    ensures AssignedFrom(ps, vs, cells)[x] == vs[k]
    decreases |ps|
  {
    var n := |ps| - 1;
    if k < n {
      assert forall i :: 0 <= i < n ==> ps[..n][i] == ps[i];
      assert vs[..n][k] == vs[k];
      AssignedFromLastWriter(ps[..n], vs[..n], cells, x, k);
    }
  }

  // ---------------------------------------------------------------------------
  // Invocable::operator()(tuple)

  /** Applying a `Do` functor to a call's tuple: the wrapper passes the
      sixteen fields, and the `DoWrapper` of the declared arity drops the
      trailing `NullType` ones, so the user function gets exactly the
      declared arguments in order. */
  function Invoke<Y>(f: seq<Value> -> Y, slots: seq<Slot<Value>>): Y
    requires IsPadded(slots)
  {
    f(Unpad(slots))
  }

  /** A call made with `args` reaches the functor with `args`. */
  lemma InvokeGetsDeclaredArgs<Y>(f: seq<Value> -> Y, args: seq<Value>)
    requires |args| <= MaxArity
    ensures IsPadded(Padded(args)) && Invoke(f, Padded(args)) == f(args)
  {
    UnpadPadded(args);
  }
}
