/** The yaffut test framework of HippoMocksTest/yaffut.h: the registry of
    named tests (`Factory`), the suite-prefix rule, running and counting,
    the final report, the command-line selection of `Main`, and the
    `check`/`equal`/`unequal` assertions.  A test body is an oracle saying
    whether it passes; console output other than the listing and the report
    is not modelled. */
module Yaffut {
  import opened Wrappers
  import opened Text

  /** `std::numeric_limits<size_t>::max()` on a 64-bit target. */
  const SizeMax: nat := 0xFFFF_FFFF_FFFF_FFFF
  /** `std::string::npos`. */
  const Npos: nat := SizeMax
  const IntMax: int := 0x7FFF_FFFF
  const IntMin: int := -0x8000_0000

  /** A registered `Create_t`, the function that runs one test. */
  type TestId = nat
  /** One element of `m_Tests`, a `std::map<std::string, Create_t>`. */
  type Entry = (string, TestId)

  // ---------------------------------------------------------------------------
  // The key order of std::map<std::string, ...>

  /** `std::string::operator<`: lexicographic order on characters. */
  predicate StrLess(a: string, b: string)
    decreases |a|
  {
    |b| > 0 && (|a| == 0 || a[0] < b[0] || (a[0] == b[0] && StrLess(a[1..], b[1..])))
  }

  lemma {:induction false} StrLessIrreflexive(a: string)
    ensures !StrLess(a, a)
    decreases |a|
  {
    if |a| > 0 {
      StrLessIrreflexive(a[1..]);
    }
  }

  lemma {:induction false} StrLessTransitive(a: string, b: string, c: string)
    requires StrLess(a, b) && StrLess(b, c)
    ensures StrLess(a, c)
    decreases |a|
  {
    if |a| > 0 && a[0] == b[0] && b[0] == c[0] {
      StrLessTransitive(a[1..], b[1..], c[1..]);
    }
  }

  lemma {:induction false} StrLessTotal(a: string, b: string)
    ensures a == b || StrLess(a, b) || StrLess(b, a)
    decreases |a|
  {
    if |a| > 0 && |b| > 0 && a[0] == b[0] {
      StrLessTotal(a[1..], b[1..]);
      if a[1..] == b[1..] {
        assert a == [a[0]] + a[1..] && b == [b[0]] + b[1..];
      }
    }
  }

  /** The iteration order of `m_Tests`: strictly increasing keys. */
  ghost predicate Sorted(tests: seq<Entry>) {
    forall i, j :: 0 <= i < j < |tests| ==> StrLess(tests[i].0, tests[j].0)
  }

  function Keys(tests: seq<Entry>): set<string> {
    set e | e in tests :: e.0
  }

  /** `m_Tests.find(name)`. */
  function Lookup(tests: seq<Entry>, name: string): (r: Option<TestId>)
    ensures r.None? <==> name !in Keys(tests)
    decreases |tests|
  {
    if tests == [] then None
    else if tests[0].0 == name then Some(tests[0].1)
    else
      assert forall e :: e in tests[1..] ==> e in tests;
      assert forall e :: e in tests ==> e == tests[0] || e in tests[1..];
      Lookup(tests[1..], name)
  }

  /** `m_Tests[name] = create` on the sorted sequence of entries: replace
      the entry with that key, or put a new one in its place in key order. */
  function Insert(tests: seq<Entry>, name: string, create: TestId): (r: seq<Entry>)
    decreases |tests|
  {
    if tests == [] then [(name, create)]
    else if tests[0].0 == name then [(name, create)] + tests[1..]
    else if StrLess(name, tests[0].0) then [(name, create)] + tests
    else [tests[0]] + Insert(tests[1..], name, create)
  }

  lemma KeysCons(e: Entry, tests: seq<Entry>)
    ensures Keys([e] + tests) == {e.0} + Keys(tests)
  {
    assert forall x :: x in [e] + tests <==> x == e || x in tests;
  }

  /** Inserting adds exactly the new key. */
  lemma {:induction false} InsertKeys(tests: seq<Entry>, name: string, create: TestId)
    ensures Keys(Insert(tests, name, create)) == Keys(tests) + {name}
    decreases |tests|
  {
    if tests == [] {
      assert Keys([(name, create)]) == {name} by { KeysCons((name, create), []); }
    } else {
      assert tests == [tests[0]] + tests[1..];
      KeysCons(tests[0], tests[1..]);
      if tests[0].0 == name {
        KeysCons((name, create), tests[1..]);
      } else if StrLess(name, tests[0].0) {
        KeysCons((name, create), tests);
      } else {
        InsertKeys(tests[1..], name, create);
        KeysCons(tests[0], Insert(tests[1..], name, create));
      }
    }
  }

  /** Registering keeps the keys in order. */
  lemma {:induction false} InsertSorted(tests: seq<Entry>, name: string, create: TestId)
    requires Sorted(tests)
    ensures Sorted(Insert(tests, name, create))
    decreases |tests|
  {
    if tests == [] {
    } else if tests[0].0 == name {
    } else if StrLess(name, tests[0].0) {
      var r := Insert(tests, name, create);
      forall j | 0 < j < |r|
        ensures StrLess(name, r[j].0)
      {
        if j > 1 {
          StrLessTransitive(name, tests[0].0, tests[j - 1].0);
        }
      }
    } else {
      InsertSorted(tests[1..], name, create);
      InsertAboveHead(tests, name, create);
      var rest := Insert(tests[1..], name, create);
      var r := Insert(tests, name, create);
      assert r == [tests[0]] + rest;
      forall i, j | 0 <= i < j < |r|
        ensures StrLess(r[i].0, r[j].0)
      {
        assert r[j] == rest[j - 1];
        if i > 0 {
          assert r[i] == rest[i - 1];
          assert StrLess(rest[i - 1].0, rest[j - 1].0);
        } else {
          assert r[0] == tests[0];
          assert StrLess(tests[0].0, rest[j - 1].0);
        }
      }
    }
  }

  /** Inserting a name that belongs after the first entry keeps every key
      of the rest after that entry's. */
  lemma InsertAboveHead(tests: seq<Entry>, name: string, create: TestId)
    requires Sorted(tests) && tests != [] && tests[0].0 != name && !StrLess(name, tests[0].0)
    ensures forall j :: 0 <= j < |Insert(tests[1..], name, create)| ==>
      StrLess(tests[0].0, Insert(tests[1..], name, create)[j].0)
  {
    var rest := Insert(tests[1..], name, create);
    InsertKeys(tests[1..], name, create);
    StrLessTotal(name, tests[0].0);
    forall j | 0 <= j < |rest|
      ensures StrLess(tests[0].0, rest[j].0)
    {
      assert rest[j].0 in Keys(rest);
      if rest[j].0 != name {
        var e :| e in tests[1..] && e.0 == rest[j].0;
        var k :| 0 <= k < |tests[1..]| && tests[1..][k] == e;
        assert tests[k + 1] == e;
      }
    }
  }

  /** After `Register(name, f)` the name finds `f`, and every other name
      finds what it found before. */
  lemma {:induction false} InsertLookup(tests: seq<Entry>, name: string, create: TestId, key: string)
    ensures Lookup(Insert(tests, name, create), key) == if key == name then Some(create) else Lookup(tests, key)
    decreases |tests|
  {
    if tests != [] && tests[0].0 != name && !StrLess(name, tests[0].0) {
      InsertLookup(tests[1..], name, create, key);
    }
  }

  // ---------------------------------------------------------------------------
  // EqualsSuiteName, with size_t arithmetic

  /** The first index of `c` in `name`, if any. */
  function FirstIndex(name: string, c: char): (r: Option<nat>)
    ensures r.None? <==> c !in name
    ensures r.Some? ==> r.value < |name| && name[r.value] == c
    ensures r.Some? ==> forall j :: 0 <= j < r.value ==> name[j] != c
    decreases |name|
  {
    if name == [] then None
    else if name[0] == c then Some(0)
    else match FirstIndex(name[1..], c)
      case None => None
      case Some(k) => Some(k + 1)
  }

  /** `name.find(c)`: the first index of `c`, or npos. */
  function Find(name: string, c: char): nat {
    match FirstIndex(name, c)
    case None => Npos
    case Some(k) => k
  }

  /** `name.length() - 2` as a size_t: it wraps for names shorter than two. */
  function LengthMinusTwo(name: string): nat {
    if |name| >= 2 then |name| - 2 else |name| + SizeMax - 1
  }

  /** `s.substr(0, name.length()) == name`. */
  predicate StartsWith(s: string, name: string) {
    name <= s
  }

  /** `EqualsSuiteName(name, s)`. */
  predicate EqualsSuiteName(name: string, s: string) {
    Find(name, ':') >= LengthMinusTwo(name) && StartsWith(s, name)
  }

  /** For any name a string can hold, EqualsSuiteName says: `s` starts with
      `name`, and `name` either has no ':' or has its first ':' in one of its
      last two places (as in `Suite:` and `Suite::`).  The wrap-around makes
      a one-character name qualify unless it is ':' itself, and the empty
      name qualify for every test. */
  lemma SuiteNameRule(name: string, s: string)
    requires |name| < SizeMax
    ensures EqualsSuiteName(name, s) <==>
      name <= s && (':' !in name || (|name| >= 2 && FirstIndex(name, ':').value >= |name| - 2))
  {
    if |name| >= 2 {
      assert LengthMinusTwo(name) == |name| - 2;
    } else if |name| == 1 {
      assert LengthMinusTwo(name) == SizeMax;
    } else {
      assert LengthMinusTwo(name) == SizeMax - 1;
    }
  }

  /** `Suite::` selects the tests of its suite. */
  lemma SuitePrefixSelects(suite: string, case_: string)
    requires ':' !in suite
    ensures EqualsSuiteName(suite + "::", suite + "::" + case_)
  {
    var name := suite + "::";
    assert name[|suite|] == ':';
    assert forall j :: 0 <= j < |suite| ==> name[j] == suite[j];
    assert FirstIndex(name, ':') == Some(|suite|);
    assert name <= name + case_;
  }

  /** A full test name `Suite::Case` is not a suite name: it selects only
      itself, by the exact-name rule. */
  lemma FullNameIsNoSuite(suite: string, case_: string, s: string)
    requires ':' !in suite && |case_| >= 1 && |suite| + 2 + |case_| < SizeMax
    ensures !EqualsSuiteName(suite + "::" + case_, s)
  {
    var name := suite + "::" + case_;
    assert name[|suite|] == ':';
    assert forall j :: 0 <= j < |suite| ==> name[j] == suite[j];
    assert FirstIndex(name, ':') == Some(|suite|);
    assert LengthMinusTwo(name) == |name| - 2;
  }

  // ---------------------------------------------------------------------------
  // Run and the counters

  /** `Run(name)` runs a test when this holds of its name. */
  predicate Selected(name: string, key: string) {
    "All" == name || key == name || EqualsSuiteName(name, key)
  }

  /** `m_pass`, `m_fail`, and the names of the tests run so far in order. */
  datatype Tally = Tally(pass: nat, fail: nat, ran: seq<string>)

  /** One test run: it passes, or it throws and counts as a failure. */
  function Tried(t: Tally, key: string, passed: bool): (r: Tally)
  {
    if passed then Tally(t.pass + 1, t.fail, t.ran + [key])
    else Tally(t.pass, t.fail + 1, t.ran + [key])
  }

  /** The loop of `Run(name)` over `m_Tests` in key order. */
  function RunTally(tests: seq<Entry>, name: string, passes: TestId -> bool, t: Tally): (r: Tally)
    decreases |tests|
  {
    if tests == [] then t
    else
      var t' := if Selected(name, tests[0].0) then Tried(t, tests[0].0, passes(tests[0].1)) else t;
      RunTally(tests[1..], name, passes, t')
  }

  /** The names `Run(name)` selects, in key order. */
  function Selection(tests: seq<Entry>, name: string): (r: seq<string>)
    ensures forall k :: k in r ==> Selected(name, k) && k in Keys(tests)
    decreases |tests|
  {
    if tests == [] then []
    else
      assert forall e :: e in tests[1..] ==> e in tests;
      (if Selected(name, tests[0].0) then [tests[0].0] else []) + Selection(tests[1..], name)
  }

  /** Every selected test is run once, in key order, and adds one to
      exactly one of the two counters. */
  lemma {:induction false} RunCounts(tests: seq<Entry>, name: string, passes: TestId -> bool, t: Tally)
    ensures var r := RunTally(tests, name, passes, t);
      r.ran == t.ran + Selection(tests, name) &&
      r.pass >= t.pass && r.fail >= t.fail &&
      (r.pass - t.pass) + (r.fail - t.fail) == |Selection(tests, name)|
    decreases |tests|
  {
    if tests != [] {
      var t' := if Selected(name, tests[0].0) then Tried(t, tests[0].0, passes(tests[0].1)) else t;
      RunCounts(tests[1..], name, passes, t');
    }
  }

  /** A test whose name is given is run (and so is every other test the
      name selects). */
  lemma {:induction false} NamedTestIsSelected(tests: seq<Entry>, name: string)
    requires name in Keys(tests)
    ensures name in Selection(tests, name)
    decreases |tests|
  {
    if tests[0].0 != name {
      var e :| e in tests && e.0 == name;
      assert e in tests[1..];
      NamedTestIsSelected(tests[1..], name);
    }
  }

  /** `Run("All")` runs every test, in key order. */
  lemma {:induction false} AllRunsEverything(tests: seq<Entry>)
    ensures Selection(tests, "All") == seq(|tests|, i requires 0 <= i < |tests| => tests[i].0)
    decreases |tests|
  {
    if tests != [] {
      AllRunsEverything(tests[1..]);
    }
  }

  /** The empty name selects everything too: `List("")`'s `name.empty()`
      test repeats what EqualsSuiteName already says. */
  lemma EmptyNameSelectsAll(key: string)
    ensures EqualsSuiteName("", key)
  {
  }

  // ---------------------------------------------------------------------------
  // List

  /** The filter of `List(name)`. */
  predicate Listed(name: string, key: string) {
    name == [] || key == name || EqualsSuiteName(name, key)
  }

  /** The line `List` writes for the `i`-th listed test. */
  function NumberedLine(i: nat, key: string): string {
    NatToDecimal(i) + ")\t" + key
  }

  /** `List(name)` as written: the braces around the `if` body are missing,
      so only the number is conditional and every test name is printed,
      matching or not (standard error and standard output as one stream). */
  function ListAsWritten(tests: seq<Entry>, name: string, i: nat): (r: seq<string>)
    decreases |tests|
  {
    if tests == [] then []
    else if Listed(name, tests[0].0) then [NumberedLine(i, tests[0].0)] + ListAsWritten(tests[1..], name, i + 1)
    else [tests[0].0] + ListAsWritten(tests[1..], name, i)
  }

  /** As written, `List` prints one line per registered test whatever the
      filter. */
  lemma {:induction false} ListAsWrittenPrintsAll(tests: seq<Entry>, name: string, i: nat)
    ensures |ListAsWritten(tests, name, i)| == |tests|
    decreases |tests|
  {
    if tests != [] {
      ListAsWrittenPrintsAll(tests[1..], name, if Listed(name, tests[0].0) then i + 1 else i);
    }
  }

  /** With the filter `Suite::`, a test of another suite is listed anyway. */
  lemma ListAsWrittenCounterexample()
    ensures !Listed("A::", "B::y")
    ensures ListAsWritten([("A::x", 0), ("B::y", 1)], "A::", 0) == ["0)\tA::x", "B::y"]
  {
    var tests: seq<Entry> := [("A::x", 0), ("B::y", 1)];
    var name := "A::";
    assert FirstIndex(name, ':') == Some(1) by {
      assert name[0] == 'A' && name[1] == ':';
      assert name[1..][0] == ':';
    }
    assert LengthMinusTwo(name) == 1;
    assert name <= "A::x";
    assert !(name <= "B::y") by { assert "B::y"[0] != name[0]; }
    assert Listed(name, "A::x");
    assert tests[1..] == [("B::y", 1)];
    assert tests[1..][1..] == [];
    assert ListAsWritten(tests[1..], name, 1) == ["B::y"];
    assert NatToDecimal(0) == "0";
    assert NumberedLine(0, "A::x") == "0)\tA::x";
  }

  /** The names `List(name)` is meant to show, in key order. */
  function Matching(tests: seq<Entry>, name: string): seq<string>
    decreases |tests|
  {
    if tests == [] then []
    else (if Listed(name, tests[0].0) then [tests[0].0] else []) + Matching(tests[1..], name)
  }

  /** `List(name)` with the evidently intended braces: only matching tests
      are printed, each after its number. */
  function ListIntended(tests: seq<Entry>, name: string, i: nat): (r: seq<string>)
    decreases |tests|
  {
    if tests == [] then []
    else if Listed(name, tests[0].0) then [NumberedLine(i, tests[0].0)] + ListIntended(tests[1..], name, i + 1)
    else ListIntended(tests[1..], name, i)
  }

  /** The intended listing numbers the matching tests consecutively from
      `i` and prints nothing else. */
  lemma {:induction false} ListIntendedNumbers(tests: seq<Entry>, name: string, i: nat)
    ensures var r := ListIntended(tests, name, i);
      var m := Matching(tests, name);
      |r| == |m| && forall j :: 0 <= j < |r| ==> r[j] == NumberedLine(i + j, m[j])
    decreases |tests|
  {
    if tests != [] {
      var key := tests[0].0;
      if Listed(name, key) {
        ListIntendedNumbers(tests[1..], name, i + 1);
        var r', m' := ListIntended(tests[1..], name, i + 1), Matching(tests[1..], name);
        assert ListIntended(tests, name, i) == [NumberedLine(i, key)] + r';
        assert Matching(tests, name) == [key] + m';
      } else {
        ListIntendedNumbers(tests[1..], name, i);
        assert ListIntended(tests, name, i) == ListIntended(tests[1..], name, i);
        assert Matching(tests, name) == Matching(tests[1..], name);
      }
    }
  }

  /** A test is among the intended listing's names exactly when the filter
      lets it through. */
  lemma {:induction false} MatchingIff(tests: seq<Entry>, name: string)
    ensures forall k :: k in Matching(tests, name) <==> k in Keys(tests) && Listed(name, k)
    decreases |tests|
  {
    if tests != [] {
      MatchingIff(tests[1..], name);
      assert tests == [tests[0]] + tests[1..];
      KeysCons(tests[0], tests[1..]);
    }
  }

  // ---------------------------------------------------------------------------
  // Report

  /** `Report()`: a line break, the total, the passes and, only when some
      test failed, the failures, each against the number of tests. */
  function ReportLines(pass: nat, fail: nat, size: nat): (r: seq<string>)
  {
    var total := "[TOTAL](" + NatToDecimal(pass + fail) + "/" + NatToDecimal(size) + ")";
    var ok := "[OK](" + NatToDecimal(pass) + "/" + NatToDecimal(size) + ")";
    if fail > 0 then ["", total, ok, "[FAIL](" + NatToDecimal(fail) + "/" + NatToDecimal(size) + ")"]
    else ["", total, ok]
  }

  /** A `[FAIL]` line appears exactly when some test failed, and the total
      line carries the number of tests run. */
  lemma ReportFailLine(pass: nat, fail: nat, size: nat)
    ensures var r := ReportLines(pass, fail, size);
      (exists i :: 0 <= i < |r| && "[FAIL](" <= r[i]) <==> fail > 0
    ensures var r := ReportLines(pass, fail, size);
      r[1] == "[TOTAL](" + NatToDecimal(pass + fail) + "/" + NatToDecimal(size) + ")"
  {
    var r := ReportLines(pass, fail, size);
    assert !("[FAIL](" <= r[0]);
    assert r[1][1] == 'T' && !("[FAIL](" <= r[1]);
    assert r[2][1] == 'O' && !("[FAIL](" <= r[2]);
    if fail > 0 {
      assert "[FAIL](" <= r[3];
    }
  }

  // ---------------------------------------------------------------------------
  // Main's argument handling

  /** The characters `isspace` accepts in the C locale. */
  predicate IsSpace(c: char) {
    c == ' ' || c == '\t' || c == '\n' || c == '\r' || c as int == 11 || c as int == 12
  }

  function SkipSpace(s: string): (r: string)
    ensures |r| <= |s| && (r == [] || !IsSpace(r[0]))
    decreases |s|
  {
    if s != [] && IsSpace(s[0]) then SkipSpace(s[1..]) else s
  }

  /** The length of the run of digits `s` starts with. */
  function DigitRun(s: string): (n: nat)
    ensures n <= |s| && (n < |s| ==> !IsDigit(s[n]))
    ensures forall i :: 0 <= i < n ==> IsDigit(s[i])
    decreases |s|
  {
    if s != [] && IsDigit(s[0]) then 1 + DigitRun(s[1..]) else 0
  }

  /** The value of the run of digits `u` starts with, if there is one. */
  function ReadDigits(u: string): (r: Option<nat>)
    ensures r.None? <==> u == [] || !IsDigit(u[0])
  {
    var n := DigitRun(u);
    if n == 0 then None else Some(DecimalValue(u[..n]))
  }

  /** `std::istringstream(s) >> num` for an `int num`, and whether the
      stream is still good afterwards: skip white space, take an optional
      sign and the longest run of decimal digits; no digit, or a value out
      of the range of int, fails.  What follows the digits is ignored. */
  function ParseInt(s: string): (r: Option<int>)
    ensures r.Some? ==> IntMin <= r.value <= IntMax
  {
    var t := SkipSpace(s);
    var neg := t != [] && t[0] == '-';
    match ReadDigits(if t != [] && (t[0] == '-' || t[0] == '+') then t[1..] else t)
    case None => None
    case Some(v) =>
      var x := if neg then -(v as int) else v as int;
      if IntMin <= x <= IntMax then Some(x) else None
  }

  lemma {:induction false} DigitRunOfDigits(s: string)
    requires forall i :: 0 <= i < |s| ==> IsDigit(s[i])
    ensures DigitRun(s) == |s|
    decreases |s|
  {
    if s != [] {
      DigitRunOfDigits(s[1..]);
    }
  }

  /** The digits of a number read back as that number. */
  lemma ReadDecimal(n: nat)
    ensures ReadDigits(NatToDecimal(n)) == Some(n)
  {
    var d := NatToDecimal(n);
    DigitRunOfDigits(d);
    DecimalRoundTrip(n);
    assert d[..|d|] == d;
  }

  /** A number written in decimal reads back as itself. */
  lemma ParseIntRoundTrip(k: int)
    requires IntMin <= k <= IntMax
    ensures ParseInt(IntToDecimal(k)) == Some(k)
  {
    if k < 0 {
      var d := NatToDecimal(-k);
      var t := "-" + d;
      assert IntToDecimal(k) == t;
      assert SkipSpace(t) == t;
      assert t[1..] == d;
      ReadDecimal(-k);
    } else {
      var d := NatToDecimal(k);
      assert SkipSpace(d) == d;
      assert d[0] != '-' && d[0] != '+';
      ReadDecimal(k);
    }
  }

  /** A test name such as `Suite::Case`, which does not start with space,
      a sign or a digit, is never read as a number. */
  lemma NameIsNotANumber(s: string)
    requires s != [] && !IsSpace(s[0]) && !IsDigit(s[0]) && s[0] != '-' && s[0] != '+'
    ensures ParseInt(s) == None
  {
  }

  /** What `Main` passes to `Run` for one argument: a number `k` below the
      number of tests names the test at index `max(k, 0)` in key order; a
      larger number runs nothing; anything else is a name.  A negative
      number with no test registered dereferences `end()`; it runs nothing
      here. */
  function Target(tests: seq<Entry>, arg: string): (r: Option<string>)
    ensures ParseInt(arg).None? ==> r == Some(arg)
    ensures ParseInt(arg).Some? && 0 <= ParseInt(arg).value < |tests| ==> r == Some(tests[ParseInt(arg).value].0)
    ensures ParseInt(arg).Some? && ParseInt(arg).value < 0 && tests != [] ==> r == Some(tests[0].0)
    ensures ParseInt(arg).Some? && ParseInt(arg).value >= |tests| ==> r == None
  {
    match ParseInt(arg)
    case None => Some(arg)
    case Some(k) =>
      if k < |tests| && tests != [] then Some(tests[if k < 0 then 0 else k].0) else None
  }

  /** The arguments `Main` goes through: all of `argv`, program name
      included, when there is more than one; else just `All`. */
  function Arguments(argv: seq<string>): (r: seq<string>)
    ensures |argv| > 1 ==> r == argv
    ensures |argv| <= 1 ==> r == ["All"]
  {
    if 1 < |argv| then argv else ["All"]
  }

  /** The options `Main` answers before running anything. */
  predicate IsHelp(argv: seq<string>) {
    |argv| > 1 && (argv[1] == "-h" || argv[1] == "--help")
  }

  predicate IsList(argv: seq<string>) {
    |argv| > 1 && (argv[1] == "-l" || argv[1] == "--list")
  }

  predicate IsVersion(argv: seq<string>) {
    |argv| > 1 && (argv[1] == "-v" || argv[1] == "--version")
  }

  /** The filter of `-l`: the next argument, or none. */
  function ListFilter(argv: seq<string>): string {
    if |argv| > 2 then argv[2] else ""
  }

  /** One turn of `Main`'s loop: run what the argument names, if anything. */
  function ArgumentStep(tests: seq<Entry>, arg: string, passes: TestId -> bool, t: Tally): Tally {
    match Target(tests, arg)
    case Some(name) => RunTally(tests, name, passes, t)
    case None => t
  }

  /** The loop of `Main` over its arguments. */
  function RunArguments(tests: seq<Entry>, args: seq<string>, passes: TestId -> bool, t: Tally): (r: Tally)
    decreases |args|
  {
    if args == [] then t
    else RunArguments(tests, args[1..], passes, ArgumentStep(tests, args[0], passes, t))
  }

  /** Running the arguments only adds: the counters grow by the number of
      tests run, and the run log is extended. */
  lemma {:induction false} RunArgumentsCounts(tests: seq<Entry>, args: seq<string>, passes: TestId -> bool, t: Tally)
    ensures var r := RunArguments(tests, args, passes, t);
      t.ran <= r.ran && r.pass >= t.pass && r.fail >= t.fail &&
      (r.pass - t.pass) + (r.fail - t.fail) == |r.ran| - |t.ran|
    decreases |args|
  {
    if args != [] {
      if Target(tests, args[0]).Some? {
        RunCounts(tests, Target(tests, args[0]).value, passes, t);
      }
      RunArgumentsCounts(tests, args[1..], passes, ArgumentStep(tests, args[0], passes, t));
    }
  }

  /** With no arguments, `Main` runs every test once, in key order. */
  lemma NoArgumentsRunsAll(tests: seq<Entry>, passes: TestId -> bool, t: Tally)
    ensures RunArguments(tests, Arguments([]), passes, t).ran ==
      t.ran + seq(|tests|, i requires 0 <= i < |tests| => tests[i].0)
  {
    assert Arguments([]) == ["All"];
    assert ParseInt("All") == None;
    RunCounts(tests, "All", passes, t);
    AllRunsEverything(tests);
    assert RunArguments(tests, ["All"], passes, t) == RunArguments(tests, [], passes, RunTally(tests, "All", passes, t));
  }

  // ---------------------------------------------------------------------------
  // Assertions

  /** A thrown `yaffut::failure`, by its `what()` text. */
  datatype Failure = Failure(what: string)

  /** `failure(e, a, at, expr)`; `eType`/`aType` stand for the demangled
      type names. */
  function MismatchText(e: string, a: string, eType: string, aType: string, at: string, expr: string): string {
    at + expr + "\nexpected: (" + eType + ") " + e + " != actual: (" + aType + ") " + a
  }

  /** `check(b, at, expr)`: throws `failure(at, expr)` exactly when `b` is
      false. */
  function Check(b: bool, at: string, expr: string): (r: Option<Failure>)
    ensures r.None? <==> b
    ensures r.Some? ==> r.value.what == at + expr
  {
    if !b then Some(Failure(at + expr)) else None
  }

  /** `equal(e, a, at, expr)`: throws exactly when the values differ. */
  function Equal<T(==)>(e: T, a: T, show: T -> string, eType: string, aType: string, at: string, expr: string): (r: Option<Failure>)
    ensures r.None? <==> e == a
    ensures r.Some? ==> r.value.what == MismatchText(show(e), show(a), eType, aType, at, expr)
  {
    if e != a then Some(Failure(MismatchText(show(e), show(a), eType, aType, at, expr))) else None
  }

  /** `unequal(e, a, at, expr)`: throws exactly when the values are equal. */
  function Unequal<T(==)>(e: T, a: T, show: T -> string, eType: string, aType: string, at: string, expr: string): (r: Option<Failure>)
    ensures r.None? <==> e != a
    ensures r.Some? ==> r.value.what == MismatchText(show(e), show(a), eType, aType, at, expr)
  {
    if e == a then Some(Failure(MismatchText(show(e), show(a), eType, aType, at, expr))) else None
  }

  /** Of `equal` and `unequal` on the same values exactly one throws, and
      with the same message. */
  lemma EqualUnequalComplement<T>(e: T, a: T, show: T -> string, eType: string, aType: string, at: string, expr: string)
    ensures Equal(e, a, show, eType, aType, at, expr).Some? != Unequal(e, a, show, eType, aType, at, expr).Some?
    ensures var m := Equal(e, a, show, eType, aType, at, expr);
      var n := Unequal(e, a, show, eType, aType, at, expr);
      (if m.Some? then m else n) == Some(Failure(MismatchText(show(e), show(a), eType, aType, at, expr)))
  {
  }

  /** A mismatch message starts with the location and the expression, as
      the plain `failure(at, expr)` does. */
  lemma MismatchStartsAsCheck(e: string, a: string, eType: string, aType: string, at: string, expr: string)
    ensures at + expr <= MismatchText(e, a, eType, aType, at, expr)
  {
  }

  // ---------------------------------------------------------------------------
  // The Factory singleton

  class Factory {
    /** `m_Tests`, in key order. */
    var tests: seq<Entry>
    var pass: nat
    var fail: nat
    /** The names of the tests run, in order. */
    var ran: seq<string>
    /** The lines `List` printed. */
    var listed: seq<string>

    ghost predicate Valid()
      reads this
    {
      Sorted(tests)
    }

    function Counters(): Tally
      reads this
    {
      Tally(pass, fail, ran)
    }

    /** `Instance()`'s static object: no tests, both counters zero (static
        storage is zero-initialised; the constructor sets nothing). */
    constructor()
      ensures Valid() && tests == [] && Counters() == Tally(0, 0, []) && listed == []
    {
      tests := [];
      pass := 0;
      fail := 0;
      ran := [];
      listed := [];
    }

    /** `Register(name, create)`. */
    method Register(name: string, create: TestId)
      requires Valid()
      modifies this
      ensures Valid()
      ensures tests == Insert(old(tests), name, create)
      ensures Counters() == old(Counters()) && listed == old(listed)
    {
      InsertSorted(tests, name, create);
      tests := Insert(tests, name, create);
    }

    /** `Fail()`: the number of failed tests. */
    function Fail(): (n: nat)
      reads this
      ensures n == Counters().fail
    {
      fail
    }

    /** `List(name)`, with the braces the layout of the source intends. */
    method List(name: string)
      modifies this
      ensures listed == old(listed) + ListIntended(tests, name, 0)
      ensures tests == old(tests) && Counters() == old(Counters())
    {
      var i := 0;
      var k := 0;
      while k < |tests|
        invariant 0 <= k <= |tests|
        invariant listed + ListIntended(tests[k..], name, i) == old(listed) + ListIntended(tests, name, 0)
        invariant tests == old(tests) && Counters() == old(Counters())
      {
        assert tests[k..][1..] == tests[k + 1..];
        if name == [] || tests[k].0 == name || EqualsSuiteName(name, tests[k].0) {
          listed := listed + [NumberedLine(i, tests[k].0)];
          i := i + 1;
        }
        k := k + 1;
      }
    }

    /** `Run(name)`; `passes` says which tests pass. */
    method Run(name: string, passes: TestId -> bool)
      modifies this
      ensures Counters() == RunTally(tests, name, passes, old(Counters()))
      ensures tests == old(tests) && listed == old(listed)
    {
      var k := 0;
      while k < |tests|
        invariant 0 <= k <= |tests|
        invariant RunTally(tests[k..], name, passes, Counters()) == RunTally(tests, name, passes, old(Counters()))
        invariant tests == old(tests) && listed == old(listed)
      {
        assert tests[k..][1..] == tests[k + 1..];
        var key := tests[k].0;
        if "All" == name || key == name || EqualsSuiteName(name, key) {
          ran := ran + [key];
          if passes(tests[k].1) {
            pass := pass + 1;
          } else {
            fail := fail + 1;
          }
        }
        k := k + 1;
      }
    }

    /** The body of `Main`'s loop for one argument. */
    method RunArgument(arg: string, passes: TestId -> bool)
      modifies this
      ensures Counters() == ArgumentStep(tests, arg, passes, old(Counters()))
      ensures tests == old(tests) && listed == old(listed)
    {
      var num := ParseInt(arg);
      if num.Some? {
        if num.value < |tests| && tests != [] {
          var index := if num.value < 0 then 0 else num.value;
          Run(tests[index].0, passes);
        }
      } else {
        Run(arg, passes);
      }
    }

    /** `Report()`: the lines printed. */
    method Report() returns (lines: seq<string>)
      ensures lines == ReportLines(pass, fail, |tests|)
    {
      lines := ["", "[TOTAL](" + NatToDecimal(pass + fail) + "/" + NatToDecimal(|tests|) + ")",
                "[OK](" + NatToDecimal(pass) + "/" + NatToDecimal(|tests|) + ")"];
      if fail > 0 {
        lines := lines + ["[FAIL](" + NatToDecimal(fail) + "/" + NatToDecimal(|tests|) + ")"];
      }
    }

    /** `Main(argc, argv)`, the runner's entry point: the help, list and version options answer 0 and
        run nothing; otherwise every argument is run in turn, the report is
        printed, and the answer is the number of failures. */
    method Start(argv: seq<string>, passes: TestId -> bool) returns (code: int, report: seq<string>)
      requires Valid()
      modifies this
      ensures Valid() && tests == old(tests)
      ensures IsHelp(argv) || IsList(argv) || IsVersion(argv) ==>
        code == 0 && report == [] && Counters() == old(Counters())
      ensures IsList(argv) && !IsHelp(argv) ==> listed == old(listed) + ListIntended(tests, ListFilter(argv), 0)
      ensures !IsList(argv) || IsHelp(argv) ==> listed == old(listed)
      ensures !(IsHelp(argv) || IsList(argv) || IsVersion(argv)) ==>
        Counters() == RunArguments(tests, Arguments(argv), passes, old(Counters())) &&
        code == fail && report == ReportLines(pass, fail, |tests|)
    {
      if IsHelp(argv) {
        return 0, [];
      }
      if IsList(argv) {
        List(if |argv| > 2 then argv[2] else "");
        return 0, [];
      }
      if IsVersion(argv) {
        return 0, [];
      }
      var test := ["All"];
      if 1 < |argv| {
        test := argv;
      }
      var i := 0;
      while i < |test|
        invariant 0 <= i <= |test| && test == Arguments(argv)
        invariant RunArguments(tests, test[i..], passes, Counters()) == RunArguments(tests, test, passes, old(Counters()))
        invariant tests == old(tests) && listed == old(listed)
      {
        assert test[i..][1..] == test[i + 1..];
        RunArgument(test[i], passes);
        i := i + 1;
      }
      report := Report();
      code := Fail();
    }
  }
}
