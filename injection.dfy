/** `Injection<T>` of injector/injection.h: the install state of one code
    injection.  Its only field is `fnOriginal`, the trampoline `inject`
    returned (NULL while nothing is installed).  `inject` and `uninject`
    patch code memory; here they are effects recorded in a log, and the
    pointer `inject` returns is a parameter of `install`. */
module Injections {
  /** An address; 0 is NULL. */
  type Pointer = nat

  const Null: Pointer := 0

  /** A call into the code patcher. */
  datatype Effect =
    | Inject(target: Pointer, replacement: Pointer)
    | Uninject(original: Pointer)

  datatype State = State(fnOriginal: Pointer, effects: seq<Effect>)

  /** The state of `Injection()`. */
  const Initial: State := State(Null, [])

  /** `isInstalled()`. */
  predicate IsInstalled(s: State) {
    s.fnOriginal != Null
  }

  /** `install(fnOriginalFunc, fnReplacement)`, where `injected` is what
      `inject` returns: NULL is refused without touching anything; otherwise
      `inject` runs, its result is kept, and the answer is whether it is
      non-NULL.  An injection already installed is overwritten, not undone
      first. */
  function InstallStep(s: State, target: Pointer, replacement: Pointer, injected: Pointer): (r: (State, bool))
  {
    if target == Null then (s, false)
    else (State(injected, s.effects + [Inject(target, replacement)]), injected != Null)
  }

  /** The Win32 `install(hModule, offset, fnReplacement)`: refused when
      either the module or the offset is NULL, else `inject` at the module
      base plus the offset. */
  function InstallAtStep(s: State, hModule: Pointer, offset: Pointer, replacement: Pointer, injected: Pointer): (r: (State, bool))
  {
    if offset == Null || hModule == Null then (s, false)
    else (State(injected, s.effects + [Inject(hModule + offset, replacement)]), injected != Null)
  }

  /** `uninstall()`: `uninject` the trampoline and clear it, if installed. */
  function UninstallStep(s: State): (r: State)
  {
    if s.fnOriginal != Null then State(Null, s.effects + [Uninject(s.fnOriginal)]) else s
  }

  /** The number of `uninject` calls in a log. */
  function Uninjects(effects: seq<Effect>): (n: nat)
    ensures n <= |effects|
  {
    if effects == [] then 0
    else Uninjects(effects[..|effects| - 1]) + (if effects[|effects| - 1].Uninject? then 1 else 0)
  }

  /** The number of `inject` calls in a log. */
  function Injects(effects: seq<Effect>): (n: nat)
    ensures n <= |effects|
  {
    if effects == [] then 0
    else Injects(effects[..|effects| - 1]) + (if effects[|effects| - 1].Inject? then 1 else 0)
  }

  /** Every log entry is one of the two calls. */
  lemma {:induction false} EffectsSplit(effects: seq<Effect>)
    ensures Injects(effects) + Uninjects(effects) == |effects|
  {
    if effects != [] {
      EffectsSplit(effects[..|effects| - 1]);
    }
  }

  /** A new injection is not installed and has called nothing. */
  lemma InitialNotInstalled()
    ensures !IsInstalled(Initial) && Initial.effects == []
  {
  }

  /** `install(NULL, f)` answers false and changes nothing. */
  lemma InstallNullRefused(s: State, replacement: Pointer, injected: Pointer)
    ensures InstallStep(s, Null, replacement, injected) == (s, false)
  {
  }

  /** A non-NULL `install` calls `inject` exactly once, with its arguments,
      and its answer is exactly whether the injection is now installed. */
  lemma InstallReports(s: State, target: Pointer, replacement: Pointer, injected: Pointer)
    requires target != Null
    ensures var (s', ok) := InstallStep(s, target, replacement, injected);
      ok == IsInstalled(s') && s'.fnOriginal == injected &&
      s'.effects == s.effects + [Inject(target, replacement)] &&
      Injects(s'.effects) == Injects(s.effects) + 1 &&
      Uninjects(s'.effects) == Uninjects(s.effects)
  {
    var e := s.effects + [Inject(target, replacement)];
    assert e[..|e| - 1] == s.effects;
  }

  /** The module overload refuses a NULL module or offset without calling
      `inject`, and otherwise is `install` at the module base plus the
      offset. */
  lemma InstallAtIsInstall(s: State, hModule: Pointer, offset: Pointer, replacement: Pointer, injected: Pointer)
    ensures hModule == Null || offset == Null ==> InstallAtStep(s, hModule, offset, replacement, injected) == (s, false)
    ensures hModule != Null && offset != Null ==>
      InstallAtStep(s, hModule, offset, replacement, injected) == InstallStep(s, hModule + offset, replacement, injected)
  {
  }

  /** `uninstall` calls `uninject` exactly once, on the trampoline, when
      installed and nothing otherwise; afterwards nothing is installed. */
  lemma UninstallOnce(s: State)
    ensures !IsInstalled(UninstallStep(s))
    ensures Injects(UninstallStep(s).effects) == Injects(s.effects)
    ensures Uninjects(UninstallStep(s).effects) == Uninjects(s.effects) + (if IsInstalled(s) then 1 else 0)
    ensures IsInstalled(s) ==> UninstallStep(s).effects[|s.effects|] == Uninject(s.fnOriginal)
  {
    if IsInstalled(s) {
      var e := UninstallStep(s).effects;
      assert e[..|e| - 1] == s.effects;
    }
  }

  /** A second `uninstall` does nothing. */
  lemma UninstallIdempotent(s: State)
    ensures UninstallStep(UninstallStep(s)) == UninstallStep(s)
  {
  }

  /** A successful install followed by an uninstall leaves nothing
      installed and undoes exactly the trampoline that was made. */
  lemma InstallThenUninstall(s: State, target: Pointer, replacement: Pointer, injected: Pointer)
    requires InstallStep(s, target, replacement, injected).1
    ensures UninstallStep(InstallStep(s, target, replacement, injected).0) ==
      State(Null, s.effects + [Inject(target, replacement), Uninject(injected)])
  {
  }

  /** The object itself; `effects` is the record of patcher calls. */
  class Injection {
    var fnOriginal: Pointer
    var effects: seq<Effect>

    function Current(): State
      reads this
    {
      State(fnOriginal, effects)
    }

    /** `Injection()`. */
    constructor()
      ensures Current() == Initial
    {
      fnOriginal := Null;
      effects := [];
    }

    /** `isInstalled()`. */
    function Installed(): (r: bool)
      reads this
      ensures r == IsInstalled(Current())
    {
      fnOriginal != Null
    }

    /** `install(fnOriginalFunc, fnReplacement)`; `injected` stands for
        what `inject` returns. */
    method Install(target: Pointer, replacement: Pointer, injected: Pointer) returns (ok: bool)
      modifies this
      ensures (Current(), ok) == InstallStep(old(Current()), target, replacement, injected)
    {
      if target == Null {
        return false;
      }
      effects := effects + [Inject(target, replacement)];
      fnOriginal := injected;
      ok := fnOriginal != Null;
    }

    /** `install(hModule, offset, fnReplacement)`. */
    method InstallAt(hModule: Pointer, offset: Pointer, replacement: Pointer, injected: Pointer) returns (ok: bool)
      modifies this
      ensures (Current(), ok) == InstallAtStep(old(Current()), hModule, offset, replacement, injected)
    {
      if offset == Null || hModule == Null {
        return false;
      }
      effects := effects + [Inject(hModule + offset, replacement)];
      fnOriginal := injected;
      ok := fnOriginal != Null;
    }

    /** `uninstall()`. */
    method Uninstall()
      modifies this
      ensures Current() == UninstallStep(old(Current()))
    {
      if fnOriginal != Null {
        effects := effects + [Uninject(fnOriginal)];
        fnOriginal := Null;
      }
    }

    /** `~Injection()`: uninstalls. */
    method Destroy()
      modifies this
      ensures Current() == UninstallStep(old(Current()))
      ensures !Installed()
    {
      Uninstall();
      UninstallOnce(old(Current()));
    }
  }
}
