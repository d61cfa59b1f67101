/** The test-environment guard: an undo log under one non-reentrant lock. */
module EnvGuard {
  import opened Common

  /** A process environment value; `Raw` stands for one that is not valid Unicode. */
  datatype Value = Text(s: string) | Raw(id: nat)

  type Env = map<string, Value>

  /** One captured original. */
  datatype Saved = Saved(name: string, original: Option<string>)

  datatype Op = SetOp(name: string, value: string) | RemoveOp(name: string)

  /** Environment and undo log of the guard that holds the lock. */
  datatype Guarded = Guarded(env: Env, log: seq<Saved>)

  /** `env::var(name).ok()`: an absent and a non-Unicode value look the same. */
  function Capture(env: Env, name: string): Option<string> {
    if name in env && env[name].Text? then Some(env[name].s) else None
  }

  function Perform(env: Env, op: Op): Env {
    if op.SetOp? then env[op.name := Text(op.value)] else env - {op.name}
  }

  /** Capture first, then change. */
  function Do(g: Guarded, op: Op): Guarded {
    Guarded(Perform(g.env, op), g.log + [Saved(op.name, Capture(g.env, op.name))])
  }

  function DoAll(g: Guarded, ops: seq<Op>): Guarded
    decreases |ops|
  {
    if ops == [] then g else DoAll(Do(g, ops[0]), ops[1..])
  }

  function PutBack(env: Env, s: Saved): Env {
    if s.original.Some? then env[s.name := Text(s.original.value)] else env - {s.name}
  }

  /** Drop: put the captures back, the last one first. */
  function Undo(env: Env, log: seq<Saved>): Env
    decreases |log|
  {
    if log == [] then env else Undo(PutBack(env, log[|log| - 1]), log[..|log| - 1])
  }

  // ----- the guard as it runs ----------------------------------------------------------------

  class Environment {
    var vars: Env
  }

  function SetOps(vars: seq<(string, string)>): seq<Op> {
    seq(|vars|, i requires 0 <= i < |vars| => SetOp(vars[i].0, vars[i].1))
  }

  function RemoveOps(names: seq<string>): seq<Op> {
    seq(|names|, i requires 0 <= i < |names| => RemoveOp(names[i]))
  }

  /** The outcome of a constructor: all changes made, or those before the first one that panics. */
  ghost predicate Built(now: Env, was: Env, ops: seq<Op>, panics: Op -> bool, r: Result<Guard, nat>) {
    match r
    case Ok(_) =>
      (forall i :: 0 <= i < |ops| ==> !panics(ops[i])) && now == DoAll(Guarded(was, []), ops).env
    case Err(i) =>
      && i < |ops| && panics(ops[i]) && (forall j :: 0 <= j < i ==> !panics(ops[j]))
      && now == DoAll(Guarded(was, []), ops[..i]).env
  }

  /** Each listed name holds the value of its last occurrence, every other variable is as it was. */
  ghost predicate Assigned(now: Env, was: Env, vars: seq<(string, string)>) {
    && (forall i :: 0 <= i < |vars| && (forall j :: i < j < |vars| ==> vars[j].0 != vars[i].0) ==>
          vars[i].0 in now && now[vars[i].0] == Text(vars[i].1))
    && (forall name :: (forall i :: 0 <= i < |vars| ==> vars[i].0 != name) ==> AgreeOn(now, was, name))
  }

  /** None of the names is set, every other variable is as it was. */
  ghost predicate Cleared(now: Env, was: Env, names: seq<string>) {
    && (forall i :: 0 <= i < |names| ==> names[i] !in now)
    && (forall name :: name !in names ==> AgreeOn(now, was, name))
  }

  lemma AssignedNothing(env: Env)
    ensures Assigned(env, env, []) && Cleared(env, env, [])
  {
  }

  lemma AssignedNext(now: Env, was: Env, vars: seq<(string, string)>, n: nat)
    requires n < |vars| && Assigned(now, was, vars[..n])
    ensures Assigned(now[vars[n].0 := Text(vars[n].1)], was, vars[..n + 1])
  {
    var before, all, next := vars[..n], vars[..n + 1], now[vars[n].0 := Text(vars[n].1)];
    assert forall i :: 0 <= i < n ==> all[i] == before[i];
    forall i | 0 <= i < |all| && (forall j :: i < j < |all| ==> all[j].0 != all[i].0)
      ensures all[i].0 in next && next[all[i].0] == Text(all[i].1)
    {
      if i < n {
        assert all[n].0 != all[i].0;
        assert forall j :: i < j < n ==> before[j].0 != before[i].0;
        assert before[i].0 in now;
      }
    }
    forall name | forall i :: 0 <= i < |all| ==> all[i].0 != name
      ensures AgreeOn(next, was, name)
    {
      assert all[n].0 != name;
      assert forall i :: 0 <= i < n ==> before[i].0 != name;
      assert AgreeOn(now, was, name);
    }
  }

  lemma ClearedNext(now: Env, was: Env, names: seq<string>, n: nat)
    requires n < |names| && Cleared(now, was, names[..n])
    ensures Cleared(now - {names[n]}, was, names[..n + 1])
  {
    var before, all := names[..n], names[..n + 1];
    assert all == before + [names[n]];
    forall name | name !in all
      ensures AgreeOn(now - {names[n]}, was, name)
    {
      assert name !in before && name != names[n];
      assert AgreeOn(now, was, name);
    }
  }

  lemma {:induction false} DoAllSnoc(g: Guarded, ops: seq<Op>, n: nat)
    requires n < |ops|
    ensures DoAll(g, ops[..n + 1]) == Do(DoAll(g, ops[..n]), ops[n])
    decreases n
  {
    hide Do;
    if n > 0 {
      assert ops[..n + 1][1..] == ops[1..][..n] && ops[..n][1..] == ops[1..][..n - 1];
      DoAllSnoc(Do(g, ops[0]), ops[1..], n - 1);
    } else {
      assert ops[..1][1..] == [];
    }
  }

  class Guard {
    const env: Environment
    var originalVars: seq<Saved>

    ghost function State(): Guarded
      reads this, env
    {
      Guarded(env.vars, originalVars)
    }

    constructor (env: Environment)
      ensures this.env == env && originalVars == []
    {
      this.env, originalVars := env, [];
    }

    /** Capture and set each variable. Where `panics` says so, `set_var` panics: the guard is never
        built, so nothing is put back, and the error names the place. */
    static method With(env: Environment, vars: seq<(string, string)>, panics: Op -> bool)
      returns (r: Result<Guard, nat>)
      modifies env
      ensures Built(env.vars, old(env.vars), SetOps(vars), panics, r)
      ensures r.Ok? ==> fresh(r.value) && r.value.env == env
      ensures r.Ok? ==> r.value.State() == DoAll(Guarded(old(env.vars), []), SetOps(vars))
      ensures Assigned(env.vars, old(env.vars), if r.Ok? then vars else vars[..r.error])
    {
      hide Assigned;
      AssignedNothing(env.vars);
      var ops := SetOps(vars);
      assert vars[..0] == [] && ops[..0] == [];
      var guard := new Guard(env);
      for i := 0 to |vars|
        invariant guard.env == env && fresh(guard)
        invariant forall j :: 0 <= j < i ==> !panics(ops[j])
        invariant guard.State() == DoAll(Guarded(old(env.vars), []), ops[..i])
        invariant Assigned(env.vars, old(env.vars), vars[..i])
      {
        if panics(SetOp(vars[i].0, vars[i].1)) {
          return Err(i);
        }
        AssignedNext(env.vars, old(env.vars), vars, i);
        DoAllSnoc(Guarded(old(env.vars), []), ops, i);
        guard.Set(vars[i].0, vars[i].1);
      }
      assert ops[..|vars|] == ops && vars[..|vars|] == vars;
      return Ok(guard);
    }

    /** Capture and remove each variable. */
    static method Clean(env: Environment, names: seq<string>, panics: Op -> bool)
      returns (r: Result<Guard, nat>)
      modifies env
      ensures Built(env.vars, old(env.vars), RemoveOps(names), panics, r)
      ensures r.Ok? ==> fresh(r.value) && r.value.env == env
      ensures r.Ok? ==> r.value.State() == DoAll(Guarded(old(env.vars), []), RemoveOps(names))
      ensures Cleared(env.vars, old(env.vars), if r.Ok? then names else names[..r.error])
    {
      hide Cleared;
      AssignedNothing(env.vars);
      var ops := RemoveOps(names);
      assert names[..0] == [] && ops[..0] == [];
      var guard := new Guard(env);
      for i := 0 to |names|
        invariant guard.env == env && fresh(guard)
        invariant forall j :: 0 <= j < i ==> !panics(ops[j])
        invariant guard.State() == DoAll(Guarded(old(env.vars), []), ops[..i])
        invariant Cleared(env.vars, old(env.vars), names[..i])
      {
        if panics(RemoveOp(names[i])) {
          return Err(i);
        }
        ClearedNext(env.vars, old(env.vars), names, i);
        DoAllSnoc(Guarded(old(env.vars), []), ops, i);
        guard.Remove(names[i]);
      }
      assert ops[..|names|] == ops && names[..|names|] == names;
      return Ok(guard);
    }

    method Set(name: string, value: string)
      modifies this, env
      ensures State() == Do(old(State()), SetOp(name, value))
      ensures env.vars == old(env.vars)[name := Text(value)]
    {
      originalVars := originalVars + [Saved(name, Capture(env.vars, name))];
      env.vars := env.vars[name := Text(value)];
    }

    method Remove(name: string)
      modifies this, env
      ensures State() == Do(old(State()), RemoveOp(name))
      ensures env.vars == old(env.vars) - {name}
    {
      originalVars := originalVars + [Saved(name, Capture(env.vars, name))];
      env.vars := env.vars - {name};
    }

    /** Drop runs at the end of the scope or while unwinding. */
    method Drop()
      modifies env
      ensures env.vars == Undo(old(env.vars), originalVars)
    {
      var i := |originalVars|;
      assert originalVars[..i] == originalVars;
      while i > 0
        invariant 0 <= i <= |originalVars|
        invariant Undo(old(env.vars), originalVars) == Undo(env.vars, originalVars[..i])
      {
        assert originalVars[..i][..i - 1] == originalVars[..i - 1];
        i := i - 1;
        var s := originalVars[i];
        match s.original {
          case Some(value) => env.vars := env.vars[s.name := Text(value)];
          case None => env.vars := env.vars - {s.name};
        }
      }
    }
  }

  // ----- what dropping restores ----------------------------------------------------------------

  function Names(ops: seq<Op>): set<string> {
    set op | op in ops :: op.name
  }

  /** `env` without the non-Unicode values of `names`. */
  function Lossy(env: Env, names: set<string>): Env {
    map k | k in env && !(k in names && env[k].Raw?) :: env[k]
  }

  lemma {:induction false} UndoWithout(env: Env, log: seq<Saved>, name: string)
    requires forall s :: s in log ==> s.name != name
    ensures Undo(env - {name}, log) == Undo(env, log) - {name}
    decreases |log|
  {
    if log != [] {
      var s := log[|log| - 1];
      assert s in log;
      assert PutBack(env - {name}, s) == PutBack(env, s) - {name};
      UndoWithout(PutBack(env, s), log[..|log| - 1], name);
    }
  }

  function WithoutRaw(env: Env, name: string): Env {
    if name in env && env[name].Raw? then env - {name} else env
  }

  /** Undoing one more step undoes it exactly, except that a non-Unicode value is lost. */
  lemma UndoOneStep(g: Guarded, op: Op)
    ensures var g' := Do(g, op);
            Undo(g'.env, g'.log) == Undo(WithoutRaw(g.env, op.name), g.log)
  {
    var g' := Do(g, op);
    assert g'.log[..|g.log|] == g.log;
    assert PutBack(g'.env, g'.log[|g.log|]) == WithoutRaw(g.env, op.name);
  }

  /** Non-Unicode values still in the environment were never captured. */
  ghost predicate RawUntouched(g: Guarded) {
    forall s :: s in g.log ==> !(s.name in g.env && g.env[s.name].Raw?)
  }

  lemma DoKeepsRawUntouched(g: Guarded, op: Op)
    requires RawUntouched(g)
    ensures RawUntouched(Do(g, op))
  {
  }

  /** Undoing `g` now would give `was`, and both hold the same non-Unicode values. */
  ghost predicate Undoes(g: Guarded, was: Env) {
    && RawUntouched(g) && Undo(g.env, g.log) == was
    && (forall k :: k in g.env && g.env[k].Raw? ==> k in was && was[k] == g.env[k])
    && (forall k :: k in was && was[k].Raw? ==> k in g.env && g.env[k] == was[k])
  }

  lemma UndoesStep(g: Guarded, op: Op, was: Env)
    requires Undoes(g, was)
    ensures Undoes(Do(g, op), if op.name in g.env && g.env[op.name].Raw? then was - {op.name} else was)
  {
    UndoOneStep(g, op);
    DoKeepsRawUntouched(g, op);
    hide Undo, RawUntouched;
    if op.name in g.env && g.env[op.name].Raw? {
      UndoWithoutUncaptured(g, op.name);
    }
  }

  lemma UndoWithoutUncaptured(g: Guarded, name: string)
    requires RawUntouched(g) && name in g.env && g.env[name].Raw?
    ensures Undo(g.env - {name}, g.log) == Undo(g.env, g.log) - {name}
  {
    UndoWithout(g.env, g.log, name);
  }

  lemma LossyStep(was: Env, op: Op, rest: seq<Op>)
    ensures Names([op] + rest) == {op.name} + Names(rest)
    ensures op.name in was && was[op.name].Raw? ==>
            Lossy(was - {op.name}, Names(rest)) == Lossy(was, Names([op] + rest))
    ensures !(op.name in was && was[op.name].Raw?) ==> Lossy(was, Names(rest)) == Lossy(was, Names([op] + rest))
  {
  }

  lemma {:induction false} UndoAll(g: Guarded, ops: seq<Op>, was: Env)
    requires Undoes(g, was)
    ensures var g' := DoAll(g, ops); Undo(g'.env, g'.log) == Lossy(was, Names(ops))
    decreases |ops|
  {
    if ops == [] {
      assert Lossy(was, Names(ops)) == was;
    } else {
      var op := ops[0];
      var raw := op.name in g.env && g.env[op.name].Raw?;
      UndoesStep(g, op, was);
      UndoAll(Do(g, op), ops[1..], if raw then was - {op.name} else was);
      assert ops == [op] + ops[1..];
      hide Lossy, Names, Undo, RawUntouched;
      LossyStep(was, op, ops[1..]);
    }
  }

  /** Guard undo: for every list of changes, duplicates included, dropping the guard at any point
      restores the exact environment from before its construction if and only if no changed
      variable had a non-Unicode value. */
  lemma GuardRestoresIff(env: Env, ops: seq<Op>)
    ensures var g := DoAll(Guarded(env, []), ops);
            Undo(g.env, g.log) == env <==> forall name :: name in Names(ops) && name in env ==> env[name].Text?
  {
    UndoAll(Guarded(env, []), ops, env);
    var lossy := Lossy(env, Names(ops));
    if lossy == env {
      forall name | name in Names(ops) && name in env
        ensures env[name].Text?
      {
        assert name in lossy;
      }
    }
  }

  /** The last change of a variable. */
  function LastChange(ops: seq<Op>, name: string): Option<Op> {
    if ops == [] then None
    else
      var n := |ops| - 1;
      if ops[n].name == name then Some(ops[n]) else LastChange(ops[..n], name)
  }

  predicate AgreeOn(a: Env, b: Env, name: string) {
    (name in a <==> name in b) && (name in a ==> a[name] == b[name])
  }

  lemma AgreeEverywhere(a: Env, b: Env)
    requires forall name :: AgreeOn(a, b, name)
    ensures a == b
  {
    assert forall name :: AgreeOn(a, b, name) ==> (name in a <==> name in b);
  }

  lemma {:induction false} LastChangeWins(env: Env, ops: seq<Op>, name: string)
    ensures var now, last := DoAll(Guarded(env, []), ops).env, LastChange(ops, name);
            AgreeOn(now, if last.Some? then Perform(env, last.value) else env, name)
            && (last.Some? ==> last.value.name == name)
    decreases |ops|
  {
    if ops != [] {
      var n := |ops| - 1;
      assert ops[..n + 1] == ops;
      DoAllSnoc(Guarded(env, []), ops, n);
      hide DoAll;
      LastChangeWins(env, ops[..n], name);
    }
  }

  ghost predicate NothingChanged(env: Env, ops: seq<Op>) {
    forall name :: LastChange(ops, name).Some? ==> AgreeOn(Perform(env, LastChange(ops, name).value), env, name)
  }

  /** A constructor that panics puts nothing back: the environment is as before if and only if the
      last change of every variable changed up to then left it as it was. */
  lemma PanicLeaksNothingIff(env: Env, ops: seq<Op>)
    ensures DoAll(Guarded(env, []), ops).env == env <==> NothingChanged(env, ops)
  {
    hide Perform;
    var now := DoAll(Guarded(env, []), ops).env;
    if now == env {
      forall name | LastChange(ops, name).Some?
        ensures AgreeOn(Perform(env, LastChange(ops, name).value), env, name)
      {
        LastChangeWins(env, ops, name);
      }
    } else if NothingChanged(env, ops) {
      forall name
        ensures AgreeOn(now, env, name)
      {
        LastChangeWins(env, ops, name);
        assert LastChange(ops, name).Some? ==> AgreeOn(Perform(env, LastChange(ops, name).value), env, name);
      }
      AgreeEverywhere(now, env);
    }
  }

  // ----- why the order is reversed ---------------------------------------------------------------

  /** Putting the captures back in capture order instead. */
  function UndoForward(env: Env, log: seq<Saved>): Env
    decreases |log|
  {
    if log == [] then env else UndoForward(PutBack(env, log[0]), log[1..])
  }

  predicate Captured(log: seq<Saved>, name: string) {
    exists i :: 0 <= i < |log| && log[i].name == name
  }

  /** The last capture of `name`. */
  function LastCapture(log: seq<Saved>, name: string): Option<string>
    requires Captured(log, name)
  {
    var n := |log| - 1;
    if log[n].name == name then log[n].original else LastCapture(log[..n], name)
  }

  lemma {:induction false} ForwardKeepsLast(env: Env, log: seq<Saved>, name: string)
    ensures var r := UndoForward(env, log);
            if !Captured(log, name) then AgreeOn(r, env, name)
            else match LastCapture(log, name)
              case None => name !in r
              case Some(v) => name in r && r[name] == Text(v)
    decreases |log|
  {
    if log != [] {
      ForwardSnoc(env, log[..|log| - 1], log[|log| - 1]);
      assert log == log[..|log| - 1] + [log[|log| - 1]];
      ForwardKeepsLast(env, log[..|log| - 1], name);
      if log[|log| - 1].name != name {
        CapturedBefore(log, name);
      }
    }
  }

  lemma CapturedBefore(log: seq<Saved>, name: string)
    requires log != [] && log[|log| - 1].name != name
    ensures Captured(log, name) <==> Captured(log[..|log| - 1], name)
  {
  }

  lemma {:induction false} ForwardSnoc(env: Env, log: seq<Saved>, s: Saved)
    ensures UndoForward(env, log + [s]) == PutBack(UndoForward(env, log), s)
    decreases |log|
  {
    if log == [] {
      assert log + [s] == [s] && [s][1..] == [];
    } else {
      assert (log + [s])[1..] == log[1..] + [s];
      ForwardSnoc(PutBack(env, log[0]), log[1..], s);
    }
  }

  /** Capture order would restore an all-text environment if and only if the last capture of every
      changed variable happens to be its original value. */
  lemma ForwardRestoresIff(env: Env, ops: seq<Op>)
    requires forall k :: k in env ==> env[k].Text?
    ensures var g := DoAll(Guarded(env, []), ops);
            UndoForward(g.env, g.log) == env <==>
            forall name :: Captured(g.log, name) ==> LastCapture(g.log, name) == Capture(env, name)
  {
    var g := DoAll(Guarded(env, []), ops);
    var r := UndoForward(g.env, g.log);
    forall name
      ensures Captured(g.log, name) ==>
                (LastCapture(g.log, name) == Capture(env, name) <==> AgreeOn(r, env, name))
      ensures !Captured(g.log, name) ==> AgreeOn(r, env, name)
    {
      ForwardKeepsLast(g.env, g.log, name);
      UncapturedUnchanged(Guarded(env, []), ops, name);
    }
    assert r == env ==> forall name :: AgreeOn(r, env, name);
    if forall name :: AgreeOn(r, env, name) {
      AgreeEverywhere(r, env);
    }
  }

  lemma {:induction false} UncapturedUnchanged(g: Guarded, ops: seq<Op>, name: string)
    ensures var g' := DoAll(g, ops);
            && (Captured(g.log, name) ==> Captured(g'.log, name))
            && (!Captured(g'.log, name) ==> AgreeOn(g'.env, g.env, name))
    decreases |ops|
  {
    if ops != [] {
      var g1 := Do(g, ops[0]);
      UncapturedUnchanged(g1, ops[1..], name);
      assert g1.log[|g.log|].name == ops[0].name;
      if Captured(g.log, name) {
        var i :| 0 <= i < |g.log| && g.log[i].name == name;
        assert g1.log[i].name == name;
      }
    }
  }

  // ----- threads ------------------------------------------------------------------------------------

  const HATCH := "WEBFANG_DISABLE_SSRF_ENTRY_GUARD"
  const RESOLVER := "WEBFANG_DISABLE_SSRF_RESOLVER"

  predicate Disarmed(env: Env) {
    HATCH in env && env[HATCH] == Text("1")
  }

  /** The thread that holds the lock: `observer` if it came through an armed-guard constructor,
      `flipped` once it set the hatch to "1" itself, `dropping` while its Drop runs. */
  datatype Holder = Holder(tid: nat, log: seq<Saved>, observer: bool, flipped: bool, dropping: bool)

  datatype System = System(env: Env, holder: Option<Holder>)

  datatype Event =
    | Acquire(tid: nat)
    | AcquireArmed(tid: nat)
    | AcquireArmedResolverOff(tid: nat)
    | Change(tid: nat, op: Op)
    | BeginDrop(tid: nat)
    | PutBackOne(tid: nat)
    | Release(tid: nat)

  predicate Holds(s: System, tid: nat) {
    s.holder.Some? && s.holder.value.tid == tid
  }

  /** One step of some thread; a thread that needs the lock while it is held waits, and an
      armed-guard constructor that finds the hatch disarmed panics and lets the lock go. */
  function Step(s: System, e: Event): System {
    match e
    case Acquire(t) => if s.holder.Some? then s else s.(holder := Some(Holder(t, [], false, false, false)))
    case AcquireArmed(t) =>
      if s.holder.Some? || Disarmed(s.env) then s else s.(holder := Some(Holder(t, [], true, false, false)))
    case AcquireArmedResolverOff(t) =>
      if s.holder.Some? || Disarmed(s.env) then s
      else
        var g := Do(Guarded(s.env, []), SetOp(RESOLVER, "1"));
        System(g.env, Some(Holder(t, g.log, true, false, false)))
    case Change(t, op) =>
      if !Holds(s, t) || s.holder.value.dropping then s
      else
        var h := s.holder.value;
        var g := Do(Guarded(s.env, h.log), op);
        System(g.env, Some(h.(log := g.log, flipped := h.flipped || op == SetOp(HATCH, "1"))))
    case BeginDrop(t) => if Holds(s, t) then s.(holder := Some(s.holder.value.(dropping := true))) else s
    case PutBackOne(t) =>
      if !Holds(s, t) || !s.holder.value.dropping || s.holder.value.log == [] then s
      else
        var h := s.holder.value;
        var n := |h.log| - 1;
        System(PutBack(s.env, h.log[n]), Some(h.(log := h.log[..n])))
    case Release(t) =>
      if Holds(s, t) && s.holder.value.dropping && s.holder.value.log == [] then s.(holder := None) else s
  }

  function Steps(s: System, events: seq<Event>): System
    decreases |events|
  {
    if events == [] then s else Steps(Step(s, events[0]), events[1..])
  }

  /** No thread touches a variable that holds a non-Unicode value. */
  ghost predicate TouchesOnlyText(e: Event, text: set<string>) {
    && (e.Change? ==> e.op.name in text)
    && (e.AcquireArmedResolverOff? ==> RESOLVER in text)
  }

  ghost predicate TextOn(env: Env, text: set<string>) {
    forall k :: k in text && k in env ==> env[k].Text?
  }

  ghost predicate LockInv(s: System, baseline: Env, text: set<string>) {
    && TextOn(s.env, text)
    && (s.holder.None? ==> s.env == baseline)
    && (s.holder.Some? ==> Undo(s.env, s.holder.value.log) == baseline)
  }

  /** An observer that did not flip the hatch itself sees it armed, now and after every put-back. */
  ghost predicate ArmedInv(s: System) {
    s.holder.Some? && s.holder.value.observer && !s.holder.value.flipped ==>
      && !Disarmed(s.env)
      && forall i :: 0 <= i < |s.holder.value.log| && s.holder.value.log[i].name == HATCH ==>
           s.holder.value.log[i].original != Some("1")
  }

  lemma ChangeKeepsBaseline(env: Env, log: seq<Saved>, op: Op, baseline: Env, text: set<string>)
    requires TextOn(env, text) && Undo(env, log) == baseline && op.name in text
    ensures var g := Do(Guarded(env, log), op);
            TextOn(g.env, text) && Undo(g.env, g.log) == baseline
  {
    UndoOneStep(Guarded(env, log), op);
  }

  lemma PutBackKeepsBaseline(env: Env, log: seq<Saved>, baseline: Env, text: set<string>)
    requires TextOn(env, text) && Undo(env, log) == baseline && log != []
    ensures var n := |log| - 1;
            TextOn(PutBack(env, log[n]), text) && Undo(PutBack(env, log[n]), log[..n]) == baseline
  {
  }

  lemma StepKeepsBaseline(s: System, e: Event, baseline: Env, text: set<string>)
    requires LockInv(s, baseline, text) && TouchesOnlyText(e, text)
    ensures LockInv(Step(s, e), baseline, text)
  {
    assert Undo(s.env, []) == s.env;
    hide Undo, TextOn, Do, PutBack;
    match e
    case AcquireArmedResolverOff(t) =>
      if s.holder.None? {
        ChangeKeepsBaseline(s.env, [], SetOp(RESOLVER, "1"), baseline, text);
      }
    case Change(t, op) =>
      if Holds(s, t) {
        ChangeKeepsBaseline(s.env, s.holder.value.log, op, baseline, text);
      }
    case PutBackOne(t) =>
      if Holds(s, t) && s.holder.value.log != [] {
        PutBackKeepsBaseline(s.env, s.holder.value.log, baseline, text);
      }
    case _ =>
  }

  lemma StepKeepsArmed(s: System, e: Event)
    requires ArmedInv(s)
    ensures ArmedInv(Step(s, e))
  {
  }

  /** What the constructors do when they get the lock: the plain one changes nothing; the armed ones
      panic if the hatch is "1", and otherwise hand out an observer, the second one with the resolver
      hatch at "1" and nothing else changed. While the lock is held, all of them wait. */
  lemma ConstructorsDo(s: System, t: nat)
    ensures s.holder.Some? ==>
              Step(s, Acquire(t)) == s == Step(s, AcquireArmed(t)) && Step(s, AcquireArmedResolverOff(t)) == s
    ensures s.holder.None? ==>
              var s' := Step(s, Acquire(t)); Holds(s', t) && s'.env == s.env && !s'.holder.value.observer
    ensures s.holder.None? ==>
              var s' := Step(s, AcquireArmed(t));
              if Hatch(s.env) == Some(Text("1")) then s' == s
              else Holds(s', t) && s'.env == s.env && s'.holder.value.observer && s'.holder.value.log == []
    ensures s.holder.None? ==>
              var s' := Step(s, AcquireArmedResolverOff(t));
              if Hatch(s.env) == Some(Text("1")) then s' == s
              else
                && Holds(s', t) && s'.holder.value.observer
                && s'.env == s.env["WEBFANG_DISABLE_SSRF_RESOLVER" := Text("1")]
  {
  }

  /** The entry hatch as the program spells it. */
  function Hatch(env: Env): Option<Value> {
    if "WEBFANG_DISABLE_SSRF_ENTRY_GUARD" in env then Some(env["WEBFANG_DISABLE_SSRF_ENTRY_GUARD"]) else None
  }

  /** What the holder's own steps do: a change is made and captured, a drop puts back one capture at a
      time, the last one first, and frees the lock when none is left. No other thread does any of it. */
  lemma HolderDoes(s: System, t: nat, op: Op)
    requires s.holder.Some?
    ensures !Holds(s, t) ==>
              Step(s, Change(t, op)) == s == Step(s, BeginDrop(t)) && Step(s, PutBackOne(t)) == s == Step(s, Release(t))
    ensures Holds(s, t) && !s.holder.value.dropping ==>
              var s' := Step(s, Change(t, op));
              && s'.env == (match op case SetOp(n, v) => s.env[n := Text(v)] case RemoveOp(n) => s.env - {n})
              && Holds(s', t) && |s'.holder.value.log| == |s.holder.value.log| + 1
              && s'.holder.value.log[|s.holder.value.log|].name == op.name
              && Step(s, PutBackOne(t)) == s == Step(s, Release(t))
    ensures Holds(s, t) && s.holder.value.dropping && s.holder.value.log != [] ==>
              var last := s.holder.value.log[|s.holder.value.log| - 1];
              var s' := Step(s, PutBackOne(t));
              && s'.env
                 == (match last.original case Some(v) => s.env[last.name := Text(v)] case None => s.env - {last.name})
              && Holds(s', t) && s'.holder.value.log == s.holder.value.log[..|s.holder.value.log| - 1]
              && Step(s, Release(t)) == s
    ensures Holds(s, t) && s.holder.value.dropping && s.holder.value.log == [] ==>
              Step(s, Release(t)) == s.(holder := None)
  {
  }

  /** Lock-free baseline: in every interleaving of threads that touch the environment only through
      guards, the environment equals its initial value whenever the lock is free; and whoever holds
      an armed guard sees the hatch armed until it flips it itself. */
  lemma {:induction false} LockFreeBaseline(s: System, events: seq<Event>, baseline: Env, text: set<string>)
    requires LockInv(s, baseline, text) && ArmedInv(s)
    requires forall i :: 0 <= i < |events| ==> TouchesOnlyText(events[i], text)
    ensures var t := Steps(s, events);
            && (t.holder.None? ==> t.env == baseline)
            && (t.holder.Some? && t.holder.value.observer && !t.holder.value.flipped ==> !Disarmed(t.env))
            && LockInv(t, baseline, text) && ArmedInv(t)
    decreases |events|
  {
    if events != [] {
      StepKeepsBaseline(s, events[0], baseline, text);
      StepKeepsArmed(s, events[0]);
      LockFreeBaseline(Step(s, events[0]), events[1..], baseline, text);
    }
  }
}
