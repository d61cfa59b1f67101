/** What `save` and `shutdown` return, told from the events: which sends are accepted, who returns
    early, and when a join reports an error. */
module ShutdownErrors {
  import opened LogWriter
  import opened ShutdownDrain
  import DrainLimits

  // ----- sends ----------------------------------------------------------------------------------

  /** A pending save is accepted, behind all others, if and only if the writer is there and the channel
      has room; a full channel refuses it without consequence, a closed one raises the error flag. */
  lemma SendAcceptedIff(s: State, saver: nat)
    requires saver in s.pending
    ensures var t := Apply(s, Send(saver));
            && saver !in t.pending && t.w == s.w && t.phase == s.phase && t.callers == s.callers
            && (!s.phase.Exited? && |s.ch.queue| < s.ch.capacity <==>
                t.ch.accepted == s.ch.accepted + [s.pending[saver]])
            && (t.ch.accepted != s.ch.accepted ==> t.ch.queue == s.ch.queue + [AppendCmd(s.pending[saver])])
            && (t.ch.accepted == s.ch.accepted ==> t.ch == s.ch)
            && (t.writeError <==> s.writeError || s.phase.Exited?)
  {
    var t := Apply(s, Send(saver));
    assert |s.ch.accepted + [s.pending[saver]]| != |s.ch.accepted|;
  }

  /** The guard lets a save through if and only if no error has been raised. */
  lemma GuardRefusesIff(s: State, saver: nat, rec: Rec)
    ensures var t := Apply(s, Guard(saver, rec));
            && (!s.writeError ==> t == s.(pending := s.pending[saver := rec]))
            && (s.writeError ==> t == s)
  {
  }

  /** The channel never holds more than its capacity. */
  lemma {:induction false} CapacityHolds(s: State, events: seq<Event>)
    requires |s.ch.queue| <= s.ch.capacity
    ensures var t := Trace(s, events); |t.ch.queue| <= t.ch.capacity == s.ch.capacity
    decreases |events|
  {
    if events != [] {
      CapacityStep(s, events[0]);
      hide Apply;
      CapacityHolds(Apply(s, events[0]), events[1..]);
    }
  }

  lemma CapacityStep(s: State, e: Event)
    requires |s.ch.queue| <= s.ch.capacity
    ensures var t := Apply(s, e); |t.ch.queue| <= t.ch.capacity == s.ch.capacity
  {
    if e.WriterStep? {
      WriterShrinks(s, e.openFails, e.fault);
    }
    hide StepWriter;
  }

  lemma WriterShrinks(s: State, openFails: bool, fault: Fault)
    ensures var t := StepWriter(s, openFails, fault);
            |t.ch.queue| <= |s.ch.queue| && t.ch.capacity == s.ch.capacity
  {
    hide Process;
    if s.ch.queue != [] && s.ch.queue[0].AppendCmd? {
      DrainLimits.ProcessFacts(s.(ch := Pop(s.ch)), s.ch.queue[0].rec, openFails, fault);
    }
  }

  // ----- trouble --------------------------------------------------------------------------------

  /** State in front of event `i`. */
  function At(s0: State, events: seq<Event>, i: nat): State
    requires i <= |events|
  {
    Trace(s0, events[..i])
  }

  lemma AtStart(s0: State, events: seq<Event>)
    ensures At(s0, events, 0) == s0
  {
    assert events[..0] == [];
  }

  lemma AtNext(s0: State, events: seq<Event>, i: nat)
    requires i < |events|
    ensures At(s0, events, i + 1) == Apply(At(s0, events, i), events[i])
  {
    hide Apply;
    assert events[..i + 1] == events[..i] + [events[i]];
    DrainLimits.TraceConcat(s0, events[..i], [events[i]]);
    assert [events[i]][1..] == [];
  }

  /** The writer is about to handle an append. */
  predicate Handles(s: State) {
    (s.phase.Running? || s.phase.Draining?) && s.ch.queue != [] && s.ch.queue[0].AppendCmd?
  }

  /** An event that goes wrong: an append for which the log cannot be opened or whose frame fails, or a
      save that meets the closed channel. */
  predicate Trouble(s: State, e: Event) {
    match e
    case WriterStep(openFails, fault) => Handles(s) && ((openFails && !s.logOpen) || fault.Short?)
    case Send(saver) => saver in s.pending && s.phase.Exited?
    case _ => false
  }

  ghost predicate TroubleBefore(s0: State, events: seq<Event>, n: nat)
    requires n <= |events|
  {
    exists i :: 0 <= i < n && Trouble(At(s0, events, i), events[i])
  }

  /** Callers that have or had the join handle. */
  predicate Holds(s: State, c: nat) {
    c in s.callers && (s.callers[c].Holding? || s.callers[c].JoinedOk? || s.callers[c].JoinedErr?)
  }

  /** At most one caller ever has the handle, and only its join sets `drained`. */
  ghost predicate HandleInv(s: State) {
    && (forall c, d :: Holds(s, c) && Holds(s, d) ==> c == d)
    && (s.handleTaken <==> exists c :: Holds(s, c))
    && (s.drained ==> exists c :: Holds(s, c) && s.callers[c].JoinedOk?)
  }

  lemma WriterKeepsCallers(s: State, openFails: bool, fault: Fault)
    ensures var t := StepWriter(s, openFails, fault);
            && t.callers == s.callers && t.handleTaken == s.handleTaken && t.drained == s.drained
            && (t.writeError <==> s.writeError || (Handles(s) && ((openFails && !s.logOpen) || fault.Short?)))
  {
    hide Process, Pop;
    if s.ch.queue != [] && s.ch.queue[0].AppendCmd? {
      ProcessFlags(s.(ch := Pop(s.ch)), s.ch.queue[0].rec, openFails, fault);
    }
  }

  lemma ProcessFlags(s: State, rec: Rec, openFails: bool, fault: Fault)
    ensures var t := Process(s, rec, openFails, fault);
            && t.callers == s.callers && t.handleTaken == s.handleTaken && t.drained == s.drained
            && (t.writeError <==> s.writeError || (openFails && !s.logOpen) || fault.Short?)
  {
    hide Append;
  }

  lemma TakeKeepsHandleInv(s: State, c: nat)
    requires HandleInv(s)
    ensures HandleInv(Apply(s, TakeHandle(c)))
  {
    var t := Apply(s, TakeHandle(c));
    if c in s.callers && s.callers[c].Sent? {
      if s.handleTaken {
        assert forall d :: Holds(t, d) <==> Holds(s, d);
        var d :| Holds(s, d);
      } else {
        assert forall d :: !Holds(s, d);
        assert t.callers == s.callers[c := Holding];
        assert Holds(t, c);
        assert forall d :: Holds(t, d) ==> d == c || Holds(s, d);
      }
    }
  }

  lemma JoinKeepsHandleInv(s: State, c: nat)
    requires HandleInv(s)
    ensures HandleInv(Apply(s, Join(c)))
  {
    var t := Apply(s, Join(c));
    assert forall d :: Holds(t, d) <==> Holds(s, d);
    if t != s {
      assert Holds(s, c) && Holds(t, c);
    }
  }

  lemma StepKeepsHandleInv(s: State, e: Event)
    requires HandleInv(s)
    ensures HandleInv(Apply(s, e))
  {
    match e
    case TakeHandle(c) => TakeKeepsHandleInv(s, c);
    case Join(c) => JoinKeepsHandleInv(s, c);
    case WriterStep(openFails, fault) =>
      WriterKeepsCallers(s, openFails, fault);
      SameCallers(s, StepWriter(s, openFails, fault));
    case SendShutdown(c) =>
      var t := Apply(s, e);
      assert forall d :: Holds(t, d) <==> Holds(s, d);
    case _ => SameCallers(s, Apply(s, e));
  }

  lemma SameCallers(s: State, t: State)
    requires HandleInv(s) && t.callers == s.callers && t.handleTaken == s.handleTaken && t.drained == s.drained
    ensures HandleInv(t)
  {
    assert forall c :: Holds(t, c) <==> Holds(s, c);
  }

  /** As long as no join has succeeded, the error flag says exactly whether something went wrong. */
  lemma {:induction false} FlagIsTrouble(s0: State, base: Writer, events: seq<Event>, n: nat)
    requires Initial(s0, base) && n <= |events|
    ensures var s := At(s0, events, n);
            HandleInv(s) && (!s.drained ==> (s.writeError <==> TroubleBefore(s0, events, n)))
  {
    if n == 0 {
      assert events[..0] == [];
    } else {
      FlagIsTrouble(s0, base, events, n - 1);
      AtNext(s0, events, n - 1);
      var s, e := At(s0, events, n - 1), events[n - 1];
      StepKeepsHandleInv(s, e);
      FlagStep(s, e);
      TroubleNext(s0, events, n - 1);
      hide Apply, At, HandleInv, Trouble;
    }
  }

  lemma TroubleNext(s0: State, events: seq<Event>, n: nat)
    requires n < |events|
    ensures TroubleBefore(s0, events, n + 1) <==>
            TroubleBefore(s0, events, n) || Trouble(At(s0, events, n), events[n])
  {
    hide Trouble, At;
    if TroubleBefore(s0, events, n) {
      var i :| 0 <= i < n && Trouble(At(s0, events, i), events[i]);
      assert Trouble(At(s0, events, i), events[i]) && i < n + 1;
    }
  }

  lemma FlagStep(s: State, e: Event)
    ensures var t := Apply(s, e);
            && (s.drained ==> t.drained)
            && (!t.drained ==> (t.writeError <==> s.writeError || Trouble(s, e)))
  {
    if e.WriterStep? {
      WriterKeepsCallers(s, e.openFails, e.fault);
    }
    hide StepWriter;
  }

  // ----- what a caller is told ------------------------------------------------------------------

  /** Another caller took the handle before event `n`: it had sent its request and was the first. */
  ghost predicate TakenBefore(s0: State, events: seq<Event>, n: nat, c: nat)
    requires n <= |events|
  {
    exists j :: 0 <= j < n && Takes(At(s0, events, j), events[j]) && events[j].caller != c
  }

  predicate Takes(s: State, e: Event) {
    e.TakeHandle? && e.caller in s.callers && s.callers[e.caller].Sent? && !s.handleTaken
  }

  lemma {:induction false} HandleWasTaken(s0: State, base: Writer, events: seq<Event>, n: nat)
    requires Initial(s0, base) && n <= |events|
    ensures At(s0, events, n).handleTaken <==> exists j :: 0 <= j < n && Takes(At(s0, events, j), events[j])
    ensures forall j :: 0 <= j < n && Takes(At(s0, events, j), events[j]) ==> Holds(At(s0, events, n), events[j].caller)
  {
    if n == 0 {
      assert events[..0] == [];
    } else {
      HandleWasTaken(s0, base, events, n - 1);
      AtNext(s0, events, n - 1);
      TakeStep(At(s0, events, n - 1), events[n - 1]);
      hide Apply, At, Takes, Holds;
      if At(s0, events, n - 1).handleTaken {
        var j :| 0 <= j < n - 1 && Takes(At(s0, events, j), events[j]);
        assert Takes(At(s0, events, j), events[j]) && j < n;
      }
    }
  }

  lemma TakeStep(s: State, e: Event)
    ensures var t := Apply(s, e);
            && (t.handleTaken <==> s.handleTaken || Takes(s, e))
            && (forall c :: Holds(s, c) ==> Holds(t, c))
            && (Takes(s, e) ==> Holds(t, e.caller))
  {
    if e.WriterStep? {
      WriterKeepsCallers(s, e.openFails, e.fault);
    }
    hide StepWriter;
  }

  /** A caller that asks for the handle returns at once if and only if another caller took it before;
      otherwise it holds the handle now. */
  lemma EarlyIffTaken(s0: State, base: Writer, events: seq<Event>, c: nat)
    requires Initial(s0, base)
    requires var s := Trace(s0, events); c in s.callers && s.callers[c].Sent?
    ensures var s := Trace(s0, events);
            var t := Apply(s, TakeHandle(c));
            && (t.callers[c].ReturnedEarly? <==> TakenBefore(s0, events, |events|, c))
            && (t.callers[c].Holding? <==> !TakenBefore(s0, events, |events|, c))
  {
    var n := |events|;
    assert events[..n] == events;
    HandleWasTaken(s0, base, events, n);
    var s := At(s0, events, n);
    if s.handleTaken {
      var j :| 0 <= j < n && Takes(At(s0, events, j), events[j]);
      assert Holds(s, events[j].caller);
      assert events[j].caller != c;
    }
  }

  /** The caller that holds the handle, once the writer is gone: its join reports an error if and only
      if, before it, an append met a fault, the log could not be opened, or a save met the closed
      channel. */
  lemma JoinReportsIff(s0: State, base: Writer, events: seq<Event>, c: nat)
    requires Initial(s0, base)
    requires var s := Trace(s0, events); c in s.callers && s.callers[c].Holding? && s.phase.Exited?
    ensures var t := Apply(Trace(s0, events), Join(c));
            && (t.callers[c].JoinedErr? <==> TroubleBefore(s0, events, |events|))
            && (t.callers[c].JoinedOk? <==> !TroubleBefore(s0, events, |events|))
  {
    var n := |events|;
    assert events[..n] == events;
    FlagIsTrouble(s0, base, events, n);
    var s := At(s0, events, n);
    assert Holds(s, c);
    assert forall d :: Holds(s, d) ==> d == c;
  }

  /** Those are the only ways to return: whatever a caller has been told at the end, it was told by its
      own request for the handle or by its own join. */
  lemma {:induction false} ReturnHasOrigin(s0: State, base: Writer, events: seq<Event>, n: nat, c: nat) returns (m: nat)
    requires Initial(s0, base) && n <= |events|
    requires var s := At(s0, events, n); c in s.callers && !s.callers[c].Sent? && !s.callers[c].Holding?
    ensures m < n && c in At(s0, events, m).callers && c in At(s0, events, m + 1).callers
    ensures At(s0, events, n).callers[c] == At(s0, events, m + 1).callers[c]
    ensures if At(s0, events, n).callers[c].ReturnedEarly?
            then events[m] == TakeHandle(c) && At(s0, events, m).callers[c].Sent?
            else events[m] == Join(c) && At(s0, events, m).callers[c].Holding? && At(s0, events, m).phase.Exited?
  {
    AtStart(s0, events);
    AtNext(s0, events, n - 1);
    var s, e := At(s0, events, n - 1), events[n - 1];
    CallerStep(s, e, c);
    hide Apply, At;
    if c in s.callers && !s.callers[c].Sent? && !s.callers[c].Holding? {
      m := ReturnHasOrigin(s0, base, events, n - 1, c);
    } else {
      m := n - 1;
    }
  }

  lemma CallerStep(s: State, e: Event, c: nat)
    requires var t := Apply(s, e); c in t.callers && !t.callers[c].Sent? && !t.callers[c].Holding?
    ensures c in s.callers
    ensures var t := Apply(s, e);
            if !s.callers[c].Sent? && !s.callers[c].Holding? then t.callers[c] == s.callers[c]
            else if t.callers[c].ReturnedEarly? then e == TakeHandle(c) && s.callers[c].Sent?
            else e == Join(c) && s.callers[c].Holding? && s.phase.Exited?
  {
    if e.WriterStep? {
      WriterKeepsCallers(s, e.openFails, e.fault);
    }
    hide StepWriter;
  }

  // ----- the writer -----------------------------------------------------------------------------

  /** Handling an append: a log that cannot be opened ends the writer and leaves the log alone; otherwise
      the log is open from then on, the frame is appended as far as the sink takes it, and the writer
      goes on in its phase. */
  lemma HandlingDoes(s: State, openFails: bool, fault: Fault)
    requires Handles(s)
    ensures var t, rec := StepWriter(s, openFails, fault), s.ch.queue[0].rec;
            && t.ch.queue == s.ch.queue[1..] && t.ch.taken == s.ch.taken + 1
            && if openFails && !s.logOpen then t.phase.Exited? && t.w == s.w && t.writeError
               else t.phase == s.phase && t.logOpen && t.w == Append(s.w, rec.url, rec.payload, fault)
  {
    hide Append;
  }

  /** Without an append to handle, the writer waits while it runs, turns to draining at a Shutdown, and
      leaves a drain at the next one or at an empty queue; nothing else changes. */
  lemma TurningDoes(s: State, openFails: bool, fault: Fault)
    requires !Handles(s)
    ensures var t, rest := StepWriter(s, openFails, fault), if s.ch.queue == [] then [] else s.ch.queue[1..];
            match s.phase
            case Running => t == if s.ch.queue == [] then s else s.(phase := Draining, ch := s.ch.(queue := rest))
            case Draining => t == s.(phase := Leaving, ch := s.ch.(queue := rest))
            case _ => t == s.(phase := Exited)
  {
    hide Process, Append;
    if s.phase.Draining? && s.ch.queue == [] {
      assert s.ch.(queue := []) == s.ch;
    }
  }
}
