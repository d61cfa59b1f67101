/** What a successful `shutdown` does and does not promise: which acknowledged saves are in the log,
    decided when they are accepted, and what a caller that returns early can rely on. */
module DrainLimits {
  import opened Common
  import opened ResultLog
  import opened LogWriter
  import opened ShutdownDrain

  // ----- the fate of a save ------------------------------------------------------------------

  function Shutdowns(q: seq<Command>): nat {
    if q == [] then 0 else (if q[0].Shutdown? then 1 else 0) + Shutdowns(q[1..])
  }

  /** How many appends are queued ahead of the Shutdown that `n` others precede. */
  function AheadOf(q: seq<Command>, n: nat): Option<nat> {
    if q == [] then None
    else if q[0].Shutdown? then (if n == 0 then Some(0) else AheadOf(q[1..], n - 1))
    else
      match AheadOf(q[1..], n)
      case None => None
      case Some(k) => Some(k + 1)
  }

  /** How many saves the writer will have dequeued in the end, once that is settled: a running writer
      stops at the second queued Shutdown, a draining one at the first or at an empty queue. */
  function LimitOf(phase: WriterPhase, ch: Channel): Option<nat> {
    match phase
    case Running => Shifted(AheadOf(ch.queue, 1), ch.taken)
    case Draining => Shifted(AheadOf(ch.queue, 0), ch.taken)
    case _ => Some(ch.taken)
  }

  function Limit(s: State): Option<nat> {
    LimitOf(s.phase, s.ch)
  }

  function Shifted(k: Option<nat>, taken: nat): Option<nat> {
    if k.Some? then Some(k.value + taken) else None
  }

  /** Save number `i` is dequeued by the time the writer leaves. */
  predicate WillKeep(s: State, i: nat) {
    Limit(s).None? || i < Limit(s).value
  }

  lemma {:induction false} AheadOfSettled(q: seq<Command>, n: nat)
    ensures AheadOf(q, n).None? <==> Shutdowns(q) <= n
    ensures AheadOf(q, n).Some? ==> AheadOf(q, n).value <= |AppendsIn(q)|
    decreases |q|
  {
    if q != [] {
      AheadOfSettled(q[1..], n);
      if n > 0 {
        AheadOfSettled(q[1..], n - 1);
      }
    }
  }

  /** What is queued later does not move a Shutdown; a new one stands behind all appends. */
  lemma {:induction false} AheadOfSnoc(q: seq<Command>, c: Command, n: nat)
    ensures AheadOf(q, n).Some? ==> AheadOf(q + [c], n) == AheadOf(q, n)
    ensures AheadOf(q, n).None? && c.AppendCmd? ==> AheadOf(q + [c], n).None?
    ensures AheadOf(q, n).None? && c.Shutdown? ==>
              AheadOf(q + [c], n).None? || AheadOf(q + [c], n) == Some(|AppendsIn(q)|)
    decreases |q|
  {
    if q == [] {
      assert q + [c] == [c] && [c][1..] == [];
    } else {
      assert (q + [c])[0] == q[0] && (q + [c])[1..] == q[1..] + [c];
      AheadOfSnoc(q[1..], c, n);
      if n > 0 {
        AheadOfSnoc(q[1..], c, n - 1);
      }
    }
  }

  lemma AheadOfUnfolds(q: seq<Command>, n: nat)
    requires q != []
    ensures q[0].Shutdown? ==> AheadOf(q, n) == if n == 0 then Some(0) else AheadOf(q[1..], n - 1)
    ensures q[0].AppendCmd? ==> AheadOf(q, n) == Shifted(AheadOf(q[1..], n), 1)
  {
  }

  /** A limit that is set stays; one that is newly set keeps everything accepted so far. */
  ghost predicate LimitGrows(s: State, t: State) {
    if Limit(s).Some? then Limit(t) == Limit(s)
    else Limit(t).None? || Limit(t).value == |s.ch.accepted|
  }

  lemma OfferKeepsLimit(s: State, cmd: Command, ch: Channel)
    requires ChannelInv(s.ch) && !s.phase.Exited? && ch.queue == s.ch.queue + [cmd] && ch.taken == s.ch.taken
    ensures LimitGrows(s, s.(ch := ch))
  {
    hide AheadOf, AppendsIn;
    AheadOfSnoc(s.ch.queue, cmd, 1);
    AheadOfSnoc(s.ch.queue, cmd, 0);
  }

  /** The writer ended with an error that every join will report. */
  predicate Dead(s: State) {
    s.phase.Exited? && s.writeError && !s.drained
  }

  /** Dequeuing an append, or the Shutdown that ends a phase, leaves the limit where it was. */
  lemma PopKeepsLimit(phase: WriterPhase, ch: Channel)
    requires ch.queue != []
    ensures ch.queue[0].AppendCmd? && (phase.Running? || phase.Draining?) ==>
              LimitOf(phase, Pop(ch)) == LimitOf(phase, ch)
    ensures ch.queue[0].Shutdown? ==> LimitOf(Draining, Pop(ch)) == LimitOf(Running, ch)
    ensures ch.queue[0].Shutdown? ==> LimitOf(Leaving, Pop(ch)) == LimitOf(Draining, ch)
  {
    AheadOfUnfolds(ch.queue, 1);
    AheadOfUnfolds(ch.queue, 0);
    hide AheadOf;
  }

  lemma EmptyLimit(ch: Channel)
    requires ChannelInv(ch) && ch.queue == []
    ensures LimitOf(Draining, ch).None? && LimitOf(Leaving, ch) == Some(|ch.accepted|)
  {
    assert ch.accepted[ch.taken..] == [];
  }

  lemma WriterKeepsLimit(s: State, openFails: bool, fault: Fault)
    requires ChannelInv(s.ch) && !s.drained
    ensures var t := StepWriter(s, openFails, fault); LimitGrows(s, t) || Dead(t)
  {
    hide ChannelInv, Append;
    if s.ch.queue != [] {
      PopKeepsLimit(s.phase, s.ch);
      hide LimitOf;
    } else {
      EmptyLimit(s.ch);
      hide AheadOf;
    }
    if s.phase.Leaving? {
      LeavingLimit(s.ch);
    }
  }

  lemma LeavingLimit(ch: Channel)
    ensures LimitOf(Exited, ch) == LimitOf(Leaving, ch)
  {
  }

  lemma StepKeepsLimit(s: State, e: Event)
    requires ChannelInv(s.ch) && !s.drained && !Dead(s)
    ensures LimitGrows(s, Apply(s, e)) || Dead(Apply(s, e))
  {
    hide AheadOf, AppendsIn, ChannelInv;
    match e
    case Send(saver) =>
      if saver in s.pending && !s.phase.Exited? && !Full(s.ch) {
        OfferKeepsLimit(s, AppendCmd(s.pending[saver]), Offer(s.ch, s.pending[saver]));
      }
    case SendShutdown(c) =>
      if !s.phase.Exited? && !Full(s.ch) {
        OfferKeepsLimit(s, Shutdown, OfferShutdown(s.ch));
      }
    case WriterStep(openFails, fault) => WriterKeepsLimit(s, openFails, fault);
    case _ =>
  }

  lemma WriterFacts(s: State, openFails: bool, fault: Fault)
    ensures var t := StepWriter(s, openFails, fault);
            && t.ch.accepted == s.ch.accepted && t.callers == s.callers && t.drained == s.drained
            && (Dead(s) ==> t == s)
  {
    hide Process, Pop;
    if s.ch.queue != [] && s.ch.queue[0].AppendCmd? {
      ProcessFacts(s.(ch := Pop(s.ch)), s.ch.queue[0].rec, openFails, fault);
    }
    if s.ch.queue != [] {
      PopFacts(s.ch);
    }
  }

  lemma PopFacts(ch: Channel)
    requires ch.queue != []
    ensures Pop(ch).accepted == ch.accepted
  {
  }

  lemma ProcessFacts(s: State, rec: Rec, openFails: bool, fault: Fault)
    ensures var t := Process(s, rec, openFails, fault); t.ch == s.ch && t.callers == s.callers && t.drained == s.drained
  {
    hide Append;
  }

  lemma StepFacts(s: State, e: Event)
    ensures s.ch.accepted <= Apply(s, e).ch.accepted
    ensures Dead(s) ==> Dead(Apply(s, e))
  {
    if e.WriterStep? {
      WriterFacts(s, e.openFails, e.fault);
    }
    hide StepWriter;
  }

  /** The fate of an accepted save is settled: no later event changes it, unless the writer dies. */
  lemma {:induction false} FateIsSettled(s: State, base: Writer, urlOf: UrlOf, events: seq<Event>, i: nat)
    requires DrainInv(s, base, urlOf) && i < |s.ch.accepted|
    requires forall j :: 0 <= j < |events| && events[j].Guard? ==>
             Encodes(events[j].rec.url, events[j].rec.payload, urlOf)
    ensures var t := Trace(s, events);
            && s.ch.accepted <= t.ch.accepted
            && (Dead(s) ==> Dead(t))
            && (Dead(t) || (WillKeep(t, i) <==> WillKeep(s, i)))
    decreases |events|
  {
    if events != [] {
      var e, rest := events[0], events[1..];
      ApplyKeepsInv(s, base, urlOf, e);
      StepFacts(s, e);
      FateStep(s, base, urlOf, e, i);
      hide DrainInv, Apply, WillKeep, Dead, Encodes;
      FateIsSettled(Apply(s, e), base, urlOf, rest, i);
    }
  }

  lemma FateStep(s: State, base: Writer, urlOf: UrlOf, e: Event, i: nat)
    requires DrainInv(s, base, urlOf) && i < |s.ch.accepted|
    ensures var t := Apply(s, e); Dead(t) || (WillKeep(t, i) <==> WillKeep(s, i))
  {
    hide Apply, ChannelInv, Persisted, EncodedInv;
    if Dead(s) {
      StepFacts(s, e);
    } else if s.drained {
      ExitIsFinal(s, e);
    } else {
      StepKeepsLimit(s, e);
    }
  }

  /** At acceptance: the writer still runs and fewer than two Shutdowns are queued, or it drains and
      none is. */
  predicate KeptAtAcceptance(s: State) {
    || (s.phase.Running? && Shutdowns(s.ch.queue) < 2)
    || (s.phase.Draining? && Shutdowns(s.ch.queue) == 0)
  }

  lemma AcceptanceDecides(s: State, saver: nat)
    requires ChannelInv(s.ch) && saver in s.pending && !s.phase.Exited? && !Full(s.ch)
    ensures WillKeep(Apply(s, Send(saver)), |s.ch.accepted|) <==> KeptAtAcceptance(s)
  {
    var q, cmd := s.ch.queue, AppendCmd(s.pending[saver]);
    assert |AppendsIn(q)| == |s.ch.accepted| - s.ch.taken;
    AheadOfSettled(q, 1);
    AheadOfSettled(q, 0);
    AheadOfSnoc(q, cmd, 1);
    AheadOfSnoc(q, cmd, 0);
    hide AheadOf, AppendsIn, Shutdowns;
  }

  /** Acknowledged saves, over every interleaving and any old log: when a join reports success, a
      save is among the frames of the log if and only if, when it was accepted, the writer was
      running with fewer than two Shutdowns queued, or draining with none. */
  lemma AcknowledgedKeptIff(s0: State, log: seq<byte>, urlOf: UrlOf, before: seq<Event>, saver: nat,
                            later: seq<Event>, c: nat)
    requires Initial(s0, Reopened(log, urlOf))
    requires forall e :: (e in before || e in later) && e.Guard? ==> Encodes(e.rec.url, e.rec.payload, urlOf)
    requires var s := Trace(s0, before); saver in s.pending && !s.phase.Exited? && !Full(s.ch)
    ensures var s := Trace(s0, before);
            var t := Trace(Apply(s, Send(saver)), later);
            c in t.callers && t.callers[c].JoinedOk? ==>
              && |s.ch.accepted| < |t.ch.accepted| && t.ch.accepted[|s.ch.accepted|] == s.pending[saver]
              && t.ch.taken <= |t.ch.accepted| && t.w.log == log + Concat(Payloads(t.ch.accepted[..t.ch.taken]))
              && (|s.ch.accepted| < t.ch.taken <==> KeptAtAcceptance(s))
  {
    var base := Reopened(log, urlOf);
    var s := Trace(s0, before);
    InitialKeepsInv(s0, base, urlOf);
    TraceKeepsInv(s0, base, urlOf, before);
    ApplyKeepsInv(s, base, urlOf, Send(saver));
    AcceptanceDecides(s, saver);
    var s1, i := Apply(s, Send(saver)), |s.ch.accepted|;
    assert s1.ch.accepted == s.ch.accepted + [s.pending[saver]];
    hide Trace, Apply, KeptAtAcceptance, Reopened, Encodes, AppendAll;
    FateIsSettled(s1, base, urlOf, later, i);
    TraceKeepsInv(s1, base, urlOf, later);
    var t := Trace(s1, later);
    if c in t.callers && t.callers[c].JoinedOk? {
      LogOfPersisted(t, log, urlOf);
    }
  }

  lemma LogOfPersisted(t: State, log: seq<byte>, urlOf: UrlOf)
    requires EncodedInv(t, urlOf) && Persisted(t.w, t.ch, Reopened(log, urlOf))
    ensures t.w.log == log + Concat(Payloads(t.ch.accepted[..t.ch.taken]))
  {
    hide Concat, AppendAll, Encodes;
    AppendAllFollows(Reopened(log, urlOf), t.ch.accepted[..t.ch.taken], urlOf);
  }

  // ----- histories in which acknowledged saves are lost ----------------------------------------

  lemma {:induction false} Unroll(s: State, events: seq<Event>, states: seq<State>)
    requires |states| == |events| + 1 && states[0] == s
    requires forall i :: 0 <= i < |events| ==> states[i + 1] == Apply(states[i], events[i])
    ensures Trace(s, events) == states[|events|]
    decreases |events|
  {
    hide Apply;
    if events != [] {
      assert states[0 + 1] == Apply(states[0], events[0]);
      Unroll(states[1], events[1..], states[1..]);
    }
  }

  /** A save accepted when the drain has seen an empty queue is acknowledged and never written,
      although the join reports success. */
  lemma LateSaveIsLost(s: State, base: Writer, rec: Rec)
    requires Initial(s, base) && s.ch.capacity >= 1
    ensures var tick := WriterStep(false, NoFault);
            var t := Trace(s, [SendShutdown(0), tick, tick, Guard(1, rec), Send(1), tick, TakeHandle(0), Join(0)]);
            0 in t.callers && t.callers[0].JoinedOk? && t.ch.accepted == [rec] && t.w == s.w
  {
    var tick := WriterStep(false, NoFault);
    var first := [SendShutdown(0), tick, tick, Guard(1, rec), Send(1)];
    var s5 := AcceptedWhileLeaving(s, base, rec);
    assert [SendShutdown(0), tick, tick, Guard(1, rec), Send(1), tick, TakeHandle(0), Join(0)]
           == first + [tick, TakeHandle(0), Join(0)];
    TraceConcat(s, first, [tick, TakeHandle(0), Join(0)]);
    hide Trace;
    var s6 := Apply(s5, tick);
    assert s6 == s5.(phase := Exited);
    var s7 := Apply(s6, TakeHandle(0));
    var s8 := Apply(s7, Join(0));
    Unroll(s5, [tick, TakeHandle(0), Join(0)], [s5, s6, s7, s8]);
  }

  lemma AcceptedWhileLeaving(s: State, base: Writer, rec: Rec) returns (t: State)
    requires Initial(s, base) && s.ch.capacity >= 1
    ensures var tick := WriterStep(false, NoFault);
            t == Trace(s, [SendShutdown(0), tick, tick, Guard(1, rec), Send(1)])
    ensures t.ch.accepted == [rec] && t.phase.Leaving? && t.w == s.w && !t.writeError && t.callers == map[0 := Sent(0)]
            && !t.handleTaken
  {
    hide Trace;
    var tick := WriterStep(false, NoFault);
    var s1 := Apply(s, SendShutdown(0));
    assert s1 == s.(callers := map[0 := Sent(0)], ch := s.ch.(queue := [Shutdown], ahead := Some(0)));
    var s2 := Apply(s1, tick);
    assert s2 == s1.(phase := Draining, ch := s1.ch.(queue := []));
    var s3 := Apply(s2, tick);
    assert s3 == s2.(phase := Leaving);
    var s4 := Apply(s3, Guard(1, rec));
    assert s4 == s3.(pending := map[1 := rec]);
    t := Apply(s4, Send(1));
    Unroll(s, [SendShutdown(0), tick, tick, Guard(1, rec), Send(1)], [s, s1, s2, s3, s4, t]);
  }

  lemma {:induction false} TraceConcat(s: State, a: seq<Event>, b: seq<Event>)
    ensures Trace(s, a + b) == Trace(Trace(s, a), b)
    decreases |a|
  {
    hide Apply;
    if a == [] {
      assert a + b == b;
    } else {
      assert (a + b)[1..] == a[1..] + b;
      TraceConcat(Apply(s, a[0]), a[1..], b);
    }
  }

  /** A save accepted behind two queued Shutdowns is lost while the writer still runs. */
  lemma SecondShutdownDropsSave(s: State, base: Writer, rec: Rec)
    requires Initial(s, base) && s.ch.capacity >= 3
    ensures var tick := WriterStep(false, NoFault);
            var t := Trace(s, [SendShutdown(0), SendShutdown(1), Guard(2, rec), Send(2), tick, tick, tick,
                               TakeHandle(0), Join(0)]);
            0 in t.callers && t.callers[0].JoinedOk? && t.ch.accepted == [rec] && t.w == s.w
  {
    var tick := WriterStep(false, NoFault);
    var first := [SendShutdown(0), SendShutdown(1), Guard(2, rec), Send(2)];
    var last := [tick, tick, tick, TakeHandle(0), Join(0)];
    var s4 := AcceptedBehindTwo(s, base, rec);
    assert [SendShutdown(0), SendShutdown(1), Guard(2, rec), Send(2), tick, tick, tick, TakeHandle(0), Join(0)]
        == first + last;
    TraceConcat(s, first, last);
    hide Trace;
    var s5 := Apply(s4, tick);
    assert s5 == s4.(phase := Draining, ch := s4.ch.(queue := [Shutdown, AppendCmd(rec)]));
    var s6 := Apply(s5, tick);
    assert s6 == s5.(phase := Leaving, ch := s5.ch.(queue := [AppendCmd(rec)]));
    var s7 := Apply(s6, tick);
    assert s7 == s6.(phase := Exited);
    var s8 := Apply(s7, TakeHandle(0));
    var s9 := Apply(s8, Join(0));
    Unroll(s4, last, [s4, s5, s6, s7, s8, s9]);
  }

  lemma AcceptedBehindTwo(s: State, base: Writer, rec: Rec) returns (t: State)
    requires Initial(s, base) && s.ch.capacity >= 3
    ensures t == Trace(s, [SendShutdown(0), SendShutdown(1), Guard(2, rec), Send(2)])
    ensures t.ch.accepted == [rec] && t.ch.queue == [Shutdown, Shutdown, AppendCmd(rec)] && t.ch.taken == 0
    ensures t.w == s.w
    ensures t.phase.Running? && !t.writeError && !t.handleTaken && 0 in t.callers && t.callers[0].Sent?
  {
    hide Trace;
    var s1 := Apply(s, SendShutdown(0));
    var s2 := Apply(s1, SendShutdown(1));
    assert s2.ch.queue == [Shutdown, Shutdown];
    var s3 := Apply(s2, Guard(2, rec));
    t := Apply(s3, Send(2));
    Unroll(s, [SendShutdown(0), SendShutdown(1), Guard(2, rec), Send(2)], [s, s1, s2, s3, t]);
  }

  // ----- a caller that returns early ----------------------------------------------------------

  ghost predicate AskedInv(s: State) {
    forall c :: c in s.callers && s.callers[c].Sent? ==> s.callers[c].asked <= |s.ch.accepted|
  }

  lemma {:induction false} TraceKeepsAsked(s: State, events: seq<Event>)
    requires AskedInv(s)
    ensures AskedInv(Trace(s, events))
    decreases |events|
  {
    if events != [] {
      AskedStep(s, events[0]);
      hide Apply;
      TraceKeepsAsked(Apply(s, events[0]), events[1..]);
    }
  }

  lemma AskedStep(s: State, e: Event)
    requires AskedInv(s)
    ensures AskedInv(Apply(s, e))
  {
    StepFacts(s, e);
    if e.WriterStep? {
      WriterFacts(s, e.openFails, e.fault);
    }
    hide StepWriter, Offer, OfferShutdown;
  }

  lemma {:induction false} ConcatSplits(ps: seq<seq<byte>>, qs: seq<seq<byte>>)
    ensures Concat(ps + qs) == Concat(ps) + Concat(qs)
    ensures qs != [] ==> Concat(qs) != []
    decreases |ps|
  {
    hide Frame;
    if ps == [] {
      assert ps + qs == qs;
    } else {
      assert (ps + qs)[1..] == ps[1..] + qs;
      ConcatSplits(ps[1..], qs);
    }
  }

  lemma PrefixWrittenIff(log: seq<byte>, recs: seq<Rec>, asked: nat, taken: nat)
    requires asked <= |recs| && taken <= |recs|
    ensures log + Concat(Payloads(recs[..asked])) <= log + Concat(Payloads(recs[..taken])) <==> asked <= taken
  {
    hide Concat;
    var low, high := if asked <= taken then asked else taken, if asked <= taken then taken else asked;
    var a, b := Payloads(recs[..low]), Payloads(recs[low..high]);
    assert Payloads(recs[..high]) == a + b;
    ConcatSplits(a, b);
  }

  /** A caller that has sent its request returns at once if and only if another one took the handle.
      Without a write error, the saves accepted before its request are all in the log by then if and
      only if no more saves are queued than were accepted since. */
  lemma EarlyReturnIff(s0: State, log: seq<byte>, urlOf: UrlOf, events: seq<Event>, c: nat)
    requires Initial(s0, Reopened(log, urlOf))
    requires forall i :: 0 <= i < |events| && events[i].Guard? ==>
             Encodes(events[i].rec.url, events[i].rec.payload, urlOf)
    requires var s := Trace(s0, events); c in s.callers && s.callers[c].Sent?
    ensures var s := Trace(s0, events);
            var t, asked := Apply(s, TakeHandle(c)), s.callers[c].asked;
            && (t.callers[c].ReturnedEarly? <==> s.handleTaken)
            && asked <= |t.ch.accepted|
            && (!s.writeError ==>
                  (log + Concat(Payloads(t.ch.accepted[..asked])) <= t.w.log <==>
                   |AppendsIn(t.ch.queue)| <= |t.ch.accepted| - asked))
  {
    hide Concat, AppendsIn, AppendAll, Reopened, Encodes, Trace;
    InitialKeepsInv(s0, Reopened(log, urlOf), urlOf);
    TraceKeepsInv(s0, Reopened(log, urlOf), urlOf, events);
    TraceKeepsAsked(s0, events);
    var s := Trace(s0, events);
    if !s.writeError {
      LogOfPersisted(s, log, urlOf);
      PrefixWrittenIff(log, s.ch.accepted, s.callers[c].asked, s.ch.taken);
    }
  }

  /** A second shutdown caller that finds the handle taken reports success while a save accepted
      before its own request is still queued. */
  lemma SecondCallerReturnsEarly(s: State, base: Writer, rec: Rec)
    requires Initial(s, base) && s.ch.capacity >= 3
    ensures var t := Trace(s, [Guard(0, rec), Send(0), SendShutdown(0), TakeHandle(0), SendShutdown(1), TakeHandle(1)]);
            1 in t.callers && t.callers[1].ReturnedEarly? && t.ch.accepted == [rec] && t.phase.Running? && t.w == s.w
  {
    var s1 := Apply(s, Guard(0, rec));
    var s2 := Apply(s1, Send(0));
    var s3 := Apply(s2, SendShutdown(0));
    var s4 := Apply(s3, TakeHandle(0));
    var s5 := Apply(s4, SendShutdown(1));
    var s6 := Apply(s5, TakeHandle(1));
    Unroll(s, [Guard(0, rec), Send(0), SendShutdown(0), TakeHandle(0), SendShutdown(1), TakeHandle(1)],
           [s, s1, s2, s3, s4, s5, s6]);
  }
}
