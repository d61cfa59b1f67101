/** The bounded command channel between savers, the background writer and shutdown callers, over
    every interleaving of their steps. */
module ShutdownDrain {
  import opened Common
  import opened ResultLog
  import opened LogWriter

  datatype Rec = Rec(url: string, payload: seq<byte>)

  datatype Command = AppendCmd(rec: Rec) | Shutdown

  /** The channel and its history: the appends ever accepted, how many of them were dequeued, and
      how many had been accepted when the first Shutdown entered. */
  datatype Channel = Channel(capacity: nat, queue: seq<Command>, accepted: seq<Rec>, taken: nat, ahead: Option<nat>)

  /** The writer loop: receiving, draining after a Shutdown, about to drop the receiver, gone. */
  datatype WriterPhase = Running | Draining | Leaving | Exited

  /** A shutdown caller: request sent when `asked` saves had been accepted, holding the join handle,
      or returned. */
  datatype Caller = Sent(asked: nat) | Holding | ReturnedEarly(asked: nat) | JoinedOk | JoinedErr

  datatype State = State(
    ch: Channel,
    phase: WriterPhase,
    logOpen: bool,
    w: Writer,
    writeError: bool,
    handleTaken: bool,
    callers: map<nat, Caller>,
    pending: map<nat, Rec>,
    drained: bool)

  /** `save` runs in two steps, guard and send; `shutdown` in three, send, take handle, join. */
  datatype Event =
    | Guard(saver: nat, rec: Rec)
    | Send(saver: nat)
    | WriterStep(openFails: bool, fault: Fault)
    | SendShutdown(caller: nat)
    | TakeHandle(caller: nat)
    | Join(caller: nat)

  predicate Full(ch: Channel) {
    |ch.queue| >= ch.capacity
  }

  function Offer(ch: Channel, rec: Rec): Channel {
    if Full(ch) then ch else ch.(queue := ch.queue + [AppendCmd(rec)], accepted := ch.accepted + [rec])
  }

  function OfferShutdown(ch: Channel): Channel {
    if Full(ch) then ch
    else ch.(queue := ch.queue + [Shutdown], ahead := if ch.ahead.None? then Some(|ch.accepted|) else ch.ahead)
  }

  function Pop(ch: Channel): Channel
    requires ch.queue != []
  {
    ch.(queue := ch.queue[1..], taken := if ch.queue[0].AppendCmd? then ch.taken + 1 else ch.taken)
  }

  /** The writer handles one dequeued append. A log that cannot be opened ends the writer. */
  function Process(s: State, rec: Rec, openFails: bool, fault: Fault): State {
    if openFails && !s.logOpen then s.(phase := Exited, writeError := true)
    else s.(logOpen := true, w := Append(s.w, rec.url, rec.payload, fault), writeError := s.writeError || fault.Short?)
  }

  function StepWriter(s: State, openFails: bool, fault: Fault): State {
    match s.phase
    case Running =>
      if s.ch.queue == [] then s
      else
        var s1 := s.(ch := Pop(s.ch));
        if s.ch.queue[0].AppendCmd? then Process(s1, s.ch.queue[0].rec, openFails, fault) else s1.(phase := Draining)
    case Draining =>
      if s.ch.queue == [] then s.(phase := Leaving)
      else
        var s1 := s.(ch := Pop(s.ch));
        if s.ch.queue[0].AppendCmd? then Process(s1, s.ch.queue[0].rec, openFails, fault) else s1.(phase := Leaving)
    case Leaving => s.(phase := Exited)
    case Exited => s
  }

  function Apply(s: State, e: Event): State {
    match e
    case Guard(saver, rec) => if s.writeError then s else s.(pending := s.pending[saver := rec])
    case Send(saver) =>
      if saver !in s.pending then s
      else if s.phase.Exited? then s.(pending := s.pending - {saver}, writeError := true)
      else s.(pending := s.pending - {saver}, ch := Offer(s.ch, s.pending[saver]))
    case WriterStep(openFails, fault) => StepWriter(s, openFails, fault)
    case SendShutdown(c) =>
      if c in s.callers || (Full(s.ch) && !s.phase.Exited?) then s
      else s.(callers := s.callers[c := Sent(|s.ch.accepted|)],
              ch := if s.phase.Exited? then s.ch else OfferShutdown(s.ch))
    case TakeHandle(c) =>
      if c !in s.callers || !s.callers[c].Sent? then s
      else if s.handleTaken then s.(callers := s.callers[c := ReturnedEarly(s.callers[c].asked)])
      else s.(handleTaken := true, callers := s.callers[c := Holding])
    case Join(c) =>
      if c !in s.callers || !s.callers[c].Holding? || !s.phase.Exited? then s
      else if s.writeError then s.(callers := s.callers[c := JoinedErr])
      else s.(callers := s.callers[c := JoinedOk], writeError := true, drained := true)
  }

  function Trace(s: State, events: seq<Event>): State
    decreases |events|
  {
    if events == [] then s else Trace(Apply(s, events[0]), events[1..])
  }

  // ----- the channel -----------------------------------------------------------------------

  /** The appends of a queue, in order. */
  function AppendsIn(q: seq<Command>): seq<Rec> {
    if q == [] then []
    else (if q[0].AppendCmd? then [q[0].rec] else []) + AppendsIn(q[1..])
  }

  /** FIFO: what is queued is what was accepted and not yet dequeued, in order. */
  ghost predicate ChannelInv(ch: Channel) {
    && ch.taken <= |ch.accepted| && AppendsIn(ch.queue) == ch.accepted[ch.taken..]
    && (ch.ahead.None? ==> Shutdown !in ch.queue)
    && (ch.ahead.Some? ==> ch.ahead.value <= |ch.accepted|)
  }

  /** Before the first Shutdown is dequeued, it sits right behind the appends accepted ahead of it. */
  ghost predicate ShutdownWaits(ch: Channel) {
    ch.ahead.Some? ==>
      var n := ch.ahead.value - ch.taken;
      0 <= n < |ch.queue| && ch.queue[n].Shutdown? && forall i :: 0 <= i < n ==> ch.queue[i].AppendCmd?
  }

  lemma {:induction false} AppendsInSnoc(q: seq<Command>, c: Command)
    ensures AppendsIn(q + [c]) == AppendsIn(q) + (if c.AppendCmd? then [c.rec] else [])
    decreases |q|
  {
    if q == [] {
      assert q + [c] == [c] && [c][1..] == [];
    } else {
      var head := if q[0].AppendCmd? then [q[0].rec] else [];
      var last := if c.AppendCmd? then [c.rec] else [];
      assert (q + [c])[0] == q[0] && (q + [c])[1..] == q[1..] + [c];
      AppendsInSnoc(q[1..], c);
      assert head + (AppendsIn(q[1..]) + last) == (head + AppendsIn(q[1..])) + last;
    }
  }

  lemma {:induction false} NoShutdownAllAppends(q: seq<Command>)
    requires Shutdown !in q
    ensures |AppendsIn(q)| == |q| && forall i :: 0 <= i < |q| ==> q[i].AppendCmd?
  {
    if q != [] {
      assert q[0] in q;
      NoShutdownAllAppends(q[1..]);
    }
  }

  lemma OfferKeeps(ch: Channel, rec: Rec)
    requires ChannelInv(ch)
    ensures ChannelInv(Offer(ch, rec)) && (ShutdownWaits(ch) ==> ShutdownWaits(Offer(ch, rec)))
  {
    hide AppendsIn;
    AppendsInSnoc(ch.queue, AppendCmd(rec));
    assert (ch.accepted + [rec])[ch.taken..] == ch.accepted[ch.taken..] + [rec];
  }

  lemma OfferShutdownKeeps(ch: Channel)
    requires ChannelInv(ch)
    ensures ChannelInv(OfferShutdown(ch)) && (ShutdownWaits(ch) ==> ShutdownWaits(OfferShutdown(ch)))
  {
    hide AppendsIn;
    AppendsInSnoc(ch.queue, Shutdown);
    assert AppendsIn(ch.queue) + [] == AppendsIn(ch.queue);
    if ch.ahead.None? {
      NoShutdownAllAppends(ch.queue);
    }
  }

  /** Dequeuing an append yields the next accepted one. */
  lemma PopAppend(ch: Channel)
    requires ChannelInv(ch) && ch.queue != [] && ch.queue[0].AppendCmd?
    ensures ChannelInv(Pop(ch)) && ch.taken < |ch.accepted| && ch.queue[0].rec == ch.accepted[ch.taken]
    ensures ShutdownWaits(ch) ==> ShutdownWaits(Pop(ch))
  {
  }

  /** Dequeuing a Shutdown means that everything accepted ahead of the first one was dequeued. */
  lemma PopShutdown(ch: Channel)
    requires ChannelInv(ch) && ch.queue != [] && ch.queue[0].Shutdown?
    ensures ChannelInv(Pop(ch)) && ch.ahead.Some?
    ensures ShutdownWaits(ch) ==> ch.ahead.value <= ch.taken
  {
  }

  // ----- the log ---------------------------------------------------------------------------

  function Payloads(recs: seq<Rec>): (ps: seq<seq<byte>>)
    ensures |ps| == |recs|
  {
    seq(|recs|, i requires 0 <= i < |recs| => recs[i].payload)
  }

  /** The writer after appending `recs`, in order and without a fault. */
  function AppendAll(w: Writer, recs: seq<Rec>): Writer {
    if recs == [] then w
    else
      var n := |recs| - 1;
      Append(AppendAll(w, recs[..n]), recs[n].url, recs[n].payload, NoFault)
  }

  /** Everything dequeued so far has been appended to what the repository was opened with. */
  ghost predicate Persisted(w: Writer, ch: Channel, base: Writer) {
    ch.taken <= |ch.accepted| && w == AppendAll(base, ch.accepted[..ch.taken])
  }

  lemma PersistedFrames(w: Writer, ch: Channel, ch': Channel, base: Writer)
    requires Persisted(w, ch, base) && ch'.taken == ch.taken && ch.accepted <= ch'.accepted
    ensures Persisted(w, ch', base)
  {
    assert ch'.accepted[..ch.taken] == ch.accepted[..ch.taken];
  }

  lemma PersistedGrows(w: Writer, ch: Channel, rec: Rec, base: Writer)
    requires Persisted(w, ch, base) && ch.taken < |ch.accepted| && rec == ch.accepted[ch.taken]
    ensures Persisted(Append(w, rec.url, rec.payload, NoFault), ch.(taken := ch.taken + 1), base)
  {
    hide Append;
    assert ch.accepted[..ch.taken + 1][..ch.taken] == ch.accepted[..ch.taken];
  }

  predicate LastOfUrl(recs: seq<Rec>, i: nat)
    requires i < |recs|
  {
    forall j :: i < j < |recs| ==> recs[j].url != recs[i].url
  }

  /** Every record's URL is indexed, and the last record of a URL where it reads back. */
  ghost predicate Indexed(w: Writer, recs: seq<Rec>) {
    forall i :: 0 <= i < |recs| ==>
      && recs[i].url in w.index
      && (LastOfUrl(recs, i) ==> ReadsAt(w.log, w.index[recs[i].url], recs[i].payload))
  }

  lemma AppendKeepsIndexed(w: Writer, recs: seq<Rec>, rec: Rec, urlOf: UrlOf)
    requires Indexed(w, recs) && w.offset == |w.log| && Encodes(rec.url, rec.payload, urlOf)
    ensures Indexed(Append(w, rec.url, rec.payload, NoFault), recs + [rec])
  {
    hide Frame, ReadsAt;
    var all := recs + [rec];
    FrameReadsBack(w.log, rec.payload);
    forall i | 0 <= i < |recs| && LastOfUrl(all, i)
      ensures rec.url != recs[i].url && ReadsAt(w.log + Frame(rec.payload), w.index[recs[i].url], recs[i].payload)
    {
      LastOfShorter(recs, rec, i);
      ReadSurvivesAppend(w.log, Frame(rec.payload), w.index[recs[i].url], recs[i].payload);
    }
    hide LastOfUrl;
  }

  lemma LastOfShorter(recs: seq<Rec>, rec: Rec, i: nat)
    requires i < |recs| && LastOfUrl(recs + [rec], i)
    ensures LastOfUrl(recs, i) && rec.url != recs[i].url
  {
    var all := recs + [rec];
    assert all[|recs|].url != all[i].url;
    forall j | i < j < |recs|
      ensures recs[j].url != recs[i].url
    {
      assert all[j].url != all[i].url;
    }
  }

  lemma AppendWrites(w: Writer, url: string, payload: seq<byte>)
    requires w.offset == |w.log| && |payload| < U32
    ensures var w' := Append(w, url, payload, NoFault); w'.log == w.log + Frame(payload) && w'.offset == |w'.log|
  {
    hide Le32;
  }

  /** The frames of `recs` follow the old log, and all of them are indexed. */
  ghost predicate Follows(w: Writer, w': Writer, recs: seq<Rec>) {
    w'.log == w.log + Concat(Payloads(recs)) && w'.offset == |w'.log| && Indexed(w', recs)
  }

  lemma NothingFollows(w: Writer)
    requires w.offset == |w.log|
    ensures Follows(w, w, [])
  {
    assert Payloads([]) == [];
    assert w.log + [] == w.log;
  }

  lemma FollowsNext(w: Writer, w1: Writer, recs: seq<Rec>, rec: Rec, urlOf: UrlOf)
    requires Follows(w, w1, recs) && Encodes(rec.url, rec.payload, urlOf)
    ensures Follows(w, Append(w1, rec.url, rec.payload, NoFault), recs + [rec])
  {
    hide Append, Concat, Frame, Indexed, Payloads;
    AppendKeepsIndexed(w1, recs, rec, urlOf);
    AppendWrites(w1, rec.url, rec.payload);
    PayloadsSnoc(recs, rec);
    ConcatSnoc(Payloads(recs), rec.payload);
    Regroup(w.log, Concat(Payloads(recs)), Frame(rec.payload));
  }

  lemma PayloadsSnoc(recs: seq<Rec>, rec: Rec)
    ensures Payloads(recs + [rec]) == Payloads(recs) + [rec.payload]
  {
  }

  lemma Regroup(a: seq<byte>, b: seq<byte>, c: seq<byte>)
    ensures a + (b + c) == a + b + c
  {
  }

  lemma {:induction false} AppendAllFollows(w: Writer, recs: seq<Rec>, urlOf: UrlOf)
    requires w.offset == |w.log| && forall i :: 0 <= i < |recs| ==> Encodes(recs[i].url, recs[i].payload, urlOf)
    ensures Follows(w, AppendAll(w, recs), recs)
    decreases |recs|
  {
    hide AppendAll, Append, Follows, Encodes;
    AppendAllUnfolds(w, recs);
    if recs == [] {
      NothingFollows(w);
    } else {
      var n := |recs| - 1;
      assert recs == recs[..n] + [recs[n]];
      AppendAllFollows(w, recs[..n], urlOf);
      FollowsNext(w, AppendAll(w, recs[..n]), recs[..n], recs[n], urlOf);
    }
  }

  lemma AppendAllUnfolds(w: Writer, recs: seq<Rec>)
    ensures AppendAll(w, recs) ==
            if recs == [] then w
            else
              var n := |recs| - 1;
              Append(AppendAll(w, recs[..n]), recs[n].url, recs[n].payload, NoFault)
  {
  }

  /** Over a well-formed log the index stays the one that a scan rebuilds. */
  lemma {:induction false} AppendAllKeepsStep(w: Writer, ps: seq<seq<byte>>, recs: seq<Rec>, urlOf: UrlOf)
    requires InStep(w, ps, urlOf) && forall i :: 0 <= i < |recs| ==> Encodes(recs[i].url, recs[i].payload, urlOf)
    ensures InStep(AppendAll(w, recs), ps + Payloads(recs), urlOf)
    decreases |recs|
  {
    if recs == [] {
      assert ps + Payloads(recs) == ps;
    } else {
      var n := |recs| - 1;
      AppendAllKeepsStep(w, ps, recs[..n], urlOf);
      hide InStep, Append;
      SuccessKeepsStep(AppendAll(w, recs[..n]), ps + Payloads(recs[..n]), recs[n].url, recs[n].payload, urlOf);
      assert ps + Payloads(recs[..n]) + [recs[n].payload] == ps + Payloads(recs);
    }
  }

  // ----- the whole system --------------------------------------------------------------------

  ghost predicate EncodedInv(s: State, urlOf: UrlOf) {
    && (forall i :: 0 <= i < |s.ch.accepted| ==> Encodes(s.ch.accepted[i].url, s.ch.accepted[i].payload, urlOf))
    && (forall k :: k in s.pending ==> Encodes(s.pending[k].url, s.pending[k].payload, urlOf))
  }

  predicate AheadTaken(ch: Channel) {
    ch.ahead.Some? && ch.ahead.value <= ch.taken
  }

  ghost predicate DrainInv(s: State, base: Writer, urlOf: UrlOf) {
    && EncodedInv(s, urlOf) && ChannelInv(s.ch)
    && (s.phase.Running? ==> ShutdownWaits(s.ch))
    && (!s.phase.Running? ==> AheadTaken(s.ch) || (s.phase.Exited? && s.writeError))
    && (!s.writeError ==> Persisted(s.w, s.ch, base))
    && (s.drained ==> s.phase.Exited? && s.writeError && AheadTaken(s.ch) && Persisted(s.w, s.ch, base))
    && (forall c :: c in s.callers && s.callers[c].JoinedOk? ==> s.drained)
  }

  lemma ProcessKeepsInv(s: State, base: Writer, urlOf: UrlOf, openFails: bool, fault: Fault)
    requires DrainInv(s, base, urlOf) && (s.phase.Running? || s.phase.Draining?) && s.ch.queue != []
             && s.ch.queue[0].AppendCmd?
    ensures DrainInv(Process(s.(ch := Pop(s.ch)), s.ch.queue[0].rec, openFails, fault), base, urlOf)
  {
    hide ChannelInv, ShutdownWaits, Persisted, Append;
    PopAppend(s.ch);
    if !s.writeError && fault.NoFault? {
      PersistedGrows(s.w, s.ch, s.ch.queue[0].rec, base);
      var ch' := Pop(s.ch);
      PersistedFrames(Append(s.w, s.ch.queue[0].rec.url, s.ch.queue[0].rec.payload, NoFault),
                      s.ch.(taken := s.ch.taken + 1), ch', base);
    }
  }

  lemma ShutdownKeepsInv(s: State, base: Writer, urlOf: UrlOf, next: WriterPhase)
    requires DrainInv(s, base, urlOf) && (s.phase.Running? || s.phase.Draining?) && s.ch.queue != []
             && s.ch.queue[0].Shutdown?
    requires next.Draining? || next.Leaving?
    ensures DrainInv(s.(ch := Pop(s.ch), phase := next), base, urlOf)
  {
    hide ChannelInv, ShutdownWaits, Persisted;
    PopShutdown(s.ch);
    if !s.writeError {
      PersistedFrames(s.w, s.ch, Pop(s.ch), base);
    }
  }

  lemma WriterKeepsInv(s: State, base: Writer, urlOf: UrlOf, openFails: bool, fault: Fault)
    requires DrainInv(s, base, urlOf)
    ensures DrainInv(StepWriter(s, openFails, fault), base, urlOf)
  {
    if (s.phase.Running? || s.phase.Draining?) && s.ch.queue != [] {
      hide DrainInv, Process, Pop;
      if s.ch.queue[0].AppendCmd? {
        ProcessKeepsInv(s, base, urlOf, openFails, fault);
      } else {
        ShutdownKeepsInv(s, base, urlOf, if s.phase.Running? then Draining else Leaving);
      }
    } else {
      hide ChannelInv, ShutdownWaits, Persisted, EncodedInv;
    }
  }

  lemma SendKeepsInv(s: State, base: Writer, urlOf: UrlOf, saver: nat)
    requires DrainInv(s, base, urlOf)
    ensures DrainInv(Apply(s, Send(saver)), base, urlOf)
  {
    hide ChannelInv, ShutdownWaits, Persisted, Encodes;
    if saver in s.pending {
      OfferKeeps(s.ch, s.pending[saver]);
      if !s.writeError || s.drained {
        PersistedFrames(s.w, s.ch, Offer(s.ch, s.pending[saver]), base);
      }
    }
  }

  lemma SendShutdownKeepsInv(s: State, base: Writer, urlOf: UrlOf, c: nat)
    requires DrainInv(s, base, urlOf)
    ensures DrainInv(Apply(s, SendShutdown(c)), base, urlOf)
  {
    hide ChannelInv, ShutdownWaits, Persisted, Encodes;
    OfferShutdownKeeps(s.ch);
    if !s.writeError || s.drained {
      PersistedFrames(s.w, s.ch, OfferShutdown(s.ch), base);
    }
  }

  lemma CallersKeepInv(s: State, base: Writer, urlOf: UrlOf, e: Event)
    requires DrainInv(s, base, urlOf) && (e.Guard? ==> Encodes(e.rec.url, e.rec.payload, urlOf))
    requires e.Guard? || e.TakeHandle? || e.Join?
    ensures DrainInv(Apply(s, e), base, urlOf)
  {
    hide ChannelInv, ShutdownWaits, Persisted, Encodes;
  }

  lemma ApplyKeepsInv(s: State, base: Writer, urlOf: UrlOf, e: Event)
    requires DrainInv(s, base, urlOf) && (e.Guard? ==> Encodes(e.rec.url, e.rec.payload, urlOf))
    ensures DrainInv(Apply(s, e), base, urlOf)
  {
    hide DrainInv, StepWriter, Encodes;
    match e
    case Send(saver) => SendKeepsInv(s, base, urlOf, saver);
    case WriterStep(openFails, fault) => WriterKeepsInv(s, base, urlOf, openFails, fault);
    case SendShutdown(c) => SendShutdownKeepsInv(s, base, urlOf, c);
    case _ => CallersKeepInv(s, base, urlOf, e);
  }

  // ----- main results ----------------------------------------------------------------------

  /** A repository just opened: nothing queued, the writer `base`. */
  ghost predicate Initial(s: State, base: Writer) {
    && s.ch.queue == [] && s.ch.accepted == [] && s.ch.taken == 0 && s.ch.ahead.None?
    && s.phase.Running? && !s.writeError && !s.handleTaken && s.callers == map[] && s.pending == map[] && !s.drained
    && s.w == base
  }

  lemma InitialKeepsInv(s: State, base: Writer, urlOf: UrlOf)
    requires Initial(s, base)
    ensures DrainInv(s, base, urlOf)
  {
  }

  lemma {:induction false} TraceKeepsInv(s: State, base: Writer, urlOf: UrlOf, events: seq<Event>)
    requires DrainInv(s, base, urlOf)
    requires forall i :: 0 <= i < |events| && events[i].Guard? ==>
             Encodes(events[i].rec.url, events[i].rec.payload, urlOf)
    ensures DrainInv(Trace(s, events), base, urlOf)
    decreases |events|
  {
    hide DrainInv, Apply;
    if events != [] {
      ApplyKeepsInv(s, base, urlOf, events[0]);
      TraceKeepsInv(Apply(s, events[0]), base, urlOf, events[1..]);
    }
  }

  /** Shutdown drain, over every interleaving and over whatever bytes the repository was opened: when
      a join reports success, the log is the old log followed by the frames of the first `taken`
      accepted saves, in order; these include every save accepted ahead of the first Shutdown, and
      the last save of each URL is indexed where it reads back. The saves still queued when the
      receiver went away are missing; which ones these are is decided when they are accepted. */
  lemma ShutdownDrains(s: State, log: seq<byte>, urlOf: UrlOf, events: seq<Event>, c: nat)
    requires Initial(s, Reopened(log, urlOf))
    requires forall i :: 0 <= i < |events| && events[i].Guard? ==>
             Encodes(events[i].rec.url, events[i].rec.payload, urlOf)
    ensures var t := Trace(s, events);
            c in t.callers && t.callers[c].JoinedOk? ==>
              && t.ch.ahead.Some? && t.ch.ahead.value <= t.ch.taken <= |t.ch.accepted|
              && t.ch.accepted == t.ch.accepted[..t.ch.taken] + AppendsIn(t.ch.queue)
              && var kept := t.ch.accepted[..t.ch.taken];
                 t.w.log == log + Concat(Payloads(kept)) && t.w.offset == |t.w.log| && Indexed(t.w, kept)
  {
    hide Concat, Apply, Trace, AppendsIn, AppendAll, Indexed;
    InitialKeepsInv(s, Reopened(log, urlOf), urlOf);
    TraceKeepsInv(s, Reopened(log, urlOf), urlOf, events);
    var t := Trace(s, events);
    if c in t.callers && t.callers[c].JoinedOk? {
      AppendAllFollows(Reopened(log, urlOf), t.ch.accepted[..t.ch.taken], urlOf);
      assert t.ch.accepted == t.ch.accepted[..t.ch.taken] + t.ch.accepted[t.ch.taken..];
    }
  }

  /** If the old log was well formed, the index after a successful join is the one a scan rebuilds. */
  lemma DrainedIndexIsScanned(s: State, ps: seq<seq<byte>>, urlOf: UrlOf, events: seq<Event>, c: nat)
    requires Sized(ps) && Initial(s, Reopened(Concat(ps), urlOf))
    requires forall i :: 0 <= i < |events| && events[i].Guard? ==>
             Encodes(events[i].rec.url, events[i].rec.payload, urlOf)
    ensures var t := Trace(s, events);
            c in t.callers && t.callers[c].JoinedOk? ==> t.w.index == IndexOf(Scan(t.w.log, 0), urlOf)
  {
    hide Concat, IndexOf, Scan, EntriesOf, Apply, Trace, AppendAll;
    ScanOfLog(ps, 0);
    InitialKeepsInv(s, Reopened(Concat(ps), urlOf), urlOf);
    TraceKeepsInv(s, Reopened(Concat(ps), urlOf), urlOf, events);
    var t := Trace(s, events);
    if c in t.callers && t.callers[c].JoinedOk? {
      var kept := t.ch.accepted[..t.ch.taken];
      AppendAllKeepsStep(Reopened(Concat(ps), urlOf), ps, kept, urlOf);
      ScanOfLog(ps + Payloads(kept), 0);
    }
  }

  /** From the moment the writer is gone no save is accepted any more, and the log stays as it is;
      once a join has returned, the guard refuses every save as well. */
  lemma {:induction false} SavesRefusedAfterExit(s: State, events: seq<Event>)
    requires s.phase.Exited?
    ensures Trace(s, events).phase.Exited? && Trace(s, events).ch == s.ch && Trace(s, events).w == s.w
    ensures s.writeError ==> Trace(s, events).writeError && Trace(s, events).pending.Keys <= s.pending.Keys
    decreases |events|
  {
    hide Apply;
    if events != [] {
      ExitIsFinal(s, events[0]);
      SavesRefusedAfterExit(Apply(s, events[0]), events[1..]);
    }
  }

  lemma ExitIsFinal(s: State, e: Event)
    requires s.phase.Exited?
    ensures var t := Apply(s, e);
            && t.phase.Exited? && t.ch == s.ch && t.w == s.w
            && (s.writeError ==> t.writeError && t.pending.Keys <= s.pending.Keys)
  {
  }
}
