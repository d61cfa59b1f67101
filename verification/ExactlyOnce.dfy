/** Exactly-once export across crashes: one writer, a clock that does not go back, atomic line
    appends, no item failures, and items that agree on key or content only when they are equal. */
module ExactlyOnce {
  import opened Common
  import opened Records
  import opened ExportProtocol
  import opened CrashSafety

  /** Valid items; two of them share a canonical key or a content hash only if they are the
      same item. Repeating an item is allowed. */
  ghost predicate GoodItems(items: seq<Item>) {
    && (forall x :: x in items ==>
          x.defect.None? && !MeaninglessIdentity(x.url) && !MeaninglessIdentity(x.key))
    && (forall x, y :: x in items && y in items && (x.key == y.key || x.hash == y.hash) ==> x == y)
  }

  /** `r` is an honest, error-free terminal record of item `x`, stamped no later than `clock`. */
  predicate Tracks(r: RawRecord, x: Item, clock: int) {
    && Terminal(r.status) && ValidRecord(r) && r.lastError.None? && r.attempts >= 1
    && r.contentHash == Some(x.hash) && r.updatedAt <= clock
  }

  /** The record under `k` tracks an item of that key whose bytes are flushed. */
  ghost predicate OnceRecord(r: RawRecord, k: string, items: seq<Item>, flushed: set<string>, clock: int) {
    exists x :: x in items && x.key == k && x.hash in flushed && Tracks(r, x, clock)
  }

  ghost predicate OnceMap(m: RecordMap, items: seq<Item>, flushed: set<string>, clock: int) {
    forall k :: k in m ==> OnceRecord(m[k], k, items, flushed, clock)
  }

  /** Every line belongs to an item and no line occurs twice. */
  ghost predicate OnceLines(lines: seq<Line>, items: seq<Item>) {
    && (forall i :: 0 <= i < |lines| ==> exists x :: x in items && lines[i] == LineOf(x))
    && (forall i, j :: 0 <= i < j < |lines| ==> lines[i] != lines[j])
  }

  ghost predicate OnceDisk(d: Disk, items: seq<Item>, clock: int) {
    OnceLines(d.lines, items) && OnceMap(d.store, items, LineHashes(d.lines), clock)
  }

  predicate Claimed(s: Session, x: Item) {
    (x.url, x.hash) in s.driven
  }

  ghost predicate OnceProc(p: Proc, d: Disk, items: seq<Item>, clock: int) {
    var s := p.session;
    && p.ctx.Tracked?
    && OnceMap(s.records, items, LineHashes(d.lines), clock)
    && s.hashIndex <= LineHashes(d.lines)
    && (!p.ctx.resume ==> s.hashIndex == {})
    // what is flushed but not claimed by this run was seen when the run opened
    && (forall x :: x in items && x.hash in LineHashes(d.lines) && !Claimed(s, x) ==> x.hash in s.hashIndex)
    // a single writer is never behind its own store
    && (forall k :: k in d.store && k in s.records ==> d.store[k].updatedAt <= s.records[k].updatedAt)
    && (p.phase.AfterFlush? ==> p.phase.item in items && p.phase.item.hash in LineHashes(d.lines))
    && (p.phase.AfterCheckpoint? ==> p.phase.key in s.records && s.records[p.phase.key].status.Exported?)
  }

  ghost predicate OnceConfig(c: Config, items: seq<Item>, clock: int) {
    OnceDisk(c.disk, items, clock) && OnceProc(c.proc, c.disk, items, clock)
  }

  /** The item a tracked record belongs to. */
  lemma TrackedItem(m: RecordMap, items: seq<Item>, flushed: set<string>, clock: int, k: string) returns (x: Item)
    requires OnceMap(m, items, flushed, clock) && k in m
    ensures x in items && x.key == k && Tracks(m[k], x, clock) && x.hash in flushed
    ensures GoodItems(items) ==> forall y :: y in items && y.key == k ==> x == y
  {
    x :| x in items && x.key == k && x.hash in flushed && Tracks(m[k], x, clock);
  }

  // ----- steps ----------------------------------------------------------------------

  /** A later clock and a longer file keep every record. */
  lemma OnceMapIsMonotone(m: RecordMap, items: seq<Item>, flushed: set<string>, more: set<string>, clock: int,
                          later: int)
    requires OnceMap(m, items, flushed, clock) && clock <= later && flushed <= more
    ensures OnceMap(m, items, more, later)
  {
  }

  lemma ConfigClockAdvances(c: Config, items: seq<Item>, clock: int, later: int)
    requires OnceConfig(c, items, clock) && clock <= later
    ensures OnceConfig(c, items, later)
  {
  }

  /** Nothing in a once-only store is quarantined. */
  lemma OnceMapIsKept(m: RecordMap, items: seq<Item>, flushed: set<string>, clock: int)
    requires OnceMap(m, items, flushed, clock)
    ensures Kept(m) == m
  {
  }

  /** With one writer nothing in the store beats the run's copy. */
  lemma SaveKeepsOnce(c: Config, items: seq<Item>, clock: int, ok: bool)
    requires OnceConfig(c, items, clock)
    ensures var d := Save(c.proc.ctx, c.proc.session.records, c.disk, ok);
            && d.lines == c.disk.lines
            && OnceConfig(c.(disk := d), items, clock)
            && (ok ==> forall k :: k in c.proc.session.records ==>
                  k in d.store && d.store[k] == c.proc.session.records[k])
  {
    OnceMapIsKept(c.disk.store, items, LineHashes(c.disk.lines), clock);
    hide OnceRecord, OnceLines, Kept, LineHashes;
    if ok && c.proc.ctx.Tracked? {
      NewestWins(c.proc.session.records, c.disk.store);
      hide Merge;
    }
  }

  /** A working set that is nowhere behind the store replaces it wherever it has a record. */
  lemma NewestWins(mine: RecordMap, store: RecordMap)
    requires forall k :: k in store && k in mine ==> store[k].updatedAt <= mine[k].updatedAt
    ensures forall k :: k in Merge(mine, store) <==> k in mine || k in store
    ensures forall k :: k in Merge(mine, store) ==> Merge(mine, store)[k] == if k in mine then mine[k] else store[k]
  {
  }

  /** Installing a fresh-stamped or unchanged record of an item keeps the invariant. */
  lemma UpdateKeepsOnce(c: Config, items: seq<Item>, clock: int, x: Item, r: RawRecord, phase: Phase)
    requires OnceConfig(c, items, clock) && x in items && Tracks(r, x, clock)
    requires x.hash in LineHashes(c.disk.lines)
    requires x.key in c.disk.store ==> c.disk.store[x.key].updatedAt <= r.updatedAt
    requires phase.Ready? || (phase == AfterCheckpoint(x.key) && r.status.Exported?)
    ensures var records := c.proc.session.records[x.key := r];
            OnceConfig(c.(proc := WithRecords(c.proc, records).(phase := phase)), items, clock)
  {
    assert OnceRecord(r, x.key, items, LineHashes(c.disk.lines), clock);
    hide OnceRecord, OnceLines, Tracks;
  }

  lemma InstallKeepsOnce(c: Config, items: seq<Item>, clock: int, x: Item, r: RawRecord, saveOk: bool)
    requires OnceConfig(c, items, clock) && x in items && Tracks(r, x, clock) && r.status.Exported?
    requires x.hash in LineHashes(c.disk.lines)
    requires x.key in c.disk.store ==> c.disk.store[x.key].updatedAt <= r.updatedAt
    ensures OnceConfig(Install(c, x.key, Some(r), saveOk), items, clock)
  {
    hide OnceDisk, OnceProc, Save, Tracks;
    UpdateKeepsOnce(c, items, clock, x, r, AfterCheckpoint(x.key));
    var c1 := c.(proc := WithRecords(c.proc, c.proc.session.records[x.key := r]).(phase := AfterCheckpoint(x.key)));
    SaveKeepsOnce(c1, items, clock, saveOk);
  }

  /** Flushed bytes are never driven again: a claimless item already in the file is skipped or promoted. */
  lemma DrivenMeansUnflushed(c: Config, items: seq<Item>, clock: int, x: Item)
    requires OnceConfig(c, items, clock) && GoodItems(items) && x in items
    requires !Claimed(c.proc.session, x)
    requires Decide(c.proc.ctx, c.proc.session, x.key, x.hash).DriveAndCommit?
    ensures x.hash !in LineHashes(c.disk.lines)
  {
  }

  lemma AppendKeepsOnce(c: Config, items: seq<Item>, clock: int, x: Item)
    requires OnceConfig(c, items, clock) && GoodItems(items) && x in items
    requires x.hash !in LineHashes(c.disk.lines)
    requires Claimed(c.proc.session, x)
    ensures var d := c.disk.(lines := c.disk.lines + [LineOf(x)]);
            OnceConfig(Config(d, c.proc.(phase := AfterFlush(x))), items, clock)
  {
    var flushed, lines := LineHashes(c.disk.lines), c.disk.lines + [LineOf(x)];
    AppendGrowsHashes(c.disk.lines, LineOf(x));
    OnceMapIsMonotone(c.disk.store, items, flushed, LineHashes(lines), clock, clock);
    OnceMapIsMonotone(c.proc.session.records, items, flushed, LineHashes(lines), clock, clock);
    assert OnceLines(lines, items) by {
      hide OnceMap;
      assert forall i :: 0 <= i < |c.disk.lines| ==> c.disk.lines[i] != LineOf(x);
    }
    hide OnceMap, OnceLines, LineHashes;
  }

  /** What a promotion installs for a good item, and that it does so only for flushed bytes. */
  lemma PromotedTracks(c: Config, items: seq<Item>, clock: int, x: Item, now: int)
    requires OnceConfig(c, items, clock) && GoodItems(items) && x in items && clock <= now
    requires Decide(c.proc.ctx, c.proc.session, x.key, x.hash).PromoteFromFlushProof?
    ensures x.hash in LineHashes(c.disk.lines)
    ensures var rec := PromotedRecord(c.proc.ctx, c.proc.session, x, now);
            && rec.Some? && rec.value.status.Exported? && Tracks(rec.value, x, now)
            && (x.key in c.disk.store ==> c.disk.store[x.key].updatedAt <= rec.value.updatedAt)
  {
    var s := c.proc.session;
    if x.key in s.records {
      var y := TrackedItem(s.records, items, LineHashes(c.disk.lines), clock, x.key);
    } else {
      DriveKeepsIdentity(NewDiscovered(x.url, x.key, c.proc.ctx.runId, now).value, c.proc.ctx.runId, now);
      if x.key in c.disk.store {
        var y := TrackedItem(c.disk.store, items, LineHashes(c.disk.lines), clock, x.key);
      }
    }
    hide OnceMap, OnceLines;
  }

  lemma FlushedTracks(ctx: Ctx, s: Session, x: Item, now: int)
    requires !MeaninglessIdentity(x.url) && !MeaninglessIdentity(x.key)
    requires x.key in s.records ==> Terminal(s.records[x.key].status)
    ensures var rec := FlushedRecord(ctx, s, x, now);
            rec.Some? && rec.value.status.Exported? && Tracks(rec.value, x, now) && rec.value.updatedAt == now
  {
    WalkKeepsPayload(NewDiscovered(x.url, x.key, ctx.runId, now).value);
  }

  /** The environment the theorem is about: no failing export, a clock that does not go back. */
  predicate BenignAction(a: Action, items: seq<Item>, clock: int) {
    match a
    case Take(item, now, written, _) => item in items && written.Flushed? && clock <= now
    case Checkpoint(now, _) => clock <= now
    case _ => true
  }

  function Tick(a: Action, clock: int): int {
    match a
    case Take(_, now, _, _) => now
    case Checkpoint(now, _) => now
    case _ => clock
  }

  lemma TakeKeepsOnce(c: Config, items: seq<Item>, clock: int, x: Item, now: int, saveOk: bool)
    requires OnceConfig(c, items, clock) && GoodItems(items) && x in items && clock <= now && c.proc.phase.Ready?
    ensures OnceConfig(TakeItem(c, x, now, Flushed, saveOk), items, now)
  {
    hide OnceMap, OnceLines, PromotedRecord, Install, LineHashes;
    ConfigClockAdvances(c, items, clock, now);
    var s := c.proc.session;
    if !Claimed(s, x) {
      var c1 := c.(proc := c.proc.(session := s.(driven := s.driven + {(x.url, x.hash)})));
      assert OnceConfig(c1, items, now);
      match Decide(c.proc.ctx, s, x.key, x.hash)
      case AlreadyCommitted =>
      case PromoteFromFlushProof =>
        PromotedTracks(c, items, clock, x, now);
        InstallKeepsOnce(c1, items, now, x, PromotedRecord(c.proc.ctx, s, x, now).value, saveOk);
      case DriveAndCommit =>
        DrivenMeansUnflushed(c, items, clock, x);
        AppendKeepsOnce(c1, items, now, x);
    }
  }

  lemma OnceRecordsAreTerminal(m: RecordMap, items: seq<Item>, flushed: set<string>, clock: int)
    requires OnceMap(m, items, flushed, clock)
    ensures forall k :: k in m ==> Terminal(m[k].status) && m[k].updatedAt <= clock
  {
  }

  lemma CheckpointKeepsOnce(c: Config, items: seq<Item>, clock: int, now: int, saveOk: bool)
    requires OnceConfig(c, items, clock) && GoodItems(items) && clock <= now && c.proc.phase.AfterFlush?
    ensures var c' := Step(c, Checkpoint(now, saveOk));
            OnceConfig(c', items, now) && c'.proc.phase == AfterCheckpoint(c.proc.phase.item.key)
  {
    hide OnceMap, OnceLines, FlushedRecord, LineHashes, Tracks;
    var x := c.proc.phase.item;
    ConfigClockAdvances(c, items, clock, now);
    OnceRecordsAreTerminal(c.proc.session.records, items, LineHashes(c.disk.lines), clock);
    OnceRecordsAreTerminal(c.disk.store, items, LineHashes(c.disk.lines), clock);
    FlushedTracks(c.proc.ctx, c.proc.session, x, now);
    InstallKeepsOnce(c, items, now, x, FlushedRecord(c.proc.ctx, c.proc.session, x, now).value, saveOk);
  }

  lemma CommitKeepsOnce(c: Config, items: seq<Item>, clock: int, saveOk: bool)
    requires OnceConfig(c, items, clock) && c.proc.phase.AfterCheckpoint?
    ensures var c' := Step(c, Commit(saveOk));
            && OnceConfig(c', items, clock) && c'.proc.phase.Ready?
            && c'.proc.session.records[c.proc.phase.key].status.Committed?
  {
    hide OnceMap, OnceLines, Save;
    var key := c.proc.phase.key;
    var r := c.proc.session.records[key];
    var x := TrackedItem(c.proc.session.records, items, LineHashes(c.disk.lines), clock, key);
    CommitAcceptsExactly(r);
    var committed := r.(status := Committed);
    UpdateKeepsOnce(c, items, clock, x, committed, Ready);
    var c1 := c.(proc := WithRecords(c.proc, c.proc.session.records[key := committed]).(phase := Ready));
    SaveKeepsOnce(c1, items, clock, saveOk);
  }

  lemma StepKeepsOnce(c: Config, items: seq<Item>, clock: int, a: Action)
    requires OnceConfig(c, items, clock) && GoodItems(items) && BenignAction(a, items, clock)
    ensures OnceConfig(Step(c, a), items, Tick(a, clock))
  {
    hide OnceDisk, OnceProc, TakeItem, Install, CommitSlot;
    ConfigClockAdvances(c, items, clock, Tick(a, clock));
    match (c.proc.phase, a)
    case (Ready, Take(x, now, written, saveOk)) => TakeKeepsOnce(c, items, clock, x, now, saveOk);
    case (AfterFlush(x), Checkpoint(now, saveOk)) => CheckpointKeepsOnce(c, items, clock, now, saveOk);
    case (AfterCheckpoint(key), Commit(saveOk)) => CommitKeepsOnce(c, items, clock, saveOk);
    case (Ready, Finish(saveOk)) => FinishKeepsOnce(c, items, clock, saveOk);
    case _ =>
  }

  lemma FinishKeepsOnce(c: Config, items: seq<Item>, clock: int, saveOk: bool)
    requires OnceConfig(c, items, clock) && c.proc.phase.Ready?
    ensures OnceConfig(Step(c, Finish(saveOk)), items, clock)
  {
    SaveKeepsOnce(c, items, clock, saveOk);
    hide OnceMap, OnceLines, Save;
  }

  // ----- any number of crashed runs --------------------------------------------------

  /** One writer (process 0), readable output file, resumed unless the file is still empty. */
  predicate BenignEvent(s: System, e: Event, items: seq<Item>, clock: int) {
    match e
    case Start(pid, ctx, _, indexOk) => pid == 0 && ctx.Tracked? && indexOk && (ctx.resume || s.disk.lines == [])
    case Crash(pid) => pid == 0
    case Act(pid, a) => pid == 0 && BenignAction(a, items, clock)
  }

  ghost predicate BenignHistory(s: System, events: seq<Event>, items: seq<Item>, clock: int)
    decreases |events|
  {
    events == [] ||
    (BenignEvent(s, events[0], items, clock) &&
     BenignHistory(Apply(s, events[0]), events[1..], items,
                   if events[0].Act? then Tick(events[0].action, clock) else clock))
  }

  function LastTick(events: seq<Event>, clock: int): int
    decreases |events|
  {
    if events == [] then clock
    else LastTick(events[1..], if events[0].Act? then Tick(events[0].action, clock) else clock)
  }

  ghost predicate OnceSystem(s: System, items: seq<Item>, clock: int) {
    && OnceDisk(s.disk, items, clock)
    && (0 in s.procs ==> OnceProc(s.procs[0], s.disk, items, clock))
  }

  lemma StartKeepsOnce(ctx: Ctx, d: Disk, loadOk: bool, items: seq<Item>, clock: int)
    requires OnceDisk(d, items, clock) && ctx.Tracked? && (ctx.resume || d.lines == [])
    ensures OnceConfig(StartRun(ctx, d, loadOk, true), items, clock)
  {
  }

  /** At most once, at every instant: no crash, resume or failed save ever makes a line occur twice. */
  lemma {:induction false} AtMostOnce(s: System, events: seq<Event>, items: seq<Item>, clock: int)
    requires GoodItems(items) && OnceSystem(s, items, clock) && BenignHistory(s, events, items, clock)
    ensures OnceSystem(History(s, events), items, LastTick(events, clock))
    decreases |events|
  {
    if events != [] {
      var e := events[0];
      match e {
        case Start(pid, ctx, loadOk, _) => StartKeepsOnce(ctx, s.disk, loadOk, items, clock);
        case Crash(_) =>
        case Act(pid, a) =>
          if pid in s.procs {
            StepKeepsOnce(Config(s.disk, s.procs[pid]), items, clock, a);
          } else {
            OnceMapIsMonotone(s.disk.store, items, LineHashes(s.disk.lines), LineHashes(s.disk.lines), clock,
                              Tick(a, clock));
          }
      }
      AtMostOnce(Apply(s, e), events[1..], items, if e.Act? then Tick(e.action, clock) else clock);
    }
  }

  // ----- one completed run -----------------------------------------------------------

  /** Item `x` is flushed and its in-memory record is COMMITTED. */
  ghost predicate Settled(c: Config, x: Item) {
    && x.hash in LineHashes(c.disk.lines)
    && x.key in c.proc.session.records && c.proc.session.records[x.key].status.Committed?
  }

  ghost predicate ClaimedAreSettled(c: Config, items: seq<Item>) {
    forall x :: x in items && Claimed(c.proc.session, x) ==> Settled(c, x)
  }

  predicate BenignIo(io: Io, clock: int) {
    io.written.Flushed? && clock <= io.now && !io.cancelled
  }

  /** `c'` extends `c` and differs from it in memory at most in the slot `key`. */
  ghost predicate OnlySlot(c: Config, c': Config, key: string) {
    && c'.proc.ctx == c.proc.ctx
    && LineHashes(c.disk.lines) <= LineHashes(c'.disk.lines)
    && forall k :: k != key && k in c.proc.session.records ==>
         k in c'.proc.session.records && c'.proc.session.records[k] == c.proc.session.records[k]
  }

  lemma TakeTouchesOneSlot(c: Config, x: Item, now: int, saveOk: bool)
    requires c.proc.phase.Ready? && x.defect.None?
    ensures var c' := TakeItem(c, x, now, Flushed, saveOk);
            && OnlySlot(c, c', x.key) && c'.proc.session.driven == c.proc.session.driven + {(x.url, x.hash)}
            && (c'.proc.phase.Ready? || c'.proc.phase == AfterFlush(x) || c'.proc.phase == AfterCheckpoint(x.key))
  {
  }

  lemma InstallTouchesOneSlot(c: Config, key: string, rec: Option<RawRecord>, saveOk: bool)
    ensures var c' := Install(c, key, rec, saveOk);
            OnlySlot(c, c', key) && c'.proc.session.driven == c.proc.session.driven
  {
  }

  lemma CommitTouchesOneSlot(c: Config, key: string, saveOk: bool)
    ensures var c' := CommitSlot(c, key, saveOk);
            OnlySlot(c, c', key) && c'.proc.session.driven == c.proc.session.driven
  {
  }

  lemma OnlySlotChains(c: Config, c1: Config, c2: Config, key: string)
    requires OnlySlot(c, c1, key) && OnlySlot(c1, c2, key)
    ensures OnlySlot(c, c2, key)
  {
  }

  ghost predicate ItemDone(c: Config, c': Config, items: seq<Item>, key: string, clock: int) {
    && OnceConfig(c', items, clock) && c'.proc.phase.Ready?
    && OnlySlot(c, c', key) && c'.proc.session.driven == c.proc.session.driven
    && key in c'.proc.session.records && c'.proc.session.records[key].status.Committed?
  }

  lemma CommitSettles(c: Config, items: seq<Item>, key: string, io: Io)
    requires OnceConfig(c, items, io.now) && c.proc.phase == AfterCheckpoint(key)
    ensures ItemDone(c, Settle(c, io), items, key, io.now)
  {
    SettleUnfolds(c, io);
    CommitKeepsOnce(c, items, io.now, io.commitOk);
    CommitTouchesOneSlot(c, key, io.commitOk);
  }

  /** The rest of the D3 sequence touches only the item's slot and ends with it COMMITTED. */
  lemma SettleCommits(c: Config, items: seq<Item>, key: string, io: Io)
    requires GoodItems(items) && OnceConfig(c, items, io.now)
    requires (c.proc.phase.AfterFlush? && c.proc.phase.item.key == key) || c.proc.phase == AfterCheckpoint(key)
    ensures ItemDone(c, Settle(c, io), items, key, io.now)
  {
    if c.proc.phase.AfterFlush? {
      SettleUnfolds(c, io);
      var c1 := Step(c, Checkpoint(io.now, io.checkpointOk));
      CheckpointKeepsOnce(c, items, io.now, io.now, io.checkpointOk);
      InstallTouchesOneSlot(c, key, FlushedRecord(c.proc.ctx, c.proc.session, c.proc.phase.item, io.now),
                            io.checkpointOk);
      CommitSettles(c1, items, key, io);
      OnlySlotChains(c, c1, Settle(c, io), key);
    } else {
      CommitSettles(c, items, key, io);
    }
  }

  lemma SettledSurvives(c: Config, c': Config, key: string, y: Item)
    requires OnlySlot(c, c', key) && Settled(c, y) && y.key != key
    ensures Settled(c', y)
  {
  }

  /** Taking an item leaves it settled, or on its way through the D3 sequence with its bytes flushed. */
  lemma TakeSettlesOrFlushes(c: Config, items: seq<Item>, clock: int, x: Item, now: int, saveOk: bool)
    requires OnceConfig(c, items, clock) && GoodItems(items) && x in items && c.proc.phase.Ready?
    requires clock <= now && ClaimedAreSettled(c, items)
    ensures var c' := TakeItem(c, x, now, Flushed, saveOk);
            x.hash in LineHashes(c'.disk.lines) && (c'.proc.phase.Ready? ==> Settled(c', x))
  {
    AppendGrowsHashes(c.disk.lines, LineOf(x));
    if !Claimed(c.proc.session, x) {
      match Decide(c.proc.ctx, c.proc.session, x.key, x.hash)
      case AlreadyCommitted =>
        var y := TrackedItem(c.proc.session.records, items, LineHashes(c.disk.lines), clock, x.key);
      case PromoteFromFlushProof => PromotedTracks(c, items, clock, x, now);
      case DriveAndCommit =>
    }
  }

  /** Processing one item settles it and disturbs no other item. */
  lemma ProcessItemSettles(c: Config, items: seq<Item>, clock: int, x: Item, io: Io)
    requires OnceConfig(c, items, clock) && GoodItems(items) && x in items && c.proc.phase.Ready?
    requires BenignIo(io, clock) && ClaimedAreSettled(c, items)
    ensures var c' := ProcessItem(c, x, io);
            && OnceConfig(c', items, io.now) && c'.proc.phase.Ready? && c'.proc.ctx == c.proc.ctx
            && ClaimedAreSettled(c', items) && Claimed(c'.proc.session, x)
            && c.proc.session.driven <= c'.proc.session.driven
  {
    TakeKeepsOnce(c, items, clock, x, io.now, io.checkpointOk);
    TakeTouchesOneSlot(c, x, io.now, io.checkpointOk);
    TakeSettlesOrFlushes(c, items, clock, x, io.now, io.checkpointOk);
    var c1 := TakeItem(c, x, io.now, Flushed, io.checkpointOk);
    var c' := ProcessItem(c, x, io);
    assert c' == Settle(c1, io);
    if !c1.proc.phase.Ready? {
      SettleCommits(c1, items, x.key, io);
    }
    forall y | y in items && Claimed(c'.proc.session, y)
      ensures Settled(c', y)
    {
      if y != x {
        assert y.key != x.key && y.hash != x.hash;
        SettledSurvives(c, c1, x.key, y);
        if !c1.proc.phase.Ready? {
          SettledSurvives(c1, c', x.key, y);
        }
      }
    }
  }

  ghost predicate BenignIos(ios: seq<Io>, clock: int)
    decreases |ios|
  {
    ios == [] || (BenignIo(ios[0], clock) && BenignIos(ios[1..], ios[0].now))
  }

  lemma UncancelledStep(c: Config, items: seq<Item>, ios: seq<Io>)
    requires |items| == |ios| && items != [] && !ios[0].cancelled
    ensures RunItems(c, items, ios).config == RunItems(ProcessItem(c, items[0], ios[0]), items[1..], ios[1..]).config
  {
  }

  lemma {:induction false} RunSettlesAll(c: Config, todo: seq<Item>, ios: seq<Io>, items: seq<Item>, clock: int)
    returns (last: int)
    requires |todo| == |ios| && GoodItems(items) && OnceConfig(c, items, clock) && c.proc.phase.Ready?
    requires ClaimedAreSettled(c, items) && BenignIos(ios, clock) && forall x :: x in todo ==> x in items
    ensures var c' := RunItems(c, todo, ios).config;
            && OnceConfig(c', items, last) && c'.proc.phase.Ready? && c'.proc.ctx == c.proc.ctx
            && ClaimedAreSettled(c', items) && c.proc.session.driven <= c'.proc.session.driven
            && forall x :: x in todo ==> Claimed(c'.proc.session, x)
    decreases |todo|
  {
    last := clock;
    if todo != [] {
      ProcessItemSettles(c, items, clock, todo[0], ios[0]);
      UncancelledStep(c, todo, ios);
      last := RunSettlesAll(ProcessItem(c, todo[0], ios[0]), todo[1..], ios[1..], items, ios[0].now);
      assert forall x :: x in todo ==> x == todo[0] || x in todo[1..];
    }
  }

  lemma {:induction false} DistinctOccursOnce(lines: seq<Line>, l: Line)
    requires forall i, j :: 0 <= i < j < |lines| ==> lines[i] != lines[j]
    requires l in lines
    ensures multiset(lines)[l] == 1
  {
    var rest := lines[..|lines| - 1];
    assert lines == rest + [lines[|lines| - 1]];
    if l == lines[|lines| - 1] {
      assert l !in rest;
    } else {
      DistinctOccursOnce(rest, l);
    }
  }

  /** An item whose hash is in a once-only file occurs there exactly once. */
  lemma FlushedOccursOnce(d: Disk, items: seq<Item>, clock: int, x: Item)
    requires GoodItems(items) && OnceDisk(d, items, clock) && x in items && x.hash in LineHashes(d.lines)
    ensures multiset(d.lines)[LineOf(x)] == 1
  {
    var l :| l in d.lines && l.Checksummed? && l.hash == x.hash;
    var y :| y in items && l == LineOf(y);
    assert x == y;
    DistinctOccursOnce(d.lines, LineOf(x));
  }

  lemma CommittedReconciles(d: Disk, items: seq<Item>, clock: int, x: Item)
    requires GoodItems(items) && OnceDisk(d, items, clock) && x in items
    requires x.key in d.store && d.store[x.key].status.Committed?
    ensures Reconciles(d.store[x.key], Committed) && d.store[x.key].contentHash == Some(x.hash)
  {
  }

  /** Exactly one line per item and no other line; every item COMMITTED under its key and no other key. */
  ghost predicate ExactlyOne(d: Disk, items: seq<Item>) {
    && (forall x :: x in items ==> multiset(d.lines)[Checksummed(x.url, x.hash)] == 1)
    && (forall l :: l in d.lines ==> exists x :: x in items && l == Checksummed(x.url, x.hash))
    && (forall x :: x in items ==> x.key in d.store && Reconciles(d.store[x.key], Committed)
                                   && d.store[x.key].contentHash == Some(x.hash))
    && (forall k :: k in d.store ==> exists x :: x in items && x.key == k)
  }

  lemma LinesBelongToItems(d: Disk, items: seq<Item>, clock: int)
    requires OnceDisk(d, items, clock)
    ensures forall l :: l in d.lines ==> exists x :: x in items && l == LineOf(x)
  {
  }

  lemma KeysBelongToItems(d: Disk, items: seq<Item>, clock: int)
    requires OnceDisk(d, items, clock)
    ensures forall k :: k in d.store ==> exists x :: x in items && x.key == k
  {
  }

  lemma FinalDiskIsExact(c: Config, d: Disk, items: seq<Item>, clock: int)
    requires GoodItems(items) && OnceDisk(d, items, clock) && d.lines == c.disk.lines
    requires forall x :: x in items ==> Settled(c, x)
    requires forall k :: k in c.proc.session.records ==> k in d.store && d.store[k] == c.proc.session.records[k]
    ensures ExactlyOne(d, items)
  {
    hide OnceDisk, GoodItems, Reconciles, LineHashes;
    forall x | x in items
      ensures multiset(d.lines)[LineOf(x)] == 1 && x.key in d.store && Reconciles(d.store[x.key], Committed)
              && d.store[x.key].contentHash == Some(x.hash)
    {
      assert Settled(c, x);
      FlushedOccursOnce(d, items, clock, x);
      CommittedReconciles(d, items, clock, x);
    }
    LinesBelongToItems(d, items, clock);
    KeysBelongToItems(d, items, clock);
  }

  /** A completed run whose final save works turns any disk that crashed runs can leave into an
      exactly-once one. Its other saves, and its load of the store, may fail. */
  lemma CompletedRun(d0: Disk, items: seq<Item>, now: int, ctx: Ctx, loadOk: bool, ios: seq<Io>)
    requires GoodItems(items) && OnceDisk(d0, items, now)
    requires ctx.Tracked? && ctx.resume && |ios| == |items| && BenignIos(ios, now)
    ensures ExactlyOne(Run(ctx, d0, loadOk, true, items, ios, true).config.disk, items)
  {
    hide OnceProc, RunItems, Save, OpenSession, ExactlyOne, GoodItems;
    StartKeepsOnce(ctx, d0, loadOk, items, now);
    var c0 := StartRun(ctx, d0, loadOk, true);
    NothingClaimed(c0, items, ctx, d0, loadOk);
    var last := RunSettlesAll(c0, items, ios, items, now);
    var c := RunItems(c0, items, ios).config;
    SaveKeepsOnce(c, items, last, true);
    FinalDiskIsExact(c, Save(c.proc.ctx, c.proc.session.records, c.disk, true), items, last);
  }

  lemma NothingClaimed(c: Config, items: seq<Item>, ctx: Ctx, d: Disk, loadOk: bool)
    requires c == StartRun(ctx, d, loadOk, true)
    ensures ClaimedAreSettled(c, items)
  {
  }

  /** Exactly once across crashes: from an empty disk, after any number of runs cut off anywhere
      and with any saves failing, one completed resumed run leaves exactly one line per item and
      every record COMMITTED. */
  lemma ExactlyOnceAcrossCrashes(items: seq<Item>, events: seq<Event>, clock: int,
                                 ctx: Ctx, loadOk: bool, ios: seq<Io>)
    requires GoodItems(items)
    requires BenignHistory(System(Disk([], map[]), map[]), events, items, clock)
    requires ctx.Tracked? && ctx.resume && |ios| == |items| && BenignIos(ios, LastTick(events, clock))
    ensures var d := History(System(Disk([], map[]), map[]), events).disk;
            ExactlyOne(Run(ctx, d, loadOk, true, items, ios, true).config.disk, items)
  {
    var empty := System(Disk([], map[]), map[]);
    AtMostOnce(empty, events, items, clock);
    CompletedRun(History(empty, events).disk, items, LastTick(events, clock), ctx, loadOk, ios);
  }
}
