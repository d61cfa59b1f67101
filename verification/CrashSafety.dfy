/** Crash safety of the per-item export: any number of runs, concurrent or one after another,
    fresh or resumed, each cut off between any two steps and with any save failing. */
module CrashSafety {
  import opened Common
  import opened Records
  import opened ExportProtocol

  /** A record claims no more than the output file holds. With `legacy`, records that the v1
      migration created, which predate hash tracking, are exempt. */
  predicate Honest(r: RawRecord, flushed: set<string>, legacy: bool) {
    if Terminal(r.status) then (legacy && MigratedV1(r)) || (r.contentHash.Some? && r.contentHash.value in flushed)
    else r.contentHash.None?
  }

  ghost predicate HonestMap(m: RecordMap, flushed: set<string>, legacy: bool) {
    forall k :: k in m ==> Honest(m[k], flushed, legacy)
  }

  /** In-memory records that claim a terminal state can be reconstructed in it: EXPORTED ones
      always, COMMITTED ones in every run that consults them. */
  ghost predicate Reconcilable(ctx: Ctx, m: RecordMap) {
    && (forall k :: k in m && m[k].status.Exported? ==> Reconciles(m[k], Exported))
    && (ctx.Tracked? && ctx.resume ==>
          forall k :: k in m && m[k].status.Committed? ==> Reconciles(m[k], Committed))
  }

  ghost predicate ProcInv(p: Proc, flushed: set<string>, legacy: bool) {
    && HonestMap(p.session.records, flushed, legacy)
    && Reconcilable(p.ctx, p.session.records)
    && p.session.hashIndex <= flushed
    && (p.phase.AfterFlush? ==> p.phase.item.hash in flushed)
  }

  ghost predicate ConfigInv(c: Config, legacy: bool) {
    && HonestMap(c.disk.store, LineHashes(c.disk.lines), legacy)
    && ProcInv(c.proc, LineHashes(c.disk.lines), legacy)
  }

  // ----- one step -------------------------------------------------------------------

  lemma AppendGrowsHashes(lines: seq<Line>, l: Line)
    ensures LineHashes(lines) <= LineHashes(lines + [l])
    ensures l.Checksummed? ==> LineHashes(lines + [l]) == LineHashes(lines) + {l.hash}
  {
  }

  /** A later, longer file keeps every honest record honest. */
  lemma HonestyIsMonotone(m: RecordMap, small: set<string>, large: set<string>, legacy: bool)
    requires small <= large && HonestMap(m, small, legacy)
    ensures HonestMap(m, large, legacy)
  {
  }

  lemma SaveKeepsHonesty(ctx: Ctx, mine: RecordMap, d: Disk, ok: bool, legacy: bool)
    requires HonestMap(mine, LineHashes(d.lines), legacy) && HonestMap(d.store, LineHashes(d.lines), legacy)
    ensures var d' := Save(ctx, mine, d, ok);
            d'.lines == d.lines && HonestMap(d'.store, LineHashes(d'.lines), legacy)
  {
  }

  lemma InstallKeepsInv(c: Config, key: string, rec: Option<RawRecord>, saveOk: bool, legacy: bool)
    requires ConfigInv(c, legacy)
    requires rec.Some? ==> rec.value.status.Exported? && Reconciles(rec.value, Exported)
                           && Honest(rec.value, LineHashes(c.disk.lines), legacy)
    ensures ConfigInv(Install(c, key, rec, saveOk), legacy)
    ensures Install(c, key, rec, saveOk).disk.lines == c.disk.lines
  {
  }

  lemma FailureKeepsInv(c: Config, item: Item, e: ExporterError, now: int, saveOk: bool, legacy: bool)
    requires ConfigInv(c, legacy)
    requires c.proc.ctx.Tracked? && c.proc.ctx.resume && item.key in c.proc.session.records ==>
               !c.proc.session.records[item.key].status.Committed?
    ensures ConfigInv(RecordFailure(c, item, e, now, saveOk), legacy)
    ensures RecordFailure(c, item, e, now, saveOk).disk.lines == c.disk.lines
  {
    var rec := FailedRecord(c.proc.ctx, c.proc.session, item, e, now);
    if c.proc.ctx.Tracked? && rec.Some? {
      SaveKeepsHonesty(c.proc.ctx, c.proc.session.records[item.key := rec.value], c.disk, saveOk, legacy);
    }
  }

  /** In the per-item path a promotion is decided on the very record it promotes, so the
      EXPORTED record it installs names bytes that are in the file. */
  lemma PromotionIsHonest(ctx: Ctx, s: Session, item: Item, now: int, flushed: set<string>, legacy: bool)
    requires HonestMap(s.records, flushed, legacy) && Reconcilable(ctx, s.records) && s.hashIndex <= flushed
    requires Decide(ctx, s, item.key, item.hash).PromoteFromFlushProof?
    ensures var rec := PromotedRecord(ctx, s, item, now);
            rec.Some? ==>
              rec.value.status.Exported? && Reconciles(rec.value, Exported) && Honest(rec.value, flushed, legacy)
  {
  }

  lemma FlushedRecordIsHonest(ctx: Ctx, s: Session, item: Item, now: int, flushed: set<string>, legacy: bool)
    requires item.hash in flushed
    ensures var rec := FlushedRecord(ctx, s, item, now);
            rec.Some? ==>
              rec.value.status.Exported? && Reconciles(rec.value, Exported) && Honest(rec.value, flushed, legacy)
  {
  }

  lemma DriveKeepsInv(c: Config, item: Item, now: int, written: ExportResult, saveOk: bool, legacy: bool)
    requires ConfigInv(c, legacy)
    requires c.proc.ctx.Tracked? && c.proc.ctx.resume && item.key in c.proc.session.records ==>
               !c.proc.session.records[item.key].status.Committed?
    ensures ConfigInv(DriveItem(c, item, now, written, saveOk), legacy)
    ensures LineHashes(c.disk.lines) <= LineHashes(DriveItem(c, item, now, written, saveOk).disk.lines)
  {
    AppendGrowsHashes(c.disk.lines, LineOf(item));
    if item.defect.Some? {
      FailureKeepsInv(c, item, InvalidConfig(item.defect.value), now, saveOk, legacy);
    } else {
      var c1 := c.(disk := ExportLine(c.disk, item, written));
      HonestyIsMonotone(c.disk.store, LineHashes(c.disk.lines), LineHashes(c1.disk.lines), legacy);
      HonestyIsMonotone(c.proc.session.records, LineHashes(c.disk.lines), LineHashes(c1.disk.lines), legacy);
      if written.Failed? {
        FailureKeepsInv(c1, item, written.error, now, saveOk, legacy);
      }
    }
  }

  lemma TakeKeepsInv(c: Config, item: Item, now: int, written: ExportResult, saveOk: bool, legacy: bool)
    requires ConfigInv(c, legacy) && c.proc.phase.Ready?
    ensures ConfigInv(TakeItem(c, item, now, written, saveOk), legacy)
    ensures LineHashes(c.disk.lines) <= LineHashes(TakeItem(c, item, now, written, saveOk).disk.lines)
  {
    var s := c.proc.session;
    if (item.url, item.hash) !in s.driven {
      var c1 := c.(proc := c.proc.(session := s.(driven := s.driven + {(item.url, item.hash)})));
      match Decide(c.proc.ctx, s, item.key, item.hash)
      case AlreadyCommitted =>
      case PromoteFromFlushProof =>
        PromotionIsHonest(c.proc.ctx, s, item, now, LineHashes(c.disk.lines), legacy);
        InstallKeepsInv(c1, item.key, PromotedRecord(c.proc.ctx, s, item, now), saveOk, legacy);
      case DriveAndCommit =>
        DriveKeepsInv(c1, item, now, written, saveOk, legacy);
    }
  }

  lemma CommitKeepsInv(c: Config, key: string, saveOk: bool, legacy: bool)
    requires ConfigInv(c, legacy)
    ensures ConfigInv(CommitSlot(c, key, saveOk), legacy)
    ensures CommitSlot(c, key, saveOk).disk.lines == c.disk.lines
  {
    var s := c.proc.session;
    if key in s.records {
      CommitAcceptsExactly(s.records[key]);
      var slot := TryCommitExported(s.records[key]);
      if slot.Some? {
        SaveKeepsHonesty(c.proc.ctx, s.records[key := slot.value], c.disk, saveOk, legacy);
      }
    }
  }

  /** Every step of a run keeps the disk and the run honest, and never shrinks the file. */
  lemma StepKeepsInv(c: Config, a: Action, legacy: bool)
    requires ConfigInv(c, legacy)
    ensures ConfigInv(Step(c, a), legacy)
    ensures LineHashes(c.disk.lines) <= LineHashes(Step(c, a).disk.lines)
    ensures Step(c, a).proc.ctx == c.proc.ctx
  {
    match (c.proc.phase, a)
    case (Ready, Take(item, now, written, saveOk)) => TakeKeepsInv(c, item, now, written, saveOk, legacy);
    case (AfterFlush(item), Checkpoint(now, saveOk)) =>
      FlushedRecordIsHonest(c.proc.ctx, c.proc.session, item, now, LineHashes(c.disk.lines), legacy);
      InstallKeepsInv(c, item.key, FlushedRecord(c.proc.ctx, c.proc.session, item, now), saveOk, legacy);
    case (AfterCheckpoint(key), Commit(saveOk)) => CommitKeepsInv(c, key, saveOk, legacy);
    case (Ready, Finish(saveOk)) => SaveKeepsHonesty(c.proc.ctx, c.proc.session.records, c.disk, saveOk, legacy);
    case _ =>
  }

  // ----- one whole item ---------------------------------------------------------------

  /** Settling an item appends nothing. */
  lemma SettleKeepsLines(c: Config, io: Io)
    ensures Settle(c, io).disk.lines == c.disk.lines
  {
    hide FlushedRecord, TryCommitExported, Transact;
  }

  /** An item appends its own line or nothing, and it is reported as driven only if bytes of its key
      are in the file: its own, or those that the record it had before names. An item that is
      skipped although exporting works leaves the file as it was. */
  lemma ReportedMeansExported(c: Config, item: Item, io: Io)
    requires ConfigInv(c, false) && c.proc.phase.Ready?
    ensures var before, after := c.disk.lines, ProcessItem(c, item, io).disk.lines;
            var outcome, records := ItemOutcome(c, item, io), c.proc.session.records;
            && (after == before || after == before + [LineOf(item)])
            && (outcome.Skipped? && io.written.Flushed? ==> after == before)
            && (outcome.Driven? ==>
                  || item.hash in LineHashes(after)
                  || (item.key in records && records[item.key].contentHash.Some?
                      && records[item.key].contentHash.value in LineHashes(after)))
  {
    SettleKeepsLines(Step(c, Take(item, io.now, io.written, io.checkpointOk)), io);
    AppendGrowsHashes(c.disk.lines, LineOf(item));
    hide Settle, PromotedRecord, FailedRecord, Transact, LineHashes;
  }

  // ----- whole histories ------------------------------------------------------------

  /** Any number of runs over one output file and one store. */
  datatype System = System(disk: Disk, procs: map<nat, Proc>)

  datatype Event =
    | Start(pid: nat, ctx: Ctx, loadOk: bool, indexOk: bool)
    | Crash(pid: nat)
    | Act(pid: nat, action: Action)

  function Apply(s: System, e: Event): System {
    match e
    case Start(pid, ctx, loadOk, indexOk) =>
      s.(procs := s.procs[pid := StartRun(ctx, s.disk, loadOk, indexOk).proc])
    case Crash(pid) => s.(procs := s.procs - {pid})
    case Act(pid, a) =>
      if pid !in s.procs then s
      else
        var c := Step(Config(s.disk, s.procs[pid]), a);
        System(c.disk, s.procs[pid := c.proc])
  }

  function History(s: System, events: seq<Event>): System
    decreases |events|
  {
    if events == [] then s else History(Apply(s, events[0]), events[1..])
  }

  ghost predicate SystemInv(s: System, legacy: bool) {
    && HonestMap(s.disk.store, LineHashes(s.disk.lines), legacy)
    && forall pid :: pid in s.procs ==> ProcInv(s.procs[pid], LineHashes(s.disk.lines), legacy)
  }

  lemma ApplyKeepsInv(s: System, e: Event, legacy: bool)
    requires SystemInv(s, legacy)
    ensures SystemInv(Apply(s, e), legacy)
    ensures LineHashes(s.disk.lines) <= LineHashes(Apply(s, e).disk.lines)
  {
    match e
    case Start(pid, ctx, loadOk, indexOk) =>
      assert forall k :: k in Kept(s.disk.store) ==> Reconciles(s.disk.store[k], s.disk.store[k].status);
    case Crash(pid) =>
    case Act(pid, a) =>
      if pid in s.procs {
        var c := Config(s.disk, s.procs[pid]);
        StepKeepsInv(c, a, legacy);
        forall q | q in s.procs
          ensures ProcInv(Apply(s, e).procs[q], LineHashes(Apply(s, e).disk.lines), legacy)
        {
          if q != pid {
            HonestyIsMonotone(s.procs[q].session.records, LineHashes(s.disk.lines),
                              LineHashes(Step(c, a).disk.lines), legacy);
          }
        }
      }
  }

  /** Crash safety: whatever the runs, crashes, failed saves and failed exports, every durable
      EXPORTED or COMMITTED record names bytes that are in the output file, every record below
      EXPORTED names none, and no flushed hash ever disappears. */
  lemma {:induction false} CrashSafety(s: System, events: seq<Event>, legacy: bool)
    requires SystemInv(s, legacy)
    ensures SystemInv(History(s, events), legacy)
    ensures LineHashes(s.disk.lines) <= LineHashes(History(s, events).disk.lines)
    decreases |events|
  {
    if events != [] {
      ApplyKeepsInv(s, events[0], legacy);
      CrashSafety(Apply(s, events[0]), events[1..], legacy);
    }
  }

  /** Starting empty, the store can be read literally: terminal records carry a flushed hash,
      all others carry none. */
  lemma CrashSafetyFromEmpty(events: seq<Event>, k: string)
    ensures var d := History(System(Disk([], map[]), map[]), events).disk;
            k in d.store ==>
              var r := d.store[k];
              if Terminal(r.status)
              then r.contentHash.Some? && exists l :: l in d.lines && l.Checksummed? && l.hash == r.contentHash.value
              else r.contentHash.None?
  {
    CrashSafety(System(Disk([], map[]), map[]), events, false);
  }

  // ----- the loop as a history ------------------------------------------------------------

  lemma ThreeEvents(s: System, events: seq<Event>)
    requires |events| == 3
    ensures History(s, events) == Apply(Apply(Apply(s, events[0]), events[1]), events[2])
  {
    assert events[1..][1..] == events[2..] && events[2..][1..] == [];
    var s1 := Apply(s, events[0]);
    assert History(s, events) == History(s1, events[1..]);
    var s2 := Apply(s1, events[1]);
    assert History(s1, events[1..]) == History(s2, events[2..]);
    assert History(s2, events[2..]) == History(Apply(s2, events[2]), []);
  }

  lemma {:induction false} HistoryConcat(s: System, a: seq<Event>, b: seq<Event>)
    ensures History(s, a + b) == History(History(s, a), b)
    decreases |a|
  {
    hide Apply;
    if a == [] {
      assert a + b == b;
    } else {
      assert (a + b)[1..] == a[1..] + b;
      HistoryConcat(Apply(s, a[0]), a[1..], b);
    }
  }

  /** One run on its own, as process 0. */
  function Alone(c: Config): System {
    System(c.disk, map[0 := c.proc])
  }

  function ItemEvents(item: Item, io: Io): seq<Event> {
    [Act(0, Take(item, io.now, io.written, io.checkpointOk)), Act(0, Checkpoint(io.now, io.checkpointOk)),
     Act(0, Commit(io.commitOk))]
  }

  /** An uninterrupted item is its three steps: the ones its phase does not call for change nothing. */
  lemma ItemIsHistory(c: Config, item: Item, io: Io)
    ensures History(Alone(c), ItemEvents(item, io)) == Alone(ProcessItem(c, item, io))
  {
    ThreeEvents(Alone(c), ItemEvents(item, io));
    hide TakeItem, Install, CommitSlot, FlushedRecord;
    var c1 := Step(c, Take(item, io.now, io.written, io.checkpointOk));
    assert Apply(Alone(c), ItemEvents(item, io)[0]) == Alone(c1);
    var c2 := Step(c1, Checkpoint(io.now, io.checkpointOk));
    assert Apply(Alone(c1), ItemEvents(item, io)[1]) == Alone(c2);
    assert Apply(Alone(c2), ItemEvents(item, io)[2]) == Alone(Step(c2, Commit(io.commitOk)));
  }

  lemma {:induction false} LoopIsHistory(c: Config, items: seq<Item>, ios: seq<Io>) returns (events: seq<Event>)
    requires |items| == |ios|
    ensures History(Alone(c), events) == Alone(RunItems(c, items, ios).config)
    decreases |items|
  {
    hide ProcessItem, ItemOutcome, Apply;
    events := [];
    if items != [] {
      ItemIsHistory(c, items[0], ios[0]);
      events := ItemEvents(items[0], ios[0]);
      if !ItemOutcome(c, items[0], ios[0]).Cancelled? {
        var rest := LoopIsHistory(ProcessItem(c, items[0], ios[0]), items[1..], ios[1..]);
        HistoryConcat(Alone(c), events, rest);
        events := events + rest;
      }
    }
  }

  /** The run that the program makes, from opening to its final persist, is one of the histories. */
  lemma RunIsHistory(ctx: Ctx, d: Disk, loadOk: bool, indexOk: bool, items: seq<Item>, ios: seq<Io>, finalOk: bool)
    returns (events: seq<Event>)
    requires |items| == |ios|
    ensures History(System(d, map[]), events) == Alone(Run(ctx, d, loadOk, indexOk, items, ios, finalOk).config)
  {
    hide RunItems, Step;
    var c := StartRun(ctx, d, loadOk, indexOk);
    var loop := LoopIsHistory(c, items, ios);
    var c' := RunItems(c, items, ios).config;
    var first, last := [Start(0, ctx, loadOk, indexOk)], [Act(0, Finish(finalOk))];
    assert first[1..] == [] && last[1..] == [];
    assert History(System(d, map[]), first) == Alone(c);
    HistoryConcat(System(d, map[]), first, loop);
    HistoryConcat(System(d, map[]), first + loop, last);
    assert History(Alone(c'), last) == Alone(Step(c', Finish(finalOk)));
    events := first + loop + last;
  }

  /** The loop keeps an honest disk and session honest, whatever fails and wherever it is cancelled. */
  lemma LoopKeepsInv(c: Config, items: seq<Item>, ios: seq<Io>, legacy: bool)
    requires |items| == |ios| && ConfigInv(c, legacy)
    ensures ConfigInv(RunItems(c, items, ios).config, legacy)
  {
    var events := LoopIsHistory(c, items, ios);
    CrashSafety(Alone(c), events, legacy);
    hide RunItems, HonestMap, ProcInv;
    assert Alone(RunItems(c, items, ios).config).procs[0] == RunItems(c, items, ios).config.proc;
  }

  // ----- records address a page ---------------------------------------------------------

  /** Every record carries a canonical URL under which a new lifecycle can be started. */
  ghost predicate Addressed(m: RecordMap) {
    forall k :: k in m ==> !MeaninglessIdentity(m[k].canonicalUrl)
  }

  ghost predicate AddressedSystem(s: System) {
    Addressed(s.disk.store) && forall pid :: pid in s.procs ==> Addressed(s.procs[pid].session.records)
  }

  ghost predicate AddressedConfig(c: Config) {
    Addressed(c.disk.store) && Addressed(c.proc.session.records)
  }

  lemma InstallKeepsAddressed(c: Config, key: string, rec: Option<RawRecord>, saveOk: bool)
    requires AddressedConfig(c) && (rec.Some? ==> !MeaninglessIdentity(rec.value.canonicalUrl))
    ensures AddressedConfig(Install(c, key, rec, saveOk))
  {
  }

  lemma FailureKeepsAddressed(c: Config, item: Item, e: ExporterError, now: int, saveOk: bool)
    requires AddressedConfig(c)
    ensures AddressedConfig(RecordFailure(c, item, e, now, saveOk))
  {
  }

  lemma TakeKeepsAddressed(c: Config, item: Item, now: int, written: ExportResult, saveOk: bool)
    requires AddressedConfig(c)
    ensures AddressedConfig(TakeItem(c, item, now, written, saveOk))
  {
    var s := c.proc.session;
    var c1 := c.(proc := c.proc.(session := s.(driven := s.driven + {(item.url, item.hash)})));
    NewRecordsAreAddressed(c.proc.ctx, s, item, now);
    InstallKeepsAddressed(c1, item.key, PromotedRecord(c.proc.ctx, s, item, now), saveOk);
    if item.defect.Some? {
      FailureKeepsAddressed(c1, item, InvalidConfig(item.defect.value), now, saveOk);
    } else if written.Failed? {
      FailureKeepsAddressed(c1.(disk := ExportLine(c.disk, item, written)), item, written.error, now, saveOk);
    }
    hide Addressed, Install, RecordFailure, PromotedRecord, Decide;
  }

  lemma StepKeepsAddressed(c: Config, a: Action)
    requires AddressedConfig(c)
    ensures AddressedConfig(Step(c, a))
  {
    match (c.proc.phase, a)
    case (Ready, Take(item, now, written, saveOk)) => TakeKeepsAddressed(c, item, now, written, saveOk);
    case (AfterFlush(item), Checkpoint(now, saveOk)) =>
      NewRecordsAreAddressed(c.proc.ctx, c.proc.session, item, now);
      InstallKeepsAddressed(c, item.key, FlushedRecord(c.proc.ctx, c.proc.session, item, now), saveOk);
    case (AfterCheckpoint(key), Commit(saveOk)) =>
    case _ =>
  }

  lemma NewRecordsAreAddressed(ctx: Ctx, s: Session, item: Item, now: int)
    requires Addressed(s.records)
    ensures var rec := PromotedRecord(ctx, s, item, now);
            rec.Some? ==> !MeaninglessIdentity(rec.value.canonicalUrl)
    ensures var rec := FlushedRecord(ctx, s, item, now);
            rec.Some? ==> !MeaninglessIdentity(rec.value.canonicalUrl)
  {
    if item.key in s.records {
      DriveKeepsIdentity(s.records[item.key], ctx.runId, now);
    }
    if !MeaninglessIdentity(item.url) && !MeaninglessIdentity(item.key) {
      var r := NewDiscovered(item.url, item.key, ctx.runId, now).value;
      DriveKeepsIdentity(r, ctx.runId, now);
      WalkKeepsPayload(r);
    }
    hide Reconciles;
  }

  /** No history that starts addressed ever writes a record that is not. */
  lemma {:induction false} HistoryKeepsAddressed(s: System, events: seq<Event>)
    requires AddressedSystem(s)
    ensures AddressedSystem(History(s, events))
    decreases |events|
  {
    if events != [] {
      match events[0] {
        case Start(_, _, _, _) =>
        case Crash(_) =>
        case Act(pid, a) =>
          if pid in s.procs {
            StepKeepsAddressed(Config(s.disk, s.procs[pid]), a);
          }
      }
      hide Addressed, Step;
      HistoryKeepsAddressed(Apply(s, events[0]), events[1..]);
    }
  }
}
