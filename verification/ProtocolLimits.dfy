/** Where the protocol promises less than its documentation: each limit as an all-inputs
    statement with the exact condition, and the histories that show it. */
module ProtocolLimits {
  import opened Common
  import opened Records
  import opened ExportProtocol
  import opened CrashSafety

  predicate NamesIndexed(r: RawRecord, index: set<string>) {
    r.contentHash.Some? && r.contentHash.value in index
  }

  /** The gate drives an item: it does not resume, or nothing that it knew when the run opened proves
      the item flushed. A record's own claim takes precedence over the flush proof. */
  predicate Unproven(c: Config, item: Item) {
    var records, index := c.proc.session.records, c.proc.session.hashIndex;
    || c.proc.ctx.Bare? || !c.proc.ctx.resume
    || (item.key !in records && item.hash !in index)
    || (item.key in records && !Terminal(records[item.key].status))
    || (item.key in records && records[item.key].status.Exported? && !NamesIndexed(records[item.key], index))
  }

  /** In every honest state, whatever is already in the file, an item gets a line if and only if it is
      the first of its pair in this run, unproven and valid, and its export leaves the line; otherwise
      the file does not change. So an item whose bytes are already flushed is written again if and
      only if its key has a record below EXPORTED, the kind that only a failed attempt leaves behind,
      or the bytes were flushed after the run took its index. */
  lemma LineWrittenIff(c: Config, item: Item, io: Io)
    requires ConfigInv(c, false) && c.proc.phase.Ready?
    ensures var before, after := c.disk.lines, ProcessItem(c, item, io).disk.lines;
            && (after == before + [Checksummed(item.url, item.hash)] <==>
                && (item.url, item.hash) !in c.proc.session.driven && Unproven(c, item)
                && item.defect.None? && (io.written.Flushed? || io.written.landed))
            && (after == before || after == before + [Checksummed(item.url, item.hash)])
  {
    SettleKeepsLines(Step(c, Take(item, io.now, io.written, io.checkpointOk)), io);
    DrivenIffUnproven(c, item);
    hide Settle, PromotedRecord, FailedRecord, Transact, Decide, Unproven, ConfigInv;
    assert |c.disk.lines + [LineOf(item)]| != |c.disk.lines|;
  }

  lemma DrivenIffUnproven(c: Config, item: Item)
    requires ConfigInv(c, false)
    ensures Decide(c.proc.ctx, c.proc.session, item.key, item.hash).DriveAndCommit? <==> Unproven(c, item)
  {
  }

  /** A history with such a rewrite: a failed attempt, a flush cut off before its checkpoint, and
      a resumed run. The file ends up with the same line twice. */
  lemma FailureRecordDuplicatesLine(item: Item, runId: string, location: string, e: ExporterError, now: int)
    requires item.defect.None? && !MeaninglessIdentity(item.url) && !MeaninglessIdentity(item.key)
    ensures var ctx := Tracked(runId, location, true);
            var attempt := [Start(0, ctx, true, true), Act(0, Take(item, now, Failed(e, false), true)), Crash(0)];
            var cutOff := [Start(0, ctx, true, true), Act(0, Take(item, now, Flushed, true)), Crash(0)];
            var s1 := History(System(Disk([], map[]), map[]), attempt);
            var s2 := History(s1, cutOff);
            && s2.disk.lines == [LineOf(item)]
            && History(s2, cutOff).disk.lines == [LineOf(item), LineOf(item)]
  {
    var ctx := Tracked(runId, location, true);
    var r := NewDiscovered(item.url, item.key, runId, now).value.(
      attempts := 1, lastError := Some(LastError(ClassifyExportFailure(e), e.message)));
    var store := map[item.key := r];
    var s0 := System(Disk([], map[]), map[]);
    var attempt := [Start(0, ctx, true, true), Act(0, Take(item, now, Failed(e, false), true)), Crash(0)];
    ThreeEvents(s0, attempt);
    assert Kept(s0.disk.store) == map[];
    var s1 := History(s0, attempt);
    assert s1.disk.store == store && s1.disk.lines == [] && s1.procs == map[];
    FailureRecordRedrives([], item, store, ctx, now);
    FailureRecordRedrives([LineOf(item)], item, store, ctx, now);
  }

  lemma FailureRecordRedrives(lines: seq<Line>, item: Item, store: RecordMap, ctx: Ctx, now: int)
    requires ctx.Tracked? && ctx.resume && item.defect.None?
    requires item.key in store && ValidRecord(store[item.key]) && !Terminal(store[item.key].status)
             && store[item.key].contentHash.None?
    ensures var s := History(System(Disk(lines, store), map[]),
                             [Start(0, ctx, true, true), Act(0, Take(item, now, Flushed, true)), Crash(0)]);
            s.disk == Disk(lines + [LineOf(item)], store) && s.procs == map[]
  {
    var s := System(Disk(lines, store), map[]);
    ThreeEvents(s, [Start(0, ctx, true, true), Act(0, Take(item, now, Flushed, true)), Crash(0)]);
  }

  /** The flush proof is keyed by content alone, and taken when the run opens: in a resumed run, a
      valid item without a record whose export works gets a line of its own if and only if no line
      of an earlier run carries its content. If one does, the item is COMMITTED all the same. */
  lemma MirroredItemWrittenIff(c: Config, item: Item, io: Io)
    requires c.proc.ctx.Tracked? && c.proc.ctx.resume && c.proc.phase.Ready?
    requires item.key !in c.proc.session.records && (item.url, item.hash) !in c.proc.session.driven
    requires item.defect.None? && io.written.Flushed?
    ensures var c' := ProcessItem(c, item, io);
            && (c'.disk.lines == c.disk.lines + [LineOf(item)] <==> item.hash !in c.proc.session.hashIndex)
            && (item.hash in c.proc.session.hashIndex ==> c'.disk.lines == c.disk.lines)
            && (item.hash in c.proc.session.hashIndex
                && !MeaninglessIdentity(item.url) && !MeaninglessIdentity(item.key) ==>
                  && item.key in c'.proc.session.records && Reconciles(c'.proc.session.records[item.key], Committed)
                  && c'.proc.session.records[item.key].url == item.url)
  {
    var c1 := Step(c, Take(item, io.now, io.written, io.checkpointOk));
    SettleKeepsLines(c1, io);
    assert |c.disk.lines + [LineOf(item)]| != |c.disk.lines|;
    if item.hash in c.proc.session.hashIndex && !MeaninglessIdentity(item.url) && !MeaninglessIdentity(item.key) {
      MirroredIsCommitted(c, item, io);
    }
    hide Settle, PromotedRecord, Transact, Reconciles;
  }

  lemma MirroredIsCommitted(c: Config, item: Item, io: Io)
    requires c.proc.ctx.Tracked? && c.proc.ctx.resume && c.proc.phase.Ready?
    requires item.key !in c.proc.session.records && (item.url, item.hash) !in c.proc.session.driven
    requires item.hash in c.proc.session.hashIndex && !MeaninglessIdentity(item.url) && !MeaninglessIdentity(item.key)
    ensures var records := ProcessItem(c, item, io).proc.session.records;
            && item.key in records && Reconciles(records[item.key], Committed) && records[item.key].url == item.url
  {
    var discovered := NewDiscovered(item.url, item.key, c.proc.ctx.runId, io.now).value;
    DriveKeepsIdentity(discovered, c.proc.ctx.runId, io.now);
    var c1 := Step(c, Take(item, io.now, io.written, io.checkpointOk));
    SettleUnfolds(c1, io);
    CommitAcceptsExactly(PromotedRecord(c.proc.ctx, c.proc.session, item, io.now).value);
  }

  /** The session after a recorded failure. */
  function Failing(ctx: Ctx, s: Session, item: Item, e: ExporterError, now: int): Session {
    match FailedRecord(ctx, s, item, e, now)
    case None => s
    case Some(r) => s.(records := s.records[item.key := r])
  }

  /** A recorded failure does not advance the item: in a resumed run it changes what the gate decides
      about a (key, hash) pair if and only if the key is the item's own and either its record was
      COMMITTED, or it had none and the flush proof was all there was. */
  lemma FailureChangesDecisionIff(ctx: Ctx, s: Session, item: Item, e: ExporterError, now: int, key: string,
                                  hash: string)
    requires ctx.Tracked? && ctx.resume && FailedRecord(ctx, s, item, e, now).Some?
    ensures Decide(ctx, Failing(ctx, s, item, e, now), key, hash) != Decide(ctx, s, key, hash) <==>
            && key == item.key
            && if key in s.records then Reconciles(s.records[key], Committed) else hash in s.hashIndex
  {
  }

  /** And it leaves exactly one trace in a later success: a flushed item's record after a recorded
      failure is the one without it, with one attempt more, unless the failed record was terminal
      and is restarted anyway. A recoverable class is recorded only for problems of the item's data. */
  lemma FailureLeavesOneAttempt(ctx: Ctx, s: Session, item: Item, e: ExporterError, now: int, later: int)
    requires FailedRecord(ctx, s, item, e, now).Some?
    ensures var plain := FlushedRecord(ctx, s, item, later);
            var retried := FlushedRecord(ctx, Failing(ctx, s, item, e, now), item, later);
            if item.key in s.records && Terminal(s.records[item.key].status) then retried == plain
            else plain.Some? && retried == Some(plain.value.(attempts := plain.value.attempts + 1))
    ensures var error := FailedRecord(ctx, s, item, e, now).value.lastError;
            error.Some? && error.value.message == e.message
            && (error.value.class_.DomainRecoverable? <==> e.Serialization? || e.InvalidConfig?)
  {
    hide Walk;
    var r := FailedRecord(ctx, s, item, e, now).value;
    if item.key !in s.records || !Terminal(s.records[item.key].status) {
      WalkKeepsPayload(r);
      if item.key in s.records {
        WalkKeepsPayload(s.records[item.key]);
      } else {
        WalkKeepsPayload(NewDiscovered(item.url, item.key, ctx.runId, later).value);
      }
    }
  }

  /** What a flushed item's record says: it belongs to this run, names the flushed bytes and the
      output file, carries no error, and counts one attempt more than the unfinished lifecycle it
      continues; a finished one from an earlier run is restarted from its first attempt. */
  lemma FlushedRecordLifecycle(ctx: Ctx, s: Session, item: Item, now: int)
    requires FlushedRecord(ctx, s, item, now).Some?
    ensures var r := FlushedRecord(ctx, s, item, now).value;
            var continues := item.key in s.records && !Terminal(s.records[item.key].status);
            && r.status.Exported? && r.runId == ctx.runId && r.contentHash == Some(item.hash)
            && r.outputLocation == Some(ctx.location) && r.lastError.None? && r.updatedAt == now
            && r.attempts == (if continues then s.records[item.key].attempts else 0) + 1
            && (continues ==> r.url == s.records[item.key].url)
            && (!continues ==> r.url == item.url && r.canonicalUrl == item.key)
  {
    if item.key in s.records && !Terminal(s.records[item.key].status) {
      DriveKeepsIdentity(s.records[item.key], ctx.runId, now);
    } else {
      WalkKeepsPayload(NewDiscovered(item.url, item.key, ctx.runId, now).value);
    }
  }

  /** Recording a failure keeps a valid record valid if and only if it is not COMMITTED. */
  lemma FailureKeepsValidIff(ctx: Ctx, s: Session, item: Item, e: ExporterError, now: int)
    requires item.key in s.records && ValidRecord(s.records[item.key])
    ensures var rec := FailedRecord(ctx, s, item, e, now);
            rec.Some? && (ValidRecord(rec.value) <==> !s.records[item.key].status.Committed?)
  {
  }

  /** So a fresh run (no resume) in which a COMMITTED page now fails validation makes the store
      forget the page: the durable record is quarantined by the next load. */
  lemma FreshFailureForgetsCommitted(d: Disk, ctx: Ctx, item: Item, io: Io)
    requires ctx.Tracked? && !ctx.resume && item.defect.Some? && io.checkpointOk
    requires item.key in d.store && ValidRecord(d.store[item.key]) && d.store[item.key].status.Committed?
    requires d.store[item.key].updatedAt <= io.now
    ensures var d' := ProcessItem(StartRun(ctx, d, true, true), item, io).disk;
            item.key in d'.store && item.key !in Kept(d'.store)
  {
    var c := StartRun(ctx, d, true, true);
    FailureKeepsValidIff(ctx, c.proc.session, item, InvalidConfig(item.defect.value), io.now);
  }

  /** Promoting a flush-proven EXPORTED record ends COMMITTED if and only if the record carries no
      error and has been attempted; otherwise the run changes neither the slot nor the file, and
      every later resumed run repeats itself. */
  lemma PromotionCommitsIff(c: Config, item: Item, io: Io)
    requires c.proc.ctx.Tracked? && c.proc.ctx.resume && c.proc.phase.Ready?
             && (item.url, item.hash) !in c.proc.session.driven
    requires item.key in c.proc.session.records
    requires var r := c.proc.session.records[item.key];
             r.status.Exported? && ValidRecord(r) && r.contentHash.Some?
               && r.contentHash.value in c.proc.session.hashIndex
    ensures var r := c.proc.session.records[item.key];
            var c' := ProcessItem(c, item, io);
            && item.key in c'.proc.session.records
            && (c'.proc.session.records[item.key].status.Committed? <==> r.lastError.None? && r.attempts >= 1)
            && (!c'.proc.session.records[item.key].status.Committed? ==> c'.proc.session.records[item.key] == r)
            && c'.disk.lines == c.disk.lines
  {
    var c1 := Step(c, Take(item, io.now, io.written, io.checkpointOk));
    SettleUnfolds(c1, io);
    CommitAcceptsExactly(c.proc.session.records[item.key]);
  }
}
