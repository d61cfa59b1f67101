/** What one item does to its record, field by field, and when the record is durable. */
module ItemEffects {
  import opened Common
  import opened Records
  import opened ExportProtocol
  import opened Reporting

  // ----- the shapes of a record ---------------------------------------------------------------

  /** The record in a slot, if any. */
  function Slot(m: RecordMap, key: string): Option<RawRecord> {
    if key in m then Some(m[key]) else None
  }

  /** A record of an unfinished lifecycle, which a later attempt continues. */
  predicate Unfinished(r: Option<RawRecord>) {
    r.Some? && !Terminal(r.value.status)
  }

  /** The identity under which the next attempt goes on, if it addresses a page. */
  predicate Addressable(r: Option<RawRecord>, item: Item) {
    if Unfinished(r) then !MeaninglessIdentity(r.value.url)
    else !MeaninglessIdentity(item.url) && !MeaninglessIdentity(item.key)
  }

  /** A COMMITTED record of `item`, flushed by this run at `now`; `was` is what it found. */
  predicate CommittedNow(r: RawRecord, ctx: Ctx, item: Item, was: Option<RawRecord>, now: int) {
    && r.status.Committed? && r.contentHash == Some(item.hash) && r.outputLocation == Some(ctx.location)
    && r.runId == ctx.runId && r.lastError.None? && r.updatedAt == now
    && if Unfinished(was) then
         r.attempts == was.value.attempts + 1 && r.url == was.value.url && r.canonicalUrl == was.value.canonicalUrl
       else r.attempts == 1 && r.url == item.url && r.canonicalUrl == item.key
  }

  /** A record of a failed attempt: the status, hash and place it had, one attempt more, the error. */
  predicate FailedNow(r: RawRecord, ctx: Ctx, item: Item, was: Option<RawRecord>, e: ExporterError, now: int) {
    && r.updatedAt == now && r.lastError.Some? && r.lastError.value.message == e.message
    && (r.lastError.value.class_.DomainRecoverable? <==> e.Serialization? || e.InvalidConfig?)
    && (r.lastError.value.class_.InternalFatal? <==> e.Environment?)
    && match was
       case Some(p) =>
         && r.attempts == p.attempts + 1 && r.status == p.status && r.contentHash == p.contentHash
         && r.outputLocation == p.outputLocation && r.url == p.url && r.canonicalUrl == p.canonicalUrl
            && r.runId == p.runId
       case None =>
         && r.attempts == 1 && r.status.Discovered? && r.contentHash.None? && r.outputLocation.None?
         && r.url == item.url && r.canonicalUrl == item.key && r.runId == ctx.runId
  }

  /** A COMMITTED record of a proven flush that had no reconcilable EXPORTED record: an unfinished
      lifecycle keeps its run and place, any other starts anew. */
  predicate PromotedNow(r: RawRecord, ctx: Ctx, item: Item, was: Option<RawRecord>, now: int) {
    && r.status.Committed? && r.contentHash == Some(item.hash) && r.lastError.None? && r.updatedAt == now
    && if Unfinished(was) then
         && r.attempts == was.value.attempts + 1 && r.url == was.value.url && r.canonicalUrl == was.value.canonicalUrl
         && r.runId == was.value.runId
         && r.outputLocation == (if was.value.outputLocation.Some? then was.value.outputLocation
                                 else Some(ctx.location))
       else
         && r.attempts == 1 && r.runId == ctx.runId && r.outputLocation == Some(ctx.location)
         && r.url == (if was.Some? then was.value.url else item.url)
         && r.canonicalUrl == (if was.Some? then was.value.canonicalUrl else item.key)
  }

  // ----- what the steps do to the slot ---------------------------------------------------------

  /** A flushed item ends COMMITTED, unless its identity addresses no page: then nothing is recorded. */
  lemma FlushCommits(c: Config, item: Item, io: Io)
    requires c.proc.phase == AfterFlush(item)
    ensures var was, now := Slot(c.proc.session.records, item.key), Slot(Settle(c, io).proc.session.records, item.key);
            && (Addressable(was, item) ==> now.Some? && CommittedNow(now.value, c.proc.ctx, item, was, io.now))
            && (!Addressable(was, item) && !Unfinished(was) ==> now.None?)
  {
    var s := c.proc.session;
    SettleUnfolds(c, io);
    var rec := FlushedRecord(c.proc.ctx, s, item, io.now);
    FlushedShape(c.proc.ctx, s, item, io.now);
    var c1 := Install(c, item.key, rec, io.checkpointOk);
    SettleUnfolds(c1, io);
    if rec.Some? {
      CommitAcceptsExactly(rec.value);
    }
    hide FlushedRecord, Transact;
  }

  lemma FlushedShape(ctx: Ctx, s: Session, item: Item, now: int)
    ensures var rec, was := FlushedRecord(ctx, s, item, now), Slot(s.records, item.key);
            && (Addressable(was, item) ==> rec.Some?)
            && (!Addressable(was, item) && !Unfinished(was) ==> rec.None?)
            && (rec.Some? && Addressable(was, item) ==>
                  && rec.value.status.Exported? && ValidRecord(rec.value)
                  && CommittedNow(rec.value.(status := Committed), ctx, item, was, now))
  {
    if item.key in s.records {
      DriveKeepsIdentity(s.records[item.key], ctx.runId, now);
    }
    if !MeaninglessIdentity(item.url) && !MeaninglessIdentity(item.key) {
      WalkKeepsPayload(NewDiscovered(item.url, item.key, ctx.runId, now).value);
    }
    hide MeaninglessIdentity;
  }

  /** A recorded failure has the shape of one; a run without a store, and an item without a record
      whose identity addresses no page, record nothing. */
  lemma FailureRecords(c: Config, item: Item, e: ExporterError, now: int, saveOk: bool)
    ensures var was := Slot(c.proc.session.records, item.key);
            var c' := RecordFailure(c, item, e, now, saveOk);
            var got := Slot(c'.proc.session.records, item.key);
            if c.proc.ctx.Tracked? && (was.Some? || (!MeaninglessIdentity(item.url) && !MeaninglessIdentity(item.key)))
            then got.Some? && FailedNow(got.value, c.proc.ctx, item, was, e, now)
            else c' == c
  {
    hide Transact, MeaninglessIdentity;
  }

  /** A promotion commits a sound EXPORTED record as it is, and leaves one with an error or without
      an attempt alone; any other record of a page it replaces by a COMMITTED one. */
  lemma PromotionRecords(c: Config, item: Item, io: Io)
    ensures var was := Slot(c.proc.session.records, item.key);
            var rec := PromotedRecord(c.proc.ctx, c.proc.session, item, io.now);
            var got := Slot(Settle(Install(c, item.key, rec, io.checkpointOk), io).proc.session.records, item.key);
            && (was.Some? && was.value.status.Exported? && ValidRecord(was.value) ==>
                  got == Some(if was.value.lastError.None? && was.value.attempts >= 1
                             then was.value.(status := Committed) else was.value))
            && (was.Some? && !was.value.status.Exported? && !MeaninglessIdentity(was.value.url)
                && !MeaninglessIdentity(was.value.canonicalUrl) ==>
                  got.Some? && PromotedNow(got.value, c.proc.ctx, item, was, io.now))
            && (was.None? && !MeaninglessIdentity(item.url) && !MeaninglessIdentity(item.key) ==>
                  got.Some? && PromotedNow(got.value, c.proc.ctx, item, was, io.now))
            && (was.None? && (MeaninglessIdentity(item.url) || MeaninglessIdentity(item.key)) ==> got.None?)
  {
    var rec := PromotedRecord(c.proc.ctx, c.proc.session, item, io.now);
    var c1 := Install(c, item.key, rec, io.checkpointOk);
    SettleUnfolds(c1, io);
    PromotedShape(c.proc.ctx, c.proc.session, item, io.now);
    if rec.Some? {
      CommitAcceptsExactly(rec.value);
    }
    hide PromotedRecord, Transact, MeaninglessIdentity;
  }

  lemma PromotedShape(ctx: Ctx, s: Session, item: Item, now: int)
    ensures var rec, was := PromotedRecord(ctx, s, item, now), Slot(s.records, item.key);
            && (was.Some? && was.value.status.Exported? && ValidRecord(was.value) ==> rec == was)
            && (was.None? && (MeaninglessIdentity(item.url) || MeaninglessIdentity(item.key)) ==> rec.None?)
            && ((was.Some? && !was.value.status.Exported? && !MeaninglessIdentity(was.value.url)
                 && !MeaninglessIdentity(was.value.canonicalUrl))
                || (was.None? && !MeaninglessIdentity(item.url) && !MeaninglessIdentity(item.key)) ==>
                  && rec.Some? && rec.value.status.Exported?
                  && (ValidRecord(rec.value) && rec.value.attempts >= 1)
                  && PromotedNow(rec.value.(status := Committed), ctx, item, was, now))
  {
    if item.key in s.records {
      DriveKeepsIdentity(s.records[item.key], ctx.runId, now);
      if !MeaninglessIdentity(s.records[item.key].url) && !MeaninglessIdentity(s.records[item.key].canonicalUrl) {
        WalkKeepsPayload(NewDiscovered(s.records[item.key].url, s.records[item.key].canonicalUrl, ctx.runId,
                                       now).value);
      }
    } else if !MeaninglessIdentity(item.url) && !MeaninglessIdentity(item.key) {
      var r := NewDiscovered(item.url, item.key, ctx.runId, now).value;
      DriveKeepsIdentity(r, ctx.runId, now);
      WalkKeepsPayload(r);
    }
    hide MeaninglessIdentity;
  }

  // ----- one whole item -------------------------------------------------------------------------

  /** Every slot but `key` holds what it held. */
  ghost predicate OnlyTouches(m: RecordMap, m': RecordMap, key: string) {
    forall k :: k != key ==> Slot(m', k) == Slot(m, k)
  }

  /** Without a claim to the pair nothing happens; with one, only the item's own slot can change. */
  lemma ItemTouchesItsSlot(c: Config, item: Item, io: Io)
    requires c.proc.phase.Ready?
    ensures var c' := ProcessItem(c, item, io);
            && ((item.url, item.hash) in c.proc.session.driven ==> c' == c)
            && c'.proc.session.driven == c.proc.session.driven + {(item.url, item.hash)}
            && OnlyTouches(c.proc.session.records, c'.proc.session.records, item.key)
            && c'.proc.session.hashIndex == c.proc.session.hashIndex && c'.proc.ctx == c.proc.ctx
  {
    hide PromotedRecord, FlushedRecord, FailedRecord, TryCommitExported, Transact, Decide;
    assert (item.url, item.hash) in c.proc.session.driven ==>
             c.proc.session.driven + {(item.url, item.hash)} == c.proc.session.driven;
  }

  lemma RouteOf(c: Config, item: Item)
    ensures var d := Decide(c.proc.ctx, c.proc.session, item.key, item.hash);
            && (d.AlreadyCommitted? <==> SeenCommitted(c, item))
            && (d.PromoteFromFlushProof? <==> !SeenCommitted(c, item) && SeenFlushed(c, item))
  {
  }

  /** What an item that is handled and not yet flushed does to its record: a valid one whose export
      flushes ends COMMITTED, one that is rejected or fails leaves its failure. */
  lemma DrivenItemRecords(c: Config, item: Item, io: Io)
    requires c.proc.phase.Ready? && Handled(c, item) && !SeenFlushed(c, item)
    ensures var was := Slot(c.proc.session.records, item.key);
            var got := Slot(ProcessItem(c, item, io).proc.session.records, item.key);
            && (item.defect.None? && io.written.Flushed? && Addressable(was, item) ==>
                  got.Some? && CommittedNow(got.value, c.proc.ctx, item, was, io.now))
            && (c.proc.ctx.Tracked? && (was.Some? || (!MeaninglessIdentity(item.url)
                                                      && !MeaninglessIdentity(item.key))) ==>
                  && (item.defect.Some? ==>
                        got.Some? && FailedNow(got.value, c.proc.ctx, item, was, InvalidConfig(item.defect.value),
                                               io.now))
                  && (item.defect.None? && io.written.Failed? ==>
                        got.Some? && FailedNow(got.value, c.proc.ctx, item, was, io.written.error, io.now)))
  {
    RouteOf(c, item);
    var c1 := Claimed(c, item);
    var c2 := c1.(disk := ExportLine(c.disk, item, io.written));
    if item.defect.Some? {
      if c.proc.ctx.Tracked? {
        FailureRecords(c1, item, InvalidConfig(item.defect.value), io.now, io.checkpointOk);
      }
    } else if io.written.Failed? {
      if c.proc.ctx.Tracked? {
        FailureRecords(c2, item, io.written.error, io.now, io.checkpointOk);
      }
    } else {
      FlushCommits(c2.(proc := c2.proc.(phase := AfterFlush(item))), item, io);
    }
    hide Decide, FailedNow, CommittedNow, Install, CommitSlot, FailedRecord, Transact, MeaninglessIdentity, SeenFlushed;
  }

  function Claimed(c: Config, item: Item): Config {
    c.(proc := c.proc.(session := c.proc.session.(driven := c.proc.session.driven + {(item.url, item.hash)})))
  }

  /** What an item that is handled and proven flushed does to its record. */
  lemma PromotedItemRecords(c: Config, item: Item, io: Io)
    requires c.proc.phase.Ready? && Handled(c, item) && SeenFlushed(c, item)
    ensures var was := Slot(c.proc.session.records, item.key);
            var got := Slot(ProcessItem(c, item, io).proc.session.records, item.key);
            && (was.Some? && was.value.status.Exported? && ValidRecord(was.value) ==>
                  got == Some(if was.value.lastError.None? && was.value.attempts >= 1
                              then was.value.(status := Committed) else was.value))
            && (was.None? && !MeaninglessIdentity(item.url) && !MeaninglessIdentity(item.key) ==>
                  got.Some? && PromotedNow(got.value, c.proc.ctx, item, was, io.now))
  {
    RouteOf(c, item);
    PromotionRecords(Claimed(c, item), item, io);
    assert PromotedRecord(c.proc.ctx, Claimed(c, item).proc.session, item, io.now)
        == PromotedRecord(c.proc.ctx, c.proc.session, item, io.now);
    hide Decide, PromotedNow, Install, CommitSlot, PromotedRecord, Transact, MeaninglessIdentity, SeenFlushed,
      ValidRecord;
  }

  // ----- durability -------------------------------------------------------------------------------

  ghost predicate NoNewerThan(m: RecordMap, clock: int) {
    forall k :: k in m ==> m[k].updatedAt <= clock
  }

  /** A single writer whose clock stands at `clock` and that is nowhere behind its store. */
  ghost predicate Ahead(c: Config, clock: int) {
    && NoNewerThan(c.disk.store, clock) && NoNewerThan(c.proc.session.records, clock)
    && forall k :: k in c.disk.store && k in c.proc.session.records ==>
         c.disk.store[k].updatedAt <= c.proc.session.records[k].updatedAt
  }

  lemma OpenIsAhead(ctx: Ctx, d: Disk, loadOk: bool, indexOk: bool, clock: int)
    requires NoNewerThan(d.store, clock)
    ensures Ahead(StartRun(ctx, d, loadOk, indexOk), clock)
  {
  }

  lemma ClockAdvances(c: Config, clock: int, later: int)
    requires Ahead(c, clock) && clock <= later
    ensures Ahead(c, later)
  {
  }

  /** A save that works makes the whole working set durable. */
  lemma SaveIsDurable(c: Config, clock: int)
    requires Ahead(c, clock) && c.proc.ctx.Tracked?
    ensures var store := Save(c.proc.ctx, c.proc.session.records, c.disk, true).store;
            forall k :: k in c.proc.session.records ==> k in store && store[k] == c.proc.session.records[k]
  {
  }

  lemma SaveKeepsAhead(c: Config, saveOk: bool, clock: int)
    requires Ahead(c, clock)
    ensures Ahead(c.(disk := Save(c.proc.ctx, c.proc.session.records, c.disk, saveOk)), clock)
  {
  }

  /** Putting a record that is not behind the store in a slot and saving it. */
  lemma SlotKeepsAhead(c: Config, key: string, r: RawRecord, saveOk: bool, clock: int)
    requires Ahead(c, clock) && r.updatedAt <= clock
    requires key in c.disk.store ==> c.disk.store[key].updatedAt <= r.updatedAt
    ensures var records := c.proc.session.records[key := r];
            var d := Save(c.proc.ctx, records, c.disk, saveOk);
            && Ahead(Config(d, WithRecords(c.proc, records)), clock)
            && (saveOk && c.proc.ctx.Tracked? ==> key in d.store && d.store[key] == r)
  {
    var c1 := c.(proc := WithRecords(c.proc, c.proc.session.records[key := r]));
    assert Ahead(c1, clock);
    SaveKeepsAhead(c1, saveOk, clock);
    hide Ahead, Transact;
    if saveOk && c.proc.ctx.Tracked? {
      SaveIsDurable(c1, clock);
    }
  }

  /** A record fit for the slot: stamped now, or the one already there. */
  predicate Stamped(c: Config, key: string, rec: Option<RawRecord>, now: int) {
    rec.Some? ==> rec.value.updatedAt == now || Slot(c.proc.session.records, key) == rec
  }

  lemma StampedIsAhead(c: Config, key: string, r: RawRecord, now: int)
    requires Ahead(c, now) && Stamped(c, key, Some(r), now)
    ensures r.updatedAt <= now && (key in c.disk.store ==> c.disk.store[key].updatedAt <= r.updatedAt)
  {
  }

  /** Checkpoint and commit of a record: with working saves the EXPORTED record is durable before
      the commit point, and what the commit point leaves is durable after it. */
  lemma SettleIsDurable(c: Config, key: string, rec: Option<RawRecord>, io: Io)
    requires Ahead(c, io.now) && Stamped(c, key, rec, io.now)
    ensures var c1 := Install(c, key, rec, io.checkpointOk);
            var c2 := Settle(c1, io);
            && Ahead(c2, io.now)
            && (rec.Some? && c.proc.ctx.Tracked? && io.checkpointOk ==> Slot(c1.disk.store, key) == rec)
            && (rec.Some? && c.proc.ctx.Tracked? && io.checkpointOk && io.commitOk ==>
                  Slot(c2.disk.store, key) == Slot(c2.proc.session.records, key))
  {
    var c1 := Install(c, key, rec, io.checkpointOk);
    SettleUnfolds(c1, io);
    if rec.Some? {
      StampedIsAhead(c, key, rec.value, io.now);
      SlotKeepsAhead(c, key, rec.value, io.checkpointOk, io.now);
      var slot := TryCommitExported(rec.value);
      CommitAcceptsExactly(rec.value);
      if slot.Some? {
        StampedIsAhead(c1, key, rec.value, io.now);
        SlotKeepsAhead(c1, key, slot.value, io.commitOk, io.now);
      }
      hide Ahead, TryCommitExported, Transact;
    }
  }

  lemma NewRecordsAreStamped(c: Config, item: Item, now: int)
    ensures Stamped(c, item.key, PromotedRecord(c.proc.ctx, c.proc.session, item, now), now)
    ensures Stamped(c, item.key, FlushedRecord(c.proc.ctx, c.proc.session, item, now), now)
  {
  }

  lemma FailureIsDurable(c: Config, item: Item, e: ExporterError, io: Io)
    requires Ahead(c, io.now)
    ensures var c' := RecordFailure(c, item, e, io.now, io.checkpointOk);
            && Ahead(c', io.now)
            && (c.proc.ctx.Tracked? && io.checkpointOk && c' != c ==>
                  Slot(c'.disk.store, item.key) == Slot(c'.proc.session.records, item.key))
  {
    var rec := FailedRecord(c.proc.ctx, c.proc.session, item, e, io.now);
    if c.proc.ctx.Tracked? && rec.Some? {
      SlotKeepsAhead(c, item.key, rec.value, io.checkpointOk, io.now);
    }
    hide Ahead, Transact;
  }

  /** With working saves and a clock that does not go back, whatever an item leaves in its slot is
      durable when the item is done. */
  lemma ItemIsDurable(c: Config, item: Item, io: Io, clock: int)
    requires c.proc.phase.Ready? && Ahead(c, clock) && clock <= io.now
    ensures var c' := ProcessItem(c, item, io);
            var was, got := Slot(c.proc.session.records, item.key), Slot(c'.proc.session.records, item.key);
            && Ahead(c', io.now)
            && (c.proc.ctx.Tracked? && io.checkpointOk && io.commitOk && got.Some? && got != was ==>
                  Slot(c'.disk.store, item.key) == got)
  {
    ClockAdvances(c, clock, io.now);
    var s, c1 := c.proc.session, Claimed(c, item);
    assert Ahead(c1, io.now);
    NewRecordsAreStamped(c1, item, io.now);
    hide Ahead, Stamped, Decide, PromotedRecord, FlushedRecord, FailedRecord, Transact, Install, CommitSlot;
    if (item.url, item.hash) !in s.driven {
      match Decide(c.proc.ctx, s, item.key, item.hash)
      case AlreadyCommitted =>
      case PromoteFromFlushProof =>
        SettleIsDurable(c1, item.key, PromotedRecord(c.proc.ctx, s, item, io.now), io);
        InstallUnfolds(c1, item.key, PromotedRecord(c.proc.ctx, s, item, io.now), io);
      case DriveAndCommit => DriveIsDurable(c1, item, io);
    }
  }

  lemma InstallUnfolds(c: Config, key: string, rec: Option<RawRecord>, io: Io)
    ensures rec.None? ==> Slot(Settle(Install(c, key, rec, io.checkpointOk), io).proc.session.records, key).None?
  {
  }

  lemma DriveIsDurable(c: Config, item: Item, io: Io)
    requires c.proc.phase.Ready? && Ahead(c, io.now)
    ensures var c' := Settle(DriveItem(c, item, io.now, io.written, io.checkpointOk), io);
            var was, got := Slot(c.proc.session.records, item.key), Slot(c'.proc.session.records, item.key);
            && Ahead(c', io.now)
            && (c.proc.ctx.Tracked? && io.checkpointOk && io.commitOk && got.Some? && got != was ==>
                  Slot(c'.disk.store, item.key) == got)
  {
    var c1 := c.(disk := ExportLine(c.disk, item, io.written));
    assert Ahead(c1, io.now);
    NewRecordsAreStamped(c1, item, io.now);
    var rec := FlushedRecord(c.proc.ctx, c.proc.session, item, io.now);
    var c2 := c1.(proc := c1.proc.(phase := AfterFlush(item)));
    assert Ahead(c2, io.now);
    hide Ahead, FlushedRecord, Transact;
    if item.defect.Some? {
      FailureIsDurable(c, item, InvalidConfig(item.defect.value), io);
    } else if io.written.Failed? {
      FailureIsDurable(c1, item, io.written.error, io);
    } else {
      SettleUnfolds(c2, io);
      assert Stamped(c2, item.key, rec, io.now);
      SettleIsDurable(c2, item.key, rec, io);
      InstallUnfolds(c2, item.key, rec, io);
    }
    hide FailedRecord, Install, CommitSlot;
  }

  /** A run without a store, and an item whose saves all fail, leave the store as it was. */
  lemma NothingSaved(c: Config, item: Item, io: Io)
    requires c.proc.ctx.Bare? || (!io.checkpointOk && !io.commitOk)
    ensures ProcessItem(c, item, io).disk.store == c.disk.store
  {
    hide PromotedRecord, FlushedRecord, FailedRecord, TryCommitExported, Transact, Decide;
  }
}
