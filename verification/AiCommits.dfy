/** What an AI run achieves: which lines it writes, and that every chunk it drives ends up on record,
    as committed or as failed, in memory and in the store. */
module AiCommits {
  import opened Common
  import opened Records
  import opened ExportProtocol
  import opened AiPlan
  import opened AiHonesty
  import opened ItemEffects

  // ----- one chunk ------------------------------------------------------------------------------

  /** A chunk that does something to its record: a promotion, an export or a rejection. */
  predicate Effective(chunk: Chunk, outcome: AiOutcome) {
    || chunk.decision.PromoteFromFlushProof?
    || (chunk.decision.DriveAndCommit? && (outcome.ExportedAs? || outcome.Invalid?))
  }

  /** An exported chunk ends COMMITTED, a rejected one leaves its failure, a duplicate and a chunk that
      the gate skips change nothing. */
  lemma ChunkRecords(c: Config, chunk: Chunk, outcome: AiOutcome, io: Io)
    requires c.proc.phase.Ready?
    ensures var was := Slot(c.proc.session.records, chunk.item.key);
            var c' := CommitChunk(c, chunk, outcome, io);
            var got := Slot(c'.proc.session.records, chunk.item.key);
            && (!Effective(chunk, outcome) ==> c' == c)
            && (chunk.decision.DriveAndCommit? && outcome.ExportedAs? && Addressable(was, chunk.item) ==>
                  got.Some? && CommittedNow(got.value, c.proc.ctx, chunk.item.(hash := outcome.hash), was, io.now))
            && (chunk.decision.DriveAndCommit? && outcome.Invalid? && c.proc.ctx.Tracked?
                && Recordable(was, chunk.item) ==>
                  got.Some? && FailedNow(got.value, c.proc.ctx, chunk.item, was, InvalidConfig(outcome.reason), io.now))
  {
    if chunk.decision.DriveAndCommit? && outcome.ExportedAs? {
      var item := chunk.item.(hash := outcome.hash);
      FlushCommits(c.(proc := c.proc.(phase := AfterFlush(item))), item, io);
    } else if chunk.decision.DriveAndCommit? && outcome.Invalid? && c.proc.ctx.Tracked? {
      FailureRecords(c, chunk.item, InvalidConfig(outcome.reason), io.now, io.checkpointOk);
    }
    hide CommittedNow, FailedNow, Settle, RecordFailure, PromotedRecord, Install, MeaninglessIdentity;
  }

  /** A failure can be recorded: there is a record, or the item's identity makes a new one. */
  predicate Recordable(was: Option<RawRecord>, item: Item) {
    was.Some? || (!MeaninglessIdentity(item.url) && !MeaninglessIdentity(item.key))
  }

  /** Every record in memory has a URL. */
  ghost predicate Named(m: RecordMap) {
    forall k :: k in m ==> !MeaninglessIdentity(m[k].url)
  }

  lemma ChunkKeepsNamed(c: Config, chunk: Chunk, outcome: AiOutcome, io: Io)
    requires c.proc.phase.Ready? && Named(c.proc.session.records)
    ensures Named(CommitChunk(c, chunk, outcome, io).proc.session.records)
  {
    var c', key := CommitChunk(c, chunk, outcome, io), chunk.item.key;
    ChunkTouchesOneSlot(c, chunk, outcome, io);
    NewRecordsAreNamed(c.proc.ctx, c.proc.session, chunk.item, outcome, io.now);
    hide PromotedRecord, FlushedRecord, Transact, MeaninglessIdentity, TryCommitExported;
    if chunk.decision.PromoteFromFlushProof? && c.proc.ctx.Tracked? {
      SettledSlot(c, key, PromotedRecord(c.proc.ctx, c.proc.session, chunk.item, io.now), io);
    } else if chunk.decision.DriveAndCommit? && outcome.ExportedAs? {
      var item := chunk.item.(hash := outcome.hash);
      var c1 := c.(proc := c.proc.(phase := AfterFlush(item)));
      SettleUnfolds(c1, io);
      SettledSlot(c1, key, FlushedRecord(c.proc.ctx, c.proc.session, item, io.now), io);
    }
    hide Install, Settle, CommitSlot;
  }

  lemma SettledSlot(c: Config, key: string, rec: Option<RawRecord>, io: Io)
    ensures var got := Slot(Settle(Install(c, key, rec, io.checkpointOk), io).proc.session.records, key);
            (got.Some? <==> rec.Some?) && (rec.Some? ==> got.value.url == rec.value.url)
  {
    var c1 := Install(c, key, rec, io.checkpointOk);
    SettleUnfolds(c1, io);
    if rec.Some? {
      CommitAcceptsExactly(rec.value);
    }
    hide TryCommitExported, Transact;
  }

  lemma NewRecordsAreNamed(ctx: Ctx, s: Session, item: Item, outcome: AiOutcome, now: int)
    requires Named(s.records)
    ensures var rec := PromotedRecord(ctx, s, item, now); rec.Some? ==> !MeaninglessIdentity(rec.value.url)
    ensures outcome.ExportedAs? ==>
              var rec := FlushedRecord(ctx, s, item.(hash := outcome.hash), now);
              rec.Some? ==> !MeaninglessIdentity(rec.value.url)
  {
    if item.key in s.records {
      DriveKeepsIdentity(s.records[item.key], ctx.runId, now);
    }
    if !MeaninglessIdentity(item.url) && !MeaninglessIdentity(item.key) {
      var r := NewDiscovered(item.url, item.key, ctx.runId, now).value;
      DriveKeepsIdentity(r, ctx.runId, now);
      WalkKeepsPayload(r);
    }
    hide MeaninglessIdentity, Reconciles;
  }

  // ----- the loop -------------------------------------------------------------------------------

  lemma {:induction false} PrefixIsNamed(c: Config, chunks: seq<Chunk>, outcomes: seq<AiOutcome>, ios: seq<Io>, n: nat)
    requires |chunks| == |outcomes| == |ios| && n <= |chunks|
    requires c.proc.phase.Ready? && Named(c.proc.session.records)
    ensures var c' := After(c, chunks, outcomes, ios, n);
            Named(c'.proc.session.records) && c'.proc.phase.Ready? && c'.proc.ctx == c.proc.ctx
  {
    if n > 0 {
      PrefixIsNamed(c, chunks, outcomes, ios, n - 1);
      var c1 := After(c, chunks, outcomes, ios, n - 1);
      hide CommitChunk, Named;
      ChunkKeepsNamed(c1, chunks[n - 1], outcomes[n - 1], ios[n - 1]);
      ChunkTouchesOneSlot(c1, chunks[n - 1], outcomes[n - 1], ios[n - 1]);
    }
  }

  /** Chunk `i` is the last one below `n` that does something to the record of its key. */
  ghost predicate LastEffective(chunks: seq<Chunk>, outcomes: seq<AiOutcome>, i: nat, n: nat)
    requires |chunks| == |outcomes| && i < n <= |chunks|
  {
    forall j :: i < j < n && chunks[j].item.key == chunks[i].item.key ==> !Effective(chunks[j], outcomes[j])
  }

  /** What the last effective chunk of a key leaves stays. */
  lemma {:induction false} SlotStays(c: Config, chunks: seq<Chunk>, outcomes: seq<AiOutcome>, ios: seq<Io>, i: nat,
                                     n: nat)
    requires |chunks| == |outcomes| == |ios| && i < n <= |chunks| && c.proc.phase.Ready?
    requires LastEffective(chunks, outcomes, i, n)
    ensures var key := chunks[i].item.key;
            Slot(After(c, chunks, outcomes, ios, n).proc.session.records, key)
            == Slot(After(c, chunks, outcomes, ios, i + 1).proc.session.records, key)
    decreases n
  {
    if n > i + 1 {
      SlotStays(c, chunks, outcomes, ios, i, n - 1);
      PrefixKeepsLines(c, chunks, outcomes, ios, n - 1);
      var c1 := After(c, chunks, outcomes, ios, n - 1);
      hide CommitChunk, Effective;
      ChunkTouchesOneSlot(c1, chunks[n - 1], outcomes[n - 1], ios[n - 1]);
      ChunkRecords(c1, chunks[n - 1], outcomes[n - 1], ios[n - 1]);
    }
  }

  // ----- a whole run ----------------------------------------------------------------------------

  /** The whole AI run on value level: open, decide, write the batch, commit. */
  function AiRun(ctx: Ctx, d: Disk, loadOk: bool, indexOk: bool, items: seq<Item>, ios: seq<Io>): Config
    requires |items| == |ios|
  {
    CommitBatch(StartRun(ctx, d, loadOk, indexOk), DecideAll(ctx, OpenSession(ctx, d, loadOk, indexOk), items), ios)
  }

  /** The configuration when the commit of chunk `i` begins. */
  function AtChunk(ctx: Ctx, d: Disk, loadOk: bool, indexOk: bool, items: seq<Item>, ios: seq<Io>, i: nat): Config
    requires |items| == |ios| && i <= |items|
  {
    var chunks := DecideAll(ctx, OpenSession(ctx, d, loadOk, indexOk), items);
    After(Written(StartRun(ctx, d, loadOk, indexOk), chunks), chunks, PlanOf(chunks), ios, i)
  }

  lemma RunEndsAtChunk(ctx: Ctx, d: Disk, loadOk: bool, indexOk: bool, items: seq<Item>, ios: seq<Io>) returns (n: nat)
    requires |items| == |ios|
    ensures n <= |items| && AiRun(ctx, d, loadOk, indexOk, items, ios)
            == AtChunk(ctx, d, loadOk, indexOk, items, ios, n)
    ensures (forall i :: 0 <= i < |ios| ==> !ios[i].cancelled) ==> n == |items|
  {
    var chunks := DecideAll(ctx, OpenSession(ctx, d, loadOk, indexOk), items);
    n := LoopIsAfter(Written(StartRun(ctx, d, loadOk, indexOk), chunks), chunks, PlanOf(chunks), ios);
  }

  /** The file grows by exactly one line per batch entry, in order, wherever the run is cancelled and
      whichever saves fail. */
  lemma AiRunWrites(ctx: Ctx, d: Disk, loadOk: bool, indexOk: bool, items: seq<Item>, ios: seq<Io>)
    requires |items| == |ios|
    ensures var chunks := DecideAll(ctx, OpenSession(ctx, d, loadOk, indexOk), items);
            var batch, lines := Selected(chunks, |chunks|), AiRun(ctx, d, loadOk, indexOk, items, ios).disk.lines;
            && |lines| == |d.lines| + |batch| && lines[..|d.lines|] == d.lines
            && forall a :: 0 <= a < |batch| ==> lines[|d.lines| + a] == Checksummed(batch[a].url, batch[a].hash)
  {
    var chunks := DecideAll(ctx, OpenSession(ctx, d, loadOk, indexOk), items);
    var n := RunEndsAtChunk(ctx, d, loadOk, indexOk, items, ios);
    hide After, DecideAll, OpenSession, Selected;
    PrefixKeepsLines(Written(StartRun(ctx, d, loadOk, indexOk), chunks), chunks, PlanOf(chunks), ios, n);
  }

  /** Chunk `i` has the last word on its page: no later chunk of its key is promoted, exported or
      rejected. */
  ghost predicate LastWord(ctx: Ctx, d: Disk, loadOk: bool, indexOk: bool, items: seq<Item>, i: nat)
    requires i < |items|
  {
    var chunks := DecideAll(ctx, OpenSession(ctx, d, loadOk, indexOk), items);
    LastEffective(chunks, PlanOf(chunks), i, |items|)
  }

  /** Every driven chunk is on record at the end of an uncancelled AI run: the one that has the last
      word on its page leaves its COMMITTED record if it was exported, naming its bytes, this run and
      this file, and its failure if it was rejected. */
  lemma AiRunRecords(ctx: Ctx, d: Disk, loadOk: bool, indexOk: bool, items: seq<Item>, ios: seq<Io>, i: nat)
    requires |items| == |ios| && i < |items| && forall j :: 0 <= j < |ios| ==> !ios[j].cancelled
    requires LastWord(ctx, d, loadOk, indexOk, items, i)
    requires !MeaninglessIdentity(items[i].url) && !MeaninglessIdentity(items[i].key)
    ensures var chunks := DecideAll(ctx, OpenSession(ctx, d, loadOk, indexOk), items);
            var was := Slot(AtChunk(ctx, d, loadOk, indexOk, items, ios, i).proc.session.records, items[i].key);
            var got := Slot(AiRun(ctx, d, loadOk, indexOk, items, ios).proc.session.records, items[i].key);
            && (FirstOccurrence(chunks, i) ==> got.Some? && CommittedNow(got.value, ctx, items[i], was, ios[i].now))
            && (ctx.Tracked? && chunks[i].decision.DriveAndCommit? && items[i].defect.Some? ==>
                  got.Some? && FailedNow(got.value, ctx, items[i], was, InvalidConfig(items[i].defect.value),
                                         ios[i].now))
  {
    var chunks := DecideAll(ctx, OpenSession(ctx, d, loadOk, indexOk), items);
    var c := Written(StartRun(ctx, d, loadOk, indexOk), chunks);
    assert Named(c.proc.session.records);
    var n := RunEndsAtChunk(ctx, d, loadOk, indexOk, items, ios);
    var outcomes := PlanOf(chunks);
    assert outcomes[i] == PlannedOutcome(chunks, i) && chunks[i].item == items[i];
    assert items[i].(hash := items[i].hash) == items[i];
    hide After, DecideAll, OpenSession, CommittedNow, FailedNow, MeaninglessIdentity, Named, LastEffective, AiRun;
    PrefixIsNamed(c, chunks, outcomes, ios, i);
    SlotStays(c, chunks, outcomes, ios, i, |items|);
    AfterNext(c, chunks, outcomes, ios, i);
    var c1 := After(c, chunks, outcomes, ios, i);
    ChunkRecords(c1, chunks[i], outcomes[i], ios[i]);
    NamedSlot(c1.proc.session.records, items[i]);
    hide CommitChunk;
  }

  lemma AfterNext(c: Config, chunks: seq<Chunk>, outcomes: seq<AiOutcome>, ios: seq<Io>, i: nat)
    requires |chunks| == |outcomes| == |ios| && i < |chunks|
    ensures After(c, chunks, outcomes, ios, i + 1)
         == CommitChunk(After(c, chunks, outcomes, ios, i), chunks[i], outcomes[i], ios[i])
  {
  }

  lemma NamedSlot(m: RecordMap, item: Item)
    requires Named(m) && !MeaninglessIdentity(item.url) && !MeaninglessIdentity(item.key)
    ensures Addressable(Slot(m, item.key), item)
  {
  }

  /** With a working final persist and a clock that does not go back, what the run has on record is
      what the store holds. */
  lemma AiRunIsDurable(ctx: Ctx, d: Disk, loadOk: bool, indexOk: bool, items: seq<Item>, ios: seq<Io>, clock: int,
                       k: string)
    requires |items| == |ios| && ctx.Tracked? && NoNewerThan(d.store, clock) && InOrder(ios, clock)
    ensures var c := AiRun(ctx, d, loadOk, indexOk, items, ios);
            k in c.proc.session.records ==> Slot(Step(c, Finish(true)).disk.store, k) == Slot(c.proc.session.records, k)
  {
    var chunks := DecideAll(ctx, OpenSession(ctx, d, loadOk, indexOk), items);
    var c0 := Written(StartRun(ctx, d, loadOk, indexOk), chunks);
    OpenIsAhead(ctx, d, loadOk, indexOk, clock);
    assert Ahead(c0, clock);
    var n := RunEndsAtChunk(ctx, d, loadOk, indexOk, items, ios);
    hide After, DecideAll, OpenSession, Ahead, AiRun, InOrder;
    PrefixIsAhead(c0, chunks, PlanOf(chunks), ios, n, clock);
    PrefixKeepsLines(c0, chunks, PlanOf(chunks), ios, n);
    SaveIsDurable(After(c0, chunks, PlanOf(chunks), ios, n), TimeAt(ios, clock, n));
    hide Save;
  }
}
