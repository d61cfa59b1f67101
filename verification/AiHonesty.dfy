/** Whether the AI path's records claim only what was written: the exact condition on the up-front
    decisions, for the working set after every prefix of the commit loop and for the store. */
module AiHonesty {
  import opened Common
  import opened Records
  import opened ExportProtocol
  import opened CrashSafety
  import opened AiPlan
  import opened ItemEffects

  // ----- prefixes of the loop -----------------------------------------------------------

  /** The configuration after the first `n` chunks. */
  function After(c: Config, chunks: seq<Chunk>, outcomes: seq<AiOutcome>, ios: seq<Io>, n: nat): Config
    requires |chunks| == |outcomes| == |ios| && n <= |chunks|
  {
    if n == 0 then c
    else CommitChunk(After(c, chunks, outcomes, ios, n - 1), chunks[n - 1], outcomes[n - 1], ios[n - 1])
  }

  lemma {:induction false} AfterCons(c: Config, chunks: seq<Chunk>, outcomes: seq<AiOutcome>, ios: seq<Io>, n: nat)
    requires |chunks| == |outcomes| == |ios| && n < |chunks|
    ensures After(c, chunks, outcomes, ios, n + 1)
         == After(CommitChunk(c, chunks[0], outcomes[0], ios[0]), chunks[1..], outcomes[1..], ios[1..], n)
  {
    hide CommitChunk;
    if n > 0 {
      AfterCons(c, chunks, outcomes, ios, n - 1);
    }
  }

  /** The loop stops at `i`: the token is observed behind a chunk that the gate did not skip. */
  predicate StopsAt(ctx: Ctx, chunks: seq<Chunk>, ios: seq<Io>, i: nat)
    requires i < |chunks| == |ios|
  {
    ctx.Tracked? && ios[i].cancelled && !chunks[i].decision.AlreadyCommitted?
  }

  lemma ChunkKeepsContext(c: Config, chunk: Chunk, outcome: AiOutcome, io: Io)
    ensures CommitChunk(c, chunk, outcome, io).proc.ctx == c.proc.ctx
  {
    hide PromotedRecord, FlushedRecord, FailedRecord, TryCommitExported, Transact;
  }

  /** The loop ends right behind the first chunk that stops it, and after the whole list without one. */
  lemma {:induction false} LoopIsAfter(c: Config, chunks: seq<Chunk>, outcomes: seq<AiOutcome>, ios: seq<Io>)
    returns (n: nat)
    requires |chunks| == |outcomes| == |ios|
    ensures n <= |chunks| && CommitOutcomes(c, chunks, outcomes, ios) == After(c, chunks, outcomes, ios, n)
    ensures forall i :: 0 <= i < n - 1 ==> !StopsAt(c.proc.ctx, chunks, ios, i)
    ensures n < |chunks| ==> n > 0 && StopsAt(c.proc.ctx, chunks, ios, n - 1)
    decreases |chunks|
  {
    if chunks != [] {
      ChunkKeepsContext(c, chunks[0], outcomes[0], ios[0]);
    }
    hide CommitChunk;
    n := 0;
    if chunks != [] {
      var c1 := CommitChunk(c, chunks[0], outcomes[0], ios[0]);
      if chunks[0].decision.AlreadyCommitted? || !Observes(c.proc.ctx, ios[0]) {
        var m := LoopIsAfter(c1, chunks[1..], outcomes[1..], ios[1..]);
        n := m + 1;
        forall i | 0 <= i < n - 1
          ensures !StopsAt(c.proc.ctx, chunks, ios, i)
        {
          assert i > 0 ==> !StopsAt(c.proc.ctx, chunks[1..], ios[1..], i - 1);
        }
        AfterCons(c, chunks, outcomes, ios, m);
      } else {
        n := 1;
        AfterCons(c, chunks, outcomes, ios, 0);
      }
    }
  }

  // ----- one chunk ------------------------------------------------------------------------

  /** What the commit loop keeps: an unchanged file, honest records, reconcilable EXPORTED ones. */
  ghost predicate AiInv(c: Config, flushed: set<string>, legacy: bool) {
    && LineHashes(c.disk.lines) == flushed && c.proc.phase.Ready?
    && HonestMap(c.disk.store, flushed, legacy) && HonestMap(c.proc.session.records, flushed, legacy)
    && forall k :: k in c.proc.session.records && c.proc.session.records[k].status.Exported? ==>
         Reconciles(c.proc.session.records[k], Exported)
  }

  /** Same run, and the same record in every slot but `key`. */
  ghost predicate SameElsewhere(c: Config, c': Config, key: string) {
    && c'.proc.ctx == c.proc.ctx && c'.disk.lines == c.disk.lines
    && forall k :: k != key ==>
         (k in c'.proc.session.records <==> k in c.proc.session.records) &&
         (k in c.proc.session.records ==> c'.proc.session.records[k] == c.proc.session.records[k])
  }

  lemma ChunkTouchesOneSlot(c: Config, chunk: Chunk, outcome: AiOutcome, io: Io)
    requires c.proc.phase.Ready?
    ensures var c' := CommitChunk(c, chunk, outcome, io);
            SameElsewhere(c, c', chunk.item.key) && c'.proc.phase.Ready?
  {
    hide PromotedRecord, FlushedRecord, FailedRecord, TryCommitExported, Transact;
  }

  lemma AiSave(c: Config, key: string, r: RawRecord, saveOk: bool, flushed: set<string>, legacy: bool)
    requires AiInv(c, flushed, legacy)
    requires Honest(r, flushed, legacy) && (r.status.Exported? ==> Reconciles(r, PageStatus.Exported))
    ensures var records := c.proc.session.records[key := r];
            AiInv(Config(Save(c.proc.ctx, records, c.disk, saveOk), WithRecords(c.proc, records)), flushed, legacy)
  {
    SaveKeepsHonesty(c.proc.ctx, c.proc.session.records[key := r], c.disk, saveOk, legacy);
  }

  lemma AiInstall(c: Config, key: string, rec: Option<RawRecord>, io: Io, flushed: set<string>, legacy: bool)
    requires AiInv(c, flushed, legacy)
    requires rec.Some? ==> && rec.value.status.Exported? && Reconciles(rec.value, PageStatus.Exported)
                           && Honest(rec.value, flushed, legacy)
    ensures AiInv(Settle(Install(c, key, rec, io.checkpointOk), io), flushed, legacy)
  {
    var c1 := Install(c, key, rec, io.checkpointOk);
    SettleUnfolds(c1, io);
    if rec.Some? {
      CommitAcceptsExactly(rec.value);
      AiSave(c, key, rec.value, io.checkpointOk, flushed, legacy);
      var ready := c1.(proc := c1.proc.(phase := Ready));
      var slot := TryCommitExported(rec.value);
      assert c1.proc.session.records[key] == rec.value;
      if slot.Some? {
        AiSave(ready, key, slot.value, io.commitOk, flushed, legacy);
        assert CommitSlot(c1, key, io.commitOk) == CommitSlot(ready, key, io.commitOk);
      }
    }
  }

  lemma PromotedReconciles(ctx: Ctx, s: Session, item: Item, now: int)
    requires forall k :: k in s.records && s.records[k].status.Exported? ==> Reconciles(s.records[k], Exported)
    ensures var rec := PromotedRecord(ctx, s, item, now);
            rec.Some? ==> rec.value.status.Exported? && Reconciles(rec.value, Exported)
  {
  }

  /** A chunk keeps everything honest if what it claims is written: its outcome, or the record
      that its promotion installs. */
  lemma CommitChunkKeepsInv(c: Config, chunk: Chunk, outcome: AiOutcome, io: Io, flushed: set<string>, legacy: bool)
    requires AiInv(c, flushed, legacy)
    requires outcome.ExportedAs? ==> outcome.hash in flushed
    requires var rec := PromotedRecord(c.proc.ctx, c.proc.session, chunk.item, io.now);
             chunk.decision.PromoteFromFlushProof? && rec.Some? ==> Honest(rec.value, flushed, legacy)
    ensures AiInv(CommitChunk(c, chunk, outcome, io), flushed, legacy)
  {
    var key, s := chunk.item.key, c.proc.session;
    match chunk.decision
    case AlreadyCommitted =>
    case PromoteFromFlushProof =>
      PromotedReconciles(c.proc.ctx, s, chunk.item, io.now);
      AiInstall(c, key, PromotedRecord(c.proc.ctx, s, chunk.item, io.now), io, flushed, legacy);
    case DriveAndCommit =>
      match outcome
      case ExportedAs(hash) =>
        var item := chunk.item.(hash := hash);
        SettleUnfolds(c.(proc := c.proc.(phase := AfterFlush(item))), io);
        FlushedRecordIsHonest(c.proc.ctx, s, item, io.now, flushed, legacy);
        AiInstall(c, key, FlushedRecord(c.proc.ctx, s, item, io.now), io, flushed, legacy);
      case Invalid(reason) =>
      case Duplicate =>
      case NotDriven =>
  }

  // ----- what promotions do to their slot -----------------------------------------------------

  /** A promotion of a reconcilable EXPORTED slot ends with the slot as the commit point leaves it. */
  lemma PromoteExported(c: Config, chunk: Chunk, outcome: AiOutcome, io: Io)
    requires chunk.decision.PromoteFromFlushProof? && c.proc.ctx.Tracked? && chunk.item.key in c.proc.session.records
    requires var r := c.proc.session.records[chunk.item.key]; r.status.Exported? && Reconciles(r, Exported)
    ensures var r := c.proc.session.records[chunk.item.key];
            var after := CommitChunk(c, chunk, outcome, io).proc.session.records;
            && chunk.item.key in after
            && after[chunk.item.key] == (if TryCommitExported(r).Some? then TryCommitExported(r).value else r)
  {
    hide TryCommitExported, Transact;
  }

  /** A record that the commit point has spent and that still addresses a page. */
  predicate Spent(r: RawRecord) {
    r.status.Committed? && !MeaninglessIdentity(r.url) && !MeaninglessIdentity(r.canonicalUrl)
  }

  /** A promotion of a spent slot restarts it with the chunk's own bytes and spends it again. */
  lemma PromoteSpent(c: Config, chunk: Chunk, outcome: AiOutcome, io: Io)
    requires chunk.decision.PromoteFromFlushProof? && c.proc.ctx.Tracked?
    requires chunk.item.key in c.proc.session.records && Spent(c.proc.session.records[chunk.item.key])
    ensures var after := CommitChunk(c, chunk, outcome, io).proc.session.records;
            && chunk.item.key in after && Spent(after[chunk.item.key])
            && after[chunk.item.key].contentHash == Some(chunk.item.hash) && after[chunk.item.key].updatedAt == io.now
            && after[chunk.item.key].runId == c.proc.ctx.runId
  {
    var r := c.proc.session.records[chunk.item.key];
    DriveKeepsIdentity(r, c.proc.ctx.runId, io.now);
    var rec := PromotedRecord(c.proc.ctx, c.proc.session, chunk.item, io.now);
    SettleUnfolds(Install(c, chunk.item.key, rec, io.checkpointOk), io);
    CommitAcceptsExactly(rec.value);
    hide Transact;
  }

  // ----- the exact condition ------------------------------------------------------------------

  /** The gate promotes every chunk of `key`, on the EXPORTED record it holds. */
  predicate PromotedKey(gate: Session, key: string) {
    && key in gate.records && gate.records[key].status.Exported?
    && gate.records[key].contentHash.Some? && gate.records[key].contentHash.value in gate.hashIndex
  }

  ghost predicate Seen(chunks: seq<Chunk>, n: nat, key: string)
    requires n <= |chunks|
  {
    exists j :: 0 <= j < n && chunks[j].item.key == key
  }

  /** Chunk `i` is promoted on a record of the gate that the commit point accepts, and it is not
      the first chunk of its key: an earlier one has already spent that record. */
  ghost predicate Restarts(gate: Session, chunks: seq<Chunk>, i: nat)
    requires i < |chunks|
  {
    var key := chunks[i].item.key;
    && chunks[i].decision.PromoteFromFlushProof?
    && key in gate.records && TryCommitExported(gate.records[key]).Some?
    && Seen(chunks, i, key)
  }

  /** Every restarting chunk has its own bytes in the file. */
  ghost predicate Backed(gate: Session, chunks: seq<Chunk>, flushed: set<string>) {
    forall i :: 0 <= i < |chunks| && Restarts(gate, chunks, i) ==> chunks[i].item.hash in flushed
  }

  /** A plan made on the gate whose batch is in the file. */
  ghost predicate Planned(ctx: Ctx, gate: Session, chunks: seq<Chunk>, outcomes: seq<AiOutcome>, flushed: set<string>) {
    && |chunks| == |outcomes| && gate.hashIndex <= flushed && Reconcilable(ctx, gate.records)
    && (forall i :: 0 <= i < |chunks| ==>
          chunks[i].decision == Decide(ctx, gate, chunks[i].item.key, chunks[i].item.hash))
    && (forall i :: 0 <= i < |chunks| && outcomes[i].ExportedAs? ==> outcomes[i].hash in flushed)
  }

  /** In a resumed run, promoted slots hold what the gate saw until a chunk of their key comes, and
      for good if the commit point refuses them. */
  ghost predicate Untouched(c: Config, gate: Session, chunks: seq<Chunk>, n: nat)
    requires n <= |chunks|
  {
    c.proc.ctx.Tracked? && c.proc.ctx.resume ==>
    forall k :: PromotedKey(gate, k) && (TryCommitExported(gate.records[k]).None? || !Seen(chunks, n, k)) ==>
      k in c.proc.session.records && c.proc.session.records[k] == gate.records[k]
  }

  lemma GateOfPromotion(ctx: Ctx, gate: Session, item: Item, flushed: set<string>, legacy: bool)
    requires HonestMap(gate.records, flushed, legacy) && Reconcilable(ctx, gate.records)
    requires Decide(ctx, gate, item.key, item.hash).PromoteFromFlushProof?
    ensures ctx.Tracked? && ctx.resume
    ensures if item.key in gate.records then PromotedKey(gate, item.key) else item.hash in gate.hashIndex
  {
  }

  lemma SeenNext(chunks: seq<Chunk>, n: nat, key: string)
    requires n < |chunks|
    ensures Seen(chunks, n + 1, key) <==> Seen(chunks, n, key) || chunks[n].item.key == key
  {
    if Seen(chunks, n, key) {
      var j :| 0 <= j < n && chunks[j].item.key == key;
    }
  }

  lemma UntouchedNext(c: Config, ctx: Ctx, gate: Session, chunks: seq<Chunk>, outcome: AiOutcome, io: Io, n: nat)
    requires n < |chunks| && c.proc.ctx == ctx && c.proc.phase.Ready? && Reconcilable(ctx, gate.records)
    requires chunks[n].decision == Decide(ctx, gate, chunks[n].item.key, chunks[n].item.hash)
    requires Untouched(c, gate, chunks, n)
    ensures Untouched(CommitChunk(c, chunks[n], outcome, io), gate, chunks, n + 1)
  {
    var c', key := CommitChunk(c, chunks[n], outcome, io), chunks[n].item.key;
    ChunkTouchesOneSlot(c, chunks[n], outcome, io);
    forall k | ctx.Tracked? && ctx.resume && PromotedKey(gate, k)
               && (TryCommitExported(gate.records[k]).None? || !Seen(chunks, n + 1, k))
      ensures k in c'.proc.session.records && c'.proc.session.records[k] == gate.records[k]
    {
      SeenNext(chunks, n, k);
      hide CommitChunk, TryCommitExported, Seen;
      if k == key {
        PromoteExported(c, chunks[n], outcome, io);
      }
    }
  }

  /** The promoted record is honest: it is the one the gate vouched for, or it names written bytes. */
  lemma PromotionIsBacked(c: Config, gate: Session, chunks: seq<Chunk>, n: nat, now: int, flushed: set<string>,
                          legacy: bool)
    requires AiInv(c, flushed, legacy) && n < |chunks| && gate.hashIndex <= flushed
    requires HonestMap(gate.records, flushed, legacy) && Reconcilable(c.proc.ctx, gate.records)
    requires chunks[n].decision == Decide(c.proc.ctx, gate, chunks[n].item.key, chunks[n].item.hash)
    requires Untouched(c, gate, chunks, n) && chunks[n].decision.PromoteFromFlushProof?
    requires Restarts(gate, chunks, n) ==> chunks[n].item.hash in flushed
    ensures var rec := PromotedRecord(c.proc.ctx, c.proc.session, chunks[n].item, now);
            rec.Some? ==> Honest(rec.value, flushed, legacy)
  {
    var item, s := chunks[n].item, c.proc.session;
    GateOfPromotion(c.proc.ctx, gate, item, flushed, legacy);
    var rec := PromotedRecord(c.proc.ctx, s, item, now);
    PromotedIsKeptOrOwn(c.proc.ctx, s, item, now);
    hide PromotedRecord, TryCommitExported, Reconciles, Seen;
    if item.key in gate.records && (TryCommitExported(gate.records[item.key]).None? || !Seen(chunks, n, item.key)) {
      assert s.records[item.key] == gate.records[item.key];
    }
  }

  /** A promotion keeps a reconcilable EXPORTED record; otherwise it installs the item's own hash. */
  lemma PromotedIsKeptOrOwn(ctx: Ctx, s: Session, item: Item, now: int)
    ensures var rec := PromotedRecord(ctx, s, item, now);
            rec.Some? ==>
              if item.key in s.records && s.records[item.key].status.Exported?
                 && Reconciles(s.records[item.key], Exported)
              then rec.value == s.records[item.key]
              else rec.value.status.Exported? && rec.value.contentHash == Some(item.hash)
  {
  }

  /** Sufficiency: with every restarting chunk backed, nothing dishonest is ever installed. */
  lemma {:induction false} PrefixIsHonest(c: Config, gate: Session, chunks: seq<Chunk>, outcomes: seq<AiOutcome>,
                                          ios: seq<Io>, n: nat, flushed: set<string>, legacy: bool)
    requires |chunks| == |outcomes| == |ios| && n <= |chunks|
    requires Planned(c.proc.ctx, gate, chunks, outcomes, flushed) && HonestMap(gate.records, flushed, legacy)
    requires AiInv(c, flushed, legacy) && Untouched(c, gate, chunks, 0) && Backed(gate, chunks, flushed)
    ensures var c' := After(c, chunks, outcomes, ios, n);
            AiInv(c', flushed, legacy) && Untouched(c', gate, chunks, n) && c'.proc.ctx == c.proc.ctx
  {
    if n > 0 {
      PrefixIsHonest(c, gate, chunks, outcomes, ios, n - 1, flushed, legacy);
      var c1 := After(c, chunks, outcomes, ios, n - 1);
      hide AiInv, Untouched, Reconcilable, HonestMap, CommitChunk, Decide, Restarts, PromotedRecord;
      if chunks[n - 1].decision.PromoteFromFlushProof? {
        PromotionIsBacked(c1, gate, chunks, n - 1, ios[n - 1].now, flushed, legacy);
      }
      CommitChunkKeepsInv(c1, chunks[n - 1], outcomes[n - 1], ios[n - 1], flushed, legacy);
      ReadyOfInv(c1, flushed, legacy);
      ChunkTouchesOneSlot(c1, chunks[n - 1], outcomes[n - 1], ios[n - 1]);
      UntouchedNext(c1, c.proc.ctx, gate, chunks, outcomes[n - 1], ios[n - 1], n - 1);
    }
  }

  lemma ReadyOfInv(c: Config, flushed: set<string>, legacy: bool)
    requires AiInv(c, flushed, legacy)
    ensures c.proc.phase.Ready?
  {
  }

  // ----- necessity ----------------------------------------------------------------------------

  /** In a resumed run, accepted slots whose key has been seen are spent. */
  ghost predicate Tracking(c: Config, gate: Session, chunks: seq<Chunk>, n: nat)
    requires n <= |chunks|
  {
    c.proc.ctx.Tracked? && c.proc.ctx.resume ==>
    forall k :: PromotedKey(gate, k) && TryCommitExported(gate.records[k]).Some? && Seen(chunks, n, k) ==>
      k in c.proc.session.records && Spent(c.proc.session.records[k])
  }

  lemma TrackingNext(c: Config, ctx: Ctx, gate: Session, chunks: seq<Chunk>, outcome: AiOutcome, io: Io, n: nat)
    requires n < |chunks| && c.proc.ctx == ctx && c.proc.phase.Ready?
    requires Reconcilable(ctx, gate.records) && Addressed(gate.records)
    requires chunks[n].decision == Decide(ctx, gate, chunks[n].item.key, chunks[n].item.hash)
    requires Untouched(c, gate, chunks, n) && Tracking(c, gate, chunks, n)
    ensures Tracking(CommitChunk(c, chunks[n], outcome, io), gate, chunks, n + 1)
  {
    var c', key := CommitChunk(c, chunks[n], outcome, io), chunks[n].item.key;
    ChunkTouchesOneSlot(c, chunks[n], outcome, io);
    forall k | ctx.Tracked? && ctx.resume && PromotedKey(gate, k)
               && TryCommitExported(gate.records[k]).Some? && Seen(chunks, n + 1, k)
      ensures k in c'.proc.session.records && Spent(c'.proc.session.records[k])
    {
      SeenNext(chunks, n, k);
      CommitAcceptsExactly(gate.records[k]);
      hide CommitChunk, TryCommitExported, Seen;
      if k == key && Seen(chunks, n, k) {
        PromoteSpent(c, chunks[n], outcome, io);
      } else if k == key {
        PromoteExported(c, chunks[n], outcome, io);
      }
    }
  }

  lemma {:induction false} PrefixIsTracked(c: Config, gate: Session, chunks: seq<Chunk>, outcomes: seq<AiOutcome>,
                                           ios: seq<Io>, n: nat, flushed: set<string>)
    requires |chunks| == |outcomes| == |ios| && n <= |chunks| && c.proc.phase.Ready? && c.proc.session == gate
    requires Planned(c.proc.ctx, gate, chunks, outcomes, flushed) && Addressed(gate.records)
    ensures var c' := After(c, chunks, outcomes, ios, n);
            && Untouched(c', gate, chunks, n) && Tracking(c', gate, chunks, n)
            && c'.proc.ctx == c.proc.ctx && c'.proc.phase.Ready?
  {
    hide Untouched, Tracking, Reconcilable, CommitChunk, Decide, Addressed;
    if n == 0 {
      NothingSeen(c, gate, chunks);
    } else {
      PrefixIsTracked(c, gate, chunks, outcomes, ios, n - 1, flushed);
      var c1 := After(c, chunks, outcomes, ios, n - 1);
      ChunkTouchesOneSlot(c1, chunks[n - 1], outcomes[n - 1], ios[n - 1]);
      UntouchedNext(c1, c.proc.ctx, gate, chunks, outcomes[n - 1], ios[n - 1], n - 1);
      TrackingNext(c1, c.proc.ctx, gate, chunks, outcomes[n - 1], ios[n - 1], n - 1);
    }
  }

  lemma NothingSeen(c: Config, gate: Session, chunks: seq<Chunk>)
    requires c.proc.session == gate
    ensures Untouched(c, gate, chunks, 0) && Tracking(c, gate, chunks, 0)
  {
    hide TryCommitExported;
  }

  /** A restarting chunk leaves a COMMITTED record, stamped now, that names the chunk's own bytes. */
  lemma RestartInstalls(c: Config, gate: Session, chunks: seq<Chunk>, outcomes: seq<AiOutcome>,
                        ios: seq<Io>, i: nat, flushed: set<string>)
    requires |chunks| == |outcomes| == |ios| && i < |chunks| && c.proc.phase.Ready? && c.proc.session == gate
    requires Planned(c.proc.ctx, gate, chunks, outcomes, flushed) && Addressed(gate.records)
    requires Restarts(gate, chunks, i)
    ensures var records, key := After(c, chunks, outcomes, ios, i + 1).proc.session.records, chunks[i].item.key;
            && c.proc.ctx.Tracked? && key in records && records[key].status.Committed?
            && records[key].contentHash == Some(chunks[i].item.hash) && records[key].updatedAt == ios[i].now
  {
    PrefixIsTracked(c, gate, chunks, outcomes, ios, i, flushed);
    var c1 := After(c, chunks, outcomes, ios, i);
    CommitAcceptsExactly(gate.records[chunks[i].item.key]);
    assert PromotedKey(gate, chunks[i].item.key);
    hide CommitChunk, TryCommitExported, Reconciles;
    PromoteSpent(c1, chunks[i], outcomes[i], ios[i]);
  }

  // ----- an opened run ------------------------------------------------------------------------

  /** The run with its planned batch in the file, about to commit. */
  function Written(c: Config, chunks: seq<Chunk>): Config {
    c.(disk := c.disk.(lines := c.disk.lines + BatchLines(Selected(chunks, |chunks|))))
  }

  lemma BatchGrowsHashes(lines: seq<Line>, batch: seq<Item>)
    ensures LineHashes(lines) <= LineHashes(lines + BatchLines(batch))
    ensures forall a :: 0 <= a < |batch| ==> batch[a].hash in LineHashes(lines + BatchLines(batch))
  {
    assert forall l :: l in lines ==> l in lines + BatchLines(batch);
    forall a | 0 <= a < |batch|
      ensures batch[a].hash in LineHashes(lines + BatchLines(batch))
    {
      assert BatchLines(batch)[a] == LineOf(batch[a]);
      assert LineOf(batch[a]) in lines + BatchLines(batch);
    }
  }

  /** Opening on an honest disk and writing the batch establishes what the loop needs. */
  lemma OpenedRun(ctx: Ctx, d: Disk, loadOk: bool, indexOk: bool, items: seq<Item>, legacy: bool)
    requires HonestMap(d.store, LineHashes(d.lines), legacy)
    ensures var gate := OpenSession(ctx, d, loadOk, indexOk);
            var chunks := DecideAll(ctx, gate, items);
            var c := Written(StartRun(ctx, d, loadOk, indexOk), chunks);
            var flushed := LineHashes(c.disk.lines);
            && Planned(ctx, gate, chunks, PlanOf(chunks), flushed) && HonestMap(gate.records, flushed, legacy)
            && AiInv(c, flushed, legacy) && c.proc.session == gate && Untouched(c, gate, chunks, 0)
  {
    var gate := OpenSession(ctx, d, loadOk, indexOk);
    var chunks := DecideAll(ctx, gate, items);
    var batch := Selected(chunks, |chunks|);
    BatchGrowsHashes(d.lines, batch);
    var flushed := LineHashes(d.lines + BatchLines(batch));
    HonestyIsMonotone(d.store, LineHashes(d.lines), flushed, legacy);
    assert forall k :: k in gate.records ==> Reconciles(gate.records[k], gate.records[k].status);
    forall i | 0 <= i < |chunks| && PlanOf(chunks)[i].ExportedAs?
      ensures PlanOf(chunks)[i].hash in flushed
    {
      OutcomesMatchBatch(chunks, |chunks|, i);
      assert batch[ExportedBefore(chunks, i)] == chunks[i].item;
    }
    hide Reconciles, Decide, LineHashes, Honest;
  }

  /** The working set of an uncancelled AI run over an honest disk, whichever saves fail, stays
      honest after every prefix of the commit loop if every restarting chunk has its bytes in the
      file, this batch included; and, for records that address a page, only if. */
  lemma WorkingSetHonestIff(ctx: Ctx, d: Disk, loadOk: bool, indexOk: bool, items: seq<Item>, ios: seq<Io>)
    requires |items| == |ios| && HonestMap(d.store, LineHashes(d.lines), false)
    ensures var gate := OpenSession(ctx, d, loadOk, indexOk);
            var chunks := DecideAll(ctx, gate, items);
            var c := Written(StartRun(ctx, d, loadOk, indexOk), chunks);
            var flushed := LineHashes(c.disk.lines);
            var honest := forall n :: 0 <= n <= |chunks| ==>
                            HonestMap(After(c, chunks, PlanOf(chunks), ios, n).proc.session.records, flushed, false);
            && (Backed(gate, chunks, flushed) ==> honest)
            && (Addressed(gate.records) && honest ==> Backed(gate, chunks, flushed))
  {
    var gate := OpenSession(ctx, d, loadOk, indexOk);
    var chunks := DecideAll(ctx, gate, items);
    var c := Written(StartRun(ctx, d, loadOk, indexOk), chunks);
    var flushed := LineHashes(c.disk.lines);
    OpenedRun(ctx, d, loadOk, indexOk, items, false);
    hide OpenSession, DecideAll, LineHashes, After, Planned, Untouched, Restarts, Addressed, PlanOf;
    if Backed(gate, chunks, flushed) {
      forall n | 0 <= n <= |chunks|
        ensures HonestMap(After(c, chunks, PlanOf(chunks), ios, n).proc.session.records, flushed, false)
      {
        PrefixIsHonest(c, gate, chunks, PlanOf(chunks), ios, n, flushed, false);
      }
    } else if Addressed(gate.records) {
      var i :| 0 <= i < |chunks| && Restarts(gate, chunks, i) && chunks[i].item.hash !in flushed;
      RestartInstalls(c, gate, chunks, PlanOf(chunks), ios, i, flushed);
      assert !HonestMap(After(c, chunks, PlanOf(chunks), ios, i + 1).proc.session.records, flushed, false);
    }
  }

  /** A whole AI run, from its decisions to its final persist, with any saves failing and wherever
      the token fires, leaves an honest store if every restarting chunk is backed. */
  lemma AiRunIsHonest(ctx: Ctx, d: Disk, loadOk: bool, indexOk: bool, items: seq<Item>, ios: seq<Io>,
                      finalOk: bool, legacy: bool)
    requires |items| == |ios| && HonestMap(d.store, LineHashes(d.lines), legacy)
    requires var gate := OpenSession(ctx, d, loadOk, indexOk);
             var chunks := DecideAll(ctx, gate, items);
             Backed(gate, chunks, LineHashes(Written(StartRun(ctx, d, loadOk, indexOk), chunks).disk.lines))
    ensures var chunks := DecideAll(ctx, OpenSession(ctx, d, loadOk, indexOk), items);
            var d' := Step(CommitBatch(StartRun(ctx, d, loadOk, indexOk), chunks, ios), Finish(finalOk)).disk;
            HonestMap(d'.store, LineHashes(d'.lines), legacy)
  {
    var gate := OpenSession(ctx, d, loadOk, indexOk);
    var chunks := DecideAll(ctx, gate, items);
    var c := Written(StartRun(ctx, d, loadOk, indexOk), chunks);
    var flushed := LineHashes(c.disk.lines);
    OpenedRun(ctx, d, loadOk, indexOk, items, legacy);
    hide OpenSession, DecideAll, LineHashes, Planned, Untouched, Backed, PlanOf;
    var n := LoopIsAfter(c, chunks, PlanOf(chunks), ios);
    PrefixIsHonest(c, gate, chunks, PlanOf(chunks), ios, n, flushed, legacy);
    var c' := After(c, chunks, PlanOf(chunks), ios, n);
    SaveKeepsHonesty(ctx, c'.proc.session.records, c'.disk, finalOk, legacy);
  }

  // ----- what reaches the store -----------------------------------------------------------------

  /** The reading of the clock before chunk `n`. */
  function TimeAt(ios: seq<Io>, clock: int, n: nat): int
    requires n <= |ios|
  {
    if n == 0 then clock else ios[n - 1].now
  }

  /** A clock that does not go back. */
  ghost predicate InOrder(ios: seq<Io>, clock: int) {
    forall i :: 0 <= i < |ios| ==> TimeAt(ios, clock, i) <= ios[i].now
  }

  lemma ChunkKeepsAhead(c: Config, chunk: Chunk, outcome: AiOutcome, io: Io)
    requires c.proc.phase.Ready? && Ahead(c, io.now)
    ensures Ahead(CommitChunk(c, chunk, outcome, io), io.now)
  {
    var key, s := chunk.item.key, c.proc.session;
    match chunk.decision
    case AlreadyCommitted =>
    case PromoteFromFlushProof =>
      NewRecordsAreStamped(c, chunk.item, io.now);
      hide Ahead, Stamped;
      SettleIsDurable(c, key, PromotedRecord(c.proc.ctx, s, chunk.item, io.now), io);
    case DriveAndCommit =>
      match outcome
      case ExportedAs(hash) =>
        var item := chunk.item.(hash := hash);
        var c1 := c.(proc := c.proc.(phase := AfterFlush(item)));
        assert Ahead(c1, io.now);
        NewRecordsAreStamped(c1, item, io.now);
        hide Ahead, Stamped;
        SettleUnfolds(c1, io);
        SettleIsDurable(c1, key, FlushedRecord(c.proc.ctx, s, item, io.now), io);
      case Invalid(reason) => FailureIsDurable(c, chunk.item, InvalidConfig(reason), io);
      case Duplicate =>
      case NotDriven =>
  }

  lemma {:induction false} PrefixIsAhead(c: Config, chunks: seq<Chunk>, outcomes: seq<AiOutcome>, ios: seq<Io>,
                                         n: nat, clock: int)
    requires |chunks| == |outcomes| == |ios| && n <= |chunks|
    requires c.proc.phase.Ready? && Ahead(c, clock) && InOrder(ios, clock)
    ensures var c' := After(c, chunks, outcomes, ios, n); Ahead(c', TimeAt(ios, clock, n)) && c'.proc.phase.Ready?
  {
    if n > 0 {
      PrefixIsAhead(c, chunks, outcomes, ios, n - 1, clock);
      var c1 := After(c, chunks, outcomes, ios, n - 1);
      ClockAdvances(c1, TimeAt(ios, clock, n - 1), ios[n - 1].now);
      hide CommitChunk, Ahead;
      ChunkKeepsAhead(c1, chunks[n - 1], outcomes[n - 1], ios[n - 1]);
      ChunkTouchesOneSlot(c1, chunks[n - 1], outcomes[n - 1], ios[n - 1]);
    }
  }

  lemma {:induction false} PrefixKeepsLines(c: Config, chunks: seq<Chunk>, outcomes: seq<AiOutcome>, ios: seq<Io>,
                                            n: nat)
    requires |chunks| == |outcomes| == |ios| && n <= |chunks| && c.proc.phase.Ready?
    ensures var c' := After(c, chunks, outcomes, ios, n);
            c'.disk.lines == c.disk.lines && c'.proc.phase.Ready? && c'.proc.ctx == c.proc.ctx
  {
    if n > 0 {
      PrefixKeepsLines(c, chunks, outcomes, ios, n - 1);
      hide CommitChunk;
      ChunkTouchesOneSlot(After(c, chunks, outcomes, ios, n - 1), chunks[n - 1], outcomes[n - 1], ios[n - 1]);
    }
  }

  ghost predicate StoresHonest(c: Config, chunks: seq<Chunk>, outcomes: seq<AiOutcome>, ios: seq<Io>,
                               flushed: set<string>)
    requires |chunks| == |outcomes| == |ios|
  {
    forall n :: 0 <= n <= |chunks| ==>
      HonestMap(Step(After(c, chunks, outcomes, ios, n), Finish(true)).disk.store, flushed, false)
  }

  lemma BackedStores(c: Config, gate: Session, chunks: seq<Chunk>, outcomes: seq<AiOutcome>, ios: seq<Io>,
                     flushed: set<string>)
    requires |chunks| == |outcomes| == |ios|
    requires Planned(c.proc.ctx, gate, chunks, outcomes, flushed) && HonestMap(gate.records, flushed, false)
    requires AiInv(c, flushed, false) && Untouched(c, gate, chunks, 0) && Backed(gate, chunks, flushed)
    ensures StoresHonest(c, chunks, outcomes, ios, flushed)
  {
    hide Planned, Untouched, Backed, Transact;
    forall n | 0 <= n <= |chunks|
      ensures HonestMap(Step(After(c, chunks, outcomes, ios, n), Finish(true)).disk.store, flushed, false)
    {
      PrefixIsHonest(c, gate, chunks, outcomes, ios, n, flushed, false);
      var c' := After(c, chunks, outcomes, ios, n);
      SaveKeepsHonesty(c'.proc.ctx, c'.proc.session.records, c'.disk, true, false);
      hide After;
    }
  }

  lemma UnbackedStore(c: Config, gate: Session, chunks: seq<Chunk>, outcomes: seq<AiOutcome>, ios: seq<Io>,
                      i: nat, flushed: set<string>, clock: int)
    requires |chunks| == |outcomes| == |ios| && i < |chunks| && c.proc.phase.Ready? && c.proc.session == gate
    requires Planned(c.proc.ctx, gate, chunks, outcomes, flushed) && Addressed(gate.records)
    requires Ahead(c, clock) && InOrder(ios, clock)
    requires Restarts(gate, chunks, i) && chunks[i].item.hash !in flushed
    ensures !StoresHonest(c, chunks, outcomes, ios, flushed)
  {
    hide Planned, Restarts, Addressed, Ahead, InOrder;
    RestartInstalls(c, gate, chunks, outcomes, ios, i, flushed);
    PrefixIsAhead(c, chunks, outcomes, ios, i + 1, clock);
    PrefixKeepsLines(c, chunks, outcomes, ios, i + 1);
    hide After;
    var c' := After(c, chunks, outcomes, ios, i + 1);
    SaveIsDurable(c', ios[i].now);
    hide Save;
    assert !HonestMap(Step(c', Finish(true)).disk.store, flushed, false);
  }

  /** The store that a run leaves when it stops after any prefix of the loop, with a working final
      persist and a clock that does not go back, is honest for every prefix if and only if every
      restarting chunk has its bytes in the file. The other saves may fail. */
  lemma {:induction false} StoreHonestIff(ctx: Ctx, d: Disk, loadOk: bool, indexOk: bool, items: seq<Item>,
                                          ios: seq<Io>, clock: int)
    requires |items| == |ios| && HonestMap(d.store, LineHashes(d.lines), false)
    requires Addressed(d.store) && NoNewerThan(d.store, clock) && InOrder(ios, clock)
    ensures var gate := OpenSession(ctx, d, loadOk, indexOk);
            var chunks := DecideAll(ctx, gate, items);
            var c := Written(StartRun(ctx, d, loadOk, indexOk), chunks);
            var flushed := LineHashes(c.disk.lines);
            StoresHonest(c, chunks, PlanOf(chunks), ios, flushed) <==> Backed(gate, chunks, flushed)
  {
    var gate := OpenSession(ctx, d, loadOk, indexOk);
    var chunks := DecideAll(ctx, gate, items);
    var c := Written(StartRun(ctx, d, loadOk, indexOk), chunks);
    var flushed := LineHashes(c.disk.lines);
    OpenedRun(ctx, d, loadOk, indexOk, items, false);
    OpenIsAhead(ctx, d, loadOk, indexOk, clock);
    assert Addressed(gate.records) && Ahead(c, clock);
    hide OpenSession, DecideAll, LineHashes, Planned, Untouched, Restarts, Addressed, PlanOf, StoresHonest, AiInv;
    if Backed(gate, chunks, flushed) {
      BackedStores(c, gate, chunks, PlanOf(chunks), ios, flushed);
    } else {
      var i :| 0 <= i < |chunks| && Restarts(gate, chunks, i) && chunks[i].item.hash !in flushed;
      UnbackedStore(c, gate, chunks, PlanOf(chunks), ios, i, flushed, clock);
    }
  }

  /** A run that is not backed: two chunks of one page whose record is EXPORTED are both promoted,
      and the second leaves a COMMITTED record for bytes that were never written. */
  lemma UnsafePromotionCommitsUnwritten(c: Config, a: Item, b: Item, io: Io)
    requires c.proc.ctx.Tracked? && c.proc.ctx.resume && c.proc.phase.Ready?
    requires a.key == b.key && a.key in c.proc.session.records
    requires var r := c.proc.session.records[a.key];
             && TryCommitExported(r).Some? && !MeaninglessIdentity(r.canonicalUrl)
             && r.contentHash.Some? && r.contentHash.value in c.proc.session.hashIndex
    requires b.hash !in LineHashes(c.disk.lines)
    ensures Decide(c.proc.ctx, c.proc.session, a.key, a.hash).PromoteFromFlushProof?
    ensures Decide(c.proc.ctx, c.proc.session, b.key, b.hash).PromoteFromFlushProof?
    ensures var c' := CommitOutcomes(c, [Chunk(a, PromoteFromFlushProof), Chunk(b, PromoteFromFlushProof)],
                                     [NotDriven, NotDriven], [io.(cancelled := false), io]);
            && c'.disk.lines == c.disk.lines
            && b.key in c'.proc.session.records && Reconciles(c'.proc.session.records[b.key], Committed)
            && c'.proc.session.records[b.key].contentHash == Some(b.hash)
  {
    var io' := io.(cancelled := false);
    var r := c.proc.session.records[a.key];
    var c1 := CommitChunk(c, Chunk(a, PromoteFromFlushProof), NotDriven, io');
    SettleUnfolds(Install(c, a.key, Some(r), io'.checkpointOk), io');
    CommitAcceptsExactly(r);
    var r1 := c1.proc.session.records[a.key];
    assert r1 == r.(status := PageStatus.Committed);
    DriveKeepsIdentity(r1, c.proc.ctx.runId, io.now);
    var promoted := PromotedRecord(c1.proc.ctx, c1.proc.session, b, io.now);
    var c2 := CommitChunk(c1, Chunk(b, PromoteFromFlushProof), NotDriven, io);
    SettleUnfolds(Install(c1, b.key, promoted, io.checkpointOk), io);
    CommitAcceptsExactly(promoted.value);
    var rest := [Chunk(b, PromoteFromFlushProof)];
    assert [Chunk(a, PromoteFromFlushProof), Chunk(b, PromoteFromFlushProof)][1..] == rest;
    assert CommitOutcomes(c1, rest, [NotDriven], [io]) == c2;
    assert [NotDriven, NotDriven][1..] == [NotDriven] && [io', io][1..] == [io];
  }
}
