/** The commit session as the program runs it: an object that updates its record map and its
    claims in place, and the loop over a batch of results. Each method is proved against the
    step machine of `ExportProtocol`. */
module CommitSession {
  import opened Common
  import opened Records
  import opened ExportProtocol
  import opened CrashSafety
  import AiPlan

  /** The durable side: the output file and the record store. */
  class Files {
    var lines: seq<Line>
    var store: RecordMap

    constructor (lines: seq<Line>, store: RecordMap)
      ensures this.lines == lines && this.store == store
    {
      this.lines, this.store := lines, store;
    }
  }

  /** Index the checksums of the lines already in the output file. */
  method BuildContentHashIndex(lines: seq<Line>) returns (hashes: set<string>)
    ensures forall h :: h in hashes <==> exists i :: 0 <= i < |lines| && lines[i].Checksummed? && lines[i].hash == h
    ensures hashes == LineHashes(lines)
  {
    hashes := {};
    for i := 0 to |lines|
      invariant hashes == LineHashes(lines[..i])
    {
      assert lines[..i + 1] == lines[..i] + [lines[i]];
      if lines[i].Checksummed? {
        hashes := hashes + {lines[i].hash};
        assert lines[i] in lines[..i + 1];
      }
    }
    assert lines[..|lines|] == lines;
    forall h
      ensures h in hashes <==> exists i :: 0 <= i < |lines| && lines[i].Checksummed? && lines[i].hash == h
    {
      if h in hashes {
        var l :| l in lines && l.Checksummed? && l.hash == h;
        var i :| 0 <= i < |lines| && lines[i] == l;
      }
    }
  }

  /** The part of `records` that is not in `todo`. */
  function Without(records: RecordMap, todo: set<string>): RecordMap {
    map k | k in records && k !in todo :: records[k]
  }

  lemma MergeNothing(durable: RecordMap)
    ensures Merge(map[], durable) == durable
  {
  }

  /** Merging one more record compares it with what is there, and with nothing else. */
  lemma MergeOneMore(mine: RecordMap, durable: RecordMap, key: string, r: RawRecord)
    requires key !in mine
    ensures var m := Merge(mine, durable);
            Merge(mine[key := r], durable) == if key in m && m[key].updatedAt > r.updatedAt then m else m[key := r]
  {
  }

  lemma SaveStaysHonest(c: Config, ok: bool, legacy: bool)
    requires ConfigInv(c, legacy)
    ensures HonestMap(Save(c.proc.ctx, c.proc.session.records, c.disk, ok).store, LineHashes(c.disk.lines), legacy)
  {
    SaveKeepsHonesty(c.proc.ctx, c.proc.session.records, c.disk, ok, legacy);
  }

  class Session {
    const ctx: Ctx
    const files: Files
    var records: RecordMap
    var hashIndex: set<string>
    var driven: set<(string, string)>

    /** The run and the disk as a configuration of the step machine, between two items. */
    ghost function State(): Config
      reads this, files
    {
      Config(Disk(files.lines, files.store), Proc(ctx, ExportProtocol.Session(records, hashIndex, driven), Ready))
    }

    constructor Open(ctx: Ctx, files: Files, loadOk: bool, indexOk: bool)
      ensures this.ctx == ctx && this.files == files
      ensures State() == StartRun(ctx, Disk(files.lines, files.store), loadOk, indexOk)
      ensures driven == {} && (!indexOk ==> hashIndex == {}) && (ctx.Bare? || !loadOk ==> records == map[])
      ensures ctx.Tracked? && loadOk ==>
                forall k :: (k in records <==> k in files.store && ValidRecord(files.store[k]))
                            && (k in records ==> records[k] == files.store[k])
    {
      this.ctx, this.files := ctx, files;
      records := if ctx.Tracked? && loadOk then Kept(files.store) else map[];
      driven := {};
      var index := {};
      if indexOk {
        index := BuildContentHashIndex(files.lines);
      }
      hashIndex := index;
    }

    /** Claim one append of this run; false when the pair was appended before. */
    method ClaimAppend(url: string, hash: string) returns (first: bool)
      modifies this`driven
      ensures first <==> (url, hash) !in old(driven)
      ensures driven == old(driven) + {(url, hash)}
    {
      first := (url, hash) !in driven;
      driven := driven + {(url, hash)};
    }

    /** The store transaction: merge the working set into what is durable right now. */
    method MergePersist(saveOk: bool)
      modifies files`store
      ensures State().disk == Save(ctx, records, old(State().disk), saveOk)
    {
      if ctx.Bare? || !saveOk {
        return;
      }
      hide Merge, Kept;
      var durable := Kept(files.store);
      var current := durable;
      var todo := records.Keys;
      MergeNothing(durable);
      assert Without(records, todo) == map[];
      while todo != {}
        invariant todo <= records.Keys && current == Merge(Without(records, todo), durable)
        decreases todo
      {
        var key :| key in todo;
        MergeOneMore(Without(records, todo), durable, key, records[key]);
        assert Without(records, todo - {key}) == Without(records, todo)[key := records[key]];
        if !(key in current && current[key].updatedAt > records[key].updatedAt) {
          current := current[key := records[key]];
        }
        todo := todo - {key};
      }
      assert Without(records, todo) == records;
      files.store := current;
    }

    /** D3 steps 4 and 5 on the slot `key`: the commit-point swap and its save. */
    method CommitPoint(key: string, saveOk: bool)
      modifies this`records, files`store
      ensures State() == CommitSlot(old(State()), key, saveOk)
    {
      if key in records && TryCommitExported(records[key]).Some? {
        records := records[key := TryCommitExported(records[key]).value];
        MergePersist(saveOk);
      }
    }

    /** D3 steps 2 to 5 for a record that is ready to be checkpointed. */
    method CheckpointAndCommit(key: string, exported: RawRecord, io: Io)
      modifies this`records, files`store
      ensures State() == Settle(Install(old(State()), key, Some(exported), io.checkpointOk), io)
    {
      records := records[key := exported];
      MergePersist(io.checkpointOk);
      CommitPoint(key, io.commitOk);
    }

    method PromoteFromFlushProof(item: Item, io: Io)
      requires ctx.Tracked?
      modifies this`records, files`store
      ensures State() == Settle(Install(old(State()), item.key,
                                        PromotedRecord(ctx, old(State()).proc.session, item, io.now),
                                        io.checkpointOk), io)
    {
      var record := if item.key in records then Some(records[item.key])
                    else NewDiscovered(item.url, item.key, ctx.runId, io.now);
      if record.None? {
        assert records - {item.key} == records;
        return;
      }
      var exported := record.value;
      if !(exported.status.Exported? && Reconciles(exported, Exported)) {
        var processed := DriveToProcessed(exported, ctx.runId, io.now);
        if processed.None? {
          records := records - {item.key};
          return;
        }
        var wasExported := exported.status.Exported?;
        exported := processed.value.(updatedAt := io.now, contentHash := Some(item.hash), status := Exported);
        if !wasExported {
          exported := exported.(attempts := exported.attempts + 1, lastError := None);
          if exported.outputLocation.None? {
            exported := exported.(outputLocation := Some(ctx.location));
          }
        }
      }
      CheckpointAndCommit(item.key, exported, io);
    }

    /** Record a failure at the record's own status. */
    method FailItem(item: Item, e: ExporterError, io: Io)
      modifies this`records, files`store
      ensures State() == RecordFailure(old(State()), item, e, io.now, io.checkpointOk)
    {
      if ctx.Bare? {
        return;
      }
      var record := if item.key in records then Some(records[item.key])
                    else NewDiscovered(item.url, item.key, ctx.runId, io.now);
      if record.None? {
        return;
      }
      records := records[item.key := record.value.(
        attempts := record.value.attempts + 1,
        lastError := Some(LastError(ClassifyExportFailure(e), e.message)),
        updatedAt := io.now)];
      MergePersist(io.checkpointOk);
    }

    /** D3 steps 2 to 5 for one flushed item. */
    method CommitItem(item: Item, io: Io)
      modifies this`records, files`store
      ensures State() == Settle(old(State()).(proc := old(State()).proc.(phase := AfterFlush(item))), io)
    {
      var key := item.key;
      var existing := if key in records && !Terminal(records[key].status) then Some(records[key]) else None;
      var processed;
      if existing.Some? {
        processed := DriveToProcessed(existing.value, ctx.runId, io.now);
      } else {
        processed := DriveToProcessedFresh(item, ctx.runId, io.now);
      }
      if processed.None? {
        records := records - {key};
        return;
      }
      var payload := processed.value;
      payload := payload.(runId := ctx.runId, contentHash := Some(item.hash));
      payload := payload.(outputLocation := Some(ctx.location), attempts := payload.attempts + 1);
      payload := payload.(lastError := None, updatedAt := io.now);
      ghost var before := old(State()).(proc := old(State()).proc.(phase := AfterFlush(item)));
      assert payload.(status := Exported) == FlushedRecord(ctx, before.proc.session, item, io.now).value;
      CheckpointAndCommit(key, payload.(status := Exported), io);
      SettleUnfolds(before, io);
    }

    /** One item: claim, decide, then promote, or flush and commit, or record the failure. */
    method ProcessSingleItem(item: Item, io: Io) returns (outcome: Outcome)
      modifies this`records, this`driven, files
      ensures State() == ProcessItem(old(State()), item, io)
      ensures outcome == ItemOutcome(old(State()), item, io)
    {
      hide FlushedRecord, FailedRecord, Save, TryCommitExported, NewDiscovered, CommitSlot;
      var cancelled := ctx.Tracked? && io.cancelled;
      var first := ClaimAppend(item.url, item.hash);
      if !first {
        assert driven == old(driven);
        return Skipped;
      }
      match Decide(ctx, ExportProtocol.Session(records, hashIndex, driven), item.key, item.hash)
      case AlreadyCommitted =>
        return Skipped;
      case PromoteFromFlushProof =>
        PromoteFromFlushProof(item, io);
        return if cancelled then Cancelled else Driven;
      case DriveAndCommit =>
        if item.defect.Some? {
          FailItem(item, InvalidConfig(item.defect.value), io);
          return Skipped;
        }
        if io.written.Flushed? || io.written.landed {
          files.lines := files.lines + [LineOf(item)];
        }
        if io.written.Flushed? {
          CommitItem(item, io);
          return if cancelled then Cancelled else Driven;
        }
        FailItem(item, io.written.error, io);
        return if cancelled then Cancelled else Skipped;
    }

    /** The loop of `process_results` followed by the final persist. */
    method ProcessResults(items: seq<Item>, ios: seq<Io>, finalOk: bool) returns (urls: seq<string>)
      requires |items| == |ios|
      modifies this`records, this`driven, files
      ensures var r := RunItems(old(State()), items, ios);
              && State().disk == Step(r.config, Finish(finalOk)).disk
              && State().proc.session == r.config.proc.session
              && urls == r.urls
      ensures forall legacy :: ConfigInv(old(State()), legacy) ==>
                HonestMap(files.store, LineHashes(files.lines), legacy)
    {
      hide ProcessItem, ItemOutcome, Save, ConfigInv, HonestMap;
      urls := [];
      var i := 0;
      ghost var start := State();
      while i < |items|
        invariant 0 <= i <= |items|
        invariant RunItems(start, items, ios).config == RunItems(State(), items[i..], ios[i..]).config
        invariant RunItems(start, items, ios).urls == urls + RunItems(State(), items[i..], ios[i..]).urls
      {
        var outcome := ProcessSingleItem(items[i], ios[i]);
        assert items[i..][1..] == items[i + 1..] && ios[i..][1..] == ios[i + 1..];
        if outcome.Driven? {
          urls := urls + [items[i].url];
        }
        i := i + 1;
        if outcome.Cancelled? {
          break;
        }
      }
      forall legacy | ConfigInv(start, legacy)
        ensures HonestMap(Save(ctx, records, State().disk, finalOk).store, LineHashes(files.lines), legacy)
      {
        LoopKeepsInv(start, items, ios, legacy);
        SaveStaysHonest(State(), finalOk, legacy);
      }
      MergePersist(finalOk);
    }

    /** The commit loop of the AI path. */
    method CommitAiOutcomes(chunks: seq<AiPlan.Chunk>, outcomes: seq<AiPlan.AiOutcome>, ios: seq<Io>)
      requires |chunks| == |outcomes| == |ios|
      modifies this`records, files`store
      ensures State() == AiPlan.CommitOutcomes(old(State()), chunks, outcomes, ios)
    {
      ghost var start := State();
      var i := 0;
      while i < |chunks|
        invariant 0 <= i <= |chunks|
        invariant AiPlan.CommitOutcomes(start, chunks, outcomes, ios)
               == AiPlan.CommitOutcomes(State(), chunks[i..], outcomes[i..], ios[i..])
      {
        assert chunks[i..][1..] == chunks[i + 1..] && outcomes[i..][1..] == outcomes[i + 1..]
               && ios[i..][1..] == ios[i + 1..];
        match chunks[i].decision {
          case AlreadyCommitted =>
          case PromoteFromFlushProof =>
            if ctx.Tracked? {
              PromoteFromFlushProof(chunks[i].item, ios[i]);
            }
          case DriveAndCommit =>
            match outcomes[i] {
              case ExportedAs(hash) => CommitItem(chunks[i].item.(hash := hash), ios[i]);
              case Invalid(reason) => FailItem(chunks[i].item, InvalidConfig(reason), ios[i]);
              case Duplicate =>
              case NotDriven =>
            }
        }
        if !chunks[i].decision.AlreadyCommitted? && ctx.Tracked? && ios[i].cancelled {
          return;
        }
        i := i + 1;
      }
    }

    /** The AI export on a freshly opened session: decide, plan, append the batch, commit. A batch
        that fails may leave `landed` of its lines behind and commits nothing. */
    method ProcessResultsWithChunks(items: seq<Item>, batchError: Option<ExporterError>, landed: nat, ios: seq<Io>,
                                    finalOk: bool)
      returns (r: Result<seq<string>, ExporterError>)
      requires |items| == |ios|
      modifies this`records, files
      ensures var start := old(State());
              var chunks := AiPlan.DecideAll(ctx, start.proc.session, items);
              var batch := AiPlan.Selected(chunks, |chunks|);
              if batch != [] && batchError.Some? then
                && r == Err(batchError.value) && records == old(records) && files.store == old(files.store)
                && old(files.lines) <= files.lines <= old(files.lines) + AiPlan.BatchLines(batch)
              else
                && r.Ok? && |r.value| == |items| && (forall i :: 0 <= i < |items| ==> r.value[i] == items[i].url)
                && State().disk == Step(AiPlan.CommitBatch(start, chunks, ios), Finish(finalOk)).disk
    {
      var chunks := AiPlan.DecideAll(ctx, ExportProtocol.Session(records, hashIndex, driven), items);
      var outcomes, batch := AiPlan.PlanAiChunks(chunks);
      assert outcomes == AiPlan.PlanOf(chunks);
      if batch != [] {
        var written := AiPlan.BatchLines(batch);
        if batchError.Some? {
          files.lines := files.lines + written[..if landed <= |written| then landed else |written|];
          return Err(batchError.value);
        }
        files.lines := files.lines + written;
      } else {
        assert files.lines + AiPlan.BatchLines(batch) == files.lines;
      }
      CommitAiOutcomes(chunks, outcomes, ios);
      ghost var committed := State();
      assert committed == AiPlan.CommitBatch(old(State()), chunks, ios);
      MergePersist(finalOk);
      r := Ok(seq(|items|, i requires 0 <= i < |items| => items[i].url));
    }
  }
}
