/** The per-item export protocol on values: what one session decides, which record each
    step produces, and the step machine whose durable effects a crash may cut off anywhere. */
module ExportProtocol {
  import opened Common
  import opened Records

  /** One scraped result. `key` is its canonical URL, `hash` its content digest and `defect`
      the reason why validation rejects it, if it does. */
  datatype Item = Item(url: string, key: string, hash: string, defect: Option<string>)

  /** A line of the output file: one that carries a checksum, or one the index skips. */
  datatype Line = Checksummed(url: string, hash: string) | Unindexed

  /** Everything that survives a crash. */
  datatype Disk = Disk(lines: seq<Line>, store: RecordMap)

  /** Run context: without a record store (`Bare`), or with one and a resume switch. */
  datatype Ctx = Bare(runId: string, location: string) | Tracked(runId: string, location: string, resume: bool)

  /** The in-memory session of one run. */
  datatype Session = Session(records: RecordMap, hashIndex: set<string>, driven: set<(string, string)>)

  datatype Decision = AlreadyCommitted | PromoteFromFlushProof | DriveAndCommit

  datatype ExporterError =
    | Serialization(message: string)
    | InvalidConfig(message: string)
    | Environment(message: string)

  /** What the exporter did: a failed export may still have left its line in the file. */
  datatype ExportResult = Flushed | Failed(error: ExporterError, landed: bool)

  function LineHashes(lines: seq<Line>): set<string> {
    set l | l in lines && l.Checksummed? :: l.hash
  }

  function LineOf(item: Item): Line {
    Checksummed(item.url, item.hash)
  }

  // ----- record store ---------------------------------------------------------------

  /** A writer keeps its own record unless the durable one is strictly newer. */
  predicate MineWins(mine: RecordMap, current: RecordMap, k: string)
    requires k in mine
  {
    !(k in current && current[k].updatedAt > mine[k].updatedAt)
  }

  function Merge(mine: RecordMap, current: RecordMap): RecordMap {
    map k | k in mine.Keys + current.Keys ::
      if k in mine && MineWins(mine, current, k) then mine[k] else current[k]
  }

  /** One locked store update: load (with quarantine), merge, save. */
  function Transact(mine: RecordMap, store: RecordMap): RecordMap {
    Merge(mine, Kept(store))
  }

  /** A save that may fail; a run without a store saves nothing. */
  function Save(ctx: Ctx, mine: RecordMap, d: Disk, ok: bool): Disk {
    if ctx.Tracked? && ok then d.(store := Transact(mine, d.store)) else d
  }

  // ----- session --------------------------------------------------------------------

  /** `loadOk` and `indexOk` say whether the store and the output file could be read:
      an unreadable one degrades to an empty view. */
  function OpenSession(ctx: Ctx, d: Disk, loadOk: bool, indexOk: bool): Session {
    Session(
      if ctx.Tracked? && loadOk then Kept(d.store) else map[],
      if indexOk then LineHashes(d.lines) else {},
      {})
  }

  function Decide(ctx: Ctx, s: Session, key: string, freshHash: string): Decision {
    if ctx.Bare? || !ctx.resume then DriveAndCommit
    else if key in s.records then
      var r := s.records[key];
      if Reconciles(r, Committed) then AlreadyCommitted
      else if r.contentHash.Some? && r.contentHash.value in s.hashIndex then PromoteFromFlushProof
      else DriveAndCommit
    else if freshHash in s.hashIndex then PromoteFromFlushProof
    else DriveAndCommit
  }

  /** The EXPORTED record a flush-proof promotion installs. */
  function PromotedRecord(ctx: Ctx, s: Session, item: Item, now: int): Option<RawRecord> {
    match if item.key in s.records then Some(s.records[item.key])
          else NewDiscovered(item.url, item.key, ctx.runId, now)
    case None => None
    case Some(r) =>
      if r.status.Exported? && Reconciles(r, Exported) then Some(r)
      else
        match DriveToProcessed(r, ctx.runId, now)
        case None => None
        case Some(p) =>
          if r.status.Exported? then
            Some(p.(updatedAt := now, contentHash := Some(item.hash), status := Exported))
          else
            Some(p.(attempts := p.attempts + 1, lastError := None, updatedAt := now,
                    contentHash := Some(item.hash),
                    outputLocation := if p.outputLocation.None? then Some(ctx.location) else p.outputLocation,
                    status := Exported))
  }

  /** The EXPORTED record of an item whose line was just flushed. */
  function FlushedRecord(ctx: Ctx, s: Session, item: Item, now: int): Option<RawRecord> {
    match if item.key in s.records && !Terminal(s.records[item.key].status)
          then DriveToProcessed(s.records[item.key], ctx.runId, now)
          else DriveToProcessedFresh(item, ctx.runId, now)
    case None => None
    case Some(p) =>
      Some(p.(runId := ctx.runId, contentHash := Some(item.hash), outputLocation := Some(ctx.location),
              attempts := p.attempts + 1, lastError := None, updatedAt := now, status := Exported))
  }

  function DriveToProcessedFresh(item: Item, runId: string, now: int): Option<RawRecord> {
    match NewDiscovered(item.url, item.key, runId, now)
    case None => None
    case Some(r) => Some(Walk(r))
  }

  function ClassifyExportFailure(e: ExporterError): ErrorClass {
    if e.Environment? then InternalFatal else DomainRecoverable
  }

  /** The record of a failed item: an attempt and a classified error at the status it had. */
  function FailedRecord(ctx: Ctx, s: Session, item: Item, e: ExporterError, now: int): Option<RawRecord> {
    match if item.key in s.records then Some(s.records[item.key])
          else NewDiscovered(item.url, item.key, ctx.runId, now)
    case None => None
    case Some(r) =>
      Some(r.(attempts := r.attempts + 1,
              lastError := Some(LastError(ClassifyExportFailure(e), e.message)),
              updatedAt := now))
  }

  // ----- step machine ---------------------------------------------------------------

  /** Where a run stands: between items, after a flush, after the EXPORTED checkpoint. */
  datatype Phase = Ready | AfterFlush(item: Item) | AfterCheckpoint(key: string) | Finished

  datatype Proc = Proc(ctx: Ctx, session: Session, phase: Phase)

  /** Steps of one run. Each has at most one durable effect, except that a failed export which left
      its line behind also saves its failure record; a crash between the two leaves what a failing
      save followed by a crash leaves. */
  datatype Action =
    | Take(item: Item, now: int, written: ExportResult, saveOk: bool)
    | Checkpoint(now: int, saveOk: bool)
    | Commit(saveOk: bool)
    | Finish(saveOk: bool)

  /** A run together with the disk it works on. */
  datatype Config = Config(disk: Disk, proc: Proc)

  function WithRecords(p: Proc, records: RecordMap): Proc {
    p.(session := p.session.(records := records))
  }

  /** Install `rec` under `key` and save; a None record leaves the slot empty and ends the item. */
  function Install(c: Config, key: string, rec: Option<RawRecord>, saveOk: bool): Config {
    var s := c.proc.session;
    match rec
    case None => c.(proc := WithRecords(c.proc, s.records - {key}).(phase := Ready))
    case Some(r) =>
      var records := s.records[key := r];
      Config(Save(c.proc.ctx, records, c.disk, saveOk),
             WithRecords(c.proc, records).(phase := AfterCheckpoint(key)))
  }

  function RecordFailure(c: Config, item: Item, e: ExporterError, now: int, saveOk: bool): Config {
    var s := c.proc.session;
    if c.proc.ctx.Bare? then c
    else
      match FailedRecord(c.proc.ctx, s, item, e, now)
      case None => c
      case Some(r) =>
        var records := s.records[item.key := r];
        Config(Save(c.proc.ctx, records, c.disk, saveOk), WithRecords(c.proc, records))
  }

  /** The append-only exporter: flush one line, or fail with or without leaving it behind. */
  function ExportLine(d: Disk, item: Item, written: ExportResult): Disk {
    if written.Flushed? || written.landed then d.(lines := d.lines + [LineOf(item)]) else d
  }

  /** After the claim: the drive path of one item up to its flush, or its recorded failure. */
  function DriveItem(c: Config, item: Item, now: int, written: ExportResult, saveOk: bool): Config {
    if item.defect.Some? then RecordFailure(c, item, InvalidConfig(item.defect.value), now, saveOk)
    else
      var c1 := c.(disk := ExportLine(c.disk, item, written));
      if written.Flushed? then c1.(proc := c1.proc.(phase := AfterFlush(item)))
      else RecordFailure(c1, item, written.error, now, saveOk)
  }

  function TakeItem(c: Config, item: Item, now: int, written: ExportResult, saveOk: bool): Config {
    var s := c.proc.session;
    if (item.url, item.hash) in s.driven then c
    else
      var c1 := c.(proc := c.proc.(session := s.(driven := s.driven + {(item.url, item.hash)})));
      match Decide(c.proc.ctx, s, item.key, item.hash)
      case AlreadyCommitted => c1
      case PromoteFromFlushProof =>
        Install(c1, item.key, PromotedRecord(c.proc.ctx, s, item, now), saveOk)
      case DriveAndCommit => DriveItem(c1, item, now, written, saveOk)
  }

  /** The commit point on the in-memory slot, then its save. */
  function CommitSlot(c: Config, key: string, saveOk: bool): Config {
    var s := c.proc.session;
    var slot := if key in s.records then TryCommitExported(s.records[key]) else None;
    match slot
    case None => c.(proc := c.proc.(phase := Ready))
    case Some(r) =>
      var records := s.records[key := r];
      Config(Save(c.proc.ctx, records, c.disk, saveOk), WithRecords(c.proc, records).(phase := Ready))
  }

  /** One step; an action that the phase does not allow changes nothing. */
  function Step(c: Config, a: Action): Config {
    match (c.proc.phase, a)
    case (Ready, Take(item, now, written, saveOk)) => TakeItem(c, item, now, written, saveOk)
    case (AfterFlush(item), Checkpoint(now, saveOk)) =>
      Install(c, item.key, FlushedRecord(c.proc.ctx, c.proc.session, item, now), saveOk)
    case (AfterCheckpoint(key), Commit(saveOk)) => CommitSlot(c, key, saveOk)
    case (Ready, Finish(saveOk)) =>
      Config(Save(c.proc.ctx, c.proc.session.records, c.disk, saveOk), c.proc.(phase := Finished))
    case _ => c
  }

  // ----- whole runs -----------------------------------------------------------------

  /** Everything the outside world decides while one item is processed. */
  datatype Io = Io(now: int, written: ExportResult, checkpointOk: bool, commitOk: bool, cancelled: bool)

  /** Finish an item that was flushed or checkpointed: the D3 sequence to its end. */
  function Settle(c: Config, io: Io): Config {
    var c1 := if c.proc.phase.AfterFlush? then Step(c, Checkpoint(io.now, io.checkpointOk)) else c;
    if c1.proc.phase.AfterCheckpoint? then Step(c1, Commit(io.commitOk)) else c1
  }

  lemma SettleUnfolds(c: Config, io: Io)
    ensures c.proc.phase.AfterCheckpoint? ==> Settle(c, io) == CommitSlot(c, c.proc.phase.key, io.commitOk)
    ensures c.proc.phase.AfterFlush? ==>
              var x := c.proc.phase.item;
              var c1 := Install(c, x.key, FlushedRecord(c.proc.ctx, c.proc.session, x, io.now), io.checkpointOk);
              Step(c, Checkpoint(io.now, io.checkpointOk)) == c1 && Settle(c, io) == Settle(c1, io)
  {
  }

  /** One item without interruption. */
  function ProcessItem(c: Config, item: Item, io: Io): Config {
    Settle(Step(c, Take(item, io.now, io.written, io.checkpointOk)), io)
  }

  datatype Outcome = Driven | Skipped | Cancelled

  /** How `process_single_item` reports an item; the cancellation token is consulted only
      after a promotion, a commit or an export failure. */
  function ItemOutcome(c: Config, item: Item, io: Io): Outcome {
    var s := c.proc.session;
    if (item.url, item.hash) in s.driven then Skipped
    else match Decide(c.proc.ctx, s, item.key, item.hash)
      case AlreadyCommitted => Skipped
      case PromoteFromFlushProof => if Observes(c.proc.ctx, io) then Cancelled else Driven
      case DriveAndCommit =>
        if item.defect.Some? then Skipped
        else if Observes(c.proc.ctx, io) then Cancelled
        else if io.written.Flushed? then Driven else Skipped
  }

  /** Only a run with a context observes the token. */
  predicate Observes(ctx: Ctx, io: Io) {
    ctx.Tracked? && io.cancelled
  }

  datatype RunResult = RunResult(config: Config, urls: seq<string>)

  /** The loop of `process_results`: stop right after the item that observed cancellation. */
  function RunItems(c: Config, items: seq<Item>, ios: seq<Io>): RunResult
    requires |items| == |ios|
    decreases |items|
  {
    if items == [] then RunResult(c, [])
    else
      var outcome := ItemOutcome(c, items[0], ios[0]);
      var c1 := ProcessItem(c, items[0], ios[0]);
      if outcome.Cancelled? then RunResult(c1, [])
      else
        var rest := RunItems(c1, items[1..], ios[1..]);
        RunResult(rest.config, (if outcome.Driven? then [items[0].url] else []) + rest.urls)
  }

  function StartRun(ctx: Ctx, d: Disk, loadOk: bool, indexOk: bool): Config {
    Config(d, Proc(ctx, OpenSession(ctx, d, loadOk, indexOk), Ready))
  }

  /** A whole run of `process_results`: open, process, final persist. */
  function Run(ctx: Ctx, d: Disk, loadOk: bool, indexOk: bool,
               items: seq<Item>, ios: seq<Io>, finalOk: bool): RunResult
    requires |items| == |ios|
  {
    var r := RunItems(StartRun(ctx, d, loadOk, indexOk), items, ios);
    RunResult(Step(r.config, Finish(finalOk)), r.urls)
  }
}
