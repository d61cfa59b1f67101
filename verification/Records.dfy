/** The persisted per-URL record and the rules of its lifecycle: the eight-status
    chain, reconciliation, the quarantine table and the commit-point transition. */
module Records {
  import opened Common

  datatype PageStatus =
    | Discovered | Queued | Fetching | Fetched | Extracted | Processed | Exported | Committed

  datatype ErrorClass =
    | TransientRetriable | TransientBackoff | PermanentFatal | InternalFatal | DomainRecoverable

  datatype LastError = LastError(class_: ErrorClass, message: string)

  datatype RawRecord = RawRecord(
    url: string,
    canonicalUrl: string,
    runId: string,
    contentHash: Option<string>,
    attempts: nat,
    status: PageStatus,
    lastError: Option<LastError>,
    outputLocation: Option<string>,
    updatedAt: int)

  type RecordMap = map<string, RawRecord>

  const MIGRATED_V1_RUN_ID := "migrated-v1"

  function Rank(s: PageStatus): nat {
    match s
    case Discovered => 0
    case Queued => 1
    case Fetching => 2
    case Fetched => 3
    case Extracted => 4
    case Processed => 5
    case Exported => 6
    case Committed => 7
  }

  /** Statuses that claim "the bytes are in the output file". */
  predicate Terminal(s: PageStatus) {
    s.Exported? || s.Committed?
  }

  // Unicode White_Space, the set that trimming removes.
  predicate IsWhitespace(c: char) {
    var n := c as int;
    || 9 <= n <= 13 || n == 32 || n == 0x85 || n == 0xA0 || n == 0x1680
    || 0x2000 <= n <= 0x200A || n == 0x2028 || n == 0x2029 || n == 0x202F
    || n == 0x205F || n == 0x3000
  }

  /** Empty after trimming: an identity that can never address a page. */
  predicate MeaninglessIdentity(url: string) {
    forall i :: 0 <= i < |url| ==> IsWhitespace(url[i])
  }

  /** The choke point for new records; None is the source's InvalidRecord error. */
  function NewDiscovered(url: string, canonicalUrl: string, runId: string, now: int): Option<RawRecord> {
    if MeaninglessIdentity(url) || MeaninglessIdentity(canonicalUrl) then None
    else Some(RawRecord(url, canonicalUrl, runId, None, 0, Discovered, None, None, now))
  }

  predicate MigratedV1(r: RawRecord) {
    r.runId == MIGRATED_V1_RUN_ID
  }

  /** Typed-boundary reconciliation: may `r` be reconstructed in state `target`? */
  predicate Reconciles(r: RawRecord, target: PageStatus) {
    && r.status == target
    && (Terminal(target) && !MigratedV1(r) ==> r.outputLocation.Some? && r.contentHash.Some?)
    && (target.Committed? ==> r.lastError.None? && r.attempts >= 1)
  }

  datatype Violation = EmptyUrl | MissingOutputOrHash | CommittedWithError | CommittedWithoutAttempt

  /** The first violated row of the store's invariant table. */
  function InvariantViolation(r: RawRecord): Option<Violation> {
    if MeaninglessIdentity(r.url) then Some(EmptyUrl)
    else if Terminal(r.status) && !MigratedV1(r) && (r.outputLocation.None? || r.contentHash.None?) then
      Some(MissingOutputOrHash)
    else if r.status.Committed? && r.lastError.Some? then Some(CommittedWithError)
    else if r.status.Committed? && r.attempts < 1 then Some(CommittedWithoutAttempt)
    else None
  }

  predicate ValidRecord(r: RawRecord) {
    InvariantViolation(r).None?
  }

  /** What a load keeps: violating records are quarantined, that is, dropped from the view. */
  function Kept(records: RecordMap): RecordMap {
    map k | k in records && ValidRecord(records[k]) :: records[k]
  }

  function NextStatus(s: PageStatus): PageStatus {
    match s
    case Discovered => Queued
    case Queued => Fetching
    case Fetching => Fetched
    case Fetched => Extracted
    case Extracted => Processed
    case Processed => Exported
    case Exported => Committed
    case Committed => Committed
  }

  /** Walk the legal chain, one typed transition at a time, up to PROCESSED. */
  function Walk(r: RawRecord): RawRecord
    requires Rank(r.status) <= Rank(Processed)
    decreases Rank(Processed) - Rank(r.status)
  {
    if r.status.Processed? then r else Walk(r.(status := NextStatus(r.status)))
  }

  /** `drive_to_processed`: continue from the recorded position, or start a fresh lifecycle. */
  function DriveToProcessed(r: RawRecord, runId: string, now: int): Option<RawRecord> {
    if !Terminal(r.status) && Reconciles(r, r.status) then Some(Walk(r))
    else
      match NewDiscovered(r.url, r.canonicalUrl, runId, now)
      case None => None
      case Some(d) => Some(Walk(d))
  }

  /** The commit-point transition: a valid EXPORTED record advances, anything else is refused. */
  function TryCommitExported(r: RawRecord): Option<RawRecord> {
    if MeaninglessIdentity(r.url) || !r.status.Exported? || !Reconciles(r, Exported) then None
    else
      var candidate := r.(status := Committed);
      if ValidRecord(candidate) then Some(candidate) else None
  }

  lemma {:induction false} WalkKeepsPayload(r: RawRecord)
    requires Rank(r.status) <= Rank(Processed)
    ensures Walk(r) == r.(status := Processed)
    decreases Rank(Processed) - Rank(r.status)
  {
    if !r.status.Processed? {
      WalkKeepsPayload(r.(status := NextStatus(r.status)));
    }
  }

  /** The typed boundary and the store's table agree: a record survives a load exactly when
      its identity is meaningful and it reconciles into the state it claims. */
  lemma TableMatchesTypedBoundary(r: RawRecord)
    ensures ValidRecord(r) <==> !MeaninglessIdentity(r.url) && Reconciles(r, r.status)
  {
  }

  /** Exactly which records the commit point accepts, and what it makes of them. */
  lemma CommitAcceptsExactly(r: RawRecord)
    ensures TryCommitExported(r).Some? <==>
            ValidRecord(r) && r.status.Exported? && r.lastError.None? && r.attempts >= 1
    ensures TryCommitExported(r).Some? ==>
              && TryCommitExported(r).value == r.(status := Committed)
              && Reconciles(TryCommitExported(r).value, Committed)
              // exactly once: the successor is not an EXPORTED slot any more
              && TryCommitExported(TryCommitExported(r).value).None?
  {
  }

  /** Re-driving never loses the record's identity, and never carries a hash unless the
      record below EXPORTED already carried one. */
  lemma DriveKeepsIdentity(r: RawRecord, runId: string, now: int)
    ensures var p := DriveToProcessed(r, runId, now);
            && (p.None? ==> Terminal(r.status) && (MeaninglessIdentity(r.url) || MeaninglessIdentity(r.canonicalUrl)))
            && (p.Some? ==> p.value.status.Processed? && p.value.url == r.url && p.value.canonicalUrl == r.canonicalUrl)
            && (p.Some? && !Terminal(r.status) ==> p.value == r.(status := Processed))
            && (p.Some? && Terminal(r.status) ==>
                  p.value.contentHash.None? && p.value.runId == runId && p.value.attempts == 0)
  {
    if !Terminal(r.status) {
      WalkKeepsPayload(r);
    } else {
      match NewDiscovered(r.url, r.canonicalUrl, runId, now)
      case None =>
      case Some(d) => WalkKeepsPayload(d);
    }
  }

  /** The characters that trimming removes, by their code points. */
  lemma WhitespaceIs(c: char)
    ensures IsWhitespace(c) <==>
            c as int in {0x9, 0xA, 0xB, 0xC, 0xD, 0x20, 0x85, 0xA0, 0x1680, 0x2000, 0x2001, 0x2002, 0x2003, 0x2004,
                         0x2005, 0x2006, 0x2007, 0x2008, 0x2009, 0x200A, 0x2028, 0x2029, 0x202F, 0x205F, 0x3000}
  {
  }

  /** The quarantine reason is the first violated rule: identity, then place and hash, then error,
      then attempts. */
  lemma ViolationIsFirst(r: RawRecord)
    ensures var v := InvariantViolation(r);
            var named := !MeaninglessIdentity(r.url);
            var placed := Terminal(r.status) && r.runId != "migrated-v1" ==>
                            r.outputLocation.Some? && r.contentHash.Some?;
            && (v == Some(EmptyUrl) <==> !named)
            && (v == Some(MissingOutputOrHash) <==> named && !placed)
            && (v == Some(CommittedWithError) <==> named && placed && r.status.Committed? && r.lastError.Some?)
            && (v == Some(CommittedWithoutAttempt) <==>
                named && placed && r.status.Committed? && r.lastError.None? && r.attempts == 0)
  {
  }

  /** New records come in one shape, and only for identities that address a page. */
  lemma NewDiscoveredShape(url: string, canonicalUrl: string, runId: string, now: int)
    ensures var rec := NewDiscovered(url, canonicalUrl, runId, now);
            && (rec.Some? <==> (exists i :: 0 <= i < |url| && !IsWhitespace(url[i]))
                               && exists i :: 0 <= i < |canonicalUrl| && !IsWhitespace(canonicalUrl[i]))
            && (rec.Some? ==>
                  var r := rec.value;
                  && r.url == url && r.canonicalUrl == canonicalUrl && r.runId == runId && r.updatedAt == now
                  && r.status.Discovered? && r.attempts == 0
                  && r.contentHash.None? && r.lastError.None? && r.outputLocation.None?)
  {
  }
}
