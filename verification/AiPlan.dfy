/** The AI export path: a plan made before anything is written, one batch append, and a commit
    loop that may mark only what was written. */
module AiPlan {
  import opened Common
  import opened ExportProtocol

  /** One chunk with the resume decision taken for it before the export. */
  datatype Chunk = Chunk(item: Item, decision: Decision)

  datatype AiOutcome = NotDriven | ExportedAs(hash: string) | Duplicate | Invalid(reason: string)

  /** Chunks that may reach the file: driven by the gate and accepted by validation. */
  predicate Eligible(c: Chunk) {
    c.decision.DriveAndCommit? && c.item.defect.None?
  }

  function IdentityOf(x: Item): (string, string) {
    (x.url, x.hash)
  }

  predicate SameIdentity(a: Chunk, b: Chunk) {
    IdentityOf(a.item) == IdentityOf(b.item)
  }

  /** First eligible occurrence of its (url, hash) pair. */
  predicate FirstOccurrence(chunks: seq<Chunk>, i: nat)
    requires i < |chunks|
  {
    Eligible(chunks[i]) && forall j :: 0 <= j < i && Eligible(chunks[j]) ==> !SameIdentity(chunks[j], chunks[i])
  }

  /** The specification, position by position. */
  function PlannedOutcome(chunks: seq<Chunk>, i: nat): AiOutcome
    requires i < |chunks|
  {
    if !chunks[i].decision.DriveAndCommit? then NotDriven
    else if chunks[i].item.defect.Some? then Invalid(chunks[i].item.defect.value)
    else if FirstOccurrence(chunks, i) then ExportedAs(chunks[i].item.hash)
    else Duplicate
  }

  /** The items at the positions `i < n` that are first occurrences, in order. */
  function Selected(chunks: seq<Chunk>, n: nat): seq<Item>
    requires n <= |chunks|
  {
    if n == 0 then []
    else Selected(chunks, n - 1) + (if FirstOccurrence(chunks, n - 1) then [chunks[n - 1].item] else [])
  }

  method PlanAiChunks(chunks: seq<Chunk>) returns (outcomes: seq<AiOutcome>, batch: seq<Item>)
    ensures |outcomes| == |chunks|
    ensures forall i :: 0 <= i < |chunks| ==> outcomes[i] == PlannedOutcome(chunks, i)
    ensures batch == Selected(chunks, |chunks|)
  {
    var drivenKeys: set<(string, string)> := {};
    outcomes, batch := [], [];
    var n := 0;
    while n < |chunks|
      invariant 0 <= n <= |chunks| && |outcomes| == n
      invariant forall i :: 0 <= i < n ==> outcomes[i] == PlannedOutcome(chunks, i)
      invariant batch == Selected(chunks, n)
      invariant forall u, h :: (u, h) in drivenKeys <==>
                  exists j :: 0 <= j < n && Eligible(chunks[j]) && chunks[j].item.url == u && chunks[j].item.hash == h
    {
      var item := chunks[n].item;
      if !chunks[n].decision.DriveAndCommit? {
        outcomes := outcomes + [NotDriven];
      } else if item.defect.Some? {
        outcomes := outcomes + [Invalid(item.defect.value)];
      } else if (item.url, item.hash) in drivenKeys {
        outcomes := outcomes + [Duplicate];
      } else {
        drivenKeys := drivenKeys + {(item.url, item.hash)};
        outcomes := outcomes + [ExportedAs(item.hash)];
        batch := batch + [item];
      }
      n := n + 1;
    }
  }

  // ----- what the plan means ----------------------------------------------------------

  /** The plan in terms of the chunks alone: which are not driven, rejected and why, exported and as
      what, and duplicates of an earlier chunk that is driven and valid. */
  lemma PlanIsExact(chunks: seq<Chunk>, i: nat)
    requires i < |chunks|
    ensures var outcome, item := PlannedOutcome(chunks, i), chunks[i].item;
            var driven := chunks[i].decision.DriveAndCommit?;
            var repeated := exists j :: 0 <= j < i && chunks[j].decision.DriveAndCommit? && chunks[j].item.defect.None?
                                        && chunks[j].item.url == item.url && chunks[j].item.hash == item.hash;
            && (outcome.NotDriven? <==> !driven)
            && (forall reason :: outcome == Invalid(reason) <==> driven && item.defect == Some(reason))
            && (outcome == ExportedAs(item.hash) <==> driven && item.defect.None? && !repeated)
            && (outcome.ExportedAs? ==> outcome.hash == item.hash)
            && (outcome.Duplicate? <==> driven && item.defect.None? && repeated)
  {
    assert forall j :: 0 <= j < i ==> (SameIdentity(chunks[j], chunks[i]) <==>
                                       chunks[j].item.url == chunks[i].item.url
                                         && chunks[j].item.hash == chunks[i].item.hash);
  }

  /** Exported outcomes and batch entries match one to one and in order: the batch entry of a
      first occurrence sits at the number of Exported outcomes before it. */
  function ExportedBefore(chunks: seq<Chunk>, n: nat): nat
    requires n <= |chunks|
  {
    if n == 0 then 0 else ExportedBefore(chunks, n - 1) + (if PlannedOutcome(chunks, n - 1).ExportedAs? then 1 else 0)
  }

  lemma {:induction false} OutcomesMatchBatch(chunks: seq<Chunk>, n: nat, i: nat)
    requires i < n <= |chunks|
    ensures |Selected(chunks, n)| == ExportedBefore(chunks, n)
    ensures PlannedOutcome(chunks, i).ExportedAs? ==>
              && ExportedBefore(chunks, i) < |Selected(chunks, n)|
              && Selected(chunks, n)[ExportedBefore(chunks, i)] == chunks[i].item
              && PlannedOutcome(chunks, i).hash == chunks[i].item.hash
    decreases n
  {
    if i < n - 1 {
      OutcomesMatchBatch(chunks, n - 1, i);
    } else {
      SelectedLength(chunks, i);
    }
  }

  lemma {:induction false} SelectedLength(chunks: seq<Chunk>, n: nat)
    requires n <= |chunks|
    ensures |Selected(chunks, n)| == ExportedBefore(chunks, n)
  {
    if n > 0 {
      SelectedLength(chunks, n - 1);
    }
  }

  /** Every batch entry comes from the first occurrence at its own position. */
  lemma {:induction false} EntryHasOrigin(chunks: seq<Chunk>, n: nat, a: nat) returns (i: nat)
    requires n <= |chunks| && a < |Selected(chunks, n)|
    ensures i < n && FirstOccurrence(chunks, i) && chunks[i].item == Selected(chunks, n)[a]
            && ExportedBefore(chunks, i) == a
  {
    SelectedLength(chunks, n - 1);
    if a < |Selected(chunks, n - 1)| {
      i := EntryHasOrigin(chunks, n - 1, a);
    } else {
      i := n - 1;
    }
  }

  lemma {:induction false} HasFirstOccurrence(chunks: seq<Chunk>, i: nat) returns (f: nat)
    requires i < |chunks| && Eligible(chunks[i])
    ensures f <= i && FirstOccurrence(chunks, f) && SameIdentity(chunks[f], chunks[i])
    decreases i
  {
    f := i;
    if !FirstOccurrence(chunks, i) {
      var j :| 0 <= j < i && Eligible(chunks[j]) && SameIdentity(chunks[j], chunks[i]);
      f := HasFirstOccurrence(chunks, j);
    }
  }

  ghost predicate FromEligible(chunks: seq<Chunk>, x: Item) {
    exists i :: 0 <= i < |chunks| && Eligible(chunks[i]) && chunks[i].item == x
  }

  /** The batch holds every eligible identity exactly once, and nothing else. */
  lemma BatchIsExact(chunks: seq<Chunk>)
    ensures var batch := Selected(chunks, |chunks|);
            && (forall a, b :: 0 <= a < b < |batch| ==> IdentityOf(batch[a]) != IdentityOf(batch[b]))
            && (forall a :: 0 <= a < |batch| ==> FromEligible(chunks, batch[a]))
            && (forall i :: 0 <= i < |chunks| && Eligible(chunks[i]) ==>
                  exists a :: 0 <= a < |batch| && IdentityOf(batch[a]) == IdentityOf(chunks[i].item))
  {
    var batch := Selected(chunks, |chunks|);
    forall a, b | 0 <= a < b < |batch|
      ensures IdentityOf(batch[a]) != IdentityOf(batch[b])
    {
      var i := EntryHasOrigin(chunks, |chunks|, a);
      var j := EntryHasOrigin(chunks, |chunks|, b);
      assert i != j;
    }
    forall a | 0 <= a < |batch|
      ensures FromEligible(chunks, batch[a])
    {
      var i := EntryHasOrigin(chunks, |chunks|, a);
    }
    forall i | 0 <= i < |chunks| && Eligible(chunks[i])
      ensures exists a :: 0 <= a < |batch| && IdentityOf(batch[a]) == IdentityOf(chunks[i].item)
    {
      var f := HasFirstOccurrence(chunks, i);
      OutcomesMatchBatch(chunks, |chunks|, f);
      assert batch[ExportedBefore(chunks, f)] == chunks[f].item;
    }
  }

  function Without(chunks: seq<Chunk>, d: nat): seq<Chunk>
    requires d < |chunks|
  {
    chunks[..d] + chunks[d + 1..]
  }

  /** Deleting a chunk that validation rejects changes no other chunk's outcome. */
  lemma DeletingInvalidIsInvisible(chunks: seq<Chunk>, d: nat, i: nat)
    requires d < |chunks| && i < |chunks| && i != d && chunks[d].item.defect.Some?
    ensures PlannedOutcome(Without(chunks, d), if i < d then i else i - 1) == PlannedOutcome(chunks, i)
  {
    var rest := Without(chunks, d);
    var i' := if i < d then i else i - 1;
    assert rest[i'] == chunks[i];
    if FirstOccurrence(rest, i') {
      forall j | 0 <= j < i && Eligible(chunks[j])
        ensures !SameIdentity(chunks[j], chunks[i])
      {
        var j' := if j < d then j else j - 1;
        assert j' < i' && rest[j'] == chunks[j];
      }
    }
    if FirstOccurrence(chunks, i) {
      forall j | 0 <= j < i' && Eligible(rest[j])
        ensures !SameIdentity(rest[j], rest[i'])
      {
        var j' := if j < d then j else j + 1;
        assert j' < i && chunks[j'] == rest[j];
      }
    }
  }

  // ----- commit loop ------------------------------------------------------------------

  /** The decisions, taken up front on the freshly opened session. */
  function DecideAll(ctx: Ctx, s: Session, items: seq<Item>): seq<Chunk> {
    seq(|items|, i requires 0 <= i < |items| => Chunk(items[i], Decide(ctx, s, items[i].key, items[i].hash)))
  }

  function BatchLines(batch: seq<Item>): seq<Line> {
    seq(|batch|, i requires 0 <= i < |batch| => LineOf(batch[i]))
  }

  /** One chunk of `commit_ai_outcomes`. */
  function CommitChunk(c: Config, chunk: Chunk, outcome: AiOutcome, io: Io): Config {
    match chunk.decision
    case AlreadyCommitted => c
    case PromoteFromFlushProof =>
      if c.proc.ctx.Bare? then c
      else Settle(Install(c, chunk.item.key, PromotedRecord(c.proc.ctx, c.proc.session, chunk.item, io.now),
                          io.checkpointOk), io)
    case DriveAndCommit =>
      match outcome
      case ExportedAs(hash) =>
        Settle(c.(proc := c.proc.(phase := AfterFlush(chunk.item.(hash := hash)))), io)
      case Invalid(reason) => RecordFailure(c, chunk.item, InvalidConfig(reason), io.now, io.checkpointOk)
      case Duplicate => c
      case NotDriven => c
  }

  /** The loop; a cancelled run stops after the chunk that observed the token. */
  function CommitOutcomes(c: Config, chunks: seq<Chunk>, outcomes: seq<AiOutcome>, ios: seq<Io>): Config
    requires |chunks| == |outcomes| == |ios|
    decreases |chunks|
  {
    if chunks == [] then c
    else
      var c1 := CommitChunk(c, chunks[0], outcomes[0], ios[0]);
      if !chunks[0].decision.AlreadyCommitted? && Observes(c.proc.ctx, ios[0]) then c1
      else CommitOutcomes(c1, chunks[1..], outcomes[1..], ios[1..])
  }

  function PlanOf(chunks: seq<Chunk>): seq<AiOutcome> {
    seq(|chunks|, i requires 0 <= i < |chunks| => PlannedOutcome(chunks, i))
  }

  /** Append the planned batch, then commit its outcomes. */
  function CommitBatch(c: Config, chunks: seq<Chunk>, ios: seq<Io>): Config
    requires |chunks| == |ios|
  {
    CommitOutcomes(c.(disk := c.disk.(lines := c.disk.lines + BatchLines(Selected(chunks, |chunks|)))), chunks,
                   PlanOf(chunks), ios)
  }
}
