/** Cooperative cancellation: a cancelled run is an uncancelled run over a prefix. */
module Cancellation {
  import opened Records
  import opened ExportProtocol

  function Uncancelled(ios: seq<Io>): seq<Io> {
    seq(|ios|, i requires 0 <= i < |ios| => ios[i].(cancelled := false))
  }

  /** How many items the loop processes before it stops. */
  function StopAt(c: Config, items: seq<Item>, ios: seq<Io>): (n: nat)
    requires |items| == |ios|
    ensures n <= |items|
    decreases |items|
  {
    if items == [] then 0
    else if ItemOutcome(c, items[0], ios[0]).Cancelled? then 1
    else 1 + StopAt(ProcessItem(c, items[0], ios[0]), items[1..], ios[1..])
  }

  /** How many of them count for the returned URLs: the item that observed the token does not. */
  function Reported(c: Config, items: seq<Item>, ios: seq<Io>): (n: nat)
    requires |items| == |ios|
    ensures n <= |items|
    decreases |items|
  {
    if items == [] || ItemOutcome(c, items[0], ios[0]).Cancelled? then 0
    else 1 + Reported(ProcessItem(c, items[0], ios[0]), items[1..], ios[1..])
  }

  /** Every item is settled before the token is looked at again. */
  lemma ItemsEndReady(c: Config, item: Item, io: Io)
    requires c.proc.phase.Ready?
    ensures ProcessItem(c, item, io).proc.phase.Ready?
  {
    SettleUnfolds(Step(c, Take(item, io.now, io.written, io.checkpointOk)), io);
  }

  lemma TokenDoesNotAffectItem(c: Config, item: Item, io: Io)
    ensures ProcessItem(c, item, io) == ProcessItem(c, item, io.(cancelled := false))
    ensures !ItemOutcome(c, item, io.(cancelled := false)).Cancelled?
    ensures !ItemOutcome(c, item, io).Cancelled? ==>
              ItemOutcome(c, item, io) == ItemOutcome(c, item, io.(cancelled := false))
  {
  }

  lemma {:induction false} LoopIsPrefix(c: Config, items: seq<Item>, ios: seq<Io>)
    requires |items| == |ios| && c.proc.phase.Ready?
    ensures var n := StopAt(c, items, ios);
            var r := RunItems(c, items, ios);
            && r.config == RunItems(c, items[..n], Uncancelled(ios[..n])).config
            && r.config.proc.phase.Ready?
            && r.urls == RunItems(c, items[..Reported(c, items, ios)], Uncancelled(ios[..Reported(c, items, ios)])).urls
    decreases |items|
  {
    if items != [] {
      ItemsEndReady(c, items[0], ios[0]);
      TokenDoesNotAffectItem(c, items[0], ios[0]);
      var n := StopAt(c, items, ios);
      var c1 := ProcessItem(c, items[0], ios[0]);
      PrefixUnfolds(c, items, ios, n);
      if !ItemOutcome(c, items[0], ios[0]).Cancelled? {
        LoopIsPrefix(c1, items[1..], ios[1..]);
        PrefixUnfolds(c, items, ios, Reported(c, items, ios));
      }
    }
  }

  lemma PrefixUnfolds(c: Config, items: seq<Item>, ios: seq<Io>, n: nat)
    requires |items| == |ios| && 0 < n <= |items|
    ensures var c1 := ProcessItem(c, items[0], ios[0]);
            var rest := RunItems(c1, items[1..][..n - 1], Uncancelled(ios[1..][..n - 1]));
            var whole := RunItems(c, items[..n], Uncancelled(ios[..n]));
            && whole.config == rest.config
            && whole.urls == (if ItemOutcome(c, items[0], ios[0].(cancelled := false)).Driven? then [items[0].url]
                              else []) + rest.urls
  {
    TokenDoesNotAffectItem(c, items[0], ios[0]);
    assert items[..n][1..] == items[1..][..n - 1];
    assert Uncancelled(ios[..n])[1..] == Uncancelled(ios[1..][..n - 1]);
  }

  /** Whenever the token fires, the disk, the records and the claims are those of an uncancelled
      run over a prefix of the results; the loop stops before the end only right after an item
      that observed the token, and that one item is processed but not reported. */
  lemma CancellationIsPrefix(ctx: Ctx, d: Disk, loadOk: bool, indexOk: bool, items: seq<Item>, ios: seq<Io>,
                             finalOk: bool)
    returns (n: nat, reported: nat)
    requires |items| == |ios|
    ensures reported <= n <= |items| && n <= reported + 1
    ensures Run(ctx, d, loadOk, indexOk, items, ios, finalOk).config
         == Run(ctx, d, loadOk, indexOk, items[..n], Uncancelled(ios[..n]), finalOk).config
    ensures Run(ctx, d, loadOk, indexOk, items, ios, finalOk).urls
         == Run(ctx, d, loadOk, indexOk, items[..reported], Uncancelled(ios[..reported]), finalOk).urls
    ensures n < |items| ==> n > 0 && ios[n - 1].cancelled && ctx.Tracked?
    ensures (forall i :: 0 <= i < |ios| ==> !ios[i].cancelled) ==> n == |items|
  {
    var c := StartRun(ctx, d, loadOk, indexOk);
    n, reported := StopAt(c, items, ios), Reported(c, items, ios);
    LoopIsPrefix(c, items, ios);
    StopReason(c, items, ios);
  }

  lemma CancelledMeansObserved(c: Config, item: Item, io: Io)
    ensures ItemOutcome(c, item, io).Cancelled? ==> io.cancelled && c.proc.ctx.Tracked?
    ensures ProcessItem(c, item, io).proc.ctx == c.proc.ctx
  {
    hide PromotedRecord, FlushedRecord, FailedRecord, Save, TryCommitExported;
  }

  lemma {:induction false} StopReason(c: Config, items: seq<Item>, ios: seq<Io>)
    requires |items| == |ios|
    ensures var n := StopAt(c, items, ios);
            && (n < |items| ==> n > 0 && ios[n - 1].cancelled && c.proc.ctx.Tracked?)
            && Reported(c, items, ios) <= n <= Reported(c, items, ios) + 1
    decreases |items|
  {
    if items != [] {
      CancelledMeansObserved(c, items[0], ios[0]);
    }
    hide ItemOutcome, ProcessItem;
    if items != [] && !ItemOutcome(c, items[0], ios[0]).Cancelled? {
      StopReason(ProcessItem(c, items[0], ios[0]), items[1..], ios[1..]);
    }
  }
}
