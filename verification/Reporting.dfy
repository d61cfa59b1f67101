/** What a run reports: exactly which items count as processed, and that the returned URLs are
    theirs, in order. */
module Reporting {
  import opened Records
  import opened ExportProtocol
  import opened Picking

  /** A resumed run: the only kind that consults records and index. */
  predicate Resumes(ctx: Ctx) {
    ctx.Tracked? && ctx.resume
  }

  /** A resumed run finds the item COMMITTED. */
  predicate SeenCommitted(c: Config, item: Item) {
    Resumes(c.proc.ctx) && item.key in c.proc.session.records && Reconciles(c.proc.session.records[item.key], Committed)
  }

  /** A resumed run finds the item flushed when it opened: by the hash its record names, or without a
      record by its own. */
  predicate SeenFlushed(c: Config, item: Item) {
    var records, index := c.proc.session.records, c.proc.session.hashIndex;
    && Resumes(c.proc.ctx)
    && if item.key in records then records[item.key].contentHash.Some? && records[item.key].contentHash.value in index
       else item.hash in index
  }

  /** The item is this run's to handle: first of its pair, and not COMMITTED before. */
  predicate Handled(c: Config, item: Item) {
    (item.url, item.hash) !in c.proc.session.driven && !SeenCommitted(c, item)
  }

  /** The item ends the run in the file: it was there, or it is valid and its export flushed. */
  predicate Delivered(c: Config, item: Item, io: Io) {
    SeenFlushed(c, item) || (item.defect.None? && io.written.Flushed?)
  }

  /** Exactly what is reported of an item: as cancelled if and only if the token was observed after it
      was promoted or its export was tried; as driven if and only if it was not, and the item was
      handled and delivered; as skipped otherwise. */
  lemma ReportedIff(c: Config, item: Item, io: Io)
    ensures var outcome := ItemOutcome(c, item, io);
            && (outcome.Cancelled? <==>
                c.proc.ctx.Tracked? && io.cancelled && Handled(c, item) && (SeenFlushed(c, item) || item.defect.None?))
            && (outcome.Driven? <==>
                !(c.proc.ctx.Tracked? && io.cancelled) && Handled(c, item) && Delivered(c, item, io))
  {
  }

  /** The configuration in front of item `n` of an uninterrupted run. */
  function Before(c: Config, items: seq<Item>, ios: seq<Io>, n: nat): Config
    requires |items| == |ios| && n <= |items|
  {
    if n == 0 then c else ProcessItem(Before(c, items, ios, n - 1), items[n - 1], ios[n - 1])
  }

  lemma {:induction false} BeforeCons(c: Config, items: seq<Item>, ios: seq<Io>, n: nat)
    requires |items| == |ios| && n < |items|
    ensures Before(c, items, ios, n + 1) == Before(ProcessItem(c, items[0], ios[0]), items[1..], ios[1..], n)
  {
    hide ProcessItem;
    if n > 0 {
      BeforeCons(c, items, ios, n - 1);
    }
  }

  /** Marks the items that are handled and delivered when their turn comes. */
  function Counted(c: Config, items: seq<Item>, ios: seq<Io>): (marked: seq<bool>)
    requires |items| == |ios|
    ensures |marked| == |items|
  {
    seq(|items|, i requires 0 <= i < |items| =>
      Handled(Before(c, items, ios, i), items[i]) && Delivered(Before(c, items, ios, i), items[i], ios[i]))
  }

  function Urls(items: seq<Item>): (urls: seq<string>)
    ensures |urls| == |items|
  {
    seq(|items|, i requires 0 <= i < |items| => items[i].url)
  }

  /** The returned URLs of a run without cancellation are those of exactly the items that are handled
      and delivered at their turn, in order. */
  lemma {:induction false} UrlsAreReported(c: Config, items: seq<Item>, ios: seq<Io>)
    requires |items| == |ios| && forall i :: 0 <= i < |ios| ==> !ios[i].cancelled
    ensures RunItems(c, items, ios).urls == Pick(Urls(items), Counted(c, items, ios))
    decreases |items|
  {
    if items != [] {
      var c1 := ProcessItem(c, items[0], ios[0]);
      UrlsAreReported(c1, items[1..], ios[1..]);
      ReportedIff(c, items[0], ios[0]);
      CountedCons(c, items, ios);
      assert Urls(items)[1..] == Urls(items[1..]);
      hide ProcessItem, ItemOutcome, Handled, Delivered, Counted, Before;
    }
  }

  lemma CountedCons(c: Config, items: seq<Item>, ios: seq<Io>)
    requires |items| == |ios| && items != []
    ensures Counted(c, items, ios)[0] == (Handled(c, items[0]) && Delivered(c, items[0], ios[0]))
    ensures Counted(c, items, ios)[1..] == Counted(ProcessItem(c, items[0], ios[0]), items[1..], ios[1..])
  {
    assert Before(c, items, ios, 0) == c;
    hide ProcessItem, Handled, Delivered, Before;
    forall i | 0 <= i < |items| - 1
      ensures Before(c, items, ios, i + 1) == Before(ProcessItem(c, items[0], ios[0]), items[1..], ios[1..], i)
    {
      BeforeCons(c, items, ios, i);
    }
  }

  /** A resumed run that can read its store leaves a page that is durably COMMITTED alone: nothing on
      disk or in memory changes but the claim, and the page is not reported. */
  lemma CommittedIsLeftAlone(ctx: Ctx, d: Disk, indexOk: bool, item: Item, io: Io)
    requires Resumes(ctx) && item.key in d.store && ValidRecord(d.store[item.key])
             && d.store[item.key].status.Committed?
    ensures var c := StartRun(ctx, d, true, indexOk);
            var c' := ProcessItem(c, item, io);
            && c'.disk == d && c'.proc.session.records == c.proc.session.records
            && ItemOutcome(c, item, io).Skipped?
  {
  }
}
