/** The background writer of the result log: appends over a sink that may fail after any byte, the
    live index, and its agreement with the recovery scan. */
module LogWriter {
  import opened Common
  import opened ResultLog

  type Index = map<string, nat>

  datatype Writer = Writer(log: seq<byte>, offset: nat, index: Index, failed: bool)

  /** What the sink does to one frame: all of it, or only `landed` bytes and then an error (a failed
      flush lands the whole frame). `sizeKnown` says whether the real size can be read afterwards. */
  datatype Fault = NoFault | Short(landed: nat, sizeKnown: bool)

  function Append(w: Writer, url: string, payload: seq<byte>, fault: Fault): Writer {
    match fault
    case NoFault =>
      Writer(w.log + Frame(payload), w.offset + 4 + Len32(payload) + 1, w.index[url := w.offset], w.failed)
    case Short(landed, sizeKnown) =>
      var log := w.log + Frame(payload)[..Min(landed, |Frame(payload)|)];
      Writer(log, if sizeKnown then |log| else w.offset, w.index, true)
  }

  // ----- the writer as it runs ------------------------------------------------------------

  /** A byte sink that accepts `budget` more bytes before it fails, or never fails. */
  class Sink {
    var bytes: seq<byte>
    var budget: Option<nat>

    constructor (bytes: seq<byte>)
      ensures this.bytes == bytes && budget.None?
    {
      this.bytes, budget := bytes, None;
    }

    method WriteAll(chunk: seq<byte>) returns (ok: bool)
      modifies this
      ensures ok <==> old(budget).None? || |chunk| <= old(budget).value
      ensures bytes == old(bytes) + (if ok then chunk else chunk[..old(budget).value])
      ensures budget.None? <==> old(budget).None?
      ensures budget.Some? ==> budget.value == (if ok then old(budget).value - |chunk| else 0)
    {
      ok := budget.None? || |chunk| <= budget.value;
      if ok {
        bytes := bytes + chunk;
        budget := if budget.None? then None else Some(budget.value - |chunk|);
      } else {
        bytes := bytes + chunk[..budget.value];
        budget := Some(0);
      }
    }
  }

  /** Three writes and a flush; whatever fails, the sink holds a prefix of the frame. */
  method WriteFrame(sink: Sink, len: nat, payload: seq<byte>) returns (ok: bool)
    requires len == Len32(payload)
    modifies sink
    ensures ok <==> old(sink.budget).None?
    ensures var frame := Frame(payload);
            sink.bytes == old(sink.bytes) + (if ok then frame else frame[..Min(old(sink.budget).value, |frame|)])
  {
    hide FromLe32, Le32;
    ghost var start, frame := sink.bytes, Frame(payload);
    assert frame[..4] == Le32(len) && frame[4..4 + |payload|] == payload;
    ok := sink.WriteAll(Le32(len));
    if !ok {
      assert Le32(len)[..old(sink.budget).value] == frame[..old(sink.budget).value];
      return;
    }
    assert sink.bytes == start + frame[..4];
    ok := sink.WriteAll(payload);
    if !ok {
      assert frame[..4] + payload[..old(sink.budget).value - 4] == frame[..old(sink.budget).value];
      return;
    }
    assert frame[..4] + payload == frame[..4 + |payload|];
    ok := sink.WriteAll([NEWLINE]);
    if !ok {
      assert frame[..4 + |payload|] + [] == frame[..old(sink.budget).value];
      return;
    }
    assert frame[..4 + |payload|] + [NEWLINE] == frame && frame[..|frame|] == frame;
    // the flush of a sink that is going to fail fails too
    ok := sink.budget.None?;
  }

  class BackgroundWriter {
    const sink: Sink
    var offset: nat
    var index: Index
    var writeError: bool

    ghost function State(): Writer
      reads this, sink
    {
      Writer(sink.bytes, offset, index, writeError)
    }

    /** The log is opened lazily; its size at that moment is the first offset. */
    constructor (sink: Sink, index: Index)
      ensures this.sink == sink && State() == Writer(sink.bytes, |sink.bytes|, index, false)
    {
      this.sink, this.index, offset, writeError := sink, index, |sink.bytes|, false;
    }

    /** Append one framed record, or resynchronise with the real end of the log. */
    method AppendRecord(url: string, payload: seq<byte>, sizeKnown: bool)
      modifies this, sink
      ensures State() == Append(old(State()), url, payload,
                                if old(sink.budget).None? then NoFault else Short(old(sink.budget).value, sizeKnown))
    {
      var len := Len32(payload);
      var ok := WriteFrame(sink, len, payload);
      if !ok {
        writeError := true;
        offset := if sizeKnown then |sink.bytes| else offset;
        return;
      }
      index := index[url := offset];
      offset := offset + 4 + len + 1;
    }
  }

  // ----- an honest live index -------------------------------------------------------------

  /** A complete length-plus-payload record of URL `u` at byte `off`. */
  predicate RecordAt(log: seq<byte>, off: nat, urlOf: UrlOf, u: string) {
    && off + 4 <= |log|
    && var len := FromLe32(log[off..off + 4]);
       off + 4 + len <= |log| && urlOf(log[off + 4..off + 4 + len]) == Some(u)
  }

  /** Reading a length and a payload at `off` yields exactly `p`. */
  predicate ReadsAt(log: seq<byte>, off: nat, p: seq<byte>) {
    off + 4 + |p| <= |log| && FromLe32(log[off..off + 4]) == |p| && log[off + 4..off + 4 + |p|] == p
  }

  ghost predicate LiveInv(w: Writer, urlOf: UrlOf) {
    w.offset == |w.log| && forall u :: u in w.index ==> RecordAt(w.log, w.index[u], urlOf, u)
  }

  lemma RecordSurvivesAppend(log: seq<byte>, more: seq<byte>, off: nat, urlOf: UrlOf, u: string)
    requires RecordAt(log, off, urlOf, u)
    ensures RecordAt(log + more, off, urlOf, u)
  {
    hide FromLe32;
    assert (log + more)[off..off + 4] == log[off..off + 4];
    var len := FromLe32(log[off..off + 4]);
    assert (log + more)[off + 4..off + 4 + len] == log[off + 4..off + 4 + len];
  }

  lemma FrameIsRecord(log: seq<byte>, payload: seq<byte>, urlOf: UrlOf, u: string)
    requires |payload| < U32 && urlOf(payload) == Some(u)
    ensures RecordAt(log + Frame(payload), |log|, urlOf, u)
  {
    FrameLength(payload);
    hide FromLe32, Le32;
    var all := log + Frame(payload);
    assert all[|log|..|log| + 4] == Le32(|payload|);
    assert all[|log| + 4..|log| + 4 + |payload|] == payload;
  }

  /** One append command with what the sink will do to it. */
  datatype Cmd = Cmd(url: string, payload: seq<byte>, fault: Fault)

  function Appends(w: Writer, cmds: seq<Cmd>): Writer
    decreases |cmds|
  {
    if cmds == [] then w else Appends(Append(w, cmds[0].url, cmds[0].payload, cmds[0].fault), cmds[1..])
  }

  /** A payload the program serialised from a result of that URL, shorter than 4 GiB. */
  predicate Encodes(url: string, payload: seq<byte>, urlOf: UrlOf) {
    |payload| < U32 && urlOf(payload) == Some(url)
  }

  lemma AppendKeepsLive(w: Writer, c: Cmd, urlOf: UrlOf)
    requires LiveInv(w, urlOf) && Encodes(c.url, c.payload, urlOf) && (c.fault.Short? ==> c.fault.sizeKnown)
    ensures LiveInv(Append(w, c.url, c.payload, c.fault), urlOf)
  {
    hide RecordAt, Frame;
    var w' := Append(w, c.url, c.payload, c.fault);
    var more := if c.fault.NoFault? then Frame(c.payload)
                else Frame(c.payload)[..Min(c.fault.landed, |Frame(c.payload)|)];
    forall u | u in w'.index
      ensures RecordAt(w'.log, w'.index[u], urlOf, u)
    {
      if c.fault.NoFault? && u == c.url {
        FrameIsRecord(w.log, c.payload, urlOf, u);
      } else {
        RecordSurvivesAppend(w.log, more, w.index[u], urlOf, u);
      }
    }
  }

  /** Commands of the program over a sink whose size can be read after a failure. */
  ghost predicate Sound(cmds: seq<Cmd>, urlOf: UrlOf) {
    forall i :: 0 <= i < |cmds| ==>
      Encodes(cmds[i].url, cmds[i].payload, urlOf) && (cmds[i].fault.Short? ==> cmds[i].fault.sizeKnown)
  }

  lemma {:induction false} AppendsKeepLive(w: Writer, cmds: seq<Cmd>, urlOf: UrlOf)
    requires LiveInv(w, urlOf) && Sound(cmds, urlOf)
    ensures LiveInv(Appends(w, cmds), urlOf)
    decreases |cmds|
  {
    if cmds != [] {
      AppendKeepsLive(w, cmds[0], urlOf);
      AppendsKeepLive(Append(w, cmds[0].url, cmds[0].payload, cmds[0].fault), cmds[1..], urlOf);
    }
  }

  /** A writer that has just recovered its index from `log` and opened it at its real end. */
  function Reopened(log: seq<byte>, urlOf: UrlOf): Writer {
    Writer(log, |log|, IndexOf(Scan(log, 0), urlOf), false)
  }

  lemma {:induction false} ScannedReadsBack(log: seq<byte>, offset: nat, i: nat)
    requires offset <= |log| + 1 && i < |Read(log, offset)|
    ensures ReadsAt(log, Read(log, offset)[i].offset, Read(log, offset)[i].payload)
    decreases |log| + 1 - offset
  {
    hide FromLe32;
    if i > 0 {
      ScannedReadsBack(log, offset + 5 + FromLe32(log[offset..offset + 4]), i - 1);
    }
  }

  /** Whatever bytes the log holds, torn tail or not, the recovered index is honest. */
  lemma ReopenedIsLive(log: seq<byte>, urlOf: UrlOf)
    ensures LiveInv(Reopened(log, urlOf), urlOf)
  {
    var entries, index := Scan(log, 0), IndexOf(Scan(log, 0), urlOf);
    hide Scan, Read, IndexOf, ReadsAt, RecordAt;
    ReadIsScan(log, 0);
    assert log[0..] == log;
    forall u | u in index
      ensures RecordAt(log, index[u], urlOf, u)
    {
      IndexPointsAtLast(entries, urlOf, u);
      var i :| 0 <= i < |entries| && Names(entries[i], urlOf, u) && index[u] == entries[i].offset;
      ScannedReadsBack(log, 0, i);
      ReadsAtIsRecord(log, index[u], entries[i].payload, urlOf, u);
    }
  }

  lemma ReadsAtIsRecord(log: seq<byte>, off: nat, p: seq<byte>, urlOf: UrlOf, u: string)
    requires ReadsAt(log, off, p) && urlOf(p) == Some(u)
    ensures RecordAt(log, off, urlOf, u)
  {
    hide FromLe32;
  }

  /** Honest live index: over whatever bytes the repository is opened, and however often the sink
      fails after however many bytes, the tracked offset is the real end of the log and every index
      entry points at a complete record of its own URL. */
  lemma LiveIndexIsHonest(log: seq<byte>, cmds: seq<Cmd>, urlOf: UrlOf)
    requires Sound(cmds, urlOf)
    ensures LiveInv(Appends(Reopened(log, urlOf), cmds), urlOf)
  {
    ReopenedIsLive(log, urlOf);
    AppendsKeepLive(Reopened(log, urlOf), cmds, urlOf);
  }

  /** Both premises are exact: an append keeps the tracked offset at the end of the log if and only
      if it succeeds with a payload below 4 GiB, or fails with a readable size or no byte landed. */
  lemma OffsetTracksEndIff(w: Writer, url: string, payload: seq<byte>, fault: Fault)
    requires w.offset == |w.log|
    ensures var w' := Append(w, url, payload, fault);
            w'.offset == |w'.log| <==>
            match fault
            case NoFault => |payload| < 0x1_0000_0000
            case Short(landed, sizeKnown) => sizeKnown || landed == 0
  {
  }

  // ----- the live index refines the scan ----------------------------------------------------

  /** Payloads that reached the log. */
  function Written(cmds: seq<Cmd>): seq<seq<byte>>
    decreases |cmds|
  {
    if cmds == [] then []
    else (if cmds[0].fault.NoFault? then [cmds[0].payload] else []) + Written(cmds[1..])
  }

  /** Every append succeeds or lands nothing at all. */
  ghost predicate Clean(cmds: seq<Cmd>, urlOf: UrlOf) {
    forall i :: 0 <= i < |cmds| ==>
      Encodes(cmds[i].url, cmds[i].payload, urlOf) && (cmds[i].fault.Short? ==> cmds[i].fault.landed == 0)
  }

  /** The writer works on the log of `ps` with the index a recovery scan would build. */
  ghost predicate InStep(w: Writer, ps: seq<seq<byte>>, urlOf: UrlOf) {
    && Sized(ps) && w.log == Concat(ps) && w.offset == |w.log|
    && w.index == IndexOf(EntriesOf(ps, 0), urlOf)
  }

  lemma SuccessKeepsStep(w: Writer, ps: seq<seq<byte>>, url: string, p: seq<byte>, urlOf: UrlOf)
    requires InStep(w, ps, urlOf) && Encodes(url, p, urlOf)
    ensures InStep(Append(w, url, p, NoFault), ps + [p], urlOf)
  {
    hide Frame, Concat, EntriesOf, IndexOf;
    ConcatSnoc(ps, p);
    EntriesSnoc(ps, p, 0);
    IndexSnoc(EntriesOf(ps, 0), Entry(|w.log|, p), urlOf);
  }

  lemma AppendKeepsStep(w: Writer, ps: seq<seq<byte>>, c: Cmd, urlOf: UrlOf)
    requires InStep(w, ps, urlOf) && Encodes(c.url, c.payload, urlOf) && (c.fault.Short? ==> c.fault.landed == 0)
    ensures InStep(Append(w, c.url, c.payload, c.fault), ps + Written([c]), urlOf)
  {
    hide Frame, Concat, EntriesOf, IndexOf;
    assert [c][1..] == [];
    if c.fault.NoFault? {
      assert Written([c]) == [c.payload];
      SuccessKeepsStep(w, ps, c.url, c.payload, urlOf);
    } else {
      assert ps + Written([c]) == ps;
      assert Frame(c.payload)[..0] == [] && w.log + [] == w.log;
    }
  }

  lemma {:induction false} RunKeepsStep(w: Writer, ps: seq<seq<byte>>, cmds: seq<Cmd>, urlOf: UrlOf)
    requires InStep(w, ps, urlOf) && Clean(cmds, urlOf)
    ensures InStep(Appends(w, cmds), ps + Written(cmds), urlOf)
    decreases |cmds|
  {
    hide InStep, Append;
    if cmds == [] {
      assert ps + Written(cmds) == ps;
    } else {
      AppendKeepsStep(w, ps, cmds[0], urlOf);
      assert Written([cmds[0]]) + Written(cmds[1..]) == Written(cmds) by { assert [cmds[0]][1..] == []; }
      assert ps + Written([cmds[0]]) + Written(cmds[1..]) == ps + Written(cmds);
      RunKeepsStep(Append(w, cmds[0].url, cmds[0].payload, cmds[0].fault), ps + Written([cmds[0]]), cmds[1..], urlOf);
    }
  }

  /** Index refines the scan: after any run in which each append succeeded or landed nothing, the
      log is the concatenation of the written frames and the index rebuilt from it is the live one. */
  lemma LiveIndexRefinesScan(w: Writer, ps: seq<seq<byte>>, cmds: seq<Cmd>, urlOf: UrlOf)
    requires InStep(w, ps, urlOf) && Clean(cmds, urlOf)
    ensures var w' := Appends(w, cmds);
            && w'.log == Concat(ps + Written(cmds)) && w'.offset == |w'.log|
            && w'.index == IndexOf(Scan(w'.log, 0), urlOf)
  {
    hide Concat, EntriesOf, IndexOf, Scan, Appends;
    RunKeepsStep(w, ps, cmds, urlOf);
    ScanOfLog(ps + Written(cmds), 0);
  }

  /** The result of a lookup: seek to the indexed offset, read a length, a payload, decode it. */
  datatype Lookup<+C> = Absent | Found(content: C) | ShortRead | Garbled

  function FindByUrl<C>(w: Writer, u: string, decode: seq<byte> -> Option<C>): Lookup<C> {
    if u !in w.index then Absent
    else
      var off := w.index[u];
      if |w.log| < off + 4 then ShortRead
      else
        var len := FromLe32(w.log[off..off + 4]);
        if |w.log| < off + 4 + len then ShortRead
        else
          match decode(w.log[off + 4..off + 4 + len])
          case None => Garbled
          case Some(c) => Found(c)
  }

  /** Over whatever bytes the repository was opened and however the sink failed since, a lookup never
      reads past the end and never returns a record of another URL: it is absent exactly when the
      URL is not indexed. */
  lemma HonestLookup<C>(log: seq<byte>, cmds: seq<Cmd>, u: string, urlOf: UrlOf,
                        decode: seq<byte> -> Option<C>, urlIn: C -> string)
    requires Sound(cmds, urlOf) && forall p :: decode(p).Some? ==> urlOf(p) == Some(urlIn(decode(p).value))
    ensures var w := Appends(Reopened(log, urlOf), cmds);
            var r := FindByUrl(w, u, decode);
            !r.ShortRead? && (r.Absent? <==> u !in w.index) && (r.Found? ==> urlIn(r.content) == u)
  {
    hide FromLe32, Appends, Reopened;
    LiveIndexIsHonest(log, cmds, urlOf);
    var w := Appends(Reopened(log, urlOf), cmds);
    if u in w.index {
      assert RecordAt(w.log, w.index[u], urlOf, u);
    }
  }

  /** The payload of the last record of URL `u`. */
  function LastPayload(ps: seq<seq<byte>>, urlOf: UrlOf, u: string): Option<seq<byte>> {
    if ps == [] then None
    else if urlOf(ps[|ps| - 1]) == Some(u) then Some(ps[|ps| - 1])
    else LastPayload(ps[..|ps| - 1], urlOf, u)
  }

  lemma FrameReadsBack(log: seq<byte>, p: seq<byte>)
    requires |p| < U32
    ensures ReadsAt(log + Frame(p), |log|, p)
  {
  }

  lemma ReadSurvivesAppend(log: seq<byte>, more: seq<byte>, off: nat, p: seq<byte>)
    requires ReadsAt(log, off, p)
    ensures ReadsAt(log + more, off, p)
  {
  }

  lemma {:induction false} IndexedPayloadIsLast(ps: seq<seq<byte>>, urlOf: UrlOf, u: string)
    requires Sized(ps)
    ensures var index := IndexOf(EntriesOf(ps, 0), urlOf);
            && (u in index <==> LastPayload(ps, urlOf, u).Some?)
            && (u in index ==> ReadsAt(Concat(ps), index[u], LastPayload(ps, urlOf, u).value))
    decreases |ps|
  {
    hide Frame, ReadsAt, EntriesOf, Concat;
    if ps == [] {
      NoEntries(urlOf);
    } else {
      var before, p := ps[..|ps| - 1], ps[|ps| - 1];
      assert ps == before + [p];
      ConcatSnoc(before, p);
      EntriesSnoc(before, p, 0);
      IndexSnoc(EntriesOf(before, 0), Entry(|Concat(before)|, p), urlOf);
      IndexedPayloadIsLast(before, urlOf, u);
      if urlOf(p) == Some(u) {
        FrameReadsBack(Concat(before), p);
      } else if LastPayload(before, urlOf, u).Some? {
        ReadSurvivesAppend(Concat(before), Frame(p), IndexOf(EntriesOf(before, 0), urlOf)[u],
                           LastPayload(before, urlOf, u).value);
      }
    }
  }

  lemma NoEntries(urlOf: UrlOf)
    ensures IndexOf(EntriesOf([], 0), urlOf) == map[]
  {
  }

  lemma FindReadsLastPayload<C>(w: Writer, ps: seq<seq<byte>>, u: string, urlOf: UrlOf, decode: seq<byte> -> Option<C>)
    requires InStep(w, ps, urlOf) && forall i :: 0 <= i < |ps| ==> decode(ps[i]).Some?
    ensures var last := LastPayload(ps, urlOf, u);
            && (last.None? ==> FindByUrl(w, u, decode) == Absent)
            && (last.Some? && decode(last.value).Some? ==> FindByUrl(w, u, decode) == Found(decode(last.value).value))
  {
    hide FromLe32, Concat, EntriesOf, IndexOf, LastPayload;
    IndexedPayloadIsLast(ps, urlOf, u);
  }

  lemma LoadAllDecodes<C>(w: Writer, ps: seq<seq<byte>>, urlOf: UrlOf, decode: seq<byte> -> Option<C>)
    requires InStep(w, ps, urlOf) && forall i :: 0 <= i < |ps| ==> decode(ps[i]).Some?
    ensures var all := LoadOf(Medium(w.log, None), decode);
            all.Ok? && |all.value| == |ps| && forall i :: 0 <= i < |ps| ==> all.value[i] == decode(ps[i]).value
  {
    hide Concat, EntriesOf, IndexOf, Scan, DecodeAll;
    ScanOfLog(ps, 0);
    DecodesPointwise(ps, 0, decode);
  }

  /** A lookup returns the content of the last record with that URL among everything a full read
      returns, however often the URL was saved, and is absent exactly when no record has the URL. */
  lemma FindIsLastOfLoadAll<C>(w: Writer, ps: seq<seq<byte>>, u: string, urlOf: UrlOf,
                               decode: seq<byte> -> Option<C>, urlIn: C -> string)
    requires InStep(w, ps, urlOf)
    requires forall i :: 0 <= i < |ps| ==> decode(ps[i]).Some? && urlOf(ps[i]) == Some(urlIn(decode(ps[i]).value))
    ensures var all := LoadOf(Medium(w.log, None), decode);
            && all.Ok? && |all.value| == |ps|
            && match FindByUrl(w, u, decode)
               case Absent => forall i :: 0 <= i < |ps| ==> urlIn(all.value[i]) != u
               case Found(c) => exists i :: 0 <= i < |ps| && all.value[i] == c && urlIn(c) == u
                                            && forall j :: i < j < |ps| ==> urlIn(all.value[j]) != u
               case _ => false
  {
    hide InStep, FindByUrl, LoadOf, LastPayload;
    LoadAllDecodes(w, ps, urlOf, decode);
    FindReadsLastPayload(w, ps, u, urlOf, decode);
    LastPayloadIsLast(ps, urlOf, u);
    var all := LoadOf(Medium(w.log, None), decode).value;
    assert forall i :: 0 <= i < |ps| ==> (urlIn(all[i]) == u <==> urlOf(ps[i]) == Some(u));
    if LastPayload(ps, urlOf, u).Some? {
      var i :| 0 <= i < |ps| && ps[i] == LastPayload(ps, urlOf, u).value && urlOf(ps[i]) == Some(u)
               && forall j :: i < j < |ps| ==> urlOf(ps[j]) != Some(u);
      assert FindByUrl(w, u, decode) == Found(all[i]);
    }
  }

  lemma {:induction false} LastPayloadIsLast(ps: seq<seq<byte>>, urlOf: UrlOf, u: string)
    ensures LastPayload(ps, urlOf, u).None? ==> forall i :: 0 <= i < |ps| ==> urlOf(ps[i]) != Some(u)
    ensures LastPayload(ps, urlOf, u).Some? ==>
              exists i :: 0 <= i < |ps| && ps[i] == LastPayload(ps, urlOf, u).value && urlOf(ps[i]) == Some(u)
                          && forall j :: i < j < |ps| ==> urlOf(ps[j]) != Some(u)
    decreases |ps|
  {
    if ps != [] && urlOf(ps[|ps| - 1]) != Some(u) {
      var before := ps[..|ps| - 1];
      LastPayloadIsLast(before, urlOf, u);
      if LastPayload(before, urlOf, u).Some? {
        var i :| 0 <= i < |before| && before[i] == LastPayload(before, urlOf, u).value && urlOf(before[i]) == Some(u)
                 && forall j :: i < j < |before| ==> urlOf(before[j]) != Some(u);
        assert ps[i] == before[i];
        assert forall j :: i < j < |before| ==> ps[j] == before[j];
      }
    }
  }

  // ----- after a fault ------------------------------------------------------------------------

  lemma {:induction false} EntryOffsets(ps: seq<seq<byte>>, base: nat)
    ensures forall i :: 0 <= i < |ps| ==> EntriesOf(ps, base)[i].offset < base + |Concat(ps)|
    decreases |ps|
  {
    if ps != [] {
      hide Frame;
      EntryOffsets(ps[1..], base + 5 + |ps[0]|);
    }
  }

  /** A scan starts at `base`; every further record starts past the first one's declared length. */
  lemma {:induction false} ScanOffsets(rest: seq<byte>, base: nat, i: nat)
    requires i < |Scan(rest, base)|
    ensures |rest| >= 4
    ensures var off := Scan(rest, base)[i].offset;
            if i == 0 then off == base else off >= base + 5 + FromLe32(rest[..4])
    decreases |rest|
  {
    hide FromLe32;
    if i > 0 {
      var len := FromLe32(rest[..4]);
      ScanOffsets(rest[Min(5 + len, |rest|)..], base + 5 + len, i - 1);
    }
  }

  /** Whatever follows a torn frame, no record is ever found where the torn frame ends. */
  lemma NothingAtTornEnd(p: seq<byte>, landed: nat, tail: seq<byte>, base: nat, i: nat)
    requires |p| < U32 && 0 < landed < 5 + |p| && i < |Scan(Frame(p)[..landed] + tail, base)|
    ensures Scan(Frame(p)[..landed] + tail, base)[i].offset != base + landed
  {
    var rest := Frame(p)[..landed] + tail;
    ScanOffsets(rest, base, i);
    if landed >= 4 {
      FrameLength(p);
      hide FromLe32, Le32;
      assert rest[..4] == Le32(|p|);
    }
  }

  lemma IndexedIsEntry(entries: seq<Entry>, urlOf: UrlOf, u: string) returns (i: nat)
    requires u in IndexOf(entries, urlOf)
    ensures i < |entries| && IndexOf(entries, urlOf)[u] == entries[i].offset
  {
    IndexPointsAtLast(entries, urlOf, u);
    i :| 0 <= i < |entries| && Names(entries[i], urlOf, u) && IndexOf(entries, urlOf)[u] == entries[i].offset;
  }

  /** The live and the rebuilt index after one failed append that landed `landed` bytes. */
  lemma TailRescanAgreesIff(w: Writer, ps: seq<seq<byte>>, u: string, p: seq<byte>, landed: nat, urlOf: UrlOf)
    requires InStep(w, ps, urlOf) && Encodes(u, p, urlOf)
    ensures var w' := Append(w, u, p, Short(landed, true));
            w'.index == IndexOf(Scan(w'.log, 0), urlOf) <==> landed < 4 + |p|
  {
    hide Frame, Concat, EntriesOf, IndexOf, Scan;
    var w', part := Append(w, u, p, Short(landed, true)), Frame(p)[..Min(landed, |Frame(p)|)];
    var before := EntriesOf(ps, 0);
    ScanAfterLog(ps, part, 0);
    if landed < 5 + |p| {
      ScanOfCutFrame(p, |Concat(ps)|, landed);
    } else {
      WholeFrameScans(p, |Concat(ps)|);
    }
    if landed < 4 + |p| {
      assert before + [] == before;
    } else {
      IndexSnoc(before, Entry(|Concat(ps)|, p), urlOf);
      NotIndexedAtEnd(ps, urlOf, u);
    }
  }

  lemma WholeFrameScans(p: seq<byte>, base: nat)
    requires |p| < U32
    ensures Frame(p)[..|Frame(p)|] == Frame(p) && Scan(Frame(p), base) == [Entry(base, p)]
  {
    hide Frame;
    ScanOfFrame(p, [], base);
    assert Frame(p) + [] == Frame(p);
  }

  lemma NotIndexedAtEnd(ps: seq<seq<byte>>, urlOf: UrlOf, u: string)
    ensures var index := IndexOf(EntriesOf(ps, 0), urlOf); u in index ==> index[u] < |Concat(ps)|
  {
    hide IndexOf, Concat, EntriesOf;
    EntryOffsets(ps, 0);
    if u in IndexOf(EntriesOf(ps, 0), urlOf) {
      var i := IndexedIsEntry(EntriesOf(ps, 0), urlOf, u);
    }
  }

  /** The live and the rebuilt index after a failed append and a successful one behind it: they agree
      if and only if nothing of the failed frame landed, or all of it and both are of one URL. In
      between, the rebuilt index never finds the second record where it is. */
  lemma RescanAgreesIff(w: Writer, ps: seq<seq<byte>>, u1: string, p1: seq<byte>, landed: nat,
                        u2: string, p2: seq<byte>, urlOf: UrlOf)
    requires InStep(w, ps, urlOf) && Encodes(u1, p1, urlOf) && Encodes(u2, p2, urlOf)
    ensures var w' := Append(Append(w, u1, p1, Short(landed, true)), u2, p2, NoFault);
            var rebuilt := IndexOf(Scan(w'.log, 0), urlOf);
            && (w'.index == rebuilt <==> landed == 0 || (landed >= |Frame(p1)| && u1 == u2))
            && (0 < landed < |Frame(p1)| ==> u2 in rebuilt ==> rebuilt[u2] != w'.index[u2])
  {
    if landed == 0 {
      NothingLanded(w, ps, u1, p1, u2, p2, urlOf);
    } else if landed < |Frame(p1)| {
      TornRescanDisagrees(w, ps, u1, p1, landed, u2, p2, urlOf);
    } else {
      WholeFrameLanded(w, ps, u1, p1, landed, u2, p2, urlOf);
    }
  }

  lemma NothingLanded(w: Writer, ps: seq<seq<byte>>, u1: string, p1: seq<byte>, u2: string, p2: seq<byte>, urlOf: UrlOf)
    requires InStep(w, ps, urlOf) && Encodes(u1, p1, urlOf) && Encodes(u2, p2, urlOf)
    ensures var w' := Append(Append(w, u1, p1, Short(0, true)), u2, p2, NoFault);
            w'.index == IndexOf(Scan(w'.log, 0), urlOf)
  {
    hide Frame, Concat, EntriesOf, IndexOf, Scan;
    var w1 := Append(w, u1, p1, Short(0, true));
    assert Frame(p1)[..0] == [] && w.log + [] == w.log;
    SuccessKeepsStep(w1, ps, u2, p2, urlOf);
    ScanOfLog(ps + [p2], 0);
  }

  lemma TornRescanDisagrees(w: Writer, ps: seq<seq<byte>>, u1: string, p1: seq<byte>, landed: nat,
                            u2: string, p2: seq<byte>, urlOf: UrlOf)
    requires InStep(w, ps, urlOf) && Encodes(u1, p1, urlOf) && Encodes(u2, p2, urlOf) && 0 < landed < |Frame(p1)|
    ensures var w' := Append(Append(w, u1, p1, Short(landed, true)), u2, p2, NoFault);
            var rebuilt := IndexOf(Scan(w'.log, 0), urlOf);
            u2 in w'.index && (u2 in rebuilt ==> rebuilt[u2] != w'.index[u2])
  {
    hide Frame, Concat, IndexOf, Scan, Append;
    TwoAppends(w, ps, u1, p1, landed, u2, p2, urlOf);
    NotRebuiltAtTornEnd(ps, p1, landed, Frame(p2), urlOf, u2);
  }

  lemma WholeFrameLanded(w: Writer, ps: seq<seq<byte>>, u1: string, p1: seq<byte>, landed: nat,
                         u2: string, p2: seq<byte>, urlOf: UrlOf)
    requires InStep(w, ps, urlOf) && Encodes(u1, p1, urlOf) && Encodes(u2, p2, urlOf) && landed >= |Frame(p1)|
    ensures var w' := Append(Append(w, u1, p1, Short(landed, true)), u2, p2, NoFault);
            w'.index == IndexOf(Scan(w'.log, 0), urlOf) <==> u1 == u2
  {
    hide Frame, Concat, EntriesOf, IndexOf, Scan;
    var w' := Append(Append(w, u1, p1, Short(landed, true)), u2, p2, NoFault);
    var base: nat := |Concat(ps)|;
    assert Frame(p1)[..|Frame(p1)|] == Frame(p1);
    ConcatSnoc(ps, p1);
    ConcatSnoc(ps + [p1], p2);
    ScanOfLog(ps + [p1] + [p2], 0);
    EntriesSnoc(ps, p1, 0);
    EntriesSnoc(ps + [p1], p2, 0);
    IndexSnoc(EntriesOf(ps, 0), Entry(base, p1), urlOf);
    IndexSnoc(EntriesOf(ps + [p1], 0), Entry(base + |Frame(p1)|, p2), urlOf);
    NotIndexedAtEnd(ps, urlOf, u1);
    assert w'.log == Concat(ps + [p1] + [p2]);
    var before: Index, rebuilt: Index := IndexOf(EntriesOf(ps, 0), urlOf), IndexOf(Scan(w'.log, 0), urlOf);
    var middle: Index := before[u1 := base];
    assert rebuilt == middle[u2 := base + |Frame(p1)|] && w'.index == before[u2 := base + |Frame(p1)|];
    if u1 != u2 {
      assert rebuilt[u1] == base;
    }
  }

  lemma {:induction false} AppendsExtend(w: Writer, cmds: seq<Cmd>, u: string) returns (more: seq<byte>)
    requires forall i :: 0 <= i < |cmds| && cmds[i].fault.NoFault? ==> cmds[i].url != u
    ensures var w' := Appends(w, cmds);
            w'.log == w.log + more && (u in w.index ==> u in w'.index && w'.index[u] == w.index[u])
    decreases |cmds|
  {
    if cmds == [] {
      more := [];
      assert w.log + [] == w.log;
    } else {
      var c, frame := cmds[0], Frame(cmds[0].payload);
      var w1 := Append(w, c.url, c.payload, c.fault);
      var first := if c.fault.NoFault? then frame else frame[..Min(c.fault.landed, |frame|)];
      assert w1.log == w.log + first;
      hide Frame, Append;
      var rest := AppendsExtend(w1, cmds[1..], u);
      more := first + rest;
      assert w.log + first + rest == w.log + more;
    }
  }

  /** A torn frame, a success behind it and then whatever commands and faults: unless a later append of
      its URL succeeds, the first record behind the torn frame is indexed live where no rescan will
      find it, so the live and the rebuilt index differ. */
  lemma TornFrameHidesNext(w: Writer, ps: seq<seq<byte>>, u1: string, p1: seq<byte>, landed: nat,
                           u2: string, p2: seq<byte>, cmds: seq<Cmd>, urlOf: UrlOf)
    requires InStep(w, ps, urlOf) && |p1| < U32 && 0 < landed < |Frame(p1)|
    requires forall i :: 0 <= i < |cmds| && cmds[i].fault.NoFault? ==> cmds[i].url != u2
    ensures var w' := Appends(Append(Append(w, u1, p1, Short(landed, true)), u2, p2, NoFault), cmds);
            var rebuilt := IndexOf(Scan(w'.log, 0), urlOf);
            u2 in w'.index && (u2 in rebuilt ==> rebuilt[u2] != w'.index[u2]) && w'.index != rebuilt
  {
    hide Frame, Concat, IndexOf, Scan, Append, Appends, InStep;
    TwoAppends(w, ps, u1, p1, landed, u2, p2, urlOf);
    var w2 := Append(Append(w, u1, p1, Short(landed, true)), u2, p2, NoFault);
    var more := AppendsExtend(w2, cmds, u2);
    NotRebuiltAtTornEnd(ps, p1, landed, Frame(p2) + more, urlOf, u2);
    Regrouped(Concat(ps), Frame(p1)[..landed], Frame(p2), more);
  }

  lemma Regrouped(a: seq<byte>, b: seq<byte>, c: seq<byte>, d: seq<byte>)
    ensures a + (b + c) + d == a + (b + (c + d))
  {
  }

  lemma TwoAppends(w: Writer, ps: seq<seq<byte>>, u1: string, p1: seq<byte>, landed: nat,
                   u2: string, p2: seq<byte>, urlOf: UrlOf)
    requires InStep(w, ps, urlOf) && landed < |Frame(p1)|
    ensures var w2 := Append(Append(w, u1, p1, Short(landed, true)), u2, p2, NoFault);
            && Sized(ps) && w2.log == Concat(ps) + (Frame(p1)[..landed] + Frame(p2))
            && u2 in w2.index && w2.index[u2] == |Concat(ps)| + landed
  {
    hide Frame, Concat, IndexOf;
  }

  /** No rebuilt index points at the end of a torn frame. */
  lemma NotRebuiltAtTornEnd(ps: seq<seq<byte>>, p: seq<byte>, landed: nat, tail: seq<byte>, urlOf: UrlOf, u: string)
    requires Sized(ps) && |p| < U32 && 0 < landed < |Frame(p)|
    ensures var rebuilt := IndexOf(Scan(Concat(ps) + (Frame(p)[..landed] + tail), 0), urlOf);
            u in rebuilt ==> rebuilt[u] != |Concat(ps)| + landed
  {
    hide Frame, Concat, EntriesOf, IndexOf, Scan;
    var torn := Frame(p)[..landed] + tail;
    var entries := Scan(Concat(ps) + torn, 0);
    ScanAfterLog(ps, torn, 0);
    if u in IndexOf(entries, urlOf) {
      var i := IndexedIsEntry(entries, urlOf, u);
      EntryOffsets(ps, 0);
      if i >= |ps| {
        NothingAtTornEnd(p, landed, tail, |Concat(ps)|, i - |ps|);
      }
    }
  }

  /** The error flag is raised if and only if some append failed. */
  lemma {:induction false} FailedIff(w: Writer, cmds: seq<Cmd>)
    ensures Appends(w, cmds).failed <==> w.failed || exists i :: 0 <= i < |cmds| && cmds[i].fault.Short?
    decreases |cmds|
  {
    if cmds != [] {
      var w1 := Append(w, cmds[0].url, cmds[0].payload, cmds[0].fault);
      FailedIff(w1, cmds[1..]);
      assert forall i :: 0 < i < |cmds| ==> cmds[i] == cmds[1..][i - 1];
      if exists i :: 0 <= i < |cmds| - 1 && cmds[1..][i].fault.Short? {
        var i :| 0 <= i < |cmds| - 1 && cmds[1..][i].fault.Short?;
        assert cmds[i + 1].fault.Short?;
      }
    }
  }
}
