/** The append-only crawl-result log as its readers see it: framing, the recovery scan, the full
    read, and what both make of a log that was cut off anywhere. */
module ResultLog {
  import opened Common

  const U32 := 0x1_0000_0000
  const NEWLINE: byte := 10

  /** Little-endian u32. */
  function Le32(n: nat): (b: seq<byte>)
    requires n < U32
    ensures |b| == 4
  {
    var n1 := n / 256;
    var n2 := n1 / 256;
    [(n % 256) as byte, (n1 % 256) as byte, (n2 % 256) as byte, (n2 / 256) as byte]
  }

  function FromLe32(b: seq<byte>): nat
    requires |b| == 4
  {
    b[0] as int + 256 * (b[1] as int + 256 * (b[2] as int + 256 * (b[3] as int)))
  }

  /** `payload.len() as u32`: the length cut to 32 bits. */
  function Len32(payload: seq<byte>): nat {
    |payload| % U32
  }

  /** `[length][payload][newline]`. */
  function Frame(payload: seq<byte>): (f: seq<byte>)
    ensures |f| == |payload| + 5
  {
    Le32(Len32(payload)) + payload + [NEWLINE]
  }

  lemma FrameLength(payload: seq<byte>)
    ensures FromLe32(Le32(Len32(payload))) == Len32(payload)
    ensures |payload| < U32 ==> Len32(payload) == |payload|
  {
  }

  // ----- the sequential scan -----------------------------------------------------------

  datatype Entry = Entry(offset: nat, payload: seq<byte>)

  function Min(a: nat, b: nat): nat {
    if a <= b then a else b
  }

  /** Records of `rest`, which starts at byte `base` of the log. A length or a payload that does
      not fit ends the scan; a missing newline does not. */
  function Scan(rest: seq<byte>, base: nat): seq<Entry>
    decreases |rest|
  {
    if |rest| < 4 then []
    else
      var len := FromLe32(rest[..4]);
      if |rest| < 4 + len then []
      else [Entry(base, rest[4..4 + len])] + Scan(rest[Min(5 + len, |rest|)..], base + 5 + len)
  }

  /** The same scan as the readers run it: one log, an advancing offset. */
  function Read(log: seq<byte>, offset: nat): seq<Entry>
    requires offset <= |log| + 1
    decreases |log| + 1 - offset
  {
    if |log| < offset + 4 then []
    else
      var len := FromLe32(log[offset..offset + 4]);
      if |log| < offset + 4 + len then []
      else [Entry(offset, log[offset + 4..offset + 4 + len])] + Read(log, offset + 5 + len)
  }

  lemma SliceFacts(log: seq<byte>, offset: nat, len: nat)
    requires offset + 4 + len <= |log|
    ensures log[offset..][4..4 + len] == log[offset + 4..offset + 4 + len]
    ensures log[offset..][Min(5 + len, |log| - offset)..] == log[Min(offset + 5 + len, |log|)..]
  {
  }

  lemma ReadUnfolds(log: seq<byte>, offset: nat)
    requires offset + 4 <= |log|
    ensures var len := FromLe32(log[offset..offset + 4]);
            Read(log, offset) == if |log| < offset + 4 + len then []
                                 else [Entry(offset, log[offset + 4..offset + 4 + len])] + Read(log, offset + 5 + len)
  {
    hide FromLe32;
  }

  lemma ScanUnfolds(rest: seq<byte>, base: nat)
    requires 4 <= |rest|
    ensures var len := FromLe32(rest[..4]);
            Scan(rest, base) == if |rest| < 4 + len then []
                                else [Entry(base, rest[4..4 + len])]
                                     + Scan(rest[Min(5 + len, |rest|)..], base + 5 + len)
  {
    hide FromLe32;
  }

  lemma ReadsNothing(log: seq<byte>, offset: nat, rest: seq<byte>)
    requires offset <= |log| + 1 && |log| < offset + 4 && |rest| < 4
    ensures Read(log, offset) == [] == Scan(rest, offset)
  {
  }

  lemma {:induction false} ReadIsScan(log: seq<byte>, offset: nat)
    requires offset <= |log| + 1
    ensures Read(log, offset) == Scan(log[Min(offset, |log|)..], offset)
    decreases |log| + 1 - offset
  {
    hide FromLe32, Read, Scan;
    var rest := log[Min(offset, |log|)..];
    if |log| < offset + 4 {
      ReadsNothing(log, offset, rest);
    } else {
      ReadUnfolds(log, offset);
      ScanUnfolds(rest, offset);
      assert rest[..4] == log[offset..offset + 4];
      var len := FromLe32(rest[..4]);
      if offset + 4 + len <= |log| {
        SliceFacts(log, offset, len);
        ReadIsScan(log, offset + 5 + len);
      }
    }
  }

  type UrlOf = seq<byte> -> Option<string>

  /** The index of a list of scanned records: later records replace earlier ones. */
  function IndexOf(entries: seq<Entry>, urlOf: UrlOf): map<string, nat> {
    if entries == [] then map[]
    else
      var last := entries[|entries| - 1];
      var before := IndexOf(entries[..|entries| - 1], urlOf);
      if urlOf(last.payload).Some? then before[urlOf(last.payload).value := last.offset] else before
  }

  lemma IndexSnoc(entries: seq<Entry>, e: Entry, urlOf: UrlOf)
    ensures IndexOf(entries + [e], urlOf) ==
            if urlOf(e.payload).Some? then IndexOf(entries, urlOf)[urlOf(e.payload).value := e.offset]
               else IndexOf(entries, urlOf)
  {
  }

  /** A reader at `offset` has seen the records `done` and still has the rest to come. */
  ghost predicate Progress(log: seq<byte>, offset: nat, done: seq<Entry>) {
    offset <= |log| + 1 && done + Read(log, offset) == Read(log, 0)
  }

  lemma ProgressStarts(log: seq<byte>, urlOf: UrlOf)
    ensures Progress(log, 0, []) && IndexOf([], urlOf) == map[]
  {
    hide Read;
    assert [] + Read(log, 0) == Read(log, 0);
  }

  lemma ProgressSteps(log: seq<byte>, offset: nat, done: seq<Entry>)
    requires Progress(log, offset, done) && offset + 4 <= |log|
    ensures var len := FromLe32(log[offset..offset + 4]);
            offset + 4 + len <= |log| ==>
              Progress(log, offset + 5 + len, done + [Entry(offset, log[offset + 4..offset + 4 + len])])
  {
  }

  lemma ProgressEnds(log: seq<byte>, offset: nat, done: seq<Entry>)
    requires Progress(log, offset, done)
    requires |log| < offset + 4 || |log| < offset + 4 + FromLe32(log[offset..offset + 4])
    ensures done == Scan(log, 0)
  {
    hide FromLe32;
    assert done + [] == done;
    ReadIsScan(log, 0);
    assert log[0..] == log;
  }

  /** A log on a medium whose bytes from `fault` on cannot be read. A read that needs bytes past the
      readable part fails: with an I/O error if the log goes on there, as end of file otherwise. */
  datatype Medium = Medium(log: seq<byte>, fault: Option<nat>)

  predicate Broken(m: Medium) {
    m.fault.Some? && m.fault.value < |m.log|
  }

  function Readable(m: Medium): seq<byte> {
    if Broken(m) then m.log[..m.fault.value] else m.log
  }

  datatype LoadError = Unreadable(offset: nat) | Undecodable(offset: nat)

  /** Where the scan stands after `entries`. */
  function StopOf(entries: seq<Entry>): nat {
    if entries == [] then 0 else entries[|entries| - 1].offset + 5 + |entries[|entries| - 1].payload|
  }

  /** The medium fails while a length is being read; while a payload is, the scan just ends. */
  predicate LengthUnreadable(m: Medium) {
    Broken(m) && |Readable(m)| < StopOf(Scan(Readable(m), 0)) + 4
  }

  /** Rebuild the index by reading the log from its start. */
  method RecoverIndex(m: Medium, urlOf: UrlOf) returns (r: Result<map<string, nat>, LoadError>)
    ensures r == if LengthUnreadable(m) then Err(Unreadable(StopOf(Scan(Readable(m), 0))))
                 else Ok(IndexOf(Scan(Readable(m), 0), urlOf))
  {
    var log := Readable(m);
    var index: map<string, nat> := map[];
    var offset := 0;
    ghost var done: seq<Entry> := [];
    hide FromLe32, Progress, IndexOf, Scan;
    ProgressStarts(log, urlOf);
    while offset + 4 <= |log|
      invariant Progress(log, offset, done) && offset == StopOf(done)
      invariant index == IndexOf(done, urlOf)
      decreases |log| - offset
    {
      var len := FromLe32(log[offset..offset + 4]);
      if |log| < offset + 4 + len {
        ProgressEnds(log, offset, done);
        return Ok(index);
      }
      var payload := log[offset + 4..offset + 4 + len];
      if urlOf(payload).Some? {
        index := index[urlOf(payload).value := offset];
      }
      IndexSnoc(done, Entry(offset, payload), urlOf);
      ProgressSteps(log, offset, done);
      done := done + [Entry(offset, payload)];
      offset := offset + 4 + len + 1;
    }
    ProgressEnds(log, offset, done);
    r := if Broken(m) then Err(Unreadable(offset)) else Ok(index);
  }

  /** Decode a scanned log; the first payload that does not decode ends the read with an error. */
  function DecodeAll<C>(entries: seq<Entry>, decode: seq<byte> -> Option<C>): Result<seq<C>, LoadError> {
    if entries == [] then Ok([])
    else
      var last := entries[|entries| - 1];
      match DecodeAll(entries[..|entries| - 1], decode)
      case Err(e) => Err(e)
      case Ok(all) =>
        if decode(last.payload).Some? then Ok(all + [decode(last.payload).value]) else Err(Undecodable(last.offset))
  }

  lemma DecodeSnoc<C>(entries: seq<Entry>, e: Entry, decode: seq<byte> -> Option<C>)
    requires DecodeAll(entries, decode).Ok?
    ensures DecodeAll(entries + [e], decode) ==
            if decode(e.payload).None? then Err(Undecodable(e.offset))
            else Ok(DecodeAll(entries, decode).value + [decode(e.payload).value])
  {
    assert (entries + [e])[..|entries|] == entries;
  }

  lemma DecodesNothing<C>(decode: seq<byte> -> Option<C>)
    ensures DecodeAll([], decode) == Ok([])
  {
  }

  /** An error ends the read: what follows does not matter. */
  lemma {:induction false} DecodeFails<C>(entries: seq<Entry>, rest: seq<Entry>, decode: seq<byte> -> Option<C>)
    requires DecodeAll(entries, decode).Err?
    ensures DecodeAll(entries + rest, decode) == DecodeAll(entries, decode)
    decreases |rest|
  {
    if rest == [] {
      assert entries + rest == entries;
    } else {
      assert (entries + rest)[..|entries + rest| - 1] == entries + rest[..|rest| - 1];
      DecodeFails(entries, rest[..|rest| - 1], decode);
    }
  }

  /** What a full read returns. */
  function LoadOf<C>(m: Medium, decode: seq<byte> -> Option<C>): Result<seq<C>, LoadError> {
    var entries := Scan(Readable(m), 0);
    var all := DecodeAll(entries, decode);
    if all.Ok? && LengthUnreadable(m) then Err(Unreadable(StopOf(entries))) else all
  }

  /** One sequential pass over the log. */
  method LoadAll<C>(m: Medium, decode: seq<byte> -> Option<C>) returns (r: Result<seq<C>, LoadError>)
    ensures r == LoadOf(m, decode)
  {
    var log := Readable(m);
    var results: seq<C> := [];
    var offset := 0;
    ghost var done: seq<Entry> := [];
    hide FromLe32, Progress, DecodeAll, LoadOf, Readable;
    DecodesNothing(decode);
    ProgressStarts(log, p => None);
    while offset + 4 <= |log|
      invariant Progress(log, offset, done) && offset == StopOf(done)
      invariant DecodeAll(done, decode) == Ok(results)
      decreases |log| - offset
    {
      var len := FromLe32(log[offset..offset + 4]);
      if |log| < offset + 4 + len {
        LoadEnds(m, offset, done, decode);
        return Ok(results);
      }
      var e := Entry(offset, log[offset + 4..offset + 4 + len]);
      DecodeSnoc(done, e, decode);
      ProgressSteps(log, offset, done);
      done := done + [e];
      var content := decode(e.payload);
      if content.None? {
        LoadBreaks(m, offset + 5 + len, done, decode);
        return Err(Undecodable(offset));
      }
      results := results + [content.value];
      offset := offset + 4 + len + 1;
    }
    LoadEnds(m, offset, done, decode);
    r := if Broken(m) then Err(Unreadable(offset)) else Ok(results);
  }

  /** The two ways a read ends, and the way it breaks off. */
  lemma LoadEnds<C>(m: Medium, offset: nat, done: seq<Entry>, decode: seq<byte> -> Option<C>)
    requires Progress(Readable(m), offset, done) && offset == StopOf(done) && DecodeAll(done, decode).Ok?
    requires var log := Readable(m); |log| < offset + 4 || |log| < offset + 4 + FromLe32(log[offset..offset + 4])
    ensures LoadOf(m, decode) == if Broken(m) && |Readable(m)| < offset + 4 then Err(Unreadable(offset))
                                 else DecodeAll(done, decode)
  {
    hide FromLe32, DecodeAll;
    ProgressEnds(Readable(m), offset, done);
  }

  lemma LoadBreaks<C>(m: Medium, offset: nat, done: seq<Entry>, decode: seq<byte> -> Option<C>)
    requires Progress(Readable(m), offset, done) && DecodeAll(done, decode).Err?
    ensures LoadOf(m, decode) == DecodeAll(done, decode)
  {
    hide DecodeAll, Progress;
    ProgressIsPrefix(Readable(m), offset, done);
    DecodeFails(done, Scan(Readable(m), 0)[|done|..], decode);
  }

  lemma ProgressIsPrefix(log: seq<byte>, offset: nat, done: seq<Entry>)
    requires Progress(log, offset, done)
    ensures |done| <= |Scan(log, 0)| && Scan(log, 0) == done + Scan(log, 0)[|done|..]
  {
    hide Read, Scan;
    ReadIsScan(log, 0);
    assert log[0..] == log;
  }

  // ----- well-formed logs ----------------------------------------------------------------

  function Concat(ps: seq<seq<byte>>): seq<byte> {
    if ps == [] then [] else Frame(ps[0]) + Concat(ps[1..])
  }

  /** The entries a well-formed log at `base` consists of. */
  function EntriesOf(ps: seq<seq<byte>>, base: nat): (es: seq<Entry>)
    ensures |es| == |ps|
  {
    if ps == [] then [] else [Entry(base, ps[0])] + EntriesOf(ps[1..], base + 5 + |ps[0]|)
  }

  ghost predicate Sized(ps: seq<seq<byte>>) {
    forall i :: 0 <= i < |ps| ==> |ps[i]| < U32
  }

  /** First byte after the payload of record `i`. */
  function BodyEnd(ps: seq<seq<byte>>, i: nat): nat
    requires i < |ps|
    decreases i
  {
    if i == 0 then 4 + |ps[0]| else 5 + |ps[0]| + BodyEnd(ps[1..], i - 1)
  }

  lemma {:induction false} ConcatSnoc(ps: seq<seq<byte>>, p: seq<byte>)
    ensures Concat(ps + [p]) == Concat(ps) + Frame(p)
    decreases |ps|
  {
    hide Frame;
    if ps == [] {
      assert [p][1..] == [];
      assert Frame(p) + [] == Frame(p);
      assert [] + [p] == [p];
    } else {
      ConcatSnoc(ps[1..], p);
      assert (ps + [p])[1..] == ps[1..] + [p];
      assert Frame(ps[0]) + (Concat(ps[1..]) + Frame(p)) == Frame(ps[0]) + Concat(ps[1..]) + Frame(p);
    }
  }

  lemma ConcatLength(ps: seq<seq<byte>>)
    requires ps != []
    ensures |Concat(ps)| == 5 + |ps[0]| + |Concat(ps[1..])|
  {
  }

  lemma EntriesUnfold(p: seq<byte>, rest: seq<seq<byte>>, base: nat)
    ensures EntriesOf([p] + rest, base) == [Entry(base, p)] + EntriesOf(rest, base + 5 + |p|)
  {
  }

  lemma {:induction false} EntriesSnoc(ps: seq<seq<byte>>, p: seq<byte>, base: nat)
    ensures EntriesOf(ps + [p], base) == EntriesOf(ps, base) + [Entry(base + |Concat(ps)|, p)]
    decreases |ps|
  {
    if ps == [] {
      hide Frame;
      assert ps + [p] == [p] && [p][1..] == [];
    } else {
      hide Concat, EntriesOf, Frame;
      var first, rest := ps[0], ps[1..];
      EntriesSnoc(rest, p, base + 5 + |first|);
      ConcatLength(ps);
      assert ps == [first] + rest && ps + [p] == [first] + (rest + [p]);
      EntriesUnfold(first, rest, base);
      EntriesUnfold(first, rest + [p], base);
    }
  }

  lemma ScanOfFrame(p: seq<byte>, tail: seq<byte>, base: nat)
    requires |p| < U32
    ensures Scan(Frame(p) + tail, base) == [Entry(base, p)] + Scan(tail, base + 5 + |p|)
  {
    FrameLength(p);
    var whole := Frame(p) + tail;
    assert whole[..4] == Le32(|p|) && whole[4..4 + |p|] == p && whole[5 + |p|..] == tail;
  }

  /** A frame whose payload is cut yields nothing; a frame that lost only its newline yields its record. */
  lemma ScanOfCutFrame(p: seq<byte>, base: nat, cut: nat)
    requires |p| < U32 && cut < 5 + |p|
    ensures Scan(Frame(p)[..cut], base) == if cut < 4 + |p| then [] else [Entry(base, p)]
  {
    FrameLength(p);
    var part := Frame(p)[..cut];
    if cut >= 4 {
      assert part[..4] == Le32(|p|);
      if cut == 4 + |p| {
        assert part[4..4 + |p|] == p && part[cut..] == [];
      }
    }
  }

  /** Truncation at any byte: the scan of a well-formed log cut at `cut` returns exactly the
      records whose length and payload fit before the cut, in order, at their offsets. */
  lemma {:induction false} TruncationAtAnyByte(ps: seq<seq<byte>>, cut: nat, base: nat) returns (k: nat)
    requires Sized(ps) && cut <= |Concat(ps)|
    ensures k <= |ps| && Scan(Concat(ps)[..cut], base) == EntriesOf(ps[..k], base)
    ensures forall i :: 0 <= i < |ps| ==> (i < k <==> BodyEnd(ps, i) <= cut)
    decreases |ps|
  {
    hide FromLe32, Frame, BodyEnd;
    if ps == [] {
      k := 0;
      assert Concat(ps)[..cut] == [] && ps[..k] == [];
    } else if cut < 5 + |ps[0]| {
      k := CutInFirstFrame(ps, cut, base);
    } else {
      var p, tail := ps[0], ps[1..];
      var cut' := cut - 5 - |p|;
      var k' := TruncationAtAnyByte(tail, cut', base + 5 + |p|);
      k := k' + 1;
      CutAfterFirstFrame(ps, cut, base, k');
      BodyEndsShift(ps, cut, k');
    }
  }

  lemma CutInFirstFrame(ps: seq<seq<byte>>, cut: nat, base: nat) returns (k: nat)
    requires Sized(ps) && ps != [] && cut < 5 + |ps[0]| && cut <= |Concat(ps)|
    ensures k <= |ps| && Scan(Concat(ps)[..cut], base) == EntriesOf(ps[..k], base)
    ensures forall i :: 0 <= i < |ps| ==> (i < k <==> BodyEnd(ps, i) <= cut)
  {
    hide FromLe32, Frame, Scan;
    assert Concat(ps)[..cut] == Frame(ps[0])[..cut];
    ScanOfCutFrame(ps[0], base, cut);
    BodyEndGrows(ps);
    k := if cut < 4 + |ps[0]| then 0 else 1;
    if k == 1 {
      assert ps[..1] == [ps[0]] && ps[..1][1..] == [];
    }
  }

  lemma CutAfterFirstFrame(ps: seq<seq<byte>>, cut: nat, base: nat, k: nat)
    requires Sized(ps) && ps != [] && 5 + |ps[0]| <= cut <= |Concat(ps)| && k <= |ps| - 1
    requires Scan(Concat(ps[1..])[..cut - 5 - |ps[0]|], base + 5 + |ps[0]|)
             == EntriesOf(ps[1..][..k], base + 5 + |ps[0]|)
    ensures Scan(Concat(ps)[..cut], base) == EntriesOf(ps[..k + 1], base)
  {
    hide FromLe32, Frame, Scan, EntriesOf;
    var p, rest := ps[0], Concat(ps[1..])[..cut - 5 - |ps[0]|];
    assert Concat(ps)[..cut] == Frame(p) + rest;
    ScanOfFrame(p, rest, base);
    EntriesCons(ps, k, base);
  }

  lemma EntriesCons(ps: seq<seq<byte>>, k: nat, base: nat)
    requires k < |ps|
    ensures EntriesOf(ps[..k + 1], base) == [Entry(base, ps[0])] + EntriesOf(ps[1..][..k], base + 5 + |ps[0]|)
  {
    assert ps[..k + 1][1..] == ps[1..][..k];
  }

  lemma BodyEndsShift(ps: seq<seq<byte>>, cut: nat, k: nat)
    requires ps != [] && 5 + |ps[0]| <= cut
    requires forall i :: 0 <= i < |ps| - 1 ==> (i < k <==> BodyEnd(ps[1..], i) <= cut - 5 - |ps[0]|)
    ensures forall i :: 0 <= i < |ps| ==> (i < k + 1 <==> BodyEnd(ps, i) <= cut)
  {
  }

  lemma {:induction false} BodyEndGrows(ps: seq<seq<byte>>)
    ensures forall i :: 0 <= i < |ps| ==> BodyEnd(ps, i) >= 4 + |ps[0]|
    ensures forall i :: 0 < i < |ps| ==> BodyEnd(ps, i) >= 5 + |ps[0]|
  {
  }

  /** Bytes behind a well-formed log are scanned from where it ends. */
  lemma {:induction false} ScanAfterLog(ps: seq<seq<byte>>, more: seq<byte>, base: nat)
    requires Sized(ps)
    ensures Scan(Concat(ps) + more, base) == EntriesOf(ps, base) + Scan(more, base + |Concat(ps)|)
    decreases |ps|
  {
    hide FromLe32, Frame, Scan;
    if ps == [] {
      assert Concat(ps) + more == more;
    } else {
      var p, rest := ps[0], Concat(ps[1..]);
      assert Concat(ps) + more == Frame(p) + (rest + more);
      ScanOfFrame(p, rest + more, base);
      ScanAfterLog(ps[1..], more, base + 5 + |p|);
    }
  }

  /** An uncut log scans back to its records. */
  lemma ScanOfLog(ps: seq<seq<byte>>, base: nat)
    requires Sized(ps)
    ensures Scan(Concat(ps), base) == EntriesOf(ps, base)
  {
    hide Concat, EntriesOf;
    ScanAfterLog(ps, [], base);
    assert Concat(ps) + [] == Concat(ps);
  }

  /** A truncated log never makes the sequential read fail: it returns the decoded prefix. */
  lemma TruncatedLoadSucceeds<C>(ps: seq<seq<byte>>, cut: nat, decode: seq<byte> -> Option<C>) returns (k: nat)
    requires Sized(ps) && cut <= |Concat(ps)| && forall i :: 0 <= i < |ps| ==> decode(ps[i]).Some?
    ensures k <= |ps| && forall i :: 0 <= i < |ps| ==> (i < k <==> BodyEnd(ps, i) <= cut)
    ensures var r := LoadOf(Medium(Concat(ps)[..cut], None), decode);
            r.Ok? && |r.value| == k && forall i :: 0 <= i < k ==> r.value[i] == decode(ps[i]).value
  {
    k := TruncationAtAnyByte(ps, cut, 0);
    DecodesPointwise(ps[..k], 0, decode);
  }

  lemma StopOfEntries(ps: seq<seq<byte>>)
    ensures StopOf(EntriesOf(ps, 0)) == |Concat(ps)|
  {
    if ps != [] {
      hide Frame;
      var n := |ps| - 1;
      assert ps == ps[..n] + [ps[n]];
      ConcatSnoc(ps[..n], ps[n]);
      EntriesSnoc(ps[..n], ps[n], 0);
    }
  }

  /** A medium that fails at byte `fault` of a well-formed log: with `k` whole records before it, the
      read reports the failure if and only if the byte is not in the payload of record `k`. In a
      payload it is taken for a torn tail, and the `k` records are returned as if they were all. */
  lemma ReadFaultReportedIff<C>(ps: seq<seq<byte>>, fault: nat, decode: seq<byte> -> Option<C>) returns (k: nat)
    requires Sized(ps) && fault < |Concat(ps)| && forall i :: 0 <= i < |ps| ==> decode(ps[i]).Some?
    ensures k <= |ps| && forall i :: 0 <= i < |ps| ==> (i < k <==> BodyEnd(ps, i) <= fault)
    ensures var r := LoadOf(Medium(Concat(ps), Some(fault)), decode);
            && (r.Ok? <==> k < |ps| && |Concat(ps[..k])| + 4 <= fault)
            && (r.Ok? ==> |r.value| == k && forall i :: 0 <= i < k ==> r.value[i] == decode(ps[i]).value)
            && (r.Err? ==> r.error == Unreadable(|Concat(ps[..k])|))
  {
    hide Concat, Scan, EntriesOf, BodyEnd, DecodeAll;
    k := TruncationAtAnyByte(ps, fault, 0);
    StopOfEntries(ps[..k]);
    DecodesPointwise(ps[..k], 0, decode);
    assert k == |ps| ==> ps[..k] == ps;
  }

  lemma {:induction false} DecodesPointwise<C>(ps: seq<seq<byte>>, base: nat, decode: seq<byte> -> Option<C>)
    requires forall i :: 0 <= i < |ps| ==> decode(ps[i]).Some?
    ensures var r := DecodeAll(EntriesOf(ps, base), decode);
            r.Ok? && |r.value| == |ps| && forall i :: 0 <= i < |ps| ==> r.value[i] == decode(ps[i]).value
    decreases |ps|
  {
    if ps != [] {
      hide Concat, EntriesOf, DecodeAll;
      var n := |ps| - 1;
      var last := Entry(base + |Concat(ps[..n])|, ps[n]);
      assert ps == ps[..n] + [ps[n]];
      EntriesSnoc(ps[..n], ps[n], base);
      DecodesPointwise(ps[..n], base, decode);
      DecodeSnoc(EntriesOf(ps[..n], base), last, decode);
    }
  }

  // ----- the index means "last record of its URL" ------------------------------------------

  predicate Names(e: Entry, urlOf: UrlOf, u: string) {
    urlOf(e.payload) == Some(u)
  }

  /** An URL is indexed exactly when some record carries it, at the offset of the last such record. */
  lemma {:induction false} IndexPointsAtLast(entries: seq<Entry>, urlOf: UrlOf, u: string)
    ensures u in IndexOf(entries, urlOf) <==> exists i :: 0 <= i < |entries| && Names(entries[i], urlOf, u)
    ensures u in IndexOf(entries, urlOf) ==>
              exists i :: 0 <= i < |entries| && Names(entries[i], urlOf, u)
                && IndexOf(entries, urlOf)[u] == entries[i].offset
                          && forall j :: i < j < |entries| ==> !Names(entries[j], urlOf, u)
  {
    if entries != [] {
      var n := |entries| - 1;
      IndexPointsAtLast(entries[..n], urlOf, u);
      if Names(entries[n], urlOf, u) {
        assert IndexOf(entries, urlOf)[u] == entries[n].offset;
      } else if u in IndexOf(entries[..n], urlOf) {
        var i :| 0 <= i < n && Names(entries[..n][i], urlOf, u)
          && IndexOf(entries[..n], urlOf)[u] == entries[..n][i].offset
                 && forall j :: i < j < n ==> !Names(entries[..n][j], urlOf, u);
        assert Names(entries[i], urlOf, u) && IndexOf(entries, urlOf)[u] == entries[i].offset;
        forall j | i < j < |entries|
          ensures !Names(entries[j], urlOf, u)
        {
          if j < n {
            assert entries[..n][j] == entries[j];
          }
        }
      } else {
        assert forall i :: 0 <= i < n ==> entries[..n][i] == entries[i];
      }
    }
  }

  /** A full read fails at the first payload that does not decode, and otherwise decodes them all. */
  lemma {:induction false} DecodeStopsAtFirst<C>(entries: seq<Entry>, decode: seq<byte> -> Option<C>)
    ensures match DecodeAll(entries, decode)
            case Ok(all) =>
              |all| == |entries| && forall i :: 0 <= i < |entries| ==> decode(entries[i].payload) == Some(all[i])
            case Err(e) =>
              exists i :: 0 <= i < |entries| && decode(entries[i].payload).None? && e == Undecodable(entries[i].offset)
                          && forall j :: 0 <= j < i ==> decode(entries[j].payload).Some?
    decreases |entries|
  {
    if entries != [] {
      var n := |entries| - 1;
      DecodeStopsAtFirst(entries[..n], decode);
      assert entries == entries[..n] + [entries[n]];
      if DecodeAll(entries[..n], decode).Err? {
        var e := DecodeAll(entries[..n], decode).error;
        var i :| 0 <= i < n && decode(entries[..n][i].payload).None? && e == Undecodable(entries[..n][i].offset)
                 && forall j :: 0 <= j < i ==> decode(entries[..n][j].payload).Some?;
        assert entries[i] == entries[..n][i] && forall j :: 0 <= j < i ==> entries[j] == entries[..n][j];
        assert decode(entries[i].payload).None? && e == Undecodable(entries[i].offset);
      } else if decode(entries[n].payload).None? {
        assert forall j :: 0 <= j < n ==> entries[..n][j] == entries[j];
      }
    }
  }

  // ----- bytes on disk --------------------------------------------------------------------------

  /** The layout of a frame: four length bytes, the least significant first, the payload, a line feed. */
  lemma FrameLayout(payload: seq<byte>)
    requires |payload| < U32
    ensures var f, n := Frame(payload), |payload|;
            && f[0] as int == n % 0x100 && f[1] as int == n / 0x100 % 0x100
            && f[2] as int == n / 0x1_0000 % 0x100 && f[3] as int == n / 0x100_0000
            && f[4..4 + n] == payload && f[4 + n] == 10 && |f| == n + 5
  {
    var n := |payload|;
    assert n / 256 / 256 == n / 0x1_0000 && n / 256 / 256 / 256 == n / 0x100_0000;
  }

  /** A length prefix read back: the first byte counts least. */
  lemma LengthIs(b: seq<byte>)
    requires |b| == 4
    ensures FromLe32(b) == b[0] as int + 0x100 * b[1] as int + 0x1_0000 * b[2] as int + 0x100_0000 * b[3] as int
  {
  }
}
