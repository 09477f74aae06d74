/**
  The packed record log of the sender (`send_output_buffer`, src/tcp_proto_output.h),
  its record sizes (src/newimpl.cpp) and the plain queue it refines.
 */
module SendLog {
  import opened SequenceWindows

  const SEND_BUF_SZ: nat := 300000
  const ALIGN: nat := 8

  /** A segment kept for retransmission: its window offset, number, bytes, mark and future. */
  datatype Record = Record(off: nat, seqno: Wire, data: seq<Byte>, used: bool, future: nat) {
    function End(): nat {
      off + |data|
    }
  }

  // ---------------------------------------------------------------- the plain queue

  predicate Adjacent(log: seq<Record>, i: nat)
    requires i + 1 < |log|
  {
    log[i].End() == log[i + 1].off
  }

  predicate Before(log: seq<Record>, i: nat, j: nat)
    requires i < |log| && j < |log|
  {
    log[i].End() <= log[j].off
  }

  /** Non-empty segments laid end to end from offset 0. */
  ghost predicate LogOk(log: seq<Record>) {
    && (forall i :: 0 <= i < |log| ==> |log[i].data| > 0)
    && (|log| > 0 ==> log[0].off == 0)
    && (forall i: nat {:trigger Adjacent(log, i)} :: i + 1 < |log| ==> Adjacent(log, i))
    && (forall i: nat, j: nat {:trigger Before(log, i, j)} :: i < j < |log| ==> Before(log, i, j))
  }

  /** The offset just past the last segment. */
  function Total(log: seq<Record>): nat {
    if |log| == 0 then 0 else log[|log| - 1].End()
  }

  /** The offset at which segment `i` starts; the end of the queue for `i == |log|`. */
  function OffAt(log: seq<Record>, i: nat): nat
    requires i <= |log|
  {
    if i < |log| then log[i].off else Total(log)
  }

  /** The futures of the segments that start in [from, to), in queue order. */
  function ReleasedFutures(log: seq<Record>, from: nat, to: nat): seq<nat> {
    ReleasedAmong(log, |log|, from, to)
  }

  function ReleasedAmong(log: seq<Record>, n: nat, from: nat, to: nat): seq<nat>
    requires n <= |log|
  {
    if n == 0 then []
    else ReleasedAmong(log, n - 1, from, to) + (if from <= log[n - 1].off < to then [log[n - 1].future] else [])
  }

  /** The futures of segments i..j, in order. */
  function FuturesOf(log: seq<Record>, i: nat, j: nat): (fs: seq<nat>)
    requires i <= j <= |log|
    ensures |fs| == j - i
    ensures forall t :: 0 <= t < j - i ==> fs[t] == log[i + t].future
    decreases j
  {
    if i == j then [] else FuturesOf(log, i, j - 1) + [log[j - 1].future]
  }

  lemma OffAtMonotone(log: seq<Record>, i: nat, j: nat)
    requires LogOk(log)
    requires i < j <= |log|
    ensures OffAt(log, i) < OffAt(log, j)
    ensures OffAt(log, i + 1) == log[i].End()
  {
    if i + 1 < |log| {
      assert Adjacent(log, i);
    }
    if j < |log| {
      assert Before(log, i, j);
    } else if i < |log| - 1 {
      assert Before(log, i, |log| - 1);
    }
  }

  lemma LogOkAppend(log: seq<Record>, r: Record)
    requires LogOk(log)
    requires r.off == Total(log) && |r.data| > 0
    ensures LogOk(log + [r])
    ensures Total(log + [r]) == r.End()
  {
    var log' := log + [r];
    forall i: nat | i + 1 < |log'|
      ensures Adjacent(log', i)
    {
      if i + 1 < |log| {
        assert Adjacent(log, i);
      }
    }
    forall i: nat, j: nat | i < j < |log'|
      ensures Before(log', i, j)
    {
      if j < |log| {
        assert Before(log, i, j);
      } else {
        OffAtMonotone(log, i, |log|);
        if i + 1 < |log| { OffAtMonotone(log, i + 1, |log|); }
      }
    }
  }

  lemma MarkKeepsLog(log: seq<Record>, i: nat, used: bool)
    requires LogOk(log) && i < |log|
    ensures var log' := log[i := log[i].(used := used)];
            && LogOk(log')
            && Total(log') == Total(log)
            && forall k: nat :: k < |log| ==> log'[k] == log[k].(used := log'[k].used)
  {
    var log' := log[i := log[i].(used := used)];
    forall k: nat | k < |log|
      ensures log'[k].off == log[k].off && log'[k].End() == log[k].End()
    {
    }
    forall k: nat | k + 1 < |log|
      ensures Adjacent(log', k)
    {
      assert Adjacent(log, k);
    }
    forall k: nat, l: nat | k < l < |log|
      ensures Before(log', k, l)
    {
      assert Before(log, k, l);
    }
  }

  /** Cut at segment boundaries, the released futures are exactly those of segments i..j, once each and in order. */
  lemma ReleasedSlice(log: seq<Record>, i: nat, j: nat)
    requires LogOk(log)
    requires i <= j <= |log|
    ensures ReleasedFutures(log, OffAt(log, i), OffAt(log, j)) == FuturesOf(log, i, j)
  {
    forall t: nat | t < |log|
      ensures OffAt(log, i) <= log[t].off < OffAt(log, j) <==> i <= t < j
    {
      InRange(log, t, i, j);
    }
    ReleasedUpTo(log, |log|, i, j, OffAt(log, i), OffAt(log, j));
  }

  /** Segment `t` starts in the range between boundaries `i` and `j` exactly if i <= t < j. */
  lemma InRange(log: seq<Record>, t: nat, i: nat, j: nat)
    requires LogOk(log)
    requires i <= j <= |log| && t < |log|
    ensures OffAt(log, i) <= log[t].off < OffAt(log, j) <==> i <= t < j
  {
    if t < i { OffAtMonotone(log, t, i); }
    if i < t { OffAtMonotone(log, i, t); }
    if t < j { OffAtMonotone(log, t, j); }
    if j < t { OffAtMonotone(log, j, t); }
  }

  lemma {:induction false} ReleasedUpTo(log: seq<Record>, n: nat, i: nat, j: nat, from: nat, to: nat)
    requires i <= j <= |log| && n <= |log|
    requires forall t: nat :: t < |log| ==> (from <= log[t].off < to <==> i <= t < j)
    ensures ReleasedAmong(log, n, from, to) == if n <= i then [] else FuturesOf(log, i, if n < j then n else j)
    decreases n
  {
    if n == 0 {
    } else {
      ReleasedUpTo(log, n - 1, i, j, from, to);
      assert from <= log[n - 1].off < to <==> i <= n - 1 < j;
    }
  }

  // ---------------------------------------------------------------- record sizes

  /** Bytes a record occupies: header and data, rounded up past the next multiple of eight. */
  function RecordSize(header: nat, len: nat): nat {
    ((header + len) / ALIGN + 1) * ALIGN
  }

  function PackedSize(header: nat, lens: seq<nat>): nat {
    if |lens| == 0 then 0 else PackedSize(header, lens[..|lens| - 1]) + RecordSize(header, lens[|lens| - 1])
  }

  function Sum(lens: seq<nat>): nat {
    if |lens| == 0 then 0 else Sum(lens[..|lens| - 1]) + lens[|lens| - 1]
  }

  predicate CutsWindow(lens: seq<nat>) {
    (forall i :: 0 <= i < |lens| ==> lens[i] > 0) && Sum(lens) <= WINDOW_SZ
  }

  const MAX_HEADER: nat := 294

  /** A record takes the next multiple of eight above its header and data. */
  lemma RecordSizeAligned(header: nat, len: nat)
    ensures RecordSize(header, len) % 8 == 0 && header + len < RecordSize(header, len) <= header + len + 8
  {
  }

  lemma RecordSizeBound(header: nat, len: nat)
    requires header <= MAX_HEADER && len > 0
    ensures header + len < RecordSize(header, len) <= 296 * len
  {
  }

  lemma {:induction false} PackedBound(header: nat, lens: seq<nat>)
    requires header <= MAX_HEADER
    requires forall i :: 0 <= i < |lens| ==> lens[i] > 0
    ensures PackedSize(header, lens) <= 296 * Sum(lens)
  {
    if |lens| == 0 {
    } else {
      PackedBound(header, lens[..|lens| - 1]);
      RecordSizeBound(header, lens[|lens| - 1]);
    }
  }

  lemma {:induction false} PackedOnes(header: nat, n: nat)
    ensures PackedSize(header, seq(n, _ => 1)) == n * RecordSize(header, 1)
    ensures Sum(seq(n, _ => 1)) == n
  {
    if n == 0 {
    } else {
      PackedOnes(header, n - 1);
      assert seq(n, _ => 1)[..n - 1] == seq(n - 1, _ => 1);
      assert (n - 1) * RecordSize(header, 1) + RecordSize(header, 1) == n * RecordSize(header, 1);
    }
  }

  /**
    The 300000-byte buffer holds the records of every way to cut a window into non-empty
    segments exactly when a record header takes at most 294 bytes.
   */
  lemma BufferSufficesIff(header: nat)
    ensures (forall lens: seq<nat> | CutsWindow(lens) :: PackedSize(header, lens) <= 300000) <==> header <= 294
  {
    if header <= MAX_HEADER {
      forall lens: seq<nat> | CutsWindow(lens)
        ensures PackedSize(header, lens) <= SEND_BUF_SZ
      {
        PackedBound(header, lens);
      }
    } else {
      var ones := seq(WINDOW_SZ, _ => 1);
      PackedOnes(header, WINDOW_SZ);
      assert RecordSize(header, 1) >= 304;
      assert CutsWindow(ones) && PackedSize(header, ones) > SEND_BUF_SZ;
    }
  }

  // ---------------------------------------------------------------- the packed log

  predicate Overlaps(a: nat, aSz: nat, b: nat, bSz: nat) {
    a < b + bSz && b < a + aSz
  }

  /** Record `i` ends where record `i + 1` begins. */
  ghost predicate Packed(header: nat, log: seq<Record>, reals: seq<nat>, i: nat)
    requires |reals| == |log| + 1 && i < |log|
  {
    reals[i + 1] == reals[i] + RecordSize(header, |log[i].data|)
  }

  /** Records of the queue laid end to end from byte 0, at the bytes `reals`. */
  ghost predicate RealsOk(header: nat, log: seq<Record>, reals: seq<nat>) {
    && |reals| == |log| + 1
    && reals[0] == 0
    && (forall i: nat {:trigger Packed(header, log, reals, i)} :: i < |log| ==> Packed(header, log, reals, i))
    && (forall i, j :: 0 <= i < j <= |log| ==> reals[i] < reals[j])
  }

  /** The map leads from the offset of every segment to its record, and the record holds the segment. */
  ghost predicate Indexed(log: seq<Record>, reals: seq<nat>, offMap: seq<nat>, mem: map<nat, Record>)
    requires |reals| == |log| + 1 && WINDOW_SZ < |offMap|
  {
    forall i: nat :: i < |log| ==>
      log[i].off <= WINDOW_SZ && offMap[log[i].off] == reals[i] && reals[i] in mem && mem[reals[i]] == log[i]
  }

  lemma RealsAppend(header: nat, log: seq<Record>, reals: seq<nat>, r: Record, end: nat)
    requires RealsOk(header, log, reals)
    requires end == reals[|log|] + RecordSize(header, |r.data|)
    ensures RealsOk(header, log + [r], reals + [end])
  {
    forall i: nat | i < |log| + 1
      ensures Packed(header, log + [r], reals + [end], i)
    {
      if i < |log| {
        assert Packed(header, log, reals, i);
      }
    }
  }

  /** What a put leaves of the buffer: every record it does not overlap, and the new one. */
  function Written(header: nat, mem: map<nat, Record>, at: nat, r: Record): map<nat, Record> {
    (map k | k in mem && !Overlaps(k, RecordSize(header, |mem[k].data|), at, RecordSize(header, |r.data|)) :: mem[k])
    [at := r]
  }

  /** No two records share a byte of the buffer. */
  ghost predicate Spaced(header: nat, mem: map<nat, Record>) {
    forall a, b :: a in mem && b in mem && a != b ==> Apart(header, mem, a, b)
  }

  ghost predicate Apart(header: nat, mem: map<nat, Record>, a: nat, b: nat)
    requires a in mem && b in mem
  {
    a + RecordSize(header, |mem[a].data|) <= b || b + RecordSize(header, |mem[b].data|) <= a
  }

  /** A put overwrites whatever it overlaps: the records that are left are apart again, the new one among them. */
  lemma WrittenSpaced(header: nat, mem: map<nat, Record>, at: nat, r: Record)
    requires Spaced(header, mem)
    ensures Spaced(header, Written(header, mem, at, r))
    ensures at in Written(header, mem, at, r) && Written(header, mem, at, r)[at] == r
  {
    var mem' := Written(header, mem, at, r);
    forall a, b | a in mem' && b in mem' && a != b
      ensures Apart(header, mem', a, b)
    {
      if a != at && b != at {
        assert Apart(header, mem, a, b);
      }
    }
  }

  lemma IndexedAppend(header: nat, log: seq<Record>, reals: seq<nat>, offMap: seq<nat>, mem: map<nat, Record>,
                      r: Record, end: nat)
    requires LogOk(log) && RealsOk(header, log, reals)
    requires WINDOW_SZ < |offMap| && Indexed(log, reals, offMap, mem)
    requires r.off == Total(log) && |r.data| > 0 && r.End() <= WINDOW_SZ
    requires offMap[r.off] == reals[|log|]
    ensures Indexed(log + [r], reals + [end], offMap[r.End() := end], Written(header, mem, reals[|log|], r))
  {
    var mem' := Written(header, mem, reals[|log|], r);
    forall i: nat | i < |log|
      ensures log[i].off < r.off
      ensures reals[i] in mem' && mem'[reals[i]] == log[i]
    {
      assert Packed(header, log, reals, i);
      OffAtMonotone(log, i, |log|);
      assert reals[i + 1] <= reals[|log|];
    }
  }

  /** The packed log: `end` and the map agree with the queue, and the records fit the buffer. */
  ghost predicate BufferOk(header: nat, log: seq<Record>, reals: seq<nat>, offMap: seq<nat>, mem: map<nat, Record>,
                           end: nat)
  {
    && header <= MAX_HEADER
    && |offMap| == SEND_BUF_SZ
    && LogOk(log)
    && Total(log) <= WINDOW_SZ
    && RealsOk(header, log, reals)
    && reals[|log|] == end <= 296 * Total(log)
    && Indexed(log, reals, offMap, mem)
    && offMap[Total(log)] == end
  }

  lemma BufferPut(header: nat, log: seq<Record>, reals: seq<nat>, offMap: seq<nat>, mem: map<nat, Record>,
                  end: nat, r: Record)
    requires BufferOk(header, log, reals, offMap, mem, end)
    requires r.off == Total(log) && |r.data| > 0 && r.End() <= WINDOW_SZ
    ensures var end' := end + RecordSize(header, |r.data|);
            && BufferOk(header, log + [r], reals + [end'], offMap[r.End() := end'], Written(header, mem, end, r), end')
            && end < end' <= SEND_BUF_SZ
  {
    RecordSizeBound(header, |r.data|);
    LogOkAppend(log, r);
    RealsAppend(header, log, reals, r, end + RecordSize(header, |r.data|));
    IndexedAppend(header, log, reals, offMap, mem, r, end + RecordSize(header, |r.data|));
  }

  /** Record `n` lies where the map says, and its size leads to record `n + 1`. */
  lemma RecordAt(header: nat, log: seq<Record>, reals: seq<nat>, offMap: seq<nat>, mem: map<nat, Record>, end: nat,
                 n: nat)
    requires BufferOk(header, log, reals, offMap, mem, end) && n < |log|
    ensures reals[n] in mem && mem[reals[n]] == log[n]
    ensures reals[n + 1] == reals[n] + RecordSize(header, |log[n].data|)
  {
    assert Packed(header, log, reals, n);
  }

  lemma RemarkKeepsShape(header: nat, log: seq<Record>, reals: seq<nat>, i: nat, used: bool)
    requires LogOk(log) && RealsOk(header, log, reals) && i < |log|
    ensures var log' := log[i := log[i].(used := used)];
            LogOk(log') && RealsOk(header, log', reals) && Total(log') == Total(log)
  {
    var log' := log[i := log[i].(used := used)];
    MarkKeepsLog(log, i, used);
    forall k: nat | k < |log|
      ensures Packed(header, log', reals, k)
    {
      assert Packed(header, log, reals, k);
    }
  }

  /**
    `mem` is the byte buffer seen as the records it holds, by the byte at which each starts;
    `offMap` maps a window offset to such a byte; `signalled` lists the notified futures.
    The ghost fields are the queue and the byte position of each of its segments.
   */
  class SendOutputBuffer {
    const header: nat
    const offMap: array<nat>
    var mem: map<nat, Record>
    var end: nat
    var signalled: seq<nat>
    ghost var log: seq<Record>
    ghost var reals: seq<nat>

    ghost predicate Valid()
      reads this, offMap
    {
      BufferOk(header, log, reals, offMap[..], mem, end)
    }

    constructor (header: nat)
      requires header <= MAX_HEADER
      ensures Valid() && fresh(offMap)
      ensures log == [] && signalled == [] && this.header == header && offMap.Length == 300000
    {
      this.header := header;
      offMap := new nat[SEND_BUF_SZ](_ => 0);
      mem, end, signalled := map[], 0, [];
      log, reals := [], [0];
    }

    lemma At(i: nat)
      requires Valid() && i <= |log|
      ensures OffAt(log, i) <= WINDOW_SZ
      ensures offMap[OffAt(log, i)] == reals[i] <= end <= SEND_BUF_SZ
      ensures i < |log| ==> reals[i + 1] == reals[i] + RecordSize(header, |log[i].data|)
      ensures i < |log| ==> OffAt(log, i + 1) == log[i].End()
    {
      if i < |log| {
        assert Packed(header, log, reals, i);
        OffAtMonotone(log, i, |log|);
      }
    }

    /** Start a new window: the buffer is reused from its first byte. */
    method Refresh()
      requires Valid()
      modifies this, offMap
      ensures Valid()
      ensures log == [] && signalled == old(signalled)
    {
      end := 0;
      offMap[0] := 0;
      log, reals := [], [0];
    }

    /** At the boundary of segment `i` the map leads to that segment's record. */
    method GetMsgAt(off: nat, ghost i: nat) returns (handle: nat)
      requires Valid()
      requires i < |log| && off == log[i].off
      ensures handle == reals[i] && handle in mem && mem[handle] == log[i]
    {
      At(i);
      handle := offMap[off];
    }

    /** Append a segment at the end of the queue; the record fits the buffer and spares every other one. */
    method PutMsgAt(off: nat, r: Record) returns (future: nat)
      requires Valid()
      requires off == r.off == Total(log) && |r.data| > 0 && r.End() <= WINDOW_SZ
      modifies this, offMap
      ensures Valid()
      ensures log == old(log) + [r] && signalled == old(signalled)
      ensures future == r.future
      ensures old(end) < end <= 300000
    {
      BufferPut(header, log, reals, offMap[..], mem, end, r);
      var at := offMap[off];
      mem := Written(header, mem, at, r);
      end := end + RecordSize(header, |r.data|);
      offMap[off + |r.data|] := end;
      log, reals := log + [r], reals + [end];
      assert offMap[..] == old(offMap[..])[r.End() := end];
      future := mem[at].future;
    }

    /** Notify the future of the record at `handle`; its size leads to the next record. */
    method ReleaseInplace(handle: nat) returns (sz: nat)
      requires handle in mem
      modifies this`signalled
      ensures signalled == old(signalled) + [mem[handle].future]
      ensures sz == RecordSize(header, |mem[handle].data|)
    {
      signalled := signalled + [mem[handle].future];
      sz := RecordSize(header, |mem[handle].data|);
    }

    /** Release exactly the segments i..j, each once and in order. */
    method ReleaseRange(begin: nat, last: nat, ghost i: nat, ghost j: nat)
      requires Valid()
      requires i < j <= |log|
      requires begin == OffAt(log, i) && last + 1 == OffAt(log, j)
      modifies this`signalled
      ensures Valid()
      ensures signalled == old(signalled) + FuturesOf(log, i, j)
    {
      At(i);
      At(j);
      var off := offMap[begin];
      var realEnd := offMap[last + 1];
      ghost var n := i;
      while off < realEnd
        invariant i <= n <= j && off == reals[n]
        invariant signalled == old(signalled) + FuturesOf(log, i, n)
        decreases j - n
      {
        RecordAt(header, log, reals, offMap[..], mem, end, n);
        var sz := ReleaseInplace(off);
        off := off + sz;
        n := n + 1;
      }
    }

    /** Set the `used` mark of segment `i` through its handle. */
    method MarkUsed(handle: nat, used: bool, ghost i: nat)
      requires Valid()
      requires i < |log| && handle == reals[i]
      modifies this`mem, this`log
      ensures Valid()
      ensures log == old(log)[i := old(log)[i].(used := used)]
    {
      RemarkKeepsShape(header, log, reals, i, used);
      mem := mem[handle := mem[handle].(used := used)];
      log := log[i := log[i].(used := used)];
    }
  }
}
