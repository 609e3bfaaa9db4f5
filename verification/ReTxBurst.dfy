/** The retransmission burst tracker (ngscope_reTx.cc): a scan of one merged trace that
    keeps track of the bits held back in the receiver's re-ordering buffer. */
module ReTxBurst {
  import opened MachineInts
  import opened Tti

  /** Bits charged for one retransmission slot. */
  const RETX_BITS: int := 11520 * 4
  /** A retransmission belongs to a burst when one of the 8 slots before it is one too. */
  const BURST_GAP: int := 8

  /** A trace of consecutive subframes, merged over all cells. */
  datatype CaTrace = CaTrace(reTx: seq<bool>, tti: seq<uint16>, tbs: seq<uint32>, rxTimeUs: seq<uint64>) {
    ghost predicate Valid() {
      |reTx| == |tti| == |tbs| == |rxTimeUs|
    }

    function Size(): nat { |tti| }
  }

  /** The fields of the re-ordering buffer. */
  datatype BufState = BufState(
    ready: bool,
    active: bool,
    size: int,
    startTti: uint16,
    lastTti: uint16,
    startT: uint64,
    lastT: uint64,
    startPktT: uint64,
    startPktFound: bool,
    refOneway: uint64,
    mostRecentDciT: uint64)

  const InitialBuf: BufState := BufState(false, false, 0, 0, 0, 0, 0, 0, false, 0, 0)

  // ---- specification of one scan ------------------------------------------

  function Sum(tbs: seq<uint32>, lo: nat, hi: nat): (r: nat)
    requires hi <= |tbs|
    decreases hi
  {
    if lo >= hi then 0 else Sum(tbs, lo, hi - 1) + tbs[hi - 1]
  }

  ghost predicate ReTxIn(reTx: seq<bool>, lo: int, hi: int) {
    exists j :: lo <= j < hi && 0 <= j < |reTx| && reTx[j]
  }

  ghost predicate IsNewBurst(reTx: seq<bool>, index: nat) {
    index < |reTx| && !ReTxIn(reTx, index - BURST_GAP, index)
  }

  function FindTti(s: seq<uint16>, x: uint16): (r: int)
    ensures -1 <= r < |s|
    ensures r >= 0 ==> s[r] == x && x !in s[..r]
    ensures r == -1 ==> x !in s
  {
    if s == [] then -1
    else if s[0] == x then 0
    else
      var r := FindTti(s[1..], x);
      if r == -1 then -1
      else
        assert s[..r + 1] == [s[0]] + s[1..][..r];
        r + 1
  }

  /** Bits counted before the first retransmission of a burst, in 32-bit arithmetic. */
  function NewBurstBits(trace: CaTrace, i: nat): uint32
    requires trace.Valid() && i < trace.Size()
  {
    Sum(trace.tbs, Max(0, i - BURST_GAP), i) % TWO32
  }

  /** Bits counted between two retransmissions of a burst, in 32-bit arithmetic. */
  function InBurstBits(trace: CaTrace, last: int, i: nat): uint32
    requires trace.Valid() && -1 <= last < trace.Size() && i < trace.Size()
  {
    Sum(trace.tbs, last + 1, i) % TWO32
  }

  function Reset(b: BufState): BufState {
    b.(active := false, size := 0, startPktFound := false, mostRecentDciT := 0)
  }

  function Activated(b: BufState): BufState {
    b.(active := true, size := 0, startPktFound := true)
  }

  function Started(b: BufState, trace: CaTrace, i: nat): BufState
    requires trace.Valid() && i < trace.Size()
  {
    b.(active := true, ready := true, size := NewBurstBits(trace, i) + RETX_BITS,
       startTti := trace.tti[i], lastTti := trace.tti[i],
       startT := trace.rxTimeUs[i], lastT := trace.rxTimeUs[i])
  }

  function Extended(b: BufState, trace: CaTrace, i: nat): BufState
    requires trace.Valid() && i < trace.Size()
  {
    b.(active := true, size := b.size + InBurstBits(trace, FindTti(trace.tti, b.lastTti), i) + RETX_BITS,
       lastTti := trace.tti[i], lastT := trace.rxTimeUs[i])
  }

  /** Slots not after the last retransmission already seen are skipped. */
  predicate Skips(b: BufState, trace: CaTrace, i: nat)
    requires trace.Valid() && i < trace.Size()
  {
    WheelGap(WrapTti(trace.tti[i]), WrapTti(b.lastTti)) <= 0 && b.ready
  }

  ghost function Visited(b: BufState, trace: CaTrace, i: nat): BufState
    requires trace.Valid() && i < trace.Size()
  {
    if !trace.reTx[i] then b
    else if b.active then
      if IsNewBurst(trace.reTx, i) then b else Extended(b, trace, i)
    else if IsNewBurst(trace.reTx, i) || !b.ready then Started(b, trace, i)
    else Extended(Activated(b), trace, i)
  }

  predicate Exits(b: BufState, trace: CaTrace, i: nat)
    requires trace.Valid() && i < trace.Size()
  {
    b.active && WheelGap(WrapTti(trace.tti[i]), WrapTti((b.lastTti + BURST_GAP) % TWO16)) > 0
  }

  /** One round of the scan: the new state, whether a retransmission was visited, and
      whether the scan ends here. */
  datatype StepResult = StepResult(buf: BufState, isReTx: bool, leave: bool)

  ghost function Step(b: BufState, trace: CaTrace, i: nat): StepResult
    requires trace.Valid() && i < trace.Size()
  {
    if Skips(b, trace, i) then StepResult(b, false, false)
    else
      var b' := Visited(b, trace, i);
      StepResult(b', trace.reTx[i], Exits(b', trace, i))
  }

  datatype ScanResult = ScanResult(buf: BufState, found: bool)

  ghost function Scan(b: BufState, trace: CaTrace, i: nat, found: bool): ScanResult
    requires trace.Valid() && i <= trace.Size()
    decreases trace.Size() - i
  {
    if i == trace.Size() then ScanResult(b, found)
    else
      var s := Step(b, trace, i);
      if s.leave then ScanResult(s.buf, found || s.isReTx)
      else Scan(s.buf, trace, i + 1, found || s.isReTx)
  }

  // ---- the loops ------------------------------------------------------------

  method FindElement(s: seq<uint16>, x: uint16) returns (r: int)
    ensures r == FindTti(s, x)
  {
    for i := 0 to |s|
      invariant x !in s[..i]
    {
      if x == s[i] {
        assert s[i] == x && x !in s[..i];
        FindIsFirst(s, x, i);
        return i;
      }
      assert s[..i + 1] == s[..i] + [s[i]];
    }
    assert s[..|s|] == s;
    return -1;
  }

  lemma FindIsFirst(s: seq<uint16>, x: uint16, i: nat)
    requires i < |s| && s[i] == x && x !in s[..i]
    ensures FindTti(s, x) == i
  {
  }

  /** ngscope_reTx_is_new_burst */
  method ComputeIsNewBurst(reTx: seq<bool>, index: nat) returns (ret: bool)
    ensures ret <==> IsNewBurst(reTx, index)
  {
    if index >= |reTx| {
      return false;
    }
    ret := true;
    if index < BURST_GAP {
      for i := 0 to index
        invariant ret <==> !ReTxIn(reTx, 0, i)
      {
        if reTx[i] { ret := false; }
      }
    } else {
      for i := index - BURST_GAP to index
        invariant ret <==> !ReTxIn(reTx, index - BURST_GAP, i)
      {
        if reTx[i] { ret := false; }
      }
    }
  }

  /** ngscope_reTx_sum_tbs_new_burst */
  method SumTbsNewBurst(tbs: seq<uint32>, index: nat) returns (sum: uint32)
    ensures sum == if index >= |tbs| then 0 else Sum(tbs, Max(0, index - BURST_GAP), index) % TWO32
  {
    if index >= |tbs| {
      return 0;
    }
    sum := 0;
    var lo := if index < BURST_GAP then 0 else index - BURST_GAP;
    for i := lo to index
      invariant sum == Sum(tbs, lo, i) % TWO32
    {
      sum := (sum + tbs[i]) % TWO32;
    }
  }

  /** ngscope_reTx_sum_tbs_in_burst: neither end is summed. */
  method SumTbsInBurst(tbs: seq<uint32>, last: int, index: nat) returns (sum: uint32)
    requires last >= -1
    ensures sum == if last >= |tbs| || index >= |tbs| then 0 else Sum(tbs, last + 1, index) % TWO32
  {
    if last >= |tbs| || index >= |tbs| {
      return 0;
    }
    sum := 0;
    var i := last + 1;
    while i < index
      invariant last + 1 <= i && (i <= index || i == last + 1)
      invariant sum == Sum(tbs, last + 1, i) % TWO32
    {
      sum := (sum + tbs[i]) % TWO32;
      i := i + 1;
    }
  }

  class ReorderingBuffer {
    var ready: bool
    var startPktT: uint64
    var startPktFound: bool
    var bufferActive: bool
    var bufSize: int
    var bufStartTti: uint16
    var bufLastTti: uint16
    var bufStartT: uint64
    var bufLastT: uint64
    var refOneway: uint64
    var mostRecentDciT: uint64

    function State(): BufState
      reads this
    {
      BufState(ready, bufferActive, bufSize, bufStartTti, bufLastTti, bufStartT, bufLastT,
               startPktT, startPktFound, refOneway, mostRecentDciT)
    }

    /** ngscope_reTx_init_buf */
    constructor ()
      ensures State() == InitialBuf
    {
      ready, startPktT, startPktFound := false, 0, false;
      bufferActive, bufSize, bufStartTti, bufLastTti, bufStartT, bufLastT := false, 0, 0, 0, 0, 0;
      refOneway, mostRecentDciT := 0, 0;
    }

    /** ngscope_reTx_reset_buf: TTIs, times and the reference delay are kept. */
    method ResetBuf()
      modifies this
      ensures State() == Reset(old(State()))
    {
      bufferActive := false;
      bufSize := 0;
      startPktFound := false;
      mostRecentDciT := 0;
    }

    /** ngscope_reTx_activate_buf */
    method ActivateBuf()
      modifies this
      ensures State() == Activated(old(State()))
    {
      bufferActive := true;
      bufSize := 0;
      startPktFound := true;
    }

    /** set_reTx_start_tti */
    method SetStartTti(trace: CaTrace, idx: nat)
      requires trace.Valid() && idx < trace.Size()
      modifies this
      ensures State() == Started(old(State()), trace, idx)
    {
      bufferActive := true;
      ready := true;
      var bits := SumTbsNewBurst(trace.tbs, idx);
      bufSize := bits + RETX_BITS;
      bufStartTti := trace.tti[idx];
      bufLastTti := trace.tti[idx];
      bufStartT := trace.rxTimeUs[idx];
      bufLastT := trace.rxTimeUs[idx];
    }

    /** set_reTx_tti_inBurst */
    method SetTtiInBurst(trace: CaTrace, idx: nat)
      requires trace.Valid() && idx < trace.Size()
      modifies this
      ensures State() == Extended(old(State()), trace, idx)
    {
      bufferActive := true;
      var last := FindElement(trace.tti, bufLastTti);
      var bits := SumTbsInBurst(trace.tbs, last, idx);
      bufSize := bufSize + (bits + RETX_BITS);
      bufLastTti := trace.tti[idx];
      bufLastT := trace.rxTimeUs[idx];
    }

    /** The branches of update_reTx_buf for a retransmission slot. */
    method VisitReTx(trace: CaTrace, i: nat)
      requires trace.Valid() && i < trace.Size() && trace.reTx[i]
      modifies this
      ensures State() == Visited(old(State()), trace, i)
    {
      var newBurst := ComputeIsNewBurst(trace.reTx, i);
      if bufferActive {
        if !newBurst {
          SetTtiInBurst(trace, i);
        }
      } else {
        if newBurst || !ready {
          SetStartTti(trace, i);
        } else {
          ActivateBuf();
          SetTtiInBurst(trace, i);
        }
      }
    }

    /** One round of the loop of update_reTx_buf. */
    method VisitSlot(trace: CaTrace, i: nat) returns (isReTx: bool, leave: bool)
      requires trace.Valid() && i < trace.Size()
      modifies this
      ensures State() == Step(old(State()), trace, i).buf
      ensures isReTx == Step(old(State()), trace, i).isReTx
      ensures leave == Step(old(State()), trace, i).leave
    {
      isReTx, leave := false, false;
      var seen := TtiSmallerOrEqual(WrapTti(trace.tti[i]), WrapTti(bufLastTti));
      if seen && ready {
        return;
      }
      if trace.reTx[i] {
        isReTx := true;
        VisitReTx(trace, i);
      }
      if bufferActive {
        leave := TtiLarger(WrapTti(trace.tti[i]), WrapTti((bufLastTti + BURST_GAP) % TWO16));
      }
    }

    /** update_reTx_buf */
    method Update(trace: CaTrace) returns (found: bool)
      requires trace.Valid()
      modifies this
      ensures ScanResult(State(), found) == Scan(old(State()), trace, 0, false)
    {
      found := false;
      for i := 0 to trace.Size()
        invariant Scan(State(), trace, i, found) == Scan(old(State()), trace, 0, false)
      {
        var isReTx, leave := VisitSlot(trace, i);
        found := found || isReTx;
        if leave {
          break;
        }
      }
    }
  }
}
