/** The receiver's list of packets (ngscope_packet_list.cc): doubly linked behind a
    sentinel, ordered by receive time, pruned to a window, and charged with the bits of
    the re-ordering buffer. */
module PacketList {
  import opened MachineInts
  import opened ReTxBurst

  /** Width of the window in microseconds: 1000 subframes of 1 ms. */
  const DELAY_THD_US: int := 1000 * 1000

  datatype Packet = Packet(
    recvT: uint64,
    lenByte: uint32,
    oneway: uint64,
    onewayNew: uint64,
    reverted: bool,
    burstStart: bool)

  // ---- specification: pruning ---------------------------------------------------

  ghost predicate Sorted(ps: seq<Packet>) {
    forall i, j :: 0 <= i < j < |ps| ==> ps[i].recvT <= ps[j].recvT
  }

  ghost predicate NoneAfter(ps: seq<Packet>, now: int) {
    forall i :: 0 <= i < |ps| ==> ps[i].recvT <= now
  }

  /** Drop packets from the front while they are too old and not the only one. */
  ghost function Pruned(ps: seq<Packet>, now: int): seq<Packet> {
    if |ps| >= 2 && now - ps[0].recvT > DELAY_THD_US then Pruned(ps[1..], now) else ps
  }

  /** The difference of two times in unsigned 64-bit arithmetic. */
  function Elapsed(since: uint64, now: uint64): uint64 {
    if since <= now then now - since else TWO64 + now - since
  }

  /** The same in unsigned 64-bit arithmetic, where a packet after now is very old. */
  ghost function PrunedUnsigned(ps: seq<Packet>, now: uint64): seq<Packet> {
    if |ps| >= 2 && Elapsed(ps[0].recvT, now) > DELAY_THD_US then PrunedUnsigned(ps[1..], now) else ps
  }

  lemma {:induction false} PrunedInOrder(ps: seq<Packet>, now: uint64)
    requires NoneAfter(ps, now)
    ensures PrunedUnsigned(ps, now) == Pruned(ps, now)
    decreases |ps|
  {
    if |ps| >= 2 { PrunedInOrder(ps[1..], now); }
  }

  ghost predicate Late(ps: seq<Packet>, p: Packet) {
    ps != [] && ps[|ps| - 1].recvT > p.recvT
  }

  ghost function Inserted(ps: seq<Packet>, p: Packet): seq<Packet> {
    if Late(ps, p) then ps else Pruned(ps + [p], p.recvT)
  }

  /** The pruned list is the longest suffix that is a single packet or starts within the
      window: every packet dropped is too old. */
  lemma {:induction false} PrunedIsLongestSuffix(ps: seq<Packet>, now: int) returns (k: nat)
    ensures k <= |ps| && Pruned(ps, now) == ps[k..]
    ensures ps != [] ==> k < |ps| && (k == |ps| - 1 || now - ps[k].recvT <= DELAY_THD_US)
    ensures forall j :: 0 <= j < k ==> now - ps[j].recvT > DELAY_THD_US
    decreases |ps|
  {
    if |ps| >= 2 && now - ps[0].recvT > DELAY_THD_US {
      var k' := PrunedIsLongestSuffix(ps[1..], now);
      k := k' + 1;
      assert ps[1..][k'..] == ps[k..];
      forall j | 0 <= j < k ensures now - ps[j].recvT > DELAY_THD_US {
        if j > 0 { assert ps[j] == ps[1..][j - 1]; }
      }
    } else {
      k := 0;
    }
  }

  /** All packets of a burst of insertions that were not late when they came. */
  ghost function Accepted(arrivals: seq<Packet>): seq<Packet> {
    if arrivals == [] then []
    else
      var before := Accepted(arrivals[..|arrivals| - 1]);
      if Late(before, arrivals[|arrivals| - 1]) then before else before + [arrivals[|arrivals| - 1]]
  }

  ghost function InsertAll(arrivals: seq<Packet>): seq<Packet> {
    if arrivals == [] then []
    else Inserted(InsertAll(arrivals[..|arrivals| - 1]), arrivals[|arrivals| - 1])
  }

  lemma {:induction false} AcceptedIsSorted(arrivals: seq<Packet>)
    ensures Sorted(Accepted(arrivals))
  {
    if arrivals != [] { AcceptedIsSorted(arrivals[..|arrivals| - 1]); }
  }

  lemma {:induction false} PruneAgain(ps: seq<Packet>, t1: int, p: Packet, t2: int)
    requires ps != [] && t1 <= t2
    ensures Pruned(Pruned(ps, t1) + [p], t2) == Pruned(ps + [p], t2)
    decreases |ps|
  {
    if |ps| >= 2 && t1 - ps[0].recvT > DELAY_THD_US {
      assert (ps + [p])[1..] == ps[1..] + [p];
      PruneAgain(ps[1..], t1, p, t2);
    }
  }

  /** After any sequence of arrivals the list is the pruned sequence of the accepted ones:
      pruning at every insertion loses nothing that one pruning at the end would keep. */
  lemma {:induction false} ListAfterArrivals(arrivals: seq<Packet>)
    ensures var kept, all := InsertAll(arrivals), Accepted(arrivals);
            && (all == [] <==> kept == [])
            && (all != [] ==> kept == Pruned(all, all[|all| - 1].recvT) && kept[|kept| - 1] == all[|all| - 1])
    decreases |arrivals|
  {
    if arrivals != [] {
      var before, p := arrivals[..|arrivals| - 1], arrivals[|arrivals| - 1];
      ListAfterArrivals(before);
      var all := Accepted(before);
      if !Late(all, p) {
        if all != [] { PruneAgain(all, all[|all| - 1].recvT, p, p.recvT); }
        var k := PrunedIsLongestSuffix(all + [p], p.recvT);
      }
    }
  }

  /** Over any sequence of arrivals the list is sorted, spans at most the window, and holds
      every accepted packet that is within the window of the newest. */
  lemma ReachableLists(arrivals: seq<Packet>)
    ensures var kept, all := InsertAll(arrivals), Accepted(arrivals);
            && Sorted(kept)
            && (forall i :: 0 <= i < |kept| ==> kept[|kept| - 1].recvT - kept[i].recvT <= DELAY_THD_US)
            && |kept| <= |all| && kept == all[|all| - |kept|..]
            && (forall j :: 0 <= j < |all| - |kept| ==> all[|all| - 1].recvT - all[j].recvT > DELAY_THD_US)
  {
    ListAfterArrivals(arrivals);
    AcceptedIsSorted(arrivals);
    var all := Accepted(arrivals);
    if all != [] {
      var k := PrunedIsLongestSuffix(all, all[|all| - 1].recvT);
      SuffixWithin(all, k);
    }
  }

  lemma SuffixWithin(all: seq<Packet>, k: nat)
    requires Sorted(all) && k < |all|
    requires k == |all| - 1 || all[|all| - 1].recvT - all[k].recvT <= DELAY_THD_US
    ensures Sorted(all[k..]) && all[k..] == all[|all| - |all[k..]|..]
    ensures var kept := all[k..];
            forall i :: 0 <= i < |kept| ==> kept[|kept| - 1].recvT - kept[i].recvT <= DELAY_THD_US
  {
  }

  // ---- specification: charging the buffer ---------------------------------------

  function Bits(p: Packet): uint32 { p.lenByte * 8 % TWO32 }

  /** The packets a pass may charge: received since the burst began and not charged yet. */
  predicate Eligible(p: Packet, b: BufState) {
    p.recvT >= b.startPktT && !p.reverted && b.active
  }

  function Rewritten(p: Packet, b: BufState): Packet {
    p.(onewayNew := b.refOneway, reverted := true, burstStart := p.burstStart || p.recvT == b.startPktT)
  }

  /** One round of the pass. */
  function ChargedPacket(p: Packet, b: BufState): Packet {
    if Eligible(p, b) then Rewritten(p, b) else p
  }

  function ChargedBuf(p: Packet, b: BufState): BufState {
    if Eligible(p, b) then b.(size := b.size - Bits(p)) else b
  }

  datatype PassResult = PassResult(packets: seq<Packet>, buf: BufState)

  ghost function RevertPass(ps: seq<Packet>, b: BufState): (r: PassResult)
    ensures |r.packets| == |ps|
  {
    if ps == [] then PassResult([], b)
    else
      var b' := ChargedBuf(ps[0], b);
      if b'.size <= 0 then PassResult([ChargedPacket(ps[0], b)] + ps[1..], Reset(b'))
      else
        var rest := RevertPass(ps[1..], b');
        PassResult([ChargedPacket(ps[0], b)] + rest.packets, rest.buf)
  }

  /** The pass as the loop performs it: in place, from the i-th packet on. */
  ghost function PassFrom(ps: seq<Packet>, b: BufState, i: nat): PassResult
    requires i <= |ps|
    decreases |ps| - i
  {
    if i == |ps| then PassResult(ps, b)
    else
      var ps', b' := ps[i := ChargedPacket(ps[i], b)], ChargedBuf(ps[i], b);
      if b'.size <= 0 then PassResult(ps', Reset(b')) else PassFrom(ps', b', i + 1)
  }

  /** The loop over the list performs the pass over its packets. */
  lemma {:induction false} PassFromIsRevertPass(ps: seq<Packet>, b: BufState, i: nat)
    requires i <= |ps|
    ensures PassFrom(ps, b, i)
            == PassResult(ps[..i] + RevertPass(ps[i..], b).packets, RevertPass(ps[i..], b).buf)
    decreases |ps| - i
  {
    if i == |ps| {
      assert ps[..i] + [] == ps;
    } else {
      var ps', b' := ps[i := ChargedPacket(ps[i], b)], ChargedBuf(ps[i], b);
      assert ps[i..][1..] == ps[i + 1..] == ps'[i + 1..];
      if b'.size <= 0 {
        assert ps' == ps[..i] + ([ps'[i]] + ps[i + 1..]);
      } else {
        PassFromIsRevertPass(ps', b', i + 1);
        assert ps'[..i + 1] == ps[..i] + [ps'[i]];
      }
    }
  }

  /** Bits of the eligible packets among the first k. */
  ghost function EligibleBits(ps: seq<Packet>, b: BufState, k: nat): nat
    requires k <= |ps|
  {
    if k == 0 then 0
    else EligibleBits(ps, b, k - 1) + (if Eligible(ps[k - 1], b) then Bits(ps[k - 1]) else 0)
  }

  /** The first k packets cover the buffer, and no shorter prefix does. */
  ghost predicate ShortestCover(ps: seq<Packet>, b: BufState, k: nat) {
    && 1 <= k <= |ps| && EligibleBits(ps, b, k) >= b.size
    && forall j: nat :: j < k ==> EligibleBits(ps, b, j) < b.size
  }

  /** The list with the eligible packets among the first k rewritten. */
  ghost function RewrittenUpTo(ps: seq<Packet>, b: BufState, k: nat): seq<Packet>
    requires k <= |ps|
  {
    seq(|ps|, i requires 0 <= i < |ps| => if i < k then ChargedPacket(ps[i], b) else ps[i])
  }

  lemma {:induction false} EligibleBitsOfTail(ps: seq<Packet>, b: BufState, k: nat)
    requires 1 <= k <= |ps|
    ensures EligibleBits(ps, b, k)
            == (if Eligible(ps[0], b) then Bits(ps[0]) else 0) + EligibleBits(ps[1..], ChargedBuf(ps[0], b), k - 1)
  {
    if k > 1 {
      EligibleBitsOfTail(ps, b, k - 1);
      assert ps[k - 1] == ps[1..][k - 2];
    }
  }

  lemma {:induction false} EligibleBitsGrow(ps: seq<Packet>, b: BufState, j: nat, k: nat)
    requires j <= k <= |ps|
    ensures EligibleBits(ps, b, j) <= EligibleBits(ps, b, k)
  {
    if j < k { EligibleBitsGrow(ps, b, j, k - 1); }
  }

  /** When the first k packets are the shortest prefix that covers the buffer, a pass
      rewrites exactly the eligible ones among them and resets the buffer. */
  lemma {:induction false} PassThatCovers(ps: seq<Packet>, b: BufState, k: nat)
    requires b.active && b.size > 0 && ShortestCover(ps, b, k)
    ensures RevertPass(ps, b).packets == RewrittenUpTo(ps, b, k)
    ensures RevertPass(ps, b).buf == Reset(b)
    decreases |ps|
  {
    var b' := ChargedBuf(ps[0], b);
    EligibleBitsOfTail(ps, b, 1);
    if b'.size <= 0 {
      assert k <= 1;
    } else {
      assert k > 1;
      EligibleBitsOfTail(ps, b, k);
      forall j: nat | j < k - 1 ensures EligibleBits(ps[1..], b', j) < b'.size {
        EligibleBitsOfTail(ps, b, j + 1);
      }
      PassThatCovers(ps[1..], b', k - 1);
      var r := RevertPass(ps[1..], b').packets;
      forall i | 1 <= i < |ps| ensures r[i - 1] == RewrittenUpTo(ps, b, k)[i] {
        assert ps[1..][i - 1] == ps[i];
        SameCharge(ps[i], b, b');
      }
    }
  }

  lemma SameCharge(p: Packet, b: BufState, b': BufState)
    requires b' == b.(size := b'.size)
    ensures ChargedPacket(p, b) == ChargedPacket(p, b')
  {
  }

  /** When the eligible packets do not cover the buffer, all of them are rewritten and the
      buffer shrinks by exactly their bits. */
  lemma {:induction false} PassThatFallsShort(ps: seq<Packet>, b: BufState)
    requires b.active && EligibleBits(ps, b, |ps|) < b.size
    ensures RevertPass(ps, b).packets == RewrittenUpTo(ps, b, |ps|)
    ensures RevertPass(ps, b).buf == b.(size := b.size - EligibleBits(ps, b, |ps|))
    decreases |ps|
  {
    if ps != [] {
      var b' := ChargedBuf(ps[0], b);
      EligibleBitsOfTail(ps, b, |ps|);
      PassThatFallsShort(ps[1..], b');
      var r := RevertPass(ps[1..], b').packets;
      forall i | 1 <= i < |ps| ensures r[i - 1] == RewrittenUpTo(ps, b, |ps|)[i] {
        assert ps[1..][i - 1] == ps[i];
        SameCharge(ps[i], b, b');
      }
    }
  }

  /** The two cases are exhaustive: either there is a shortest covering prefix or the whole
      list falls short. */
  lemma CoverOrShort(ps: seq<Packet>, b: BufState)
    requires b.size > 0
    ensures (exists k: nat :: ShortestCover(ps, b, k)) <==> EligibleBits(ps, b, |ps|) >= b.size
  {
    if EligibleBits(ps, b, |ps|) >= b.size {
      var k := |ps|;
      while k > 0 && EligibleBits(ps, b, k - 1) >= b.size
        invariant 0 <= k <= |ps| && EligibleBits(ps, b, k) >= b.size
      {
        k := k - 1;
      }
      forall j: nat | j < k ensures EligibleBits(ps, b, j) < b.size {
        EligibleBitsGrow(ps, b, j, k - 1);
      }
      assert ShortestCover(ps, b, k);
    } else if k: nat :| ShortestCover(ps, b, k) {
      EligibleBitsGrow(ps, b, k, |ps|);
    }
  }

  /** Bits of the packets that have been charged so far. */
  ghost function RevertedBits(ps: seq<Packet>): nat {
    if ps == [] then 0 else (if ps[0].reverted then Bits(ps[0]) else 0) + RevertedBits(ps[1..])
  }

  ghost function TotalBits(ps: seq<Packet>): nat {
    if ps == [] then 0 else Bits(ps[0]) + TotalBits(ps[1..])
  }

  /** Nothing but the charge marks and the corrected delay changes. */
  ghost predicate SamePackets(ps: seq<Packet>, qs: seq<Packet>) {
    |ps| == |qs| && forall i :: 0 <= i < |ps| ==>
      && qs[i] == ps[i].(onewayNew := qs[i].onewayNew, reverted := qs[i].reverted, burstStart := qs[i].burstStart)
      && (ps[i].reverted ==> qs[i] == ps[i])
  }

  /** What a pass takes out of the buffer is what it newly marks in the list: a packet that
      has been charged is never charged or changed again. */
  lemma {:induction false} PassChargesOnce(ps: seq<Packet>, b: BufState)
    ensures var r := RevertPass(ps, b);
            && SamePackets(ps, r.packets)
            && RevertedBits(ps) <= RevertedBits(r.packets) <= TotalBits(ps)
            && (var left := b.size - (RevertedBits(r.packets) - RevertedBits(ps));
                r.buf == (if ps != [] && left <= 0 then Reset(b) else b.(size := left)))
    decreases |ps|
  {
    if ps != [] {
      var b' := ChargedBuf(ps[0], b);
      var rest := if b'.size <= 0 then ps[1..] else RevertPass(ps[1..], b').packets;
      RevertedAtMostTotal(ps[1..]);
      if b'.size > 0 { PassChargesOnce(ps[1..], b'); }
      OneMore(ps, ChargedPacket(ps[0], b), rest);
    }
  }

  lemma OneMore(ps: seq<Packet>, p: Packet, rest: seq<Packet>)
    requires ps != [] && SamePackets([ps[0]], [p]) && SamePackets(ps[1..], rest)
    ensures SamePackets(ps, [p] + rest)
    ensures RevertedBits([p] + rest) == (if p.reverted then Bits(p) else 0) + RevertedBits(rest)
  {
  }

  lemma {:induction false} RevertedAtMostTotal(ps: seq<Packet>)
    ensures RevertedBits(ps) <= TotalBits(ps)
  {
    if ps != [] { RevertedAtMostTotal(ps[1..]); }
  }

  // ---- what a pass leaves behind, packet by packet ------------------------------------

  /** A packet that the pass has just marked holds the reference delay, was received since the
      burst began, and is a start of a burst if it was one or is the burst's start packet. */
  ghost predicate Corrected(p: Packet, q: Packet, b: BufState) {
    && !p.reverted && q.reverted && b.active
    && p.recvT >= b.startPktT && q.onewayNew == b.refOneway
    && (q.burstStart <==> p.burstStart || p.recvT == b.startPktT)
    && q.recvT == p.recvT && q.lenByte == p.lenByte && q.oneway == p.oneway
  }

  /** The first k packets have been looked at: those received since the burst began are marked. */
  ghost predicate LookedAt(ps: seq<Packet>, qs: seq<Packet>, b: BufState, k: nat) {
    && |qs| == |ps|
    && forall i :: 0 <= i < |ps| ==>
         (qs[i].reverted <==> ps[i].reverted || (i < k && b.active && ps[i].recvT >= b.startPktT))
  }

  /** A pass looks at the packets in order until the buffer is empty, marks and corrects those
      received since the burst began that no pass has marked, and leaves all others alone. */
  lemma {:induction false} PassCorrects(ps: seq<Packet>, b: BufState) returns (k: nat)
    ensures var r := RevertPass(ps, b);
            && k <= |ps| && LookedAt(ps, r.packets, b, k) && (ps == [] || r.buf.size > 0 ==> k == |ps|)
            && forall i :: 0 <= i < |ps| ==> r.packets[i] == ps[i] || Corrected(ps[i], r.packets[i], b)
    decreases |ps|
  {
    k := 0;
    if ps != [] {
      var b' := ChargedBuf(ps[0], b);
      if b'.size <= 0 {
        k := 1;
      } else {
        var m := PassCorrects(ps[1..], b');
        k := m + 1;
        var qs := RevertPass(ps[1..], b').packets;
        assert forall i :: 1 <= i < |ps| ==> ps[i] == ps[1..][i - 1] && RevertPass(ps, b).packets[i] == qs[i - 1];
      }
    }
  }

  /** A pass leaves the marks of the burst, the start of its packets and the reference delay. An
      emptied buffer is idle and not anchored any more; any other stays as it was. */
  lemma {:induction false} PassKeepsReference(ps: seq<Packet>, b: BufState)
    ensures var b' := RevertPass(ps, b).buf;
            && b'.startPktT == b.startPktT && b'.refOneway == b.refOneway && b'.ready == b.ready
            && b'.startTti == b.startTti && b'.lastTti == b.lastTti && b'.startT == b.startT && b'.lastT == b.lastT
            && if ps == [] || b'.size > 0 then b'.active == b.active && b'.startPktFound == b.startPktFound
               else !b'.active && !b'.startPktFound && b'.size == 0
    decreases |ps|
  {
    if ps != [] && ChargedBuf(ps[0], b).size > 0 { PassKeepsReference(ps[1..], ChargedBuf(ps[0], b)); }
  }

  /** Bytes of the packets that are marked in qs but not in ps. */
  ghost function NewBytes(ps: seq<Packet>, qs: seq<Packet>): nat
    requires |ps| == |qs|
  {
    if ps == [] then 0
    else (if qs[0].reverted && !ps[0].reverted then ps[0].lenByte else 0) + NewBytes(ps[1..], qs[1..])
  }

  /** For packets whose bits fit 32 bits, the buffer loses eight bits for every byte newly marked,
      or is emptied by them. */
  lemma {:induction false} PassTakesBytes(ps: seq<Packet>, b: BufState)
    requires forall i :: 0 <= i < |ps| ==> ps[i].lenByte < 0x2000_0000
    ensures var r := RevertPass(ps, b);
            var taken := 8 * NewBytes(ps, r.packets);
            r.buf.size == if ps == [] || b.size > taken then b.size - taken else 0
    decreases |ps|
  {
    if ps != [] {
      var b', qs := ChargedBuf(ps[0], b), RevertPass(ps, b).packets;
      if b'.size > 0 {
        PassTakesBytes(ps[1..], b');
        assert qs[1..] == RevertPass(ps[1..], b').packets;
      } else {
        assert qs[1..] == ps[1..];
        NothingNew(ps[1..]);
      }
    }
  }

  lemma {:induction false} NothingNew(ps: seq<Packet>)
    ensures NewBytes(ps, ps) == 0
  {
    if ps != [] { NothingNew(ps[1..]); }
  }

  // ---- the linked list ------------------------------------------------------------

  class Node {
    var recvT: uint64
    var lenByte: uint32
    var oneway: uint64
    var onewayNew: uint64
    var reverted: bool
    var burstStart: bool
    var next: Node?
    var prev: Node?

    /** ngscope_list_createNode, filled in as the receiver does. */
    constructor (recvT: uint64, lenByte: uint32, oneway: uint64)
      ensures Value() == Packet(recvT, lenByte, oneway, oneway, false, false)
      ensures next == null && prev == null
    {
      this.recvT, this.lenByte, this.oneway, this.onewayNew := recvT, lenByte, oneway, oneway;
      reverted, burstStart := false, false;
      next, prev := null, null;
    }

    function Value(): Packet
      reads this
    {
      Packet(recvT, lenByte, oneway, onewayNew, reverted, burstStart)
    }

    /** The two tests of ngscope_list_revert_delay for one node. */
    method Charge(q: ReorderingBuffer)
      modifies this, q
      ensures Value() == ChargedPacket(old(Value()), old(q.State()))
      ensures q.State() == ChargedBuf(old(Value()), old(q.State()))
      ensures next == old(next) && prev == old(prev)
    {
      if recvT == q.startPktT && reverted == false && q.bufferActive {
        onewayNew := q.refOneway;
        reverted := true;
        burstStart := true;
        q.bufSize := q.bufSize - lenByte * 8 % TWO32;
      }
      if recvT > q.startPktT && reverted == false && q.bufferActive {
        onewayNew := q.refOneway;
        reverted := true;
        q.bufSize := q.bufSize - lenByte * 8 % TWO32;
      }
    }
  }

  class List {
    const head: Node
    /** The sentinel and the nodes behind it, in order. */
    ghost var chain: seq<Node>

    ghost predicate Valid()
      reads this, chain
    {
      && |chain| > 0 && chain[0] == head
      && (forall i, j :: 0 <= i < j < |chain| ==> chain[i] != chain[j])
      && (forall i {:trigger chain[i].next} :: 0 <= i < |chain| ==>
            chain[i].next == if i < |chain| - 1 then chain[i + 1] else null)
      && (forall i {:trigger chain[i].prev} :: 1 <= i < |chain| ==> chain[i].prev == chain[i - 1])
    }

    ghost function Contents(): (ps: seq<Packet>)
      requires |chain| > 0
      reads this, chain
      ensures |ps| == |chain| - 1
    {
      seq(|chain| - 1, i requires 0 <= i < |chain| - 1 reads this, chain => chain[i + 1].Value())
    }

    constructor ()
      ensures Valid() && Contents() == [] && fresh(head) && chain == [head]
    {
      var sentinel := new Node(0, 0, 0);
      head := sentinel;
      chain := [sentinel];
    }

    /** findLastNode */
    method FindLastNode() returns (p: Node)
      requires Valid()
      ensures p == chain[|chain| - 1]
    {
      p := head;
      ghost var i := 0;
      while p.next != null
        invariant 0 <= i < |chain| && p == chain[i]
        decreases |chain| - i
      {
        p := p.next;
        i := i + 1;
      }
    }

    /** delete_1st_element: the removed node is freed, here simply dropped. */
    method DeleteFirst()
      requires Valid() && |chain| >= 2
      modifies this, chain
      ensures Valid() && chain == old([chain[0]] + chain[2..])
      ensures Contents() == old(Contents()[1..])
    {
      var p := head.next.next;
      if p != null {
        head.next := p;
        p.prev := head;
      } else {
        head.next := null;
      }
      chain := [chain[0]] + chain[2..];
    }

    /** ngscope_list_checkTimeDelay_wTime */
    method CheckTimeDelay(now: uint64)
      requires Valid()
      modifies this, chain
      ensures Valid() && Contents() == PrunedUnsigned(old(Contents()), now)
      ensures forall i :: 0 <= i < |chain| ==> chain[i] in old(chain)
    {
      var p := head.next;
      while head.next != null && p.next != null && Elapsed(p.recvT, now) > DELAY_THD_US
        invariant Valid() && p == head.next
        invariant forall i :: 0 <= i < |chain| ==> chain[i] in old(chain)
        invariant PrunedUnsigned(Contents(), now) == PrunedUnsigned(old(Contents()), now)
        decreases |chain|
      {
        assert chain[0].next == chain[1] && Contents()[0].recvT == p.recvT;
        DeleteFirst();
        p := head.next;
      }
      assert |chain| >= 2 ==> chain[0].next == chain[1] && Contents()[0].recvT == p.recvT;
    }

    /** ngscope_list_insertNode_checkTime */
    method InsertNodeCheckTime(node: Node?)
      requires Valid() && Sorted(Contents())
      requires node != null ==> node !in chain && node.next == null
      modifies this, chain, if node == null then {} else {node}
      ensures Valid() && Sorted(Contents())
      ensures Contents() == if node == null then old(Contents()) else Inserted(old(Contents()), old(node.Value()))
      ensures forall i :: 0 <= i < |chain| ==> chain[i] == node || chain[i] in old(chain)
    {
      if node == null {
        return;
      }
      if head.next == null {
        assert |chain| == 1;
        Append(head, node);
        return;
      }
      var p := FindLastNode();
      if p.recvT > node.recvT {
        return;
      }
      Append(p, node);
      PrunedKeepsOrder(Contents(), node.recvT);
      assert Contents()[|Contents()| - 1].recvT == node.recvT;
      PrunedInOrder(Contents(), node.recvT);
      CheckTimeDelay(node.recvT);
    }

    /** Links a node behind the last one. */
    method Append(p: Node, node: Node)
      requires Valid() && Sorted(Contents()) && p == chain[|chain| - 1]
      requires node !in chain && node.next == null
      requires !Late(Contents(), node.Value())
      modifies this, p, node
      ensures Valid() && chain == old(chain) + [node]
      ensures Contents() == old(Contents()) + [old(node.Value())]
      ensures Sorted(Contents())
    {
      p.next := node;
      node.prev := p;
      chain := chain + [node];
    }

    /** Charging one node of the list. */
    method ChargeAt(p: Node, ghost i: nat, q: ReorderingBuffer)
      requires Valid() && i + 1 < |chain| && p == chain[i + 1]
      modifies p, q
      ensures Valid() && p.next == old(p.next)
      ensures Contents() == old(Contents())[i := ChargedPacket(old(Contents())[i], old(q.State()))]
      ensures q.State() == ChargedBuf(old(Contents())[i], old(q.State()))
    {
      p.Charge(q);
    }

    /** ngscope_list_revert_delay */
    method RevertDelay(q: ReorderingBuffer)
      requires Valid()
      modifies chain, q
      ensures Valid() && chain == old(chain)
      ensures PassResult(Contents(), q.State()) == PassFrom(old(Contents()), old(q.State()), 0)
    {
      var p := head.next;
      ghost var i := 0;
      while p != null
        invariant Valid() && chain == old(chain) && 0 <= i < |chain| && p == chain[i].next
        invariant PassFrom(Contents(), q.State(), i) == PassFrom(old(Contents()), old(q.State()), 0)
        decreases |chain| - i
      {
        ChargeAt(p, i, q);
        if q.bufSize <= 0 {
          q.ResetBuf();
          break;
        }
        p := p.next;
        i := i + 1;
      }
    }
  }

  lemma {:induction false} PrunedKeepsOrder(ps: seq<Packet>, now: int)
    requires Sorted(ps)
    ensures Sorted(Pruned(ps, now))
  {
    if |ps| >= 2 && now - ps[0].recvT > DELAY_THD_US { PrunedKeepsOrder(ps[1..], now); }
  }
}
