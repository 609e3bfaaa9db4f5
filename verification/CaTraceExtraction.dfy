/** The merged trace of all cells (extract_ca_trace in ngscope_reTx.cc). */
module CaTraceExtraction {
  import opened MachineInts
  import opened Tti
  import opened ReTxBurst
  import opened BurstStream

  /** What extract_ca_trace reads of one cell. */
  datatype CellDci = CellDci(tti: seq<uint16>, dlReTx: seq<uint8>, dlTbs: seq<uint32>, timeStampUs: seq<uint64>) {
    ghost predicate Valid() { |tti| == |dlReTx| == |dlTbs| == |timeStampUs| }
  }

  /** The remainder of C++, which keeps the sign of the dividend. */
  function CRemainder(x: int, m: int): int
    requires m > 0
  {
    if x >= 0 then x % m else -((-x) % m)
  }

  function TtiToIdx(tti: uint16, tail: uint16): uint16 {
    CRemainder(tti as int - tail as int + MAX_TTI, MAX_TTI) % TWO16
  }

  // ---- specification for any cells -----------------------------------------------

  /** What a cell's message j adds to slot k. */
  function Hits(cell: CellDci, tail: uint16, j: nat, k: nat): bool
    requires cell.Valid() && j < |cell.tti|
  {
    TtiToIdx(cell.tti[j], tail) == k
  }

  /** What messages from, ..., end - 1 with these values add to slot k. */
  function AddedTo(cell: CellDci, values: seq<nat>, tail: uint16, from: nat, end: nat, k: nat): nat
    requires cell.Valid() && |values| == |cell.tti| && end <= |cell.tti|
    decreases end
  {
    if from >= end then 0
    else AddedTo(cell, values, tail, from, end - 1, k) + (if Hits(cell, tail, end - 1, k) then values[end - 1] else 0)
  }

  function TbsOf(cell: CellDci, tail: uint16, from: nat, end: nat, k: nat): nat
    requires cell.Valid() && end <= |cell.tti|
  {
    AddedTo(cell, cell.dlTbs, tail, from, end, k)
  }

  /** Every time stamp enters with its share of the average over the cells. */
  function Shares(times: seq<uint64>, nofCell: int): seq<nat>
    requires nofCell > 0
  {
    seq(|times|, j requires 0 <= j < |times| => times[j] / nofCell)
  }

  function TimeOf(cell: CellDci, shares: seq<nat>, tail: uint16, from: nat, end: nat, k: nat): nat
    requires cell.Valid() && |shares| == |cell.tti| && end <= |cell.tti|
  {
    AddedTo(cell, shares, tail, from, end, k)
  }

  ghost predicate FlagOf(cell: CellDci, tail: uint16, from: nat, end: nat, k: nat)
    requires cell.Valid() && end <= |cell.tti|
  {
    exists j: nat :: from <= j < end && Hits(cell, tail, j, k) && cell.dlReTx[j] != 0
  }

  function First(cell: CellDci, tail: uint16): int { FindTti(cell.tti, tail) }

  /** One past the last message of the cell that is merged. */
  function End(cell: CellDci, header: uint16): int { FindTti(cell.tti, header) + 1 }

  /** The cell can be merged without leaving the arrays: it has the tail, and everything
      between its tail and header falls into a slot. */
  ghost predicate Mergeable(cell: CellDci, tail: uint16, header: uint16, size: int) {
    && cell.Valid() && First(cell, tail) >= 0
    && forall j :: First(cell, tail) <= j < End(cell, header) ==> TtiToIdx(cell.tti[j], tail) < size
  }

  ghost predicate AllMergeable(cells: seq<CellDci>, tail: uint16, header: uint16, size: int) {
    forall c :: 0 <= c < |cells| ==> Mergeable(cells[c], tail, header, size)
  }

  ghost function TbsSumOf(cells: seq<CellDci>, n: nat, tail: uint16, header: uint16, size: int, k: nat): nat
    requires n <= |cells| && AllMergeable(cells, tail, header, size)
  {
    if n == 0 then 0
    else TbsSumOf(cells, n - 1, tail, header, size, k)
         + TbsOf(cells[n - 1], tail, First(cells[n - 1], tail), End(cells[n - 1], header), k)
  }

  ghost function TimeSumOf(cells: seq<CellDci>, n: nat, tail: uint16, header: uint16, size: int, k: nat): nat
    requires n <= |cells| && AllMergeable(cells, tail, header, size)
  {
    if n == 0 then 0
    else TimeSumOf(cells, n - 1, tail, header, size, k)
         + TimeOf(cells[n - 1], Shares(cells[n - 1].timeStampUs, |cells|), tail, First(cells[n - 1], tail),
             End(cells[n - 1], header), k)
  }

  ghost predicate AnyFlag(cells: seq<CellDci>, n: nat, tail: uint16, header: uint16, size: int, k: nat)
    requires n <= |cells| && AllMergeable(cells, tail, header, size)
  {
    exists c :: 0 <= c < n && FlagOf(cells[c], tail, First(cells[c], tail), End(cells[c], header), k)
  }

  /** Slot k of the merged trace. */
  ghost predicate SlotMerged(w: CaTrace, cells: seq<CellDci>, tail: uint16, header: uint16, k: nat)
    requires w.Valid() && k < w.Size() && AllMergeable(cells, tail, header, w.Size())
  {
    && w.tti[k] == WrapTti((tail + k) % TWO16)
    && w.tbs[k] == TbsSumOf(cells, |cells|, tail, header, w.Size(), k) % TWO32
    && w.rxTimeUs[k] == TimeSumOf(cells, |cells|, tail, header, w.Size(), k) % TWO64
    && (w.reTx[k] <==> AnyFlag(cells, |cells|, tail, header, w.Size(), k))
  }

  // ---- accumulation --------------------------------------------------------------------

  /** The arrays t after messages from, ..., end - 1 of a cell have been added to t0. */
  ghost predicate TbsAdded(t0: seq<uint32>, t: seq<uint32>, cell: CellDci, tail: uint16, from: nat, end: nat)
    requires cell.Valid() && end <= |cell.tti|
  {
    |t| == |t0| && forall k: nat :: k < |t| ==> t[k] == (t0[k] + TbsOf(cell, tail, from, end, k)) % TWO32
  }

  ghost predicate TimeAdded(t0: seq<uint64>, t: seq<uint64>, cell: CellDci, shares: seq<nat>, tail: uint16,
      from: nat, end: nat)
    requires cell.Valid() && |shares| == |cell.tti| && end <= |cell.tti|
  {
    |t| == |t0| && forall k: nat :: k < |t| ==> t[k] == (t0[k] + TimeOf(cell, shares, tail, from, end, k)) % TWO64
  }

  ghost predicate FlagsAdded(t0: seq<bool>, t: seq<bool>, cell: CellDci, tail: uint16, from: nat, end: nat)
    requires cell.Valid() && end <= |cell.tti|
  {
    |t| == |t0| && forall k: nat :: k < |t| ==> (t[k] <==> t0[k] || FlagOf(cell, tail, from, end, k))
  }

  lemma AddMessage(t0: seq<uint32>, t: seq<uint32>, cell: CellDci, tail: uint16, from: nat, j: nat)
    requires cell.Valid() && from <= j < |cell.tti| && TbsAdded(t0, t, cell, tail, from, j)
    requires TtiToIdx(cell.tti[j], tail) < |t|
    ensures var i := TtiToIdx(cell.tti[j], tail);
            TbsAdded(t0, t[i := (t[i] + cell.dlTbs[j]) % TWO32], cell, tail, from, j + 1)
  {
  }

  lemma AddMessageTime(t0: seq<uint64>, t: seq<uint64>, cell: CellDci, shares: seq<nat>, tail: uint16, from: nat,
      j: nat)
    requires cell.Valid() && |shares| == |cell.tti| && from <= j < |cell.tti|
    requires TimeAdded(t0, t, cell, shares, tail, from, j) && TtiToIdx(cell.tti[j], tail) < |t|
    ensures var i := TtiToIdx(cell.tti[j], tail);
            TimeAdded(t0, t[i := (t[i] + shares[j]) % TWO64], cell, shares, tail, from, j + 1)
  {
  }

  lemma AddMessageFlag(t0: seq<bool>, t: seq<bool>, cell: CellDci, tail: uint16, from: nat, j: nat)
    requires cell.Valid() && from <= j < |cell.tti| && FlagsAdded(t0, t, cell, tail, from, j)
    requires TtiToIdx(cell.tti[j], tail) < |t|
    ensures var i := TtiToIdx(cell.tti[j], tail);
            FlagsAdded(t0, t[i := t[i] || cell.dlReTx[j] != 0], cell, tail, from, j + 1)
  {
  }

  /** The arrays after the first n cells. */
  ghost predicate CellsAdded(reTx: seq<bool>, tbs: seq<uint32>, rx: seq<uint64>, cells: seq<CellDci>, n: nat,
                             tail: uint16, header: uint16, size: nat)
    requires n <= |cells| && AllMergeable(cells, tail, header, size)
  {
    && |reTx| == |tbs| == |rx| == size
    && (forall k: nat :: k < size ==> tbs[k] == TbsSumOf(cells, n, tail, header, size, k) % TWO32)
    && (forall k: nat :: k < size ==> rx[k] == TimeSumOf(cells, n, tail, header, size, k) % TWO64)
    && (forall k: nat :: k < size ==> (reTx[k] <==> AnyFlag(cells, n, tail, header, size, k)))
  }

  lemma AddCell(reTx: seq<bool>, tbs: seq<uint32>, rx: seq<uint64>,
                reTx': seq<bool>, tbs': seq<uint32>, rx': seq<uint64>,
                cells: seq<CellDci>, n: nat, tail: uint16, header: uint16, size: nat)
    requires n < |cells| && AllMergeable(cells, tail, header, size)
    requires CellsAdded(reTx, tbs, rx, cells, n, tail, header, size)
    requires TbsAdded(tbs, tbs', cells[n], tail, First(cells[n], tail), End(cells[n], header))
    requires TimeAdded(rx, rx', cells[n], Shares(cells[n].timeStampUs, |cells|), tail, First(cells[n], tail),
             End(cells[n], header))
    requires FlagsAdded(reTx, reTx', cells[n], tail, First(cells[n], tail), End(cells[n], header))
    ensures CellsAdded(reTx', tbs', rx', cells, n + 1, tail, header, size)
  {
    forall k: nat | k < size
      ensures tbs'[k] == TbsSumOf(cells, n + 1, tail, header, size, k) % TWO32
      ensures rx'[k] == TimeSumOf(cells, n + 1, tail, header, size, k) % TWO64
      ensures reTx'[k] <==> AnyFlag(cells, n + 1, tail, header, size, k)
    {
      AddCellToSlot(cells, n, tail, header, size, k);
      ModAdd32(tbs[k], TbsSumOf(cells, n, tail, header, size, k),
          TbsOf(cells[n], tail, First(cells[n], tail), End(cells[n], header), k));
      ModAdd64(rx[k], TimeSumOf(cells, n, tail, header, size, k),
               TimeOf(cells[n], Shares(cells[n].timeStampUs, |cells|), tail, First(cells[n], tail),
                   End(cells[n], header), k));
    }
  }

  lemma AddCellToSlot(cells: seq<CellDci>, n: nat, tail: uint16, header: uint16, size: nat, k: nat)
    requires n < |cells| && AllMergeable(cells, tail, header, size)
    ensures AnyFlag(cells, n + 1, tail, header, size, k)
            <==> AnyFlag(cells, n, tail, header, size, k)
                 || FlagOf(cells[n], tail, First(cells[n], tail), End(cells[n], header), k)
  {
  }

  lemma ModAdd32(r: int, x: int, y: int)
    requires r == x % TWO32
    ensures (r + y) % TWO32 == (x + y) % TWO32
  {
  }

  lemma ModAdd64(r: int, x: int, y: int)
    requires r == x % TWO64
    ensures (r + y) % TWO64 == (x + y) % TWO64
  {
  }

  // ---- the loops -----------------------------------------------------------------------

  /** extract_ca_trace */
  method ExtractCaTrace(cells: seq<CellDci>, header: uint16, tail: uint16) returns (w: CaTrace)
    requires TtiDistance(tail, header) >= 0 && AllMergeable(cells, tail, header, TtiDistance(tail, header))
    ensures w.Valid() && w.Size() == TtiDistance(tail, header)
    ensures forall k: nat :: k < w.Size() ==> SlotMerged(w, cells, tail, header, k)
  {
    var size := TtiDistance(tail, header);
    var reTx, tbs, rx := new bool[size](_ => false), new uint32[size](_ => 0), new uint64[size](_ => 0);
    var tti := new uint16[size](_ => 0);
    for i := 0 to size
      invariant forall k :: 0 <= k < i ==> tti[k] == WrapTti((tail + k) % TWO16)
      modifies tti
    {
      tti[i] := WrapTti((tail + i) % TWO16);
    }
    for i := 0 to |cells|
      invariant CellsAdded(reTx[..], tbs[..], rx[..], cells, i, tail, header, size)
      modifies reTx, tbs, rx
    {
      ghost var reTx0, tbs0, rx0 := reTx[..], tbs[..], rx[..];
      MergeCell(cells[i], |cells|, header, tail, reTx, tbs, rx);
      AddCell(reTx0, tbs0, rx0, reTx[..], tbs[..], rx[..], cells, i, tail, header, size);
    }
    w := CaTrace(reTx[..], tti[..], tbs[..], rx[..]);
  }

  /** The inner loop of extract_ca_trace: one cell is added to the slots. */
  method MergeCell(cell: CellDci, nofCell: int, header: uint16, tail: uint16,
                   reTx: array<bool>, tbs: array<uint32>, rx: array<uint64>)
    requires nofCell > 0 && reTx.Length == tbs.Length == rx.Length
    requires Mergeable(cell, tail, header, tbs.Length)
    modifies reTx, tbs, rx
    ensures TbsAdded(old(tbs[..]), tbs[..], cell, tail, First(cell, tail), End(cell, header))
    ensures TimeAdded(old(rx[..]), rx[..], cell, Shares(cell.timeStampUs, nofCell), tail, First(cell, tail),
            End(cell, header))
    ensures FlagsAdded(old(reTx[..]), reTx[..], cell, tail, First(cell, tail), End(cell, header))
  {
    ghost var shares := Shares(cell.timeStampUs, nofCell);
    ghost var f0, t0, x0 := reTx[..], tbs[..], rx[..];
    var ssIdx := FindElement(cell.tti, tail);
    var eeIdx := FindElement(cell.tti, header);
    var j := ssIdx;
    while j <= eeIdx
      invariant ssIdx <= j <= |cell.tti| && (j <= eeIdx + 1 || j == ssIdx)
      invariant MessagesAdded(f0, t0, x0, reTx[..], tbs[..], rx[..], cell, shares, tail, ssIdx, j)
    {
      MergeNext(cell, nofCell, tail, ssIdx, j, reTx, tbs, rx, f0, t0, x0);
      j := j + 1;
    }
  }

  /** One round of the inner loop. */
  method MergeNext(cell: CellDci, nofCell: int, tail: uint16, ghost from: nat, j: nat,
                   reTx: array<bool>, tbs: array<uint32>, rx: array<uint64>,
                   ghost f0: seq<bool>, ghost t0: seq<uint32>, ghost x0: seq<uint64>)
    requires nofCell > 0 && reTx.Length == tbs.Length == rx.Length && cell.Valid() && from <= j < |cell.tti|
    requires TtiToIdx(cell.tti[j], tail) < tbs.Length
    requires MessagesAdded(f0, t0, x0, reTx[..], tbs[..], rx[..], cell, Shares(cell.timeStampUs, nofCell), tail,
             from, j)
    modifies reTx, tbs, rx
    ensures MessagesAdded(f0, t0, x0, reTx[..], tbs[..], rx[..], cell, Shares(cell.timeStampUs, nofCell), tail, from,
            j + 1)
  {
    AddMessages(f0, t0, x0, reTx[..], tbs[..], rx[..], cell, Shares(cell.timeStampUs, nofCell), tail, from, j);
    MergeMessage(cell, nofCell, tail, j, reTx, tbs, rx);
  }

  ghost predicate MessagesAdded(f0: seq<bool>, t0: seq<uint32>, x0: seq<uint64>,
                                f: seq<bool>, t: seq<uint32>, x: seq<uint64>,
                                cell: CellDci, shares: seq<nat>, tail: uint16, from: nat, end: nat)
    requires cell.Valid() && |shares| == |cell.tti| && end <= |cell.tti|
  {
    && TbsAdded(t0, t, cell, tail, from, end)
    && TimeAdded(x0, x, cell, shares, tail, from, end)
    && FlagsAdded(f0, f, cell, tail, from, end)
  }

  lemma AddMessages(f0: seq<bool>, t0: seq<uint32>, x0: seq<uint64>, f: seq<bool>, t: seq<uint32>, x: seq<uint64>,
                    cell: CellDci, shares: seq<nat>, tail: uint16, from: nat, j: nat)
    requires cell.Valid() && |shares| == |cell.tti| && from <= j < |cell.tti|
    requires |f| == |t| == |x| && TtiToIdx(cell.tti[j], tail) < |t|
    requires MessagesAdded(f0, t0, x0, f, t, x, cell, shares, tail, from, j)
    ensures var i := TtiToIdx(cell.tti[j], tail);
            MessagesAdded(f0, t0, x0, f[i := f[i] || cell.dlReTx[j] != 0], t[i := (t[i] + cell.dlTbs[j]) % TWO32],
                          x[i := (x[i] + shares[j]) % TWO64], cell, shares, tail, from, j + 1)
  {
    AddMessage(t0, t, cell, tail, from, j);
    AddMessageTime(x0, x, cell, shares, tail, from, j);
    AddMessageFlag(f0, f, cell, tail, from, j);
  }

  /** The body of the inner loop: one message is added to its slot. */
  method MergeMessage(cell: CellDci, nofCell: int, tail: uint16, j: nat,
                      reTx: array<bool>, tbs: array<uint32>, rx: array<uint64>)
    requires nofCell > 0 && reTx.Length == tbs.Length == rx.Length
    requires cell.Valid() && j < |cell.tti| && TtiToIdx(cell.tti[j], tail) < tbs.Length
    modifies reTx, tbs, rx
    ensures var i := TtiToIdx(cell.tti[j], tail);
            && reTx[..] == old(reTx[..])[i := old(reTx[i]) || cell.dlReTx[j] != 0]
            && tbs[..] == old(tbs[..])[i := (old(tbs[i]) + cell.dlTbs[j]) % TWO32]
            && rx[..] == old(rx[..])[i := (old(rx[i]) + Shares(cell.timeStampUs, nofCell)[j]) % TWO64]
  {
    var index := TtiToIdx(cell.tti[j], tail);
    reTx[index] := reTx[index] || cell.dlReTx[j] != 0;
    tbs[index] := (tbs[index] + cell.dlTbs[j]) % TWO32;
    rx[index] := (rx[index] + cell.timeStampUs[j] / nofCell) % TWO64;
  }
}
