/** From the messages logged per cell to the trace the burst tracker scans: for gap-free
    cells the merged trace is a window of one stream, in which slot k carries what all
    cells report for subframe counter `base + k`. */
module Pipeline {
  import opened MachineInts
  import opened Tti
  import opened ReTxBurst
  import opened BurstStream
  import opened BurstTheorems
  import opened CaTraceExtraction
  import DciRing

  /** Every message of a gap-free log carries the TTI of its own subframe. */
  ghost predicate GapFree(log: seq<DciRing.UeDci>, base: int) {
    forall i :: 0 <= i < |log| ==> log[i].tti == Residue(base + i)
  }

  /** The messages a, ..., b - 1 of a log as the extraction lays them out. */
  ghost function View(log: seq<DciRing.UeDci>, a: nat, b: nat): (v: CellDci)
    requires a <= b <= |log|
    ensures v.Valid() && |v.tti| == b - a
  {
    CellDci(seq<uint16>(b - a, i requires 0 <= i < b - a => log[a + i].tti),
            seq<uint8>(b - a, i requires 0 <= i < b - a => log[a + i].dlReTx),
            seq<uint32>(b - a, i requires 0 <= i < b - a => log[a + i].dlTbs),
            seq<uint64>(b - a, i requires 0 <= i < b - a => log[a + i].timeStamp))
  }

  /** What a cell's ring delivers is the view of its last messages. */
  lemma ExtractionIsView(q: DciRing.DciTrace, log: seq<DciRing.UeDci>)
    requires q.Holds(DciRing.Kept(log))
    ensures var n := Min(|log|, DciRing.NOF_LOG_DCI);
            CellDci(q.tti[..n], q.dl.reTx[..n], q.dl.tbs[..n], q.timeStampUs[..n]) == View(log, |log| - n, |log|)
  {
    var n := Min(|log|, DciRing.NOF_LOG_DCI);
    DirectionHolds(q.dl, DciRing.Kept(log));
    ArraysAreView(q.tti, q.dl.reTx, q.dl.tbs, q.timeStampUs, log, |log| - n);
  }

  lemma DirectionHolds(d: DciRing.Direction, kept: seq<DciRing.UeDci>)
    requires d.Fills(DciRing.MapDl(kept))
    ensures |kept| <= |d.tbs| && |kept| <= |d.reTx|
    ensures forall i :: 0 <= i < |kept| ==> d.tbs[i] == kept[i].dlTbs && d.reTx[i] == kept[i].dlReTx
  {
  }

  lemma ArraysAreView(tti: seq<uint16>, reTx: seq<uint8>, tbs: seq<uint32>, time: seq<uint64>,
      log: seq<DciRing.UeDci>, a: nat)
    requires a <= |log|
    requires |log| - a <= |tti| && |log| - a <= |reTx| && |log| - a <= |tbs| && |log| - a <= |time|
    requires forall i :: 0 <= i < |log| - a ==>
      time[i] == log[a..][i].timeStamp && tti[i] == log[a..][i].tti
    requires forall i :: 0 <= i < |log| - a ==> tbs[i] == log[a..][i].dlTbs && reTx[i] == log[a..][i].dlReTx
    ensures var n := |log| - a; CellDci(tti[..n], reTx[..n], tbs[..n], time[..n]) == View(log, a, |log|)
  {
  }

  // ---- one gap-free cell ------------------------------------------------------------

  /** tti_to_idx undoes wrap_tti(tail + k), across the wrap too. */
  lemma IdxOfCounter(first: int, k: nat)
    requires k < MAX_TTI
    ensures TtiToIdx(Residue(first + k), Residue(first)) == k
    ensures WrapTti((Residue(first) + k) % TWO16) == Residue(first + k)
  {
    ResidueGap(first + k, first);
  }

  /** Within a gap-free view of at most a turn, a TTI is found at its own message. */
  lemma FindInView(log: seq<DciRing.UeDci>, base: int, a: nat, b: nat, x: nat)
    requires GapFree(log, base) && a <= x < b <= |log| && b - a <= MAX_TTI
    ensures FindTti(View(log, a, b).tti, Residue(base + x)) == x - a
  {
    var tti := View(log, a, b).tti;
    forall y | 0 <= y < x - a ensures tti[y] != Residue(base + x) {
      assert tti[y] == Residue(base + (a + y));
      ResidueGap(base + x, base + (a + y));
    }
    FindIsFirst(tti, Residue(base + x), x - a);
  }

  lemma HitsInView(log: seq<DciRing.UeDci>, base: int, a: nat, b: nat, lo: nat, j: nat, k: nat)
    requires GapFree(log, base) && a <= lo <= a + j < b <= |log| && a + j < lo + MAX_TTI
    ensures Hits(View(log, a, b), Residue(base + lo), j, k) <==> k == a + j - lo
  {
  }

  /** A slot gets exactly the value of its own message. */
  lemma {:induction false} AddedInView(log: seq<DciRing.UeDci>, base: int, a: nat, b: nat, lo: nat, values: seq<nat>,
      end: nat, k: nat)
    requires GapFree(log, base) && a <= lo <= a + end <= b <= |log| && |values| == b - a && a + end <= lo + MAX_TTI
    ensures AddedTo(View(log, a, b), values, Residue(base + lo), lo - a, end, k)
            == if lo + k < a + end then values[lo + k - a] else 0
    decreases end
  {
    if lo < a + end {
      AddedInView(log, base, a, b, lo, values, end - 1, k);
      HitsInView(log, base, a, b, lo, end - 1, k);
    }
  }

  lemma FlagInView(log: seq<DciRing.UeDci>, base: int, a: nat, b: nat, lo: nat, end: nat, k: nat)
    requires GapFree(log, base) && a <= lo <= a + end <= b <= |log| && lo + k < a + end <= lo + MAX_TTI
    ensures FlagOf(View(log, a, b), Residue(base + lo), lo - a, end, k) <==> log[lo + k].dlReTx != 0
  {
    var v, tail := View(log, a, b), Residue(base + lo);
    var at := lo + k - a;
    HitsInView(log, base, a, b, lo, at, k);
    assert v.dlReTx[at] == log[lo + k].dlReTx;
    if j: nat :| lo - a <= j < end && Hits(v, tail, j, k) && v.dlReTx[j] != 0 {
      HitsInView(log, base, a, b, lo, j, k);
    }
  }

  // ---- all cells ------------------------------------------------------------------------

  /** A cell's log, whose message skip + k is for slot k of the stream, and the messages
      first, ..., end - 1 that the cell has kept. Cells may have begun at different subframes. */
  datatype Cell = Cell(log: seq<DciRing.UeDci>, skip: nat, first: nat, end: nat)

  /** The cell has logged slots 0, ..., n - 1 of the stream without gaps. */
  ghost predicate Logged(c: Cell, base: int, n: nat) {
    GapFree(c.log, base - c.skip) && c.skip + n <= |c.log|
  }

  ghost predicate AllLogged(cells: seq<Cell>, base: int, n: nat) {
    forall c :: 0 <= c < |cells| ==> Logged(cells[c], base, n)
  }

  /** The slots lo, ..., hi - 1 are among the messages kept. */
  ghost predicate Covers(c: Cell, lo: nat, hi: nat) {
    && c.first <= c.skip + lo && c.skip + hi <= c.end <= |c.log| && c.end - c.first <= MAX_TTI
  }

  ghost predicate Cover(cells: seq<Cell>, base: int, n: nat, lo: nat, hi: nat) {
    && AllLogged(cells, base, n) && lo + 2 <= hi <= n
    && forall c :: 0 <= c < |cells| ==> Covers(cells[c], lo, hi)
  }

  ghost function Views(cells: seq<Cell>): (vs: seq<CellDci>)
    requires forall c :: 0 <= c < |cells| ==> cells[c].first <= cells[c].end <= |cells[c].log|
    ensures |vs| == |cells|
  {
    seq(|cells|, c requires 0 <= c < |cells| => View(cells[c].log, cells[c].first, cells[c].end))
  }

  /** What a cell reports for slot k. */
  ghost function Report(c: Cell, k: nat): DciRing.UeDci
    requires c.skip + k < |c.log|
  {
    c.log[c.skip + k]
  }

  ghost predicate AllReport(cells: seq<Cell>, n: nat) {
    forall c :: 0 <= c < |cells| ==> cells[c].skip + n <= |cells[c].log|
  }

  ghost function TbsAt(cells: seq<Cell>, n: nat, k: nat): nat
    requires n <= |cells| && AllReport(cells, k + 1)
  {
    if n == 0 then 0 else TbsAt(cells, n - 1, k) + Report(cells[n - 1], k).dlTbs
  }

  ghost function TimeAt(cells: seq<Cell>, n: nat, k: nat): nat
    requires n <= |cells| && AllReport(cells, k + 1)
  {
    if n == 0 then 0 else TimeAt(cells, n - 1, k) + Report(cells[n - 1], k).timeStamp / |cells|
  }

  ghost predicate FlagAt(cells: seq<Cell>, k: nat)
    requires AllReport(cells, k + 1)
  {
    exists c :: 0 <= c < |cells| && Report(cells[c], k).dlReTx != 0
  }

  /** What all cells together report for one subframe. */
  ghost function MergedSlot(cells: seq<Cell>, k: nat): Slot
    requires AllReport(cells, k + 1)
  {
    Slot(FlagAt(cells, k), TbsAt(cells, |cells|, k) % TWO32, TimeAt(cells, |cells|, k) % TWO64)
  }

  ghost function MergedStream(cells: seq<Cell>, base: int, n: nat): Stream
    requires AllReport(cells, n)
  {
    Stream(base, seq(n, k requires 0 <= k < n => MergedSlot(cells, k)))
  }

  lemma CoveredCellsAreMergeable(cells: seq<Cell>, base: int, n: nat, lo: nat, hi: nat)
    requires Cover(cells, base, n, lo, hi) && hi - lo <= MAX_TTI
    ensures TtiDistance(Residue(base + lo), Residue(base + hi - 1)) == hi - lo
    ensures AllMergeable(Views(cells), Residue(base + lo), Residue(base + hi - 1), hi - lo)
  {
    TtiDistanceOfCounters(base + lo, base + hi - 1);
    forall c | 0 <= c < |cells|
      ensures Mergeable(Views(cells)[c], Residue(base + lo), Residue(base + hi - 1), hi - lo)
    {
      CoveredCellIsMergeable(cells[c], base, n, lo, hi);
    }
  }

  lemma CoveredCellIsMergeable(c: Cell, base: int, n: nat, lo: nat, hi: nat)
    requires Logged(c, base, n) && Covers(c, lo, hi) && lo + 2 <= hi <= n
    ensures var v := View(c.log, c.first, c.end);
            && First(v, Residue(base + lo)) == c.skip + lo - c.first
            && End(v, Residue(base + hi - 1)) == c.skip + hi - c.first
            && Mergeable(v, Residue(base + lo), Residue(base + hi - 1), hi - lo)
  {
    ViewIsMergeable(c.log, base - c.skip, c.first, c.end, c.skip + lo, c.skip + hi);
    assert base - c.skip + (c.skip + lo) == base + lo && base - c.skip + (c.skip + hi) - 1 == base + hi - 1;
  }

  lemma ViewIsMergeable(log: seq<DciRing.UeDci>, base: int, a: nat, b: nat, lo: nat, hi: nat)
    requires GapFree(log, base) && a <= lo && lo + 2 <= hi <= b <= |log| && b - a <= MAX_TTI
    ensures First(View(log, a, b), Residue(base + lo)) == lo - a
    ensures End(View(log, a, b), Residue(base + hi - 1)) == hi - a
    ensures Mergeable(View(log, a, b), Residue(base + lo), Residue(base + hi - 1), hi - lo)
  {
    FindInView(log, base, a, b, lo);
    FindInView(log, base, a, b, hi - 1);
    assert base + (hi - 1) == base + hi - 1;
    forall j | lo - a <= j < hi - a
      ensures TtiToIdx(View(log, a, b).tti[j], Residue(base + lo)) < hi - lo
    {
      HitsInView(log, base, a, b, lo, j, a + j - lo);
    }
  }

  lemma SumsInView(log: seq<DciRing.UeDci>, base: int, a: nat, b: nat, lo: nat, hi: nat, k: nat, nofCell: int)
    requires GapFree(log, base) && a <= lo && lo + 2 <= hi <= b <= |log| && b - a <= MAX_TTI && hi - lo <= MAX_TTI
    requires k < hi - lo && nofCell > 0
    ensures var v, tail := View(log, a, b), Residue(base + lo);
            && TbsOf(v, tail, lo - a, hi - a, k) == log[lo + k].dlTbs
            && TimeOf(v, Shares(v.timeStampUs, nofCell), tail, lo - a, hi - a, k) == log[lo + k].timeStamp / nofCell
  {
    var v := View(log, a, b);
    AddedInView(log, base, a, b, lo, v.dlTbs, hi - a, k);
    AddedInView(log, base, a, b, lo, Shares(v.timeStampUs, nofCell), hi - a, k);
  }

  lemma SumsOfCell(c: Cell, base: int, n: nat, lo: nat, hi: nat, tail: uint16, header: uint16, v: CellDci, nofCell: int,
                   k: nat)
    requires Logged(c, base, n) && Covers(c, lo, hi) && lo + 2 <= hi <= n && hi - lo <= MAX_TTI && k < hi - lo
    requires tail == Residue(base + lo) && header == Residue(base + hi - 1) && nofCell > 0
    requires v == View(c.log, c.first, c.end)
    ensures Mergeable(v, tail, header, hi - lo)
    ensures TbsOf(v, tail, First(v, tail), End(v, header), k) == Report(c, lo + k).dlTbs
    ensures TimeOf(v, Shares(v.timeStampUs, nofCell), tail, First(v, tail), End(v, header), k)
            == Report(c, lo + k).timeStamp / nofCell
  {
    CoveredCellIsMergeable(c, base, n, lo, hi);
    SumsInView(c.log, base - c.skip, c.first, c.end, c.skip + lo, c.skip + hi, k, nofCell);
    assert base - c.skip + (c.skip + lo) == base + lo;
  }

  /** A cell's share of slot k is what it reports for its slot i. */
  ghost predicate Shared(v: CellDci, c: Cell, tail: uint16, header: uint16, size: int, nofCell: int, k: nat, i: nat)
    requires Mergeable(v, tail, header, size) && c.skip + i < |c.log| && nofCell > 0
  {
    && TbsOf(v, tail, First(v, tail), End(v, header), k) == Report(c, i).dlTbs
    && TimeOf(v, Shares(v.timeStampUs, nofCell), tail, First(v, tail), End(v, header), k)
       == Report(c, i).timeStamp / nofCell
  }

  lemma {:induction false} SumsOfShares(vs: seq<CellDci>, cells: seq<Cell>, m: nat, tail: uint16, header: uint16,
                                        size: int, k: nat, i: nat)
    requires m <= |cells| == |vs| && AllMergeable(vs, tail, header, size) && AllReport(cells, i + 1)
    requires forall c :: 0 <= c < m ==> Shared(vs[c], cells[c], tail, header, size, |cells|, k, i)
    ensures TbsSumOf(vs, m, tail, header, size, k) == TbsAt(cells, m, i)
    ensures TimeSumOf(vs, m, tail, header, size, k) == TimeAt(cells, m, i)
    decreases m
  {
    if m > 0 {
      SumsOfShares(vs, cells, m - 1, tail, header, size, k, i);
      assert Shared(vs[m - 1], cells[m - 1], tail, header, size, |cells|, k, i);
    }
  }

  lemma SumsInViews(cells: seq<Cell>, base: int, n: nat, lo: nat, hi: nat,
                    tail: uint16, header: uint16, vs: seq<CellDci>, size: nat, k: nat)
    requires Cover(cells, base, n, lo, hi) && hi - lo <= MAX_TTI && size == hi - lo && k < size
    requires tail == Residue(base + lo) && header == Residue(base + hi - 1) && vs == Views(cells)
    requires AllMergeable(vs, tail, header, size)
    ensures TbsSumOf(vs, |cells|, tail, header, size, k) == TbsAt(cells, |cells|, lo + k)
    ensures TimeSumOf(vs, |cells|, tail, header, size, k) == TimeAt(cells, |cells|, lo + k)
  {
    forall c | 0 <= c < |cells| ensures Shared(vs[c], cells[c], tail, header, size, |cells|, k, lo + k) {
      SumsOfCell(cells[c], base, n, lo, hi, tail, header, vs[c], |cells|, k);
    }
    SumsOfShares(vs, cells, |cells|, tail, header, size, k, lo + k);
  }

  /** The merged trace of gap-free cells that all cover the subframes lo, ..., hi - 1 is the
      window lo, ..., hi - 1 of the merged stream. */
  lemma MergedTraceIsWindow(cells: seq<Cell>, base: int, n: nat, lo: nat, hi: nat,
                            tail: uint16, header: uint16, vs: seq<CellDci>, w: CaTrace)
    requires Cover(cells, base, n, lo, hi) && hi - lo <= MAX_TTI
    requires tail == Residue(base + lo) && header == Residue(base + hi - 1) && vs == Views(cells)
    requires w.Valid() && w.Size() == hi - lo && AllMergeable(vs, tail, header, w.Size())
    requires forall k: nat :: k < w.Size() ==> SlotMerged(w, vs, tail, header, k)
    ensures w == Window(MergedStream(cells, base, n), lo, hi)
  {
    var win := Window(MergedStream(cells, base, n), lo, hi);
    forall k: nat | k < hi - lo
      ensures w.tti[k] == win.tti[k] && w.tbs[k] == win.tbs[k] && w.rxTimeUs[k] == win.rxTimeUs[k]
              && w.reTx[k] == win.reTx[k]
    {
      SlotIsMergedSlot(cells, base, n, lo, hi, tail, header, vs, w, k);
      assert win.tti[k] == Tag(MergedStream(cells, base, n), lo + k);
    }
    assert w.tti == win.tti && w.tbs == win.tbs && w.rxTimeUs == win.rxTimeUs && w.reTx == win.reTx;
  }

  lemma SlotIsMergedSlot(cells: seq<Cell>, base: int, n: nat, lo: nat, hi: nat,
                         tail: uint16, header: uint16, vs: seq<CellDci>, w: CaTrace, k: nat)
    requires Cover(cells, base, n, lo, hi) && hi - lo <= MAX_TTI
    requires tail == Residue(base + lo) && header == Residue(base + hi - 1) && vs == Views(cells)
    requires w.Valid() && w.Size() == hi - lo && k < w.Size() && AllMergeable(vs, tail, header, w.Size())
    requires SlotMerged(w, vs, tail, header, k)
    ensures w.tti[k] == Residue(base + (lo + k))
    ensures Slot(w.reTx[k], w.tbs[k], w.rxTimeUs[k]) == MergedSlot(cells, lo + k)
  {
    assert base + lo + k == base + (lo + k) && w.Size() == hi - lo;
    assert w.tti[k] == Residue(base + (lo + k)) by { IdxOfCounter(base + lo, k); }
    assert w.tbs[k] == TbsAt(cells, |cells|, lo + k) % TWO32
           && w.rxTimeUs[k] == TimeAt(cells, |cells|, lo + k) % TWO64 by {
      SumsInViews(cells, base, n, lo, hi, tail, header, vs, w.Size(), k);
    }
    assert w.reTx[k] <==> FlagAt(cells, lo + k) by {
      FlagsInViews(cells, base, n, lo, hi, k);
    }
  }

  lemma FlagsInViews(cells: seq<Cell>, base: int, n: nat, lo: nat, hi: nat, k: nat)
    requires Cover(cells, base, n, lo, hi) && hi - lo <= MAX_TTI && k < hi - lo
    requires AllMergeable(Views(cells), Residue(base + lo), Residue(base + hi - 1), hi - lo)
    ensures AnyFlag(Views(cells), |cells|, Residue(base + lo), Residue(base + hi - 1), hi - lo, k)
            <==> FlagAt(cells, lo + k)
  {
    var vs, tail, header := Views(cells), Residue(base + lo), Residue(base + hi - 1);
    forall c | 0 <= c < |cells|
      ensures FlagOf(vs[c], tail, First(vs[c], tail), End(vs[c], header), k) <==> Report(cells[c], lo + k).dlReTx != 0
    {
      FlagOfCell(cells[c], base, n, lo, hi, tail, header, k);
    }
  }

  lemma FlagOfCell(c: Cell, base: int, n: nat, lo: nat, hi: nat, tail: uint16, header: uint16, k: nat)
    requires Logged(c, base, n) && Covers(c, lo, hi) && lo + 2 <= hi <= n && hi - lo <= MAX_TTI && k < hi - lo
    requires tail == Residue(base + lo) && header == Residue(base + hi - 1)
    ensures var v := View(c.log, c.first, c.end);
            && Mergeable(v, tail, header, hi - lo)
            && (FlagOf(v, tail, First(v, tail), End(v, header), k) <==> Report(c, lo + k).dlReTx != 0)
  {
    CoveredCellIsMergeable(c, base, n, lo, hi);
    FlagInView(c.log, base - c.skip, c.first, c.end, c.skip + lo, c.skip + hi - c.first, k);
    assert base - c.skip + (c.skip + lo) == base + lo;
  }

  // ---- from the cells to the buffer -----------------------------------------------------------

  /** ngscope_reTx_update_buf: the cells are merged and the trace is scanned. Whatever the cells
      logged, the buffer follows the stream of what they report together. */
  method UpdateBuf(q: ReorderingBuffer, dci: seq<CellDci>, header: uint16, tail: uint16,
                   ghost cells: seq<Cell>, ghost base: int, ghost n: nat, ghost lo: nat, ghost hi: nat, ghost t: Track)
    returns (found: bool)
    requires Cover(cells, base, n, lo, hi) && dci == Views(cells)
    requires tail == Residue(base + lo) && header == Residue(base + hi - 1)
    requires var s := MergedStream(cells, base, n); SumsFit(s) && Represents(q.State(), s, t) && InReach(s, lo, hi, t)
    modifies q
    ensures var s := MergedStream(cells, base, n); Represents(q.State(), s, Advance(s, lo, hi, t))
  {
    CoveredCellsAreMergeable(cells, base, n, lo, hi);
    var trace := ExtractCaTrace(dci, header, tail);
    MergedTraceIsWindow(cells, base, n, lo, hi, tail, header, dci, trace);
    UpdateRefinesAdvance(q.State(), MergedStream(cells, base, n), lo, hi, t);
    found := q.Update(trace);
  }

  /** The first scan of merged cells: the buffer holds the burst that begins at the first
      subframe for which any cell reports a retransmission. */
  lemma CellsToBurst(cells: seq<Cell>, base: int, n: nat, lo: nat, hi: nat,
                     tail: uint16, header: uint16, vs: seq<CellDci>, w: CaTrace)
    requires Cover(cells, base, n, lo, hi) && hi - lo <= MAX_TTI / 2 && SumsFit(MergedStream(cells, base, n))
    requires tail == Residue(base + lo) && header == Residue(base + hi - 1) && vs == Views(cells)
    requires w.Valid() && w.Size() == hi - lo && AllMergeable(vs, tail, header, w.Size())
    requires forall k: nat :: k < w.Size() ==> SlotMerged(w, vs, tail, header, k)
    ensures var s, b := MergedStream(cells, base, n), Scan(InitialBuf, w, 0, false).buf;
            if forall k :: lo <= k < hi ==> !FlagAt(cells, k) then !b.ready && !b.active
            else exists i0: nat, ik: nat :: HoldsBurst(b, s, lo, hi, i0, ik)
  {
    var s := MergedStream(cells, base, n);
    MergedTraceIsWindow(cells, base, n, lo, hi, tail, header, vs, w);
    FirstUpdate(s, lo, hi);
    assert forall k :: lo <= k < hi ==> s.slots[k].reTx == FlagAt(cells, k);
  }

  // ---- conservation -------------------------------------------------------------------------

  ghost function CellTbs(c: Cell, lo: nat, hi: nat): nat
    requires c.skip + hi <= |c.log|
    decreases hi
  {
    if lo >= hi then 0 else CellTbs(c, lo, hi - 1) + Report(c, hi - 1).dlTbs
  }

  ghost function AllTbs(cells: seq<Cell>, n: nat, lo: nat, hi: nat): nat
    requires n <= |cells| && AllReport(cells, hi)
  {
    if n == 0 then 0 else AllTbs(cells, n - 1, lo, hi) + CellTbs(cells[n - 1], lo, hi)
  }

  lemma {:induction false} AllTbsStep(cells: seq<Cell>, n: nat, lo: nat, hi: nat)
    requires n <= |cells| && lo < hi && AllReport(cells, hi)
    ensures AllTbs(cells, n, lo, hi) == AllTbs(cells, n, lo, hi - 1) + TbsAt(cells, n, hi - 1)
  {
    if n > 0 { AllTbsStep(cells, n - 1, lo, hi); }
  }

  lemma {:induction false} NoTbs(cells: seq<Cell>, n: nat, lo: nat)
    requires n <= |cells| && AllReport(cells, lo)
    ensures AllTbs(cells, n, lo, lo) == 0
  {
    if n > 0 { NoTbs(cells, n - 1, lo); }
  }

  /** As long as no slot's sum exceeds 32 bits, the merged trace carries all the transport
      blocks of all cells and no more. */
  lemma {:induction false} MergingConservesTbs(cells: seq<Cell>, base: int, n: nat, lo: nat, hi: nat)
    requires lo <= hi <= n && AllReport(cells, n)
    requires forall k: nat :: lo <= k < hi ==> TbsAt(cells, |cells|, k) < TWO32
    ensures TbsSum(MergedStream(cells, base, n), lo, hi) == AllTbs(cells, |cells|, lo, hi)
    decreases hi
  {
    if lo < hi {
      MergingConservesTbs(cells, base, n, lo, hi - 1);
      AllTbsStep(cells, |cells|, lo, hi);
    } else {
      NoTbs(cells, |cells|, lo);
    }
  }
}
