/** The ring of downlink control messages kept per cell, and its extraction into plain
    arrays (ngscope_dci.cc). */
module DciRing {
  import opened MachineInts

  const NOF_LOG_DCI: int := 1000

  datatype UeDci = UeDci(
    timeStamp: uint64,
    tti: uint16,
    dlTbs: uint32,
    dlReTx: uint8,
    dlRvFlag: bool,
    ulTbs: uint32,
    ulReTx: uint8,
    ulRvFlag: bool)

  const ZeroDci: UeDci := UeDci(0, 0, 0, 0, false, 0, 0, false)

  // ---- specification -----------------------------------------------------------

  /** The messages a cell still holds after logging `log`: the last NOF_LOG_DCI. */
  function Kept(log: seq<UeDci>): seq<UeDci> {
    log[|log| - Min(|log|, NOF_LOG_DCI)..]
  }

  /** One direction of one message. */
  datatype Entry = Entry(tbs: uint32, reTx: uint8, rvFlag: bool, timeStamp: uint64, tti: uint16)

  function Dl(m: UeDci): Entry { Entry(m.dlTbs, m.dlReTx, m.dlRvFlag, m.timeStamp, m.tti) }

  function Ul(m: UeDci): Entry { Entry(m.ulTbs, m.ulReTx, m.ulRvFlag, m.timeStamp, m.tti) }

  function MapDl(ms: seq<UeDci>): seq<Entry> {
    seq(|ms|, i requires 0 <= i < |ms| => Dl(ms[i]))
  }

  function MapUl(ms: seq<UeDci>): seq<Entry> {
    seq(|ms|, i requires 0 <= i < |ms| => Ul(ms[i]))
  }

  /** The retransmissions among the entries, in order. */
  function Flagged(es: seq<Entry>): (fs: seq<Entry>)
    ensures |fs| <= |es|
  {
    if es == [] then []
    else
      var fs := Flagged(es[..|es| - 1]);
      if es[|es| - 1].reTx != 0 then fs + [es[|es| - 1]] else fs
  }

  /** The last logged message with the downlink flag equal to 1, if any. */
  function LastDlReTx(log: seq<UeDci>): (uint64, uint16) {
    if log == [] then (0, 0)
    else
      var m := log[|log| - 1];
      if m.dlReTx == 1 then (m.timeStamp, m.tti) else LastDlReTx(log[..|log| - 1])
  }

  function LastUlReTx(log: seq<UeDci>): (uint64, uint16) {
    if log == [] then (0, 0)
    else
      var m := log[|log| - 1];
      if m.ulReTx == 1 then (m.timeStamp, m.tti) else LastUlReTx(log[..|log| - 1])
  }

  lemma LastAfter(log: seq<UeDci>, m: UeDci)
    ensures LastDlReTx(log + [m]) == if m.dlReTx == 1 then (m.timeStamp, m.tti) else LastDlReTx(log)
    ensures LastUlReTx(log + [m]) == if m.ulReTx == 1 then (m.timeStamp, m.tti) else LastUlReTx(log)
  {
  }

  /** The most recent retransmission is the last message whose flag is 1; zeros before any. */
  lemma {:induction false} LastIsMostRecent(log: seq<UeDci>, i: nat)
    ensures (forall j :: 0 <= j < |log| ==> log[j].dlReTx != 1) ==> LastDlReTx(log) == (0, 0)
    ensures (forall j :: 0 <= j < |log| ==> log[j].ulReTx != 1) ==> LastUlReTx(log) == (0, 0)
    ensures i < |log| && log[i].dlReTx == 1 && (forall j :: i < j < |log| ==> log[j].dlReTx != 1)
            ==> LastDlReTx(log) == (log[i].timeStamp, log[i].tti)
    ensures i < |log| && log[i].ulReTx == 1 && (forall j :: i < j < |log| ==> log[j].ulReTx != 1)
            ==> LastUlReTx(log) == (log[i].timeStamp, log[i].tti)
    decreases |log|
  {
    if log != [] { LastIsMostRecent(log[..|log| - 1], i); }
  }

  /** How many of the first n flags are set. */
  ghost function SetBefore(flags: seq<uint8>, n: nat): (c: nat)
    requires n <= |flags|
    ensures c <= n
  {
    if n == 0 then 0 else SetBefore(flags, n - 1) + if flags[n - 1] != 0 then 1 else 0
  }

  /** A flagged entry stands in the list at the number of flagged entries before it. */
  lemma {:induction false} FlaggedAt(es: seq<Entry>, flags: seq<uint8>, i: nat)
    requires |es| <= |flags| && i < |es| && forall k :: 0 <= k < |es| ==> flags[k] == es[k].reTx
    ensures |Flagged(es)| == SetBefore(flags, |es|)
    ensures es[i].reTx != 0 ==> SetBefore(flags, i) < |Flagged(es)| && Flagged(es)[SetBefore(flags, i)] == es[i]
    decreases |es|
  {
    var n := |es| - 1;
    if n > 0 { FlaggedAt(es[..n], flags, if i < n then i else 0); }
  }

  // ---- the ring -------------------------------------------------------------------

  class DciCell {
    const dci: array<UeDci>
    var header: int
    var nofLoggedDci: int
    var recentDlReTx: (uint64, uint16)
    var recentUlReTx: (uint64, uint16)
    /** Every message ever inserted. */
    ghost var log: seq<UeDci>

    ghost predicate Valid()
      reads this, dci
    {
      RingValid() && recentDlReTx == LastDlReTx(log) && recentUlReTx == LastUlReTx(log)
    }

    ghost predicate RingValid()
      reads this, dci
    {
      && dci.Length == NOF_LOG_DCI
      && 0 <= header < NOF_LOG_DCI
      && nofLoggedDci == Min(|log|, NOF_LOG_DCI)
      && (|log| < NOF_LOG_DCI ==> header == |log|)
      && (forall i :: 0 <= i < header ==> dci[i] == log[|log| - header + i])
      && (forall i :: header <= i < NOF_LOG_DCI ==> dci[i] == AfterHeader(i))
    }

    /** What lies at and behind the write position: the oldest messages once the ring is
        full, zeros before. */
    ghost function AfterHeader(i: int): UeDci
      requires 0 <= header <= i < NOF_LOG_DCI && (|log| < NOF_LOG_DCI ==> header == |log|)
      reads this
    {
      if |log| < NOF_LOG_DCI then ZeroDci else log[|log| - NOF_LOG_DCI + (i - header)]
    }

    /** ngscope_dci_cell_init */
    constructor ()
      ensures Valid() && log == [] && fresh(dci)
    {
      header, nofLoggedDci := 0, 0;
      recentDlReTx, recentUlReTx := (0, 0), (0, 0);
      dci := new UeDci[NOF_LOG_DCI](_ => ZeroDci);
      log := [];
    }

    /** ngscope_dci_CA_insert, except for its last call */
    method Insert(m: UeDci)
      requires Valid()
      modifies this, dci
      ensures Valid() && log == old(log) + [m]
    {
      LastAfter(log, m);
      Write(m);
      NoteReTx(m);
    }

    /** The last retransmission of each direction. */
    method NoteReTx(m: UeDci)
      modifies `recentDlReTx, `recentUlReTx
      ensures recentDlReTx == if m.dlReTx == 1 then (m.timeStamp, m.tti) else old(recentDlReTx)
      ensures recentUlReTx == if m.ulReTx == 1 then (m.timeStamp, m.tti) else old(recentUlReTx)
    {
      if m.dlReTx == 1 {
        recentDlReTx := (m.timeStamp, m.tti);
      }
      if m.ulReTx == 1 {
        recentUlReTx := (m.timeStamp, m.tti);
      }
    }

    /** The message goes into the ring. */
    method Write(m: UeDci)
      requires RingValid()
      modifies `header, `nofLoggedDci, `log, dci
      ensures RingValid() && log == old(log) + [m]
    {
      dci[header] := m;
      header := header + 1;
      header := header % NOF_LOG_DCI;
      if nofLoggedDci < NOF_LOG_DCI {
        nofLoggedDci := nofLoggedDci + 1;
      }
      log := log + [m];
    }

    /** find_dci_cell_tail: the oldest message kept; TTI 0 for an empty cell. */
    method FindTail() returns (tti: uint16)
      requires Valid()
      ensures tti == if log == [] then 0 else Kept(log)[0].tti
    {
      var tailIdx := (header - nofLoggedDci + NOF_LOG_DCI) % NOF_LOG_DCI;
      tti := dci[tailIdx].tti;
    }

    /** ngscope_dci_extract_single_cell: the target is emptied and filled oldest first. */
    method Extract(q: DciTrace)
      requires Valid() && q.dl != q.ul
      modifies q, q.dl, q.ul
      ensures q.Holds(Kept(log))
    {
      q.Clear();
      q.nofDci := nofLoggedDci;
      ghost var kept := Kept(log);
      if nofLoggedDci < NOF_LOG_DCI {
        CopyStart(q, kept);
      } else {
        CopyAround(q, kept);
      }
      assert kept[..nofLoggedDci] == kept;
    }

    /** The loop over a ring that is not yet full. */
    method CopyStart(q: DciTrace, ghost kept: seq<UeDci>)
      requires RingValid() && kept == Kept(log) && nofLoggedDci < NOF_LOG_DCI && q.Fills([])
      modifies q, q.dl, q.ul
      ensures q.Fills(kept[..nofLoggedDci]) && q.nofDci == old(q.nofDci)
    {
      for i := 0 to nofLoggedDci
        invariant |kept| == nofLoggedDci && q.Fills(kept[..i]) && q.nofDci == old(q.nofDci)
      {
        KeptAt(i);
        PutNext(q, kept, i, i);
      }
    }

    /** The loop over a full ring, from the oldest message around to the newest. */
    method CopyAround(q: DciTrace, ghost kept: seq<UeDci>)
      requires RingValid() && kept == Kept(log) && nofLoggedDci == NOF_LOG_DCI && q.Fills([])
      modifies q, q.dl, q.ul
      ensures q.Fills(kept[..nofLoggedDci]) && q.nofDci == old(q.nofDci)
    {
      for i := 0 to nofLoggedDci
        invariant |kept| == nofLoggedDci && q.Fills(kept[..i]) && q.nofDci == old(q.nofDci)
      {
        var pIdx := (header + i) % NOF_LOG_DCI;
        KeptAt(i);
        PutNext(q, kept, i, pIdx);
      }
    }

    /** Where the messages kept lie in the ring. */
    lemma KeptAt(i: int)
      requires RingValid() && 0 <= i < nofLoggedDci
      ensures |Kept(log)| == nofLoggedDci
      ensures dci[if nofLoggedDci < NOF_LOG_DCI then i else (header + i) % NOF_LOG_DCI] == Kept(log)[i]
    {
    }

    method PutNext(q: DciTrace, ghost kept: seq<UeDci>, i: nat, pIdx: nat)
      requires i < |kept| && pIdx < dci.Length && dci[pIdx] == kept[i]
      requires q.Fills(kept[..i]) && |kept| <= NOF_LOG_DCI
      modifies q, q.dl, q.ul
      ensures q.Fills(kept[..i + 1]) && q.nofDci == old(q.nofDci)
    {
      q.Put(kept[..i], i, dci[pIdx]);
      assert kept[..i] + [kept[i]] == kept[..i + 1];
    }
  }

  // ---- the extracted arrays ----------------------------------------------------------

  /** An array of the extracted structure after its memset to zero. */
  function Zeros<T>(zero: T): (r: seq<T>)
    ensures |r| == NOF_LOG_DCI
  {
    seq(NOF_LOG_DCI, _ => zero)
  }

  /** ue_dl_dci_t and ue_ul_dci_t: all messages, and the retransmissions apart. The arrays
      are embedded in the structure, so they are fields of fixed length. */
  class Direction {
    var tbs: seq<uint32>
    var reTx: seq<uint8>
    var rvFlag: seq<bool>
    var nofReTx: int
    var reTxTUs: seq<uint64>
    var reTxTti: seq<uint16>

    ghost predicate Fills(es: seq<Entry>)
      reads this
    {
      && |tbs| == |reTx| == |rvFlag| == |reTxTUs| == |reTxTti| == NOF_LOG_DCI && |es| <= NOF_LOG_DCI
      && (forall i :: 0 <= i < |es| ==> tbs[i] == es[i].tbs && reTx[i] == es[i].reTx && rvFlag[i] == es[i].rvFlag)
      && nofReTx == |Flagged(es)|
      && (forall j :: 0 <= j < nofReTx ==> reTxTUs[j] == Flagged(es)[j].timeStamp && reTxTti[j] == Flagged(es)[j].tti)
    }

    constructor ()
      ensures Fills([])
    {
      tbs, reTx, rvFlag, nofReTx := Zeros(0), Zeros(0), Zeros(false), 0;
      reTxTUs, reTxTti := Zeros(0), Zeros(0);
    }

    method Clear()
      modifies this
      ensures Fills([])
    {
      tbs, reTx, rvFlag, nofReTx := Zeros(0), Zeros(0), Zeros(false), 0;
      reTxTUs, reTxTti := Zeros(0), Zeros(0);
    }

    /** One direction of extract_single_dci. */
    method Put(ghost es: seq<Entry>, qIdx: nat, e: Entry)
      requires Fills(es) && qIdx == |es| < NOF_LOG_DCI
      modifies this
      ensures Fills(es + [e])
    {
      tbs := tbs[qIdx := e.tbs];
      reTx := reTx[qIdx := e.reTx];
      rvFlag := rvFlag[qIdx := e.rvFlag];
      if reTx[qIdx] != 0 {
        reTxTUs := reTxTUs[nofReTx := e.timeStamp];
        reTxTti := reTxTti[nofReTx := e.tti];
        nofReTx := nofReTx + 1;
      }
      assert (es + [e])[..|es|] == es;
    }
  }

  /** ngscope_dci_t */
  class DciTrace {
    var nofDci: int
    var timeStampUs: seq<uint64>
    var tti: seq<uint16>
    const dl: Direction
    const ul: Direction

    /** The arrays begin with these messages. */
    ghost predicate Fills(ms: seq<UeDci>)
      reads this, dl, ul
    {
      && dl != ul && |timeStampUs| == |tti| == NOF_LOG_DCI && |ms| <= NOF_LOG_DCI
      && (forall i :: 0 <= i < |ms| ==> timeStampUs[i] == ms[i].timeStamp && tti[i] == ms[i].tti)
      && dl.Fills(MapDl(ms)) && ul.Fills(MapUl(ms))
    }

    /** The trace is exactly these messages. */
    ghost predicate Holds(ms: seq<UeDci>)
      reads this, dl, ul
    {
      Fills(ms) && nofDci == |ms|
    }

    /** A trace of some messages: message by message, both directions' block size, flag and
        redundancy version, and where a flagged one stands among the retransmissions. */
    lemma HoldsEach(ms: seq<UeDci>, i: nat)
      requires Holds(ms) && i < |ms|
      ensures nofDci == |ms| <= 1000
      ensures tti[i] == ms[i].tti && timeStampUs[i] == ms[i].timeStamp
      ensures dl.tbs[i] == ms[i].dlTbs && dl.reTx[i] == ms[i].dlReTx && dl.rvFlag[i] == ms[i].dlRvFlag
      ensures ul.tbs[i] == ms[i].ulTbs && ul.reTx[i] == ms[i].ulReTx && ul.rvFlag[i] == ms[i].ulRvFlag
      ensures dl.nofReTx == SetBefore(dl.reTx, |ms|) && ul.nofReTx == SetBefore(ul.reTx, |ms|)
      ensures ms[i].dlReTx != 0 ==>
                var j := SetBefore(dl.reTx, i);
                j < dl.nofReTx && dl.reTxTUs[j] == ms[i].timeStamp && dl.reTxTti[j] == ms[i].tti
      ensures ms[i].ulReTx != 0 ==>
                var j := SetBefore(ul.reTx, i);
                j < ul.nofReTx && ul.reTxTUs[j] == ms[i].timeStamp && ul.reTxTti[j] == ms[i].tti
    {
      FlaggedAt(MapDl(ms), dl.reTx, i);
      FlaggedAt(MapUl(ms), ul.reTx, i);
    }

    constructor ()
      ensures Holds([]) && fresh(dl) && fresh(ul)
    {
      nofDci := 0;
      timeStampUs, tti := Zeros(0), Zeros(0);
      dl := new Direction();
      ul := new Direction();
    }

    /** The memset of the extraction. */
    method Clear()
      requires dl != ul
      modifies this, dl, ul
      ensures Holds([])
    {
      nofDci := 0;
      timeStampUs, tti := Zeros(0), Zeros(0);
      dl.Clear();
      ul.Clear();
    }

    method Stamp(ghost ms: seq<UeDci>, qIdx: nat, m: UeDci)
      requires |timeStampUs| == |tti| == NOF_LOG_DCI && qIdx == |ms| < NOF_LOG_DCI
      requires forall i :: 0 <= i < |ms| ==> timeStampUs[i] == ms[i].timeStamp && tti[i] == ms[i].tti
      modifies `tti, `timeStampUs
      ensures |timeStampUs| == |tti| == NOF_LOG_DCI
      ensures forall i :: 0 <= i <= |ms| ==> timeStampUs[i] == (ms + [m])[i].timeStamp && tti[i] == (ms + [m])[i].tti
    {
      tti := tti[qIdx := m.tti];
      timeStampUs := timeStampUs[qIdx := m.timeStamp];
    }

    /** extract_single_dci */
    method Put(ghost ms: seq<UeDci>, qIdx: nat, m: UeDci)
      requires Fills(ms) && qIdx == |ms| < NOF_LOG_DCI
      modifies this, dl, ul
      ensures Fills(ms + [m]) && nofDci == old(nofDci)
    {
      MapsOfAppend(ms, m);
      Stamp(ms, qIdx, m);
      dl.Put(MapDl(ms), qIdx, Dl(m));
      ul.Put(MapUl(ms), qIdx, Ul(m));
    }
  }

  lemma MapsOfAppend(ms: seq<UeDci>, m: UeDci)
    ensures MapDl(ms + [m]) == MapDl(ms) + [Dl(m)]
    ensures MapUl(ms + [m]) == MapUl(ms) + [Ul(m)]
  {
  }

  // ---- what the extraction delivers ------------------------------------------------------

  /** Inserting keeps the newest messages: below capacity nothing is lost, at capacity the
      oldest one goes. */
  lemma KeptAfterInsert(log: seq<UeDci>, m: UeDci)
    ensures Kept(log + [m])
            == if |log| < NOF_LOG_DCI then Kept(log) + [m] else Kept(log)[1..] + [m]
  {
  }
}
