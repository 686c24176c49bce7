/** The retransmit queue of redhat_kernel/tcp_output.c: splitting, re-segmenting,
    collapsing and retransmitting skbs on a SACK connection.  Sequence numbers are
    positions in the byte stream. */
module RtxQueue {
  import opened MachineInts
  import opened Containers

  /** Packets an skb stands for; never zero once it has been sent. */
  type Packets = n: int | n >= 1 witness 1

  /** `TCP_SKB_CB(skb)->sacked`: SACKED_ACKED, LOST, SACKED_RETRANS, EVER_RETRANS. */
  datatype Marks = Marks(acked: bool, lost: bool, retrans: bool, everRetrans: bool)

  datatype Skb = Skb(
    start: nat, end: nat, data: seq<Byte>, fin: bool, psh: bool, eor: bool,
    marks: Marks, pcount: Packets, gsoSize: nat, cloned: bool)

  /** packets_out, sacked_out, lost_out and retrans_out. */
  datatype Counters = Counters(packets: int, sacked: int, lost: int, retrans: int)

  datatype Queue = Queue(q: seq<Skb>, counters: Counters)

  // ----------------------------------------------------------------------- counting

  function Plus(a: Counters, b: Counters): Counters {
    Counters(a.packets + b.packets, a.sacked + b.sacked, a.lost + b.lost, a.retrans + b.retrans)
  }

  /** `n` packets carrying these marks. */
  function Weight(m: Marks, n: int): Counters {
    Counters(n, if m.acked then n else 0, if m.lost then n else 0, if m.retrans then n else 0)
  }

  const ZERO := Counters(0, 0, 0, 0)

  /** The counters and the bytes of the first `n` skbs, and of all of them. */
  function CountTo(q: seq<Skb>, n: nat): Counters
    requires n <= |q|
  {
    if n == 0 then ZERO else Plus(CountTo(q, n - 1), Weight(q[n - 1].marks, q[n - 1].pcount))
  }

  function Count(q: seq<Skb>): Counters {
    CountTo(q, |q|)
  }

  function StreamTo(q: seq<Skb>, n: nat): seq<Byte>
    requires n <= |q|
  {
    if n == 0 then [] else StreamTo(q, n - 1) + q[n - 1].data
  }

  function Stream(q: seq<Skb>): seq<Byte> {
    StreamTo(q, |q|)
  }

  lemma PlusAssociative(a: Counters, b: Counters, d: Counters)
    ensures Plus(Plus(a, b), d) == Plus(a, Plus(b, d))
  {
  }

  lemma {:induction false} PrefixOf(a: seq<Skb>, b: seq<Skb>, k: nat)
    requires k <= |a|
    ensures CountTo(a + b, k) == CountTo(a, k) && StreamTo(a + b, k) == StreamTo(a, k)
  {
    if k > 0 { PrefixOf(a, b, k - 1); }
  }

  lemma CountNext(q: seq<Skb>, n: nat, before: Counters, p: Skb)
    requires n < |q| && q[n] == p && CountTo(q, n) == before
    ensures CountTo(q, n + 1) == Plus(before, Weight(p.marks, p.pcount))
  {
  }

  lemma {:induction false} CountSuffix(a: seq<Skb>, b: seq<Skb>, k: nat)
    requires k <= |b|
    ensures CountTo(a + b, |a| + k) == Plus(Count(a), CountTo(b, k))
  {
    if k == 0 {
      PrefixOf(a, b, |a|);
    } else {
      CountSuffix(a, b, k - 1);
      var x, y, p := Count(a), CountTo(b, k - 1), b[k - 1];
      CountNext(a + b, |a| + (k - 1), Plus(x, y), p);
      CountNext(b, k - 1, y, p);
      PlusAssociative(x, y, Weight(p.marks, p.pcount));
    }
  }

  lemma {:induction false} StreamSuffix(a: seq<Skb>, b: seq<Skb>, k: nat)
    requires k <= |b|
    ensures StreamTo(a + b, |a| + k) == Stream(a) + StreamTo(b, k)
  {
    if k == 0 {
      PrefixOf(a, b, |a|);
    } else {
      StreamSuffix(a, b, k - 1);
      assert (a + b)[|a| + k - 1] == b[k - 1];
      Assoc(Stream(a), StreamTo(b, k - 1), b[k - 1].data);
    }
  }

  lemma CountConcat(a: seq<Skb>, b: seq<Skb>)
    ensures Count(a + b) == Plus(Count(a), Count(b))
  {
    CountSuffix(a, b, |b|);
  }

  lemma StreamConcat(a: seq<Skb>, b: seq<Skb>)
    ensures Stream(a + b) == Stream(a) + Stream(b)
  {
    StreamSuffix(a, b, |b|);
  }

  // ---------------------------------------------------------------------- invariant

  predicate WellFormed(p: Skb) {
    && p.end == p.start + |p.data| + (if p.fin then 1 else 0)
    && (p.pcount > 1 ==> p.gsoSize > 0)
    && !(p.marks.acked && p.marks.lost)
  }

  /** Consecutive skbs meet, and only the last one may carry FIN. */
  ghost predicate Partition(q: seq<Skb>) {
    && (forall i :: 0 <= i < |q| ==> WellFormed(q[i]))
    && (forall i, j :: 0 <= i < |q| - 1 && j == i + 1 ==> q[i].end == q[j].start && !q[i].fin)
  }

  /** A contiguous partition whose skbs have all been sent, with exact counters. */
  ghost predicate Inv(s: Queue, sndNxt: nat) {
    && Partition(s.q)
    && AllSent(s.q, sndNxt)
    && s.counters == Count(s.q)
  }

  ghost predicate AllSent(q: seq<Skb>, sndNxt: nat) {
    forall i :: 0 <= i < |q| ==> q[i].end <= sndNxt
  }

  // ------------------------------------------------------------- segments and counters

  function DivRoundUp(len: nat, mss: nat): nat
    requires mss > 0
  {
    (len + mss - 1) / mss
  }

  /** `tcp_set_skb_tso_segs`. */
  function SetTsoSegs(p: Skb, mss: nat): (r: Skb)
    requires mss > 0
    ensures r == p.(pcount := r.pcount, gsoSize := r.gsoSize) && (r.pcount > 1 ==> r.gsoSize > 0)
  {
    if |p.data| <= mss then p.(pcount := 1, gsoSize := 0)
    else
      DivMonotone(mss, |p.data| + mss - 1, mss);
      p.(pcount := DivRoundUp(|p.data|, mss), gsoSize := mss)
  }

  /** The count is the number of MSS-sized packets the payload needs. */
  lemma SegmentsCoverPayload(p: Skb, mss: nat)
    requires mss > 0
    ensures var k := SetTsoSegs(p, mss).pcount; (k - 1) * mss < Max(1, |p.data|) <= k * mss
  {
    var k := SetTsoSegs(p, mss).pcount;
    DivisionEquation(|p.data| + mss - 1, mss);
    MulDiff(k, 1, mss);
  }

  /** `tcp_adjust_pcount`: `decr` packets of an skb with these marks are gone. */
  function AdjustPcount(n: Counters, m: Marks, decr: int): Counters {
    Plus(n, Weight(m, -decr))
  }

  // ---------------------------------------------------------------------- operations

  datatype Error = Ok | Busy | Invalid | NoMemory | Unreachable | TryAgain | SendFailed

  function Left(p: Skb, len: nat, mss: nat): Skb
    requires len <= |p.data| && mss > 0
  {
    SetTsoSegs(p.(end := p.start + len, data := p.data[..len], fin := false, psh := false, eor := false), mss)
  }

  function Right(p: Skb, len: nat, mss: nat): Skb
    requires len <= |p.data| && mss > 0
  {
    SetTsoSegs(p.(start := p.start + len, data := p.data[len..], cloned := false), mss)
  }

  /** `tcp_fragment` in the retransmit queue. */
  function Fragment(s: Queue, i: nat, len: nat, mss: nat, sndNxt: nat, noMemory: bool): (Queue, Error)
    requires i < |s.q| && mss > 0
  {
    var p := s.q[i];
    if len > |p.data| then (s, Invalid)
    else if noMemory then (s, NoMemory)
    else
      var l, r := Left(p, len, mss), Right(p, len, mss);
      var diff := p.pcount - (l.pcount + r.pcount);
      (Queue(s.q[..i] + [l.(cloned := false), r] + s.q[i + 1..],
             if r.end <= sndNxt then AdjustPcount(s.counters, p.marks, diff) else s.counters), Ok)
  }

  /** Re-segmentation of one skb to the current MSS. */
  function Resegment(s: Queue, i: nat, mss: nat): Queue
    requires i < |s.q| && mss > 0
  {
    var p := SetTsoSegs(s.q[i], mss);
    Queue(s.q[i := p.(cloned := false)], AdjustPcount(s.counters, p.marks, s.q[i].pcount - p.pcount))
  }

  function Merge(p: Skb, next: Skb): Skb {
    p.(end := next.end, data := p.data + next.data, fin := p.fin || next.fin, psh := p.psh || next.psh,
       eor := next.eor, marks := p.marks.(everRetrans := p.marks.everRetrans || next.marks.everRetrans))
  }

  /** `tcp_collapse_retrans` of skb `i` with its successor; the kernel stops with BUG_ON
      unless both stand for one packet. */
  function Collapse(s: Queue, i: nat): Queue
    requires i + 1 < |s.q| && s.q[i].pcount == 1 && s.q[i + 1].pcount == 1
  {
    var next := s.q[i + 1];
    Queue(s.q[..i] + [Merge(s.q[i], next)] + s.q[i + 2..], AdjustPcount(s.counters, next.marks, next.pcount))
  }

  predicate CanCollapse(p: Skb) {
    p.pcount <= 1 && !p.cloned && !p.marks.acked
  }

  /** The conditions under which the next skb is merged into skb `i`. */
  predicate NextFits(s: Queue, i: nat, space: int, wndEnd: nat, shifts: nat) {
    && i + 1 < |s.q|
    && CanCollapse(s.q[i + 1]) && !s.q[i].eor
    && space - |s.q[i + 1].data| >= 0
    && s.q[i + 1].end <= wndEnd
    && shifts > 0
  }

  /** `tcp_retrans_try_collapse` after its first round; `shifts` is how often moving the
      payload over succeeds. */
  function CollapseRun(s: Queue, i: nat, space: int, wndEnd: nat, shifts: nat): Queue
    requires i < |s.q| && s.q[i].pcount == 1
    decreases |s.q|
  {
    if !NextFits(s, i, space, wndEnd, shifts) then s
    else CollapseRun(Collapse(s, i), i, space - |s.q[i + 1].data|, wndEnd, shifts - 1)
  }

  function TryCollapse(s: Queue, i: nat, space: int, wndEnd: nat, shifts: nat): Queue
    requires i < |s.q|
  {
    if !CanCollapse(s.q[i]) || s.q[i].eor then s
    else CollapseRun(s, i, space - |s.q[i].data|, wndEnd, shifts)
  }

  // --------------------------------------------------------------------- preservation

  ghost predicate Meet(a: seq<Skb>, b: seq<Skb>) {
    a != [] && b != [] ==> a[|a| - 1].end == b[0].start && !a[|a| - 1].fin
  }

  lemma PartitionJoin(a: seq<Skb>, b: seq<Skb>)
    requires Partition(a) && Partition(b) && Meet(a, b)
    ensures Partition(a + b)
  {
    var r := a + b;
    forall k | 0 <= k < |r| ensures WellFormed(r[k]) {
      if k < |a| { assert r[k] == a[k]; } else { assert r[k] == b[k - |a|]; }
    }
    forall k, j | 0 <= k < |r| - 1 && j == k + 1 ensures r[k].end == r[j].start && !r[k].fin {
      if j < |a| {
        assert a[k].end == a[j].start && !a[k].fin;
      } else if j > |a| {
        assert b[k - |a|].end == b[j - |a|].start && !b[k - |a|].fin;
      }
    }
  }

  /** `b` is what stands in `r` from `i` on. */
  ghost predicate Stretch(r: seq<Skb>, i: nat, b: seq<Skb>) {
    i + |b| <= |r| && forall k {:trigger b[k]} :: 0 <= k < |b| ==> b[k] == r[i + k]
  }

  /** Any stretch of a partition is one. */
  lemma PartitionPart(r: seq<Skb>, i: nat, b: seq<Skb>)
    requires Partition(r) && Stretch(r, i, b)
    ensures Partition(b)
  {
    forall k, j | 0 <= k < |b| - 1 && j == k + 1 ensures b[k].end == b[j].start && !b[k].fin {
      var x, y := i + k, i + j;
      assert r[x].end == r[y].start && !r[x].fin;
    }
    forall k | 0 <= k < |b| ensures WellFormed(b[k]) {
      var x := i + k;
      assert WellFormed(r[x]);
    }
  }

  lemma Stretches(a: seq<Skb>, b: seq<Skb>)
    ensures Stretch(a + b, 0, a) && Stretch(a + b, |a|, b)
  {
  }

  lemma BoundaryMeets(a: seq<Skb>, b: seq<Skb>, r: seq<Skb>)
    requires Stretch(r, 0, a) && Stretch(r, |a|, b) && Partition(r)
    ensures Meet(a, b)
  {
    if a != [] && b != [] {
      var x, y := |a| - 1, |a|;
      assert a[x] == r[0 + x] && b[0] == r[|a| + 0];
      assert r[x].end == r[y].start && !r[x].fin;
    }
  }

  lemma PartitionSplit(a: seq<Skb>, b: seq<Skb>)
    requires Partition(a + b)
    ensures Partition(a) && Partition(b) && Meet(a, b)
  {
    hide Partition, Meet, Stretch;
    Stretches(a, b);
    BoundaryMeets(a, b, a + b);
    PartitionPart(a + b, 0, a);
    PartitionPart(a + b, |a|, b);
  }

  lemma PartitionConcat(a: seq<Skb>, b: seq<Skb>)
    ensures Partition(a + b) <==> Partition(a) && Partition(b) && Meet(a, b)
  {
    hide Partition, Meet;
    if Partition(a) && Partition(b) && Meet(a, b) {
      PartitionJoin(a, b);
    } else if Partition(a + b) {
      PartitionSplit(a, b);
    }
  }

  lemma PartitionThree(a: seq<Skb>, b: seq<Skb>, d: seq<Skb>)
    requires b != []
    ensures Partition(a + b + d) <==> Partition(a) && Partition(b) && Partition(d) && Meet(a, b) && Meet(b, d)
  {
    PartitionConcat(a + b, d);
    PartitionConcat(a, b);
    assert (a + b)[|a + b| - 1] == b[|b| - 1];
  }

  lemma CountThree(a: seq<Skb>, b: seq<Skb>, d: seq<Skb>)
    ensures Count(a + b + d) == Plus(Plus(Count(a), Count(b)), Count(d))
  {
    CountConcat(a + b, d);
    CountConcat(a, b);
  }

  lemma StreamThree(a: seq<Skb>, b: seq<Skb>, d: seq<Skb>)
    ensures Stream(a + b + d) == Stream(a) + Stream(b) + Stream(d)
  {
    StreamConcat(a + b, d);
    StreamConcat(a, b);
  }

  lemma One(p: Skb)
    ensures Count([p]) == Weight(p.marks, p.pcount) && Stream([p]) == p.data
  {
    assert CountTo([p], 0) == ZERO && StreamTo([p], 0) == [];
  }

  lemma Two(p: Skb, r: Skb)
    ensures Count([p, r]) == Plus(Weight(p.marks, p.pcount), Weight(r.marks, r.pcount))
    ensures Stream([p, r]) == p.data + r.data
  {
    assert [p, r] == [p] + [r];
    CountConcat([p], [r]);
    StreamConcat([p], [r]);
    One(p);
    One(r);
  }

  /** What an operation on the queue may not change. */
  ghost predicate SameStream(s: Queue, s': Queue) {
    && Stream(s'.q) == Stream(s.q)
    && (s.q == [] <==> s'.q == [])
    && (s.q != [] ==> s'.q[0].start == s.q[0].start && s'.q[|s'.q| - 1].end == s.q[|s.q| - 1].end)
  }

  /** The queue after an operation is sound and holds the same bytes. */
  ghost predicate Keeps(s: Queue, s': Queue, sndNxt: nat) {
    Inv(s', sndNxt) && SameStream(s, s')
  }

  /** `mid` covers the same range as `was`. */
  ghost predicate SameRange(was: seq<Skb>, mid: seq<Skb>) {
    && was != [] && mid != []
    && mid[0].start == was[0].start && mid[|mid| - 1].end == was[|was| - 1].end
    && mid[|mid| - 1].fin == was[|was| - 1].fin
  }

  lemma ExchangeRange(a: seq<Skb>, was: seq<Skb>, mid: seq<Skb>, d: seq<Skb>, sndNxt: nat)
    requires SameRange(was, mid) && Partition(a + was + d) && Partition(mid)
    requires AllSent(a + was + d, sndNxt) && AllSent(mid, sndNxt)
    ensures var q, r := a + was + d, a + mid + d;
            && Partition(r) && AllSent(r, sndNxt)
            && r[0].start == q[0].start && r[|r| - 1].end == q[|q| - 1].end
  {
    var q, r := a + was + d, a + mid + d;
    PartitionThree(a, was, d);
    PartitionThree(a, mid, d);
    forall k | 0 <= k < |r| ensures r[k].end <= sndNxt {
      if k < |a| {
        assert r[k] == q[k];
      } else if k < |a| + |mid| {
        assert r[k] == mid[k - |a|];
      } else {
        assert r[k] == q[k - |mid| + |was|];
      }
    }
  }

  lemma ExchangeCount(a: seq<Skb>, was: seq<Skb>, mid: seq<Skb>, d: seq<Skb>, counters: Counters)
    requires Plus(counters, Count(was)) == Plus(Count(a + was + d), Count(mid))
    ensures Count(a + mid + d) == counters
  {
    CountThree(a, was, d);
    CountThree(a, mid, d);
    Cancel(Count(a), Count(was), Count(mid), Count(d), counters);
  }

  lemma Cancel(a: Counters, was: Counters, mid: Counters, d: Counters, counters: Counters)
    requires Plus(counters, was) == Plus(Plus(Plus(a, was), d), mid)
    ensures counters == Plus(Plus(a, mid), d)
  {
  }

  lemma ExchangeStream(a: seq<Skb>, was: seq<Skb>, mid: seq<Skb>, d: seq<Skb>)
    requires Stream(mid) == Stream(was)
    ensures Stream(a + mid + d) == Stream(a + was + d)
  {
    StreamThree(a, was, d);
    StreamThree(a, mid, d);
  }

  /** Exchanging a stretch for one that covers the same bytes and range keeps everything,
      if the counters are corrected by the difference. */
  lemma Exchange(s: Queue, a: seq<Skb>, was: seq<Skb>, mid: seq<Skb>, d: seq<Skb>, counters: Counters, sndNxt: nat)
    requires s.q == a + was + d && Inv(s, sndNxt) && SameRange(was, mid)
    requires Partition(mid) && AllSent(mid, sndNxt) && Stream(mid) == Stream(was)
    requires Plus(counters, Count(was)) == Plus(s.counters, Count(mid))
    ensures Keeps(s, Queue(a + mid + d, counters), sndNxt)
  {
    ExchangeRange(a, was, mid, d, sndNxt);
    ExchangeCount(a, was, mid, d, counters);
    ExchangeStream(a, was, mid, d);
  }

  /** The two halves of a split cover the skb. */
  lemma HalvesCover(p: Skb, len: nat, mss: nat, sndNxt: nat)
    requires WellFormed(p) && len <= |p.data| && mss > 0 && p.end <= sndNxt
    ensures var mid := [Left(p, len, mss).(cloned := false), Right(p, len, mss)];
            Partition(mid) && AllSent(mid, sndNxt) && SameRange([p], mid) && mid[0].data + mid[1].data == p.data
            && mid[0].marks == p.marks && mid[1].marks == p.marks
  {
    hide SetTsoSegs;
    var l, r := Left(p, len, mss).(cloned := false), Right(p, len, mss);
    assert |l.data| == len && |r.data| == |p.data| - len;
    assert WellFormed(l) && WellFormed(r) && l.end == r.start && !l.fin;
  }

  /** Exchanging skb `i`. */
  lemma ExchangeAt(s: Queue, i: nat, mid: seq<Skb>, counters: Counters, sndNxt: nat)
    requires i < |s.q| && Inv(s, sndNxt) && SameRange([s.q[i]], mid)
    requires Partition(mid) && AllSent(mid, sndNxt) && Stream(mid) == s.q[i].data
    requires Plus(counters, Weight(s.q[i].marks, s.q[i].pcount)) == Plus(s.counters, Count(mid))
    ensures Keeps(s, Queue(s.q[..i] + mid + s.q[i + 1..], counters), sndNxt)
  {
    One(s.q[i]);
    assert s.q == s.q[..i] + [s.q[i]] + s.q[i + 1..];
    Exchange(s, s.q[..i], [s.q[i]], mid, s.q[i + 1..], counters, sndNxt);
  }

  /** Correcting by the difference accounts for an skb's packets being `after` instead. */
  lemma AdjustAccounts(n: Counters, m: Marks, before: int, after: int)
    ensures Plus(AdjustPcount(n, m, before - after), Weight(m, before)) == Plus(n, Weight(m, after))
  {
  }

  lemma WeightAdds(m: Marks, a: int, b: int)
    ensures Plus(Weight(m, a), Weight(m, b)) == Weight(m, a + b)
  {
  }

  lemma FragmentInv(s: Queue, i: nat, len: nat, mss: nat, sndNxt: nat, noMemory: bool)
    requires Inv(s, sndNxt) && i < |s.q| && mss > 0
    ensures Keeps(s, Fragment(s, i, len, mss, sndNxt, noMemory).0, sndNxt)
  {
    var p := s.q[i];
    if len <= |p.data| && !noMemory {
      var l, r := Left(p, len, mss).(cloned := false), Right(p, len, mss);
      HalvesCover(p, len, mss, sndNxt);
      Two(l, r);
      WeightAdds(p.marks, l.pcount, r.pcount);
      AdjustAccounts(s.counters, p.marks, p.pcount, l.pcount + r.pcount);
      ExchangeAt(s, i, [l, r], AdjustPcount(s.counters, p.marks, p.pcount - (l.pcount + r.pcount)), sndNxt);
    }
  }

  lemma ResegmentInv(s: Queue, i: nat, mss: nat, sndNxt: nat)
    requires Inv(s, sndNxt) && i < |s.q| && mss > 0
    ensures Keeps(s, Resegment(s, i, mss), sndNxt)
  {
    var p, r := s.q[i], SetTsoSegs(s.q[i], mss).(cloned := false);
    One(r);
    AdjustAccounts(s.counters, p.marks, p.pcount, r.pcount);
    assert s.q[i := r] == s.q[..i] + [r] + s.q[i + 1..];
    ExchangeAt(s, i, [r], AdjustPcount(s.counters, p.marks, p.pcount - r.pcount), sndNxt);
  }

  lemma MergeAccounts(n: Counters, a: Counters, m: Marks, k: int)
    ensures Plus(AdjustPcount(n, m, k), Plus(a, Weight(m, k))) == Plus(n, a)
  {
  }

  /** The merged skb covers its two parts. */
  lemma MergeCovers(p: Skb, next: Skb, sndNxt: nat)
    requires WellFormed(p) && WellFormed(next) && p.end == next.start && !p.fin && next.end <= sndNxt
    requires p.pcount == 1
    ensures var mid := [Merge(p, next)];
            Partition(mid) && AllSent(mid, sndNxt) && SameRange([p, next], mid)
  {
  }

  lemma MergeKeepsBytes(p: Skb, next: Skb)
    ensures Stream([Merge(p, next)]) == Stream([p, next])
  {
    One(Merge(p, next));
    Two(p, next);
  }

  /** One packet less accounts for the merge. */
  lemma MergeCounts(p: Skb, next: Skb, n: Counters)
    ensures Plus(AdjustPcount(n, next.marks, next.pcount), Count([p, next])) == Plus(n, Count([Merge(p, next)]))
  {
    var m := Merge(p, next);
    One(m);
    Two(p, next);
    assert Weight(m.marks, m.pcount) == Weight(p.marks, p.pcount);
    MergeAccounts(n, Weight(p.marks, p.pcount), next.marks, next.pcount);
  }

  lemma CollapseInv(s: Queue, i: nat, sndNxt: nat)
    requires Inv(s, sndNxt) && i + 1 < |s.q| && s.q[i].pcount == 1 && s.q[i + 1].pcount == 1
    ensures Keeps(s, Collapse(s, i), sndNxt)
  {
    var p, next := s.q[i], s.q[i + 1];
    assert s.q == s.q[..i] + [p, next] + s.q[i + 2..];
    assert WellFormed(p) && WellFormed(next) && p.end == next.start && !p.fin;
    MergeCovers(p, next, sndNxt);
    MergeKeepsBytes(p, next);
    MergeCounts(p, next, s.counters);
    Exchange(s, s.q[..i], [p, next], [Merge(p, next)], s.q[i + 2..], AdjustPcount(s.counters, next.marks, next.pcount), sndNxt);
  }

  lemma KeepsTransitive(s: Queue, s': Queue, s'': Queue, sndNxt: nat)
    requires Keeps(s, s', sndNxt) && Keeps(s', s'', sndNxt)
    ensures Keeps(s, s'', sndNxt)
  {
  }

  lemma {:induction false} CollapseRunInv(s: Queue, i: nat, space: int, wndEnd: nat, shifts: nat, sndNxt: nat)
    requires Inv(s, sndNxt) && i < |s.q| && s.q[i].pcount == 1
    ensures Keeps(s, CollapseRun(s, i, space, wndEnd, shifts), sndNxt)
    decreases |s.q|
  {
    if NextFits(s, i, space, wndEnd, shifts) {
      var c := Collapse(s, i);
      CollapseInv(s, i, sndNxt);
      CollapseRunInv(c, i, space - |s.q[i + 1].data|, wndEnd, shifts - 1, sndNxt);
      KeepsTransitive(s, c, CollapseRun(s, i, space, wndEnd, shifts), sndNxt);
    }
  }

  /** Skb `i` after collapsing: same place and marks but for EVER_RETRANS, at most
      `space` bytes more, and still one packet. */
  ghost predicate Grown(s: Queue, s': Queue, i: nat, space: int) {
    && i < |s.q| && i < |s'.q| && s'.q[..i] == s.q[..i]
    && s'.q[i].start == s.q[i].start
    && s'.q[i].marks.(everRetrans := true) == s.q[i].marks.(everRetrans := true)
    && s'.q[i].pcount == s.q[i].pcount && |s'.q[i].data| <= |s.q[i].data| + Max(0, space)
  }

  lemma {:induction false} CollapseRunGrows(s: Queue, i: nat, space: int, wndEnd: nat, shifts: nat)
    requires i < |s.q| && s.q[i].pcount == 1
    ensures Grown(s, CollapseRun(s, i, space, wndEnd, shifts), i, space)
    decreases |s.q|
  {
    if NextFits(s, i, space, wndEnd, shifts) {
      var c := Collapse(s, i);
      assert c.q[..i] == s.q[..i] && c.q[i] == Merge(s.q[i], s.q[i + 1]);
      CollapseRunGrows(c, i, space - |s.q[i + 1].data|, wndEnd, shifts - 1);
    }
  }

  // -------------------------------------------------------------------- retransmission

  /** One call of `tcp_retransmit_skb` and what its environment answers. */
  datatype Request = Request(
    sndUna: nat, wndEnd: nat, mss: nat, segs: nat, collapse: bool, shifts: nat,
    inHostQueue: bool, trimFails: bool, unreachable: bool, noMemory: bool, sendFails: bool)

  /** `tcp_trim_head`: drops acknowledged bytes and re-segments, but leaves the counters. */
  function TrimHead(s: Queue, i: nat, len: nat): Queue
    requires i < |s.q| && len <= |s.q[i].data| && (s.q[i].pcount > 1 ==> s.q[i].gsoSize > 0)
  {
    var p := s.q[i].(start := s.q[i].start + len, data := s.q[i].data[len..], cloned := false);
    s.(q := s.q[i := if p.pcount > 1 then SetTsoSegs(p, p.gsoSize) else p])
  }

  /** How much of skb `i` one retransmission may carry. */
  function SendLength(mss: nat, segs: nat, avail: nat): (len: nat)
    requires mss > 0 && segs > 0 && avail > 0
    ensures 0 < len <= avail
  {
    MulGrows(segs, mss);
    DivisionEquation(avail, mss);
    if mss * segs <= avail then mss * segs
    else if avail < mss then avail
    else avail / mss * mss
  }

  /** It is whole segments, at most `segs` of them, unless the window has less than one. */
  lemma SendLengthIsWholeSegments(mss: nat, segs: nat, avail: nat)
    requires mss > 0 && segs > 0 && avail > 0
    ensures var len := SendLength(mss, segs, avail); len <= segs * mss && (len % mss == 0 || len == avail < mss)
  {
    MultipleMod(segs, mss);
    MultipleMod(avail / mss, mss);
    DivisionEquation(avail, mss);
    MulGrows(segs, mss);
  }

  /** An skb that fits is re-segmented and filled up with its successors. */
  function PrepareWhole(s: Queue, i: nat, r: Request, avail: nat): Queue
    requires i < |s.q| && r.mss > 0
  {
    var s' := Resegment(s, i, r.mss);
    var space := Min(avail, r.mss);
    if r.collapse && |s.q[i].data| < space then TryCollapse(s', i, space, r.wndEnd, r.shifts) else s'
  }

  /** `__tcp_retransmit_skb` from the route lookup up to the transmission. */
  function PrepareTrimmed(s: Queue, i: nat, r: Request, sndNxt: nat): (Queue, Error)
    requires i < |s.q| && r.mss > 0 && r.segs > 0
  {
    var p := s.q[i];
    if r.unreachable then (s, Unreachable)
    else if r.wndEnd <= p.start && p.start != r.sndUna then (s, TryAgain)
    else
      var avail := if r.wndEnd <= p.start then r.mss else r.wndEnd - p.start;
      var len := SendLength(r.mss, r.segs, avail);
      if |p.data| > len then Fragment(s, i, len, r.mss, sndNxt, r.noMemory)
      else if r.noMemory then (s, NoMemory)
      else (PrepareWhole(s, i, r, avail), Ok)
  }

  /** What a trim up to `una` asks of an skb: the bytes to drop are payload, as those of an
      skb that is not fully acknowledged are, and several packets have a segment size. */
  predicate Trimmable(p: Skb, una: nat) {
    p.start < una <= p.end ==> una - p.start <= |p.data| && (p.pcount > 1 ==> p.gsoSize > 0)
  }

  /** The retransmission drops acknowledged bytes first. */
  predicate Trims(p: Skb, r: Request) {
    !r.inHostQueue && p.start < r.sndUna <= p.end && !r.trimFails
  }

  function TrimUpTo(s: Queue, i: nat, una: nat): Queue
    requires i < |s.q| && Trimmable(s.q[i], una) && una <= s.q[i].end
  {
    if s.q[i].start < una then TrimHead(s, i, una - s.q[i].start) else s
  }

  /** `__tcp_retransmit_skb` up to the transmission. */
  function Prepare(s: Queue, i: nat, r: Request, sndNxt: nat): (Queue, Error)
    requires i < |s.q| && r.mss > 0 && r.segs > 0 && Trimmable(s.q[i], r.sndUna)
  {
    var p := s.q[i];
    if r.inHostQueue then (s, Busy)
    else if p.start < r.sndUna && p.end < r.sndUna then (s, Invalid)
    else if p.start < r.sndUna && r.trimFails then (s, NoMemory)
    else if p.start < r.sndUna then PrepareTrimmed(TrimUpTo(s, i, r.sndUna), i, r, sndNxt)
    else PrepareTrimmed(s, i, r, sndNxt)
  }

  function SetMarks(s: Queue, i: nat, m: Marks): Queue
    requires i < |s.q|
  {
    s.(q := s.q[i := s.q[i].(marks := m)])
  }

  /** The marks after the transmission: EVER_RETRANS in any case, SACKED_RETRANS and its
      share of retrans_out when the skb went out. */
  function Finish(s: Queue, i: nat, sendFails: bool): (Queue, Error)
    requires i < |s.q|
  {
    var m := s.q[i].marks.(everRetrans := true);
    if sendFails then (SetMarks(s, i, m), SendFailed)
    else
      (SetMarks(s, i, m.(retrans := true)).(
         counters := s.counters.(retrans := s.counters.retrans + s.q[i].pcount)), Ok)
  }

  /** `tcp_retransmit_skb`. */
  function Retransmit(s: Queue, i: nat, r: Request, sndNxt: nat): (Queue, Error)
    requires i < |s.q| && r.mss > 0 && r.segs > 0 && Trimmable(s.q[i], r.sndUna)
  {
    var (s', e) := Prepare(s, i, r, sndNxt);
    PrepareKeepsIndex(s, i, r, sndNxt);
    if e != Ok then (s', e) else Finish(s', i, r.sendFails)
  }

  /** The same for an skb that needs no trim. */
  function RetransmitTrimmed(s: Queue, i: nat, r: Request, sndNxt: nat): (Queue, Error)
    requires i < |s.q| && r.mss > 0 && r.segs > 0
  {
    var (s', e) := PrepareTrimmed(s, i, r, sndNxt);
    PrepareTrimmedKeepsIndex(s, i, r, sndNxt);
    if e != Ok then (s', e) else Finish(s', i, r.sendFails)
  }

  lemma WholeKeepsIndex(s: Queue, i: nat, r: Request, avail: nat)
    requires i < |s.q| && r.mss > 0
    ensures StillThere(s, PrepareWhole(s, i, r, avail), i)
  {
    var s' := Resegment(s, i, r.mss);
    if CanCollapse(s'.q[i]) {
      CollapseRunGrows(s', i, Min(avail, r.mss) - |s'.q[i].data|, r.wndEnd, r.shifts);
    }
  }

  /** Skb `i` is still there with its marks, except perhaps EVER_RETRANS. */
  ghost predicate StillThere(s: Queue, s': Queue, i: nat) {
    i < |s.q| && i < |s'.q| && s'.q[i].marks.(everRetrans := true) == s.q[i].marks.(everRetrans := true)
  }

  lemma FragmentKeepsIndex(s: Queue, i: nat, len: nat, mss: nat, sndNxt: nat, noMemory: bool)
    requires i < |s.q| && mss > 0
    ensures StillThere(s, Fragment(s, i, len, mss, sndNxt, noMemory).0, i)
  {
  }

  lemma PrepareIsOneOf(s: Queue, i: nat, r: Request, sndNxt: nat, avail: nat, len: nat)
    requires i < |s.q| && r.mss > 0 && r.segs > 0
    requires avail == (if r.wndEnd <= s.q[i].start then r.mss else r.wndEnd - s.q[i].start)
    requires len == SendLength(r.mss, r.segs, avail)
    ensures var s' := PrepareTrimmed(s, i, r, sndNxt).0;
            || s' == s || s' == Fragment(s, i, len, r.mss, sndNxt, r.noMemory).0 || s' == PrepareWhole(s, i, r, avail)
  {
  }

  lemma PrepareTrimmedKeepsIndex(s: Queue, i: nat, r: Request, sndNxt: nat)
    requires i < |s.q| && r.mss > 0 && r.segs > 0
    ensures StillThere(s, PrepareTrimmed(s, i, r, sndNxt).0, i)
  {
    var avail := if r.wndEnd <= s.q[i].start then r.mss else r.wndEnd - s.q[i].start;
    var len := SendLength(r.mss, r.segs, avail);
    PrepareIsOneOf(s, i, r, sndNxt, avail, len);
    WholeKeepsIndex(s, i, r, avail);
    FragmentKeepsIndex(s, i, len, r.mss, sndNxt, r.noMemory);
  }

  /** Whatever happens before the transmission, skb `i` is still there with its marks. */
  lemma PrepareKeepsIndex(s: Queue, i: nat, r: Request, sndNxt: nat)
    requires i < |s.q| && r.mss > 0 && r.segs > 0 && Trimmable(s.q[i], r.sndUna)
    ensures StillThere(s, Prepare(s, i, r, sndNxt).0, i)
  {
    hide PrepareTrimmed;
    PrepareTrimmedKeepsIndex(s, i, r, sndNxt);
    if s.q[i].start < r.sndUna <= s.q[i].end { PrepareTrimmedKeepsIndex(TrimUpTo(s, i, r.sndUna), i, r, sndNxt); }
  }

  lemma RemarkAccounts(n: Counters, m: Marks, m': Marks, k: int)
    ensures Plus(Plus(AdjustPcount(n, m, k), Weight(m', k)), Weight(m, k)) == Plus(n, Weight(m', k))
  {
  }

  /** New marks on skb `i`, with its packets moved from the old ones to the new. */
  lemma MarkInv(s: Queue, i: nat, m: Marks, sndNxt: nat)
    requires Inv(s, sndNxt) && i < |s.q| && !(m.acked && m.lost)
    ensures var n := Plus(AdjustPcount(s.counters, s.q[i].marks, s.q[i].pcount), Weight(m, s.q[i].pcount));
            Keeps(s, SetMarks(s, i, m).(counters := n), sndNxt)
  {
    var r := s.q[i].(marks := m);
    One(r);
    RemarkAccounts(s.counters, s.q[i].marks, m, r.pcount);
    assert s.q[i := r] == s.q[..i] + [r] + s.q[i + 1..];
    ExchangeAt(s, i, [r], Plus(AdjustPcount(s.counters, s.q[i].marks, s.q[i].pcount), Weight(m, s.q[i].pcount)), sndNxt);
  }

  lemma MarkEverInv(s: Queue, i: nat, sndNxt: nat)
    requires Inv(s, sndNxt) && i < |s.q|
    ensures Keeps(s, SetMarks(s, i, s.q[i].marks.(everRetrans := true)), sndNxt)
  {
    var m := s.q[i].marks.(everRetrans := true);
    MarkInv(s, i, m, sndNxt);
    assert Plus(AdjustPcount(s.counters, s.q[i].marks, s.q[i].pcount), Weight(m, s.q[i].pcount)) == s.counters;
  }

  /** Marking a retransmitted skb and adding its packets to retrans_out keeps the counters
      exact if and only if it was not marked already. */
  lemma RetransCountExactly(s: Queue, i: nat, sndNxt: nat)
    requires Inv(s, sndNxt) && i < |s.q|
    ensures var m := s.q[i].marks.(everRetrans := true, retrans := true);
            var s' := SetMarks(s, i, m).(counters := s.counters.(retrans := s.counters.retrans + s.q[i].pcount));
            Keeps(s, s', sndNxt) <==> !s.q[i].marks.retrans
  {
    var m := s.q[i].marks.(everRetrans := true, retrans := true);
    MarkInv(s, i, m, sndNxt);
  }

  lemma WholeInv(s: Queue, i: nat, r: Request, avail: nat, sndNxt: nat)
    requires Inv(s, sndNxt) && i < |s.q| && r.mss > 0
    ensures Keeps(s, PrepareWhole(s, i, r, avail), sndNxt)
  {
    ResegmentInv(s, i, r.mss, sndNxt);
    var s' := Resegment(s, i, r.mss);
    if CanCollapse(s'.q[i]) {
      var space := Min(avail, r.mss) - |s'.q[i].data|;
      CollapseRunInv(s', i, space, r.wndEnd, r.shifts, sndNxt);
      KeepsTransitive(s, s', CollapseRun(s', i, space, r.wndEnd, r.shifts), sndNxt);
    }
  }

  lemma EitherInv(s: Queue, s': Queue, i: nat, r: Request, len: nat, avail: nat, sndNxt: nat)
    requires Inv(s, sndNxt) && i < |s.q| && r.mss > 0
    requires || s' == s
             || s' == Fragment(s, i, len, r.mss, sndNxt, r.noMemory).0
             || s' == PrepareWhole(s, i, r, avail)
    ensures Keeps(s, s', sndNxt)
  {
    FragmentInv(s, i, len, r.mss, sndNxt, r.noMemory);
    WholeInv(s, i, r, avail, sndNxt);
  }

  lemma PrepareInv(s: Queue, i: nat, r: Request, sndNxt: nat)
    requires Inv(s, sndNxt) && i < |s.q| && r.mss > 0 && r.segs > 0
    ensures Keeps(s, PrepareTrimmed(s, i, r, sndNxt).0, sndNxt)
  {
    var avail := if r.wndEnd <= s.q[i].start then r.mss else r.wndEnd - s.q[i].start;
    EitherInv(s, PrepareTrimmed(s, i, r, sndNxt).0, i, r, SendLength(r.mss, r.segs, avail), avail, sndNxt);
  }

  lemma TrimmedInv(s: Queue, i: nat, r: Request, sndNxt: nat)
    requires Inv(s, sndNxt) && i < |s.q| && r.mss > 0 && r.segs > 0 && !s.q[i].marks.retrans
    ensures Keeps(s, RetransmitTrimmed(s, i, r, sndNxt).0, sndNxt)
  {
    PrepareInv(s, i, r, sndNxt);
    PrepareTrimmedKeepsIndex(s, i, r, sndNxt);
    var (s', e) := PrepareTrimmed(s, i, r, sndNxt);
    hide PrepareTrimmed;
    if e == Ok {
      MarkEverInv(s', i, sndNxt);
      RetransCountExactly(s', i, sndNxt);
      KeepsTransitive(s, s', RetransmitTrimmed(s, i, r, sndNxt).0, sndNxt);
    }
  }

  lemma WholeFits(s: Queue, i: nat, r: Request, avail: nat)
    requires i < |s.q| && r.mss > 0 && |s.q[i].data| <= avail
    ensures var s' := PrepareWhole(s, i, r, avail);
            i < |s'.q| && s'.q[i].start == s.q[i].start && |s'.q[i].data| <= avail
  {
    var s' := Resegment(s, i, r.mss);
    if CanCollapse(s'.q[i]) {
      CollapseRunGrows(s', i, Min(avail, r.mss) - |s'.q[i].data|, r.wndEnd, r.shifts);
    }
  }

  lemma TrimmedWithinWindow(s: Queue, i: nat, r: Request, sndNxt: nat)
    requires i < |s.q| && r.mss > 0 && r.segs > 0 && PrepareTrimmed(s, i, r, sndNxt).1 == Ok
    ensures WithinWindow(PrepareTrimmed(s, i, r, sndNxt).0, i, r) && PrepareTrimmed(s, i, r, sndNxt).0.q[i].start == s.q[i].start
  {
    var avail := if r.wndEnd <= s.q[i].start then r.mss else r.wndEnd - s.q[i].start;
    if |s.q[i].data| <= avail { WholeFits(s, i, r, avail); }
  }

  /** Skb `i` ends inside the peer's window; into a closed one goes one MSS from snd_una. */
  predicate WithinWindow(s: Queue, i: nat, r: Request) {
    && i < |s.q|
    && (if r.wndEnd > s.q[i].start then s.q[i].start + |s.q[i].data| <= r.wndEnd
        else s.q[i].start == r.sndUna && |s.q[i].data| <= r.mss)
  }

  /** What is retransmitted ends inside the peer's window and begins at or above snd_una. */
  lemma RetransmitWithinWindow(s: Queue, i: nat, r: Request, sndNxt: nat)
    requires i < |s.q| && r.mss > 0 && r.segs > 0 && Trimmable(s.q[i], r.sndUna)
    requires Prepare(s, i, r, sndNxt).1 == Ok
    ensures var s' := Prepare(s, i, r, sndNxt).0;
            WithinWindow(s', i, r) && s'.q[i].start == Max(s.q[i].start, r.sndUna)
  {
    if s.q[i].start < r.sndUna {
      TrimmedWithinWindow(TrimUpTo(s, i, r.sndUna), i, r, sndNxt);
    } else {
      TrimmedWithinWindow(s, i, r, sndNxt);
    }
  }

  // ---------------------------------------------------------------------------- trims

  /** The payload of an skb, cut by `len` bytes, still needs as many segments. */
  predicate PcountStays(p: Skb, len: nat) {
    p.pcount == 1 || (p.pcount - 1) * p.gsoSize < Max(1, |p.data| - len) <= p.pcount * p.gsoSize
  }

  lemma SegmentsUnique(len: nat, mss: nat, n: nat)
    requires mss > 0 && n >= 1
    ensures DivRoundUp(len, mss) == n <==> (n - 1) * mss < len <= n * mss
  {
    var k := DivRoundUp(len, mss);
    DivisionEquation(len + mss - 1, mss);
    MulDiff(k, 1, mss);
    MulDiff(n, 1, mss);
    if (n - 1) * mss < len <= n * mss {
      DivModUnique(len + mss - 1, mss, n, len + mss - 1 - n * mss);
    }
  }

  /** A trim keeps the packet count exactly under that condition on the skb and the length. */
  lemma TrimKeepsPcountExactly(s: Queue, i: nat, len: nat)
    requires i < |s.q| && len <= |s.q[i].data| && (s.q[i].pcount > 1 ==> s.q[i].gsoSize > 0)
    ensures TrimHead(s, i, len).q[i].pcount == s.q[i].pcount <==> PcountStays(s.q[i], len)
  {
    var p := s.q[i];
    if p.pcount > 1 {
      var left := |p.data| - len;
      SegmentsUnique(Max(1, left), p.gsoSize, p.pcount);
      MulGrows(p.pcount - 1, p.gsoSize);
      OneSegment(left, p.gsoSize);
    }
  }

  /** Up to one segment size the packet count is one, as the quotient says. */
  lemma OneSegment(len: nat, mss: nat)
    requires mss > 0
    ensures 1 <= len <= mss ==> DivRoundUp(len, mss) == 1
    ensures DivRoundUp(1, mss) == 1
  {
    SegmentsUnique(len, mss, 1);
    SegmentsUnique(1, mss, 1);
  }

  /** The counters of a trimmed skb: they are off by what the packet count has changed. */
  lemma TrimHeadDrift(s: Queue, i: nat, len: nat, sndNxt: nat)
    requires Inv(s, sndNxt) && i < |s.q| && len <= |s.q[i].data|
    ensures var t, p := TrimHead(s, i, len), s.q[i];
            i < |t.q| && t.counters == Plus(Count(t.q), Weight(p.marks, p.pcount - t.q[i].pcount))
  {
    var p, r := s.q[i], TrimHead(s, i, len).q[i];
    assert s.q == s.q[..i] + [p] + s.q[i + 1..];
    assert TrimHead(s, i, len).q == s.q[..i] + [r] + s.q[i + 1..];
    CountThree(s.q[..i], [p], s.q[i + 1..]);
    CountThree(s.q[..i], [r], s.q[i + 1..]);
    One(p);
    One(r);
    assert p.marks == r.marks;
    DriftOfOne(Count(s.q[..i]), Count(s.q[i + 1..]), p.marks, p.pcount, r.pcount);
  }

  lemma DriftOfOne(a: Counters, d: Counters, m: Marks, k: int, k': int)
    ensures Plus(Plus(a, Weight(m, k)), d) == Plus(Plus(Plus(a, Weight(m, k')), d), Weight(m, k - k'))
  {
  }

  lemma NoDrift(n: Counters, m: Marks, k: int)
    ensures Plus(n, Weight(m, k)) == n <==> k == 0
  {
  }

  /** Trimming acknowledged bytes in the retransmit path re-segments without telling the
      counters: they stay exact if and only if what is left of the payload still needs as
      many segments. */
  lemma TrimHeadCountsExactly(s: Queue, i: nat, len: nat, sndNxt: nat)
    requires Inv(s, sndNxt) && i < |s.q| && len <= |s.q[i].data|
    ensures TrimHead(s, i, len).counters == Count(TrimHead(s, i, len).q) <==> PcountStays(s.q[i], len)
  {
    var t, p := TrimHead(s, i, len), s.q[i];
    hide TrimHead, Count, Plus, Weight, PcountStays;
    TrimHeadDrift(s, i, len, sndNxt);
    TrimKeepsPcountExactly(s, i, len);
    NoDrift(Count(t.q), p.marks, p.pcount - t.q[i].pcount);
  }

  // ------------------------------------------------- operations do not read the counters

  function Shift(s: Queue, d: Counters): Queue {
    s.(counters := Plus(s.counters, d))
  }

  lemma AdjustShifts(n: Counters, d: Counters, m: Marks, k: int)
    ensures AdjustPcount(Plus(n, d), m, k) == Plus(AdjustPcount(n, m, k), d)
  {
  }

  lemma FragmentShifts(s: Queue, i: nat, len: nat, mss: nat, sndNxt: nat, noMemory: bool, d: Counters)
    requires i < |s.q| && mss > 0
    ensures var f := Fragment(s, i, len, mss, sndNxt, noMemory);
            Fragment(Shift(s, d), i, len, mss, sndNxt, noMemory) == (Shift(f.0, d), f.1)
  {
    var p := s.q[i];
    if len <= |p.data| && !noMemory {
      AdjustShifts(s.counters, d, p.marks, p.pcount - (Left(p, len, mss).pcount + Right(p, len, mss).pcount));
    }
  }

  lemma ResegmentShifts(s: Queue, i: nat, mss: nat, d: Counters)
    requires i < |s.q| && mss > 0
    ensures Resegment(Shift(s, d), i, mss) == Shift(Resegment(s, i, mss), d)
  {
    AdjustShifts(s.counters, d, s.q[i].marks, s.q[i].pcount - SetTsoSegs(s.q[i], mss).pcount);
  }

  lemma {:induction false} CollapseRunShifts(s: Queue, i: nat, space: int, wndEnd: nat, shifts: nat, d: Counters)
    requires i < |s.q| && s.q[i].pcount == 1
    ensures CollapseRun(Shift(s, d), i, space, wndEnd, shifts) == Shift(CollapseRun(s, i, space, wndEnd, shifts), d)
    decreases |s.q|
  {
    if NextFits(s, i, space, wndEnd, shifts) {
      var next := s.q[i + 1];
      AdjustShifts(s.counters, d, next.marks, next.pcount);
      assert Collapse(Shift(s, d), i) == Shift(Collapse(s, i), d);
      CollapseRunShifts(Collapse(s, i), i, space - |next.data|, wndEnd, shifts - 1, d);
    }
  }

  lemma WholeShifts(s: Queue, i: nat, r: Request, avail: nat, d: Counters)
    requires i < |s.q| && r.mss > 0
    ensures PrepareWhole(Shift(s, d), i, r, avail) == Shift(PrepareWhole(s, i, r, avail), d)
  {
    hide CollapseRun;
    ResegmentShifts(s, i, r.mss, d);
    var s' := Resegment(s, i, r.mss);
    if CanCollapse(s'.q[i]) {
      CollapseRunShifts(s', i, Min(avail, r.mss) - |s'.q[i].data|, r.wndEnd, r.shifts, d);
    }
  }

  lemma PrepareShifts(s: Queue, i: nat, r: Request, sndNxt: nat, d: Counters)
    requires i < |s.q| && r.mss > 0 && r.segs > 0
    ensures var f := PrepareTrimmed(s, i, r, sndNxt);
            PrepareTrimmed(Shift(s, d), i, r, sndNxt) == (Shift(f.0, d), f.1)
  {
    hide PrepareWhole, Fragment, SendLength;
    var p := s.q[i];
    if p.start < r.wndEnd || p.start == r.sndUna {
      var avail := if r.wndEnd <= p.start then r.mss else r.wndEnd - p.start;
      FragmentShifts(s, i, SendLength(r.mss, r.segs, avail), r.mss, sndNxt, r.noMemory, d);
      WholeShifts(s, i, r, avail, d);
    }
  }

  lemma RetransmitShifts(s: Queue, i: nat, r: Request, sndNxt: nat, d: Counters)
    requires i < |s.q| && r.mss > 0 && r.segs > 0
    ensures var f := RetransmitTrimmed(s, i, r, sndNxt);
            RetransmitTrimmed(Shift(s, d), i, r, sndNxt) == (Shift(f.0, d), f.1)
  {
    hide PrepareTrimmed;
    PrepareShifts(s, i, r, sndNxt, d);
    PrepareTrimmedKeepsIndex(s, i, r, sndNxt);
  }

  // ------------------------------------------------------------ retransmission, exactly

  /** `s'` holds what is left of `s` without its first `cut` bytes; the counters aside. */
  ghost predicate Remains(s: Queue, s': Queue, cut: nat, sndNxt: nat) {
    && Partition(s'.q) && AllSent(s'.q, sndNxt) && s.q != [] && s'.q != []
    && cut <= |Stream(s.q)| && Stream(s'.q) == Stream(s.q)[cut..]
    && s'.q[0].start == s.q[0].start + cut && s'.q[|s'.q| - 1].end == s.q[|s.q| - 1].end
  }

  /** The queue with its own sums for counters. */
  function Exact(s: Queue): Queue {
    s.(counters := Count(s.q))
  }

  /** Trimming the head of the queue leaves the rest of the stream. */
  lemma TrimRemains(s: Queue, len: nat, sndNxt: nat)
    requires Inv(s, sndNxt) && s.q != [] && len <= |s.q[0].data|
    ensures Remains(s, TrimHead(s, 0, len), len, sndNxt) && Inv(Exact(TrimHead(s, 0, len)), sndNxt)
  {
    var p, d := s.q[0], s.q[1..];
    var r := TrimHead(s, 0, len).q[0];
    assert s.q == [p] + d && TrimHead(s, 0, len).q == [r] + d;
    assert WellFormed(r) && r.end == p.end && r.fin == p.fin && r.start == p.start + len && r.data == p.data[len..];
    TrimPartition(p, r, d, sndNxt);
    TrimStream(p, r, d, len);
  }

  lemma TrimStream(p: Skb, r: Skb, d: seq<Skb>, len: nat)
    requires len <= |p.data| && r.data == p.data[len..]
    ensures len <= |Stream([p] + d)| && Stream([r] + d) == Stream([p] + d)[len..]
  {
    StreamConcat([p], d);
    StreamConcat([r], d);
    One(p);
    One(r);
    hide Stream;
  }

  lemma TrimPartition(p: Skb, r: Skb, d: seq<Skb>, sndNxt: nat)
    requires Partition([p] + d) && AllSent([p] + d, sndNxt) && WellFormed(r) && r.end == p.end && r.fin == p.fin
    ensures Partition([r] + d) && AllSent([r] + d, sndNxt)
    ensures ([r] + d)[|d|].end == ([p] + d)[|d|].end
  {
    PartitionSplit([p], d);
    assert ([p] + d)[0].end <= sndNxt;
    assert Partition([r]) && Meet([r], d);
    PartitionJoin([r], d);
    forall k | 0 <= k < |[r] + d| ensures ([r] + d)[k].end <= sndNxt {
      if k > 0 { assert ([r] + d)[k] == ([p] + d)[k]; }
    }
  }

  lemma RemainsThenKeeps(s: Queue, t: Queue, t': Queue, cut: nat, sndNxt: nat)
    requires Remains(s, t, cut, sndNxt) && Keeps(t, t', sndNxt)
    ensures Remains(s, t', cut, sndNxt)
  {
  }

  lemma KeepsRemains(s: Queue, s': Queue, sndNxt: nat)
    requires s.q != [] && Keeps(s, s', sndNxt)
    ensures Remains(s, s', 0, sndNxt) && s'.counters == Count(s'.q)
  {
    assert Stream(s.q)[0..] == Stream(s.q);
  }

  /** A trimmed retransmission is an exact one with the drift of the trim added. */
  lemma TrimmedRetransmission(s: Queue, r: Request, sndNxt: nat)
    requires Inv(s, sndNxt) && s.q != [] && r.mss > 0 && r.segs > 0 && Trimmable(s.q[0], r.sndUna)
    requires s.q[0].start < r.sndUna <= s.q[0].end && !s.q[0].marks.retrans
    ensures var cut, p := r.sndUna - s.q[0].start, s.q[0];
            var s' := RetransmitTrimmed(TrimHead(s, 0, cut), 0, r, sndNxt).0;
            Remains(s, s', cut, sndNxt) && (s'.counters == Count(s'.q) <==> PcountStays(p, cut))
  {
    var cut, p := r.sndUna - s.q[0].start, s.q[0];
    var t := TrimHead(s, 0, cut);
    TrimKeepsMarks(s, cut);
    TrimRemains(s, cut, sndNxt);
    TrimHeadDrift(s, 0, cut, sndNxt);
    TrimKeepsPcountExactly(s, 0, cut);
    hide RetransmitTrimmed, TrimHead, Weight, Plus, Count, Stream, Inv, Remains, PcountStays;
    var k := p.pcount - t.q[0].pcount;
    DriftedRetransmission(s, t, cut, Weight(p.marks, k), r, sndNxt);
    NoDrift(Count(RetransmitTrimmed(t, 0, r, sndNxt).0.q), p.marks, k);
  }

  /** A drift of the counters goes through a retransmission. */
  lemma DriftedRetransmission(s: Queue, t: Queue, cut: nat, d: Counters, r: Request, sndNxt: nat)
    requires Remains(s, t, cut, sndNxt) && Inv(Exact(t), sndNxt) && t.counters == Plus(Count(t.q), d)
    requires t.q != [] && !t.q[0].marks.retrans && r.mss > 0 && r.segs > 0
    ensures var s' := RetransmitTrimmed(t, 0, r, sndNxt).0;
            Remains(s, s', cut, sndNxt) && s'.counters == Plus(Count(s'.q), d)
  {
    hide RetransmitTrimmed, Plus, Count, Inv, Remains, Keeps;
    assert t == Shift(Exact(t), d);
    TrimmedInv(Exact(t), 0, r, sndNxt);
    RetransmitShifts(Exact(t), 0, r, sndNxt, d);
    DriftStays(s, t, RetransmitTrimmed(Exact(t), 0, r, sndNxt).0, cut, d, sndNxt);
  }

  lemma TrimKeepsLength(s: Queue, i: nat, len: nat)
    requires i < |s.q| && len <= |s.q[i].data| && (s.q[i].pcount > 1 ==> s.q[i].gsoSize > 0)
    ensures |TrimHead(s, i, len).q| == |s.q|
  {
  }

  lemma TrimKeepsMarks(s: Queue, len: nat)
    requires s.q != [] && len <= |s.q[0].data| && (s.q[0].pcount > 1 ==> s.q[0].gsoSize > 0)
    ensures |TrimHead(s, 0, len).q| == |s.q| && TrimHead(s, 0, len).q[0].marks == s.q[0].marks
  {
  }

  lemma DriftStays(s: Queue, t: Queue, e: Queue, cut: nat, d: Counters, sndNxt: nat)
    requires Remains(s, t, cut, sndNxt) && Keeps(Exact(t), e, sndNxt)
    ensures Remains(s, Shift(e, d), cut, sndNxt) && Shift(e, d).counters == Plus(Count(e.q), d)
  {
    RemainsThenKeeps(s, Exact(t), e, cut, sndNxt);
  }

  /** Any retransmission of an skb that is not marked retransmitted leaves a sound queue with
      the unacknowledged rest of the stream, whatever the outcome; its counters are exact if
      and only if no trim of the head has changed how many segments it needs. */
  lemma RetransmitExactly(s: Queue, i: nat, r: Request, sndNxt: nat)
    requires Inv(s, sndNxt) && i < |s.q| && r.mss > 0 && r.segs > 0 && Trimmable(s.q[i], r.sndUna)
    requires !s.q[i].marks.retrans && (Trims(s.q[i], r) ==> i == 0)
    ensures var s', trims := Retransmit(s, i, r, sndNxt).0, Trims(s.q[i], r);
            && Remains(s, s', if trims then r.sndUna - s.q[i].start else 0, sndNxt)
            && (s'.counters == Count(s'.q) <==> trims ==> PcountStays(s.q[i], r.sndUna - s.q[i].start))
  {
    hide PrepareTrimmed, Inv, TrimHead, Remains, Keeps, Partition, Finish, Count, PcountStays;
    if Trims(s.q[i], r) {
      TrimmedRetransmission(s, r, sndNxt);
      RetransmitIsTrimmed(s, 0, r, sndNxt);
    } else {
      RetransmitIsPlain(s, i, r, sndNxt);
      TrimmedInv(s, i, r, sndNxt);
      KeepsItself(s, sndNxt);
      KeepsRemains(s, Retransmit(s, i, r, sndNxt).0, sndNxt);
    }
  }

  lemma KeepsItself(s: Queue, sndNxt: nat)
    requires Inv(s, sndNxt)
    ensures Keeps(s, s, sndNxt)
  {
  }

  lemma RetransmitIsTrimmed(s: Queue, i: nat, r: Request, sndNxt: nat)
    requires i < |s.q| && r.mss > 0 && r.segs > 0 && Trimmable(s.q[i], r.sndUna) && Trims(s.q[i], r)
    ensures Retransmit(s, i, r, sndNxt) == RetransmitTrimmed(TrimHead(s, i, r.sndUna - s.q[i].start), i, r, sndNxt)
  {
    hide PrepareTrimmed, TrimHead, Finish;
  }

  lemma RetransmitIsPlain(s: Queue, i: nat, r: Request, sndNxt: nat)
    requires i < |s.q| && r.mss > 0 && r.segs > 0 && Trimmable(s.q[i], r.sndUna) && !Trims(s.q[i], r)
    ensures Retransmit(s, i, r, sndNxt).0 == s || Retransmit(s, i, r, sndNxt) == RetransmitTrimmed(s, i, r, sndNxt)
  {
    hide PrepareTrimmed, TrimHead, Finish;
  }

  /** The retransmission keeps the queue and the counters whenever it does not trim, or the
      trim leaves the packet count as it was. */
  lemma RetransmitInv(s: Queue, i: nat, r: Request, sndNxt: nat)
    requires Inv(s, sndNxt) && i < |s.q| && r.mss > 0 && r.segs > 0 && Trimmable(s.q[i], r.sndUna)
    requires !s.q[i].marks.retrans
    requires Trims(s.q[i], r) ==> i == 0 && PcountStays(s.q[0], r.sndUna - s.q[0].start)
    ensures Continues(s, Retransmit(s, i, r, sndNxt).0, r.sndUna, sndNxt)
  {
    RetransmitExactly(s, i, r, sndNxt);
    hide Retransmit, PcountStays;
  }

  /** A sound queue and an skb not marked yet, whose trim, if any, leaves its packet count. */
  ghost predicate Resendable(s: Queue, i: nat, r: Request, sndNxt: nat) {
    && Inv(s, sndNxt) && i < |s.q| && !s.q[i].marks.retrans
    && (Trims(s.q[i], r) ==> i == 0 && PcountStays(s.q[0], r.sndUna - s.q[0].start))
  }

  lemma ResendableContinues(s: Queue, i: nat, r: Request, sndNxt: nat)
    requires Resendable(s, i, r, sndNxt) && i < |s.q| && r.mss > 0 && r.segs > 0 && Trimmable(s.q[i], r.sndUna)
    ensures Continues(s, Retransmit(s, i, r, sndNxt).0, r.sndUna, sndNxt)
  {
    RetransmitInv(s, i, r, sndNxt);
    hide Retransmit, Continues;
  }

  /** A lost skb of three segments of 48 bytes, two of them acknowledged, is one packet after
      its retransmission; packets_out and lost_out still count three. */
  lemma TrimmedRetransmitMiscounts(data: seq<Byte>) returns (s: Queue, r: Request)
    requires |data| == 144
    ensures Inv(s, 144) && |s.q| == 1 && s.q[0].data == data && Trimmable(s.q[0], r.sndUna) && r.mss == 48 && r.segs == 1
    ensures var s' := Retransmit(s, 0, r, 144).0;
            Retransmit(s, 0, r, 144).1 == Ok && Count(s'.q) == Counters(1, 0, 1, 1) && s'.counters == Counters(3, 0, 3, 1)
  {
    var p := Skb(0, 144, data, false, false, false, Marks(false, true, false, false), 3, 48, false);
    s, r := Queue([p], Counters(3, 0, 3, 0)), Request(96, 200, 48, 1, false, 0, false, false, false, false, false);
    var t := p.(start := 96, data := data[96..], pcount := 1, gsoSize := 0, cloned := false);
    LostIsSound(p);
    LostIsTrimmed(s, p, t);
    OneSegmentRetransmission(t, s.counters, r);
    One(t.(marks := Marks(false, true, true, true)));
    hide RetransmitTrimmed, Retransmit, TrimHead, Count, Inv;
    RetransmitIsTrimmed(s, 0, r, 144);
  }

  lemma LostIsSound(p: Skb)
    requires p == Skb(0, 144, p.data, false, false, false, Marks(false, true, false, false), 3, 48, false) && |p.data| == 144
    ensures Inv(Queue([p], Counters(3, 0, 3, 0)), 144)
  {
    One(p);
  }

  lemma LostIsTrimmed(s: Queue, p: Skb, t: Skb)
    requires p == Skb(0, 144, p.data, false, false, false, Marks(false, true, false, false), 3, 48, false) && |p.data| == 144
    requires s.q == [p] && t == p.(start := 96, data := p.data[96..], pcount := 1, gsoSize := 0, cloned := false)
    ensures TrimHead(s, 0, 96) == s.(q := [t])
  {
  }

  lemma OneSegmentRetransmission(t: Skb, n: Counters, r: Request)
    requires t == Skb(96, 144, t.data, false, false, false, Marks(false, true, false, false), 1, 0, false) && |t.data| == 48
    requires r == Request(96, 200, 48, 1, false, 0, false, false, false, false, false)
    ensures RetransmitTrimmed(Queue([t], n), 0, r, 144)
            == (Queue([t.(marks := Marks(false, true, true, true))], n.(retrans := n.retrans + 1)), Ok)
  {
    var q := Queue([t], n);
    assert SendLength(48, 1, 104) == 48;
    assert Resegment(q, 0, 48) == q by { assert q.q[0 := t] == [t]; }
    assert PrepareTrimmed(q, 0, r, 144) == (q, Ok);
    var m := t.marks.(everRetrans := true);
    assert SetMarks(q, 0, m.(retrans := true)).q == [t.(marks := Marks(false, true, true, true))];
  }

  // --------------------------------------------------------------------------- runs

  datatype Op =
    | Split(i: nat, len: nat, mss: nat, noMemory: bool)
    | Segment(i: nat, mss: nat)
    | Join(i: nat, space: int, wndEnd: nat, shifts: nat)
    | Resend(i: nat, r: Request)

  /** What is left of the queue after bytes below `una` may have been trimmed; sound. */
  ghost predicate Continues(s: Queue, s': Queue, una: nat, sndNxt: nat) {
    && Inv(s', sndNxt) && (s.q == [] <==> s'.q == [])
    && (s.q != [] ==>
          && s.q[0].start <= s'.q[0].start <= Max(s.q[0].start, una)
          && s'.q[0].start - s.q[0].start <= |Stream(s.q)|
          && Remains(s, s', s'.q[0].start - s.q[0].start, sndNxt))
  }

  lemma KeepsContinues(s: Queue, s': Queue, una: nat, sndNxt: nat)
    requires Keeps(s, s', sndNxt)
    ensures Continues(s, s', una, sndNxt)
  {
    if s.q != [] { KeepsRemains(s, s', sndNxt); }
  }

  lemma ContinuesTransitive(s: Queue, s': Queue, s'': Queue, una: nat, sndNxt: nat)
    requires Continues(s, s', una, sndNxt) && Continues(s', s'', una, sndNxt)
    ensures Continues(s, s'', una, sndNxt)
  {
    if s.q != [] {
      var cut, more := s'.q[0].start - s.q[0].start, s''.q[0].start - s'.q[0].start;
      assert Stream(s.q)[cut..][more..] == Stream(s.q)[cut + more..];
    }
  }

  /** Retransmission is for skbs that are neither acknowledged nor already retransmitted, as
      `tcp_xmit_retransmit_queue` selects them; only the head may begin below snd_una, and a
      trim of it may not change its packet count. */
  predicate Allowed(s: Queue, op: Op, una: nat) {
    match op
    case Split(i, _, mss, _) => i < |s.q| && mss > 0
    case Segment(i, mss) => i < |s.q| && mss > 0
    case Join(i, _, _, _) => i < |s.q|
    case Resend(i, r) =>
      && i < |s.q| && r.mss > 0 && r.segs > 0 && r.sndUna <= una && Trimmable(s.q[i], r.sndUna)
      && !s.q[i].marks.acked && !s.q[i].marks.retrans
      && (Trims(s.q[i], r) ==> i == 0 && PcountStays(s.q[0], r.sndUna - s.q[0].start))
  }

  function Apply(s: Queue, op: Op, una: nat, sndNxt: nat): Queue
    requires Allowed(s, op, una)
  {
    match op
    case Split(i, len, mss, noMemory) => Fragment(s, i, len, mss, sndNxt, noMemory).0
    case Segment(i, mss) => Resegment(s, i, mss)
    case Join(i, space, wndEnd, shifts) => TryCollapse(s, i, space, wndEnd, shifts)
    case Resend(i, r) => Retransmit(s, i, r, sndNxt).0
  }

  predicate AllAllowed(s: Queue, ops: seq<Op>, una: nat, sndNxt: nat)
    decreases ops
  {
    ops != [] ==> Allowed(s, ops[0], una) && AllAllowed(Apply(s, ops[0], una, sndNxt), ops[1..], una, sndNxt)
  }

  function ApplyAll(s: Queue, ops: seq<Op>, una: nat, sndNxt: nat): Queue
    requires AllAllowed(s, ops, una, sndNxt)
    decreases ops
  {
    if ops == [] then s else ApplyAll(Apply(s, ops[0], una, sndNxt), ops[1..], una, sndNxt)
  }

  lemma ResendInv(s: Queue, i: nat, r: Request, una: nat, sndNxt: nat)
    requires Inv(s, sndNxt) && Allowed(s, Resend(i, r), una)
    ensures Continues(s, Retransmit(s, i, r, sndNxt).0, una, sndNxt)
  {
    RetransmitInv(s, i, r, sndNxt);
    hide Retransmit, Remains;
  }

  lemma ApplyInv(s: Queue, op: Op, una: nat, sndNxt: nat)
    requires Inv(s, sndNxt) && Allowed(s, op, una)
    ensures Continues(s, Apply(s, op, una, sndNxt), una, sndNxt)
  {
    hide Fragment, Resegment, CollapseRun, Retransmit, Continues, Keeps, Inv;
    KeepsItself(s, sndNxt);
    match op
    case Split(i, len, mss, noMemory) =>
      FragmentInv(s, i, len, mss, sndNxt, noMemory);
      KeepsContinues(s, Fragment(s, i, len, mss, sndNxt, noMemory).0, una, sndNxt);
    case Segment(i, mss) =>
      ResegmentInv(s, i, mss, sndNxt);
      KeepsContinues(s, Resegment(s, i, mss), una, sndNxt);
    case Join(i, space, wndEnd, shifts) =>
      if CanCollapse(s.q[i]) { CollapseRunInv(s, i, space - |s.q[i].data|, wndEnd, shifts, sndNxt); }
      KeepsContinues(s, TryCollapse(s, i, space, wndEnd, shifts), una, sndNxt);
    case Resend(i, r) =>
      ResendInv(s, i, r, una, sndNxt);
  }

  /** Over any sequence of splits, re-segmentations, collapses and retransmissions the
      queue stays a contiguous partition of the same bytes and range, less acknowledged ones
      that a retransmission has trimmed, with FIN only at the end, and the four counters
      equal the sums over the marked skbs. */
  lemma {:induction false} SurgeryKeepsQueue(s: Queue, ops: seq<Op>, una: nat, sndNxt: nat)
    requires Inv(s, sndNxt) && AllAllowed(s, ops, una, sndNxt)
    ensures var s' := ApplyAll(s, ops, una, sndNxt);
            Continues(s, s', una, sndNxt) && s'.counters.sacked + s'.counters.lost <= s'.counters.packets
    decreases ops
  {
    if ops == [] {
      KeepsItself(s, sndNxt);
      KeepsContinues(s, s, una, sndNxt);
      LeftOutBounded(s.q);
    } else {
      hide Apply, Remains, Allowed;
      var t := Apply(s, ops[0], una, sndNxt);
      ApplyInv(s, ops[0], una, sndNxt);
      SurgeryKeepsQueue(t, ops[1..], una, sndNxt);
      ContinuesTransitive(s, t, ApplyAll(s, ops, una, sndNxt), una, sndNxt);
    }
  }

  lemma {:induction false} LeftOutBoundedTo(q: seq<Skb>, n: nat)
    requires Partition(q) && n <= |q|
    ensures CountTo(q, n).sacked + CountTo(q, n).lost <= CountTo(q, n).packets
  {
    if n > 0 {
      LeftOutBoundedTo(q, n - 1);
      assert WellFormed(q[n - 1]);
    }
  }

  /** The warning in `tcp_verify_left_out` never fires. */
  lemma LeftOutBounded(q: seq<Skb>)
    requires Partition(q)
    ensures Count(q).sacked + Count(q).lost <= Count(q).packets
  {
    LeftOutBoundedTo(q, |q|);
  }
}
