/** The retransmit queue and its counters changed in place, as tcp_output.c does it. */
module RtxSocket {
  import opened MachineInts
  import R = RtxQueue

  class Sender {
    var q: seq<R.Skb>
    var packetsOut: int
    var sackedOut: int
    var lostOut: int
    var retransOut: int
    const sndNxt: nat

    function View(): R.Queue
      reads this
    {
      R.Queue(q, R.Counters(packetsOut, sackedOut, lostOut, retransOut))
    }

    constructor (sndNxt: nat)
      ensures this.sndNxt == sndNxt && View() == R.Queue([], R.ZERO) && R.Inv(View(), sndNxt)
    {
      this.sndNxt := sndNxt;
      q, packetsOut, sackedOut, lostOut, retransOut := [], 0, 0, 0, 0;
    }

    /** `tcp_adjust_pcount`. */
    method AdjustPcount(m: R.Marks, decr: int)
      modifies this`packetsOut, this`sackedOut, this`lostOut, this`retransOut
      ensures View().counters == R.AdjustPcount(old(View()).counters, m, decr)
    {
      packetsOut := packetsOut - decr;
      if m.acked { sackedOut := sackedOut - decr; }
      if m.retrans { retransOut := retransOut - decr; }
      if m.lost { lostOut := lostOut - decr; }
    }

    /** `tcp_fragment`. */
    method Fragment(i: nat, len: nat, mss: nat, noMemory: bool) returns (e: R.Error)
      requires i < |q| && mss > 0
      modifies this
      ensures (View(), e) == R.Fragment(old(View()), i, len, mss, sndNxt, noMemory)
    {
      if len > |q[i].data| { return R.Invalid; }
      if noMemory { return R.NoMemory; }
      var skb := q[i];
      var buff := skb.(start := skb.start + len, cloned := false);
      var flagsFin, flagsPsh := skb.fin, skb.psh;
      skb := skb.(end := buff.start, fin := false, psh := false, cloned := false);
      buff := buff.(fin := flagsFin, psh := flagsPsh, eor := skb.eor);
      skb := skb.(eor := false);
      buff := buff.(data := skb.data[len..]);
      skb := skb.(data := skb.data[..len]);
      var oldFactor := skb.pcount;
      skb := R.SetTsoSegs(skb, mss);
      buff := R.SetTsoSegs(buff, mss);
      if buff.end <= sndNxt {
        var diff := oldFactor - skb.pcount - buff.pcount;
        if diff != 0 { AdjustPcount(skb.marks, diff); }
      }
      q := q[..i] + [skb, buff] + q[i + 1..];
      e := R.Ok;
    }

    /** `tcp_collapse_retrans`; the payload of the next skb could be moved over. */
    method CollapseRetrans(i: nat)
      requires i + 1 < |q| && q[i].pcount == 1 && q[i + 1].pcount == 1
      modifies this
      ensures View() == R.Collapse(old(View()), i)
    {
      var skb, next := q[i], q[i + 1];
      skb := skb.(data := skb.data + next.data);
      skb := skb.(end := next.end);
      skb := skb.(fin := skb.fin || next.fin, psh := skb.psh || next.psh);
      skb := skb.(marks := skb.marks.(everRetrans := skb.marks.everRetrans || next.marks.everRetrans), eor := next.eor);
      AdjustPcount(next.marks, next.pcount);
      q := q[..i] + [skb] + q[i + 2..];
    }

    /** `tcp_retrans_try_collapse`: the walk over the successors of skb `i`. */
    method TryCollapse(i: nat, space: int, wndEnd: nat, shifts: nat)
      requires i < |q|
      modifies this
      ensures View() == R.TryCollapse(old(View()), i, space, wndEnd, shifts)
    {
      if !R.CanCollapse(q[i]) || q[i].eor { return; }
      var room, left := space - |q[i].data|, shifts;
      while R.NextFits(View(), i, room, wndEnd, left)
        invariant i < |q| && q[i].pcount == 1 && left >= 0
        invariant R.CollapseRun(View(), i, room, wndEnd, left)
                  == R.CollapseRun(old(View()), i, space - |old(q)[i].data|, wndEnd, shifts)
        decreases left
      {
        room := room - |q[i + 1].data|;
        CollapseRetrans(i);
        left := left - 1;
      }
    }

    /** Re-segmentation to the current MSS, with the counters corrected. */
    method Resegment(i: nat, mss: nat)
      requires i < |q| && mss > 0
      modifies this
      ensures View() == R.Resegment(old(View()), i, mss)
    {
      var diff := q[i].pcount;
      var skb := R.SetTsoSegs(q[i], mss);
      diff := diff - skb.pcount;
      q := q[i := skb.(cloned := false)];
      if diff != 0 { AdjustPcount(skb.marks, diff); }
    }

    /** `tcp_trim_head`: the counters are not told. */
    method TrimHead(i: nat, len: nat)
      requires i < |q| && len <= |q[i].data| && (q[i].pcount > 1 ==> q[i].gsoSize > 0)
      modifies this`q
      ensures View() == R.TrimHead(old(View()), i, len)
    {
      var skb := q[i].(data := q[i].data[len..], cloned := false);
      skb := skb.(start := skb.start + len);
      if skb.pcount > 1 { skb := R.SetTsoSegs(skb, skb.gsoSize); }
      q := q[i := skb];
    }

    /** `tcp_retransmit_skb`. */
    method Retransmit(i: nat, r: R.Request) returns (e: R.Error)
      requires i < |q| && r.mss > 0 && r.segs > 0 && R.Trimmable(q[i], r.sndUna)
      modifies this
      ensures (View(), e) == R.Retransmit(old(View()), i, r, sndNxt)
      ensures R.Resendable(old(View()), i, r, sndNxt) ==> R.Continues(old(View()), View(), r.sndUna, sndNxt)
    {
      hide R.Prepare, R.Finish, R.Resendable, R.Continues;
      if R.Resendable(View(), i, r, sndNxt) { R.ResendableContinues(View(), i, r, sndNxt); }
      R.PrepareKeepsIndex(View(), i, r, sndNxt);
      e := Prepare(i, r);
      if e == R.Ok { e := Finish(i, r.sendFails); }
    }

    /** The marks and the counter after the transmission. */
    method Finish(i: nat, sendFails: bool) returns (e: R.Error)
      requires i < |q|
      modifies this`q, this`retransOut
      ensures (View(), e) == R.Finish(old(View()), i, sendFails)
    {
      q := q[i := q[i].(marks := q[i].marks.(everRetrans := true))];
      if sendFails { return R.SendFailed; }
      q := q[i := q[i].(marks := q[i].marks.(retrans := true))];
      assert q == old(q)[i := q[i]];
      retransOut := retransOut + q[i].pcount;
      e := R.Ok;
    }

    /** `__tcp_retransmit_skb` up to the transmission. */
    method Prepare(i: nat, r: R.Request) returns (e: R.Error)
      requires i < |q| && r.mss > 0 && r.segs > 0 && R.Trimmable(q[i], r.sndUna)
      modifies this
      ensures (View(), e) == R.Prepare(old(View()), i, r, sndNxt)
    {
      hide R.PrepareTrimmed, R.TrimHead;
      if r.inHostQueue { return R.Busy; }
      if q[i].start < r.sndUna {
        if q[i].end < r.sndUna { return R.Invalid; }
        if r.trimFails { return R.NoMemory; }
        R.TrimKeepsLength(View(), i, r.sndUna - q[i].start);
        TrimHead(i, r.sndUna - q[i].start);
      }
      e := PrepareTrimmed(i, r);
    }

    method PrepareTrimmed(i: nat, r: R.Request) returns (e: R.Error)
      requires i < |q| && r.mss > 0 && r.segs > 0
      modifies this
      ensures (View(), e) == R.PrepareTrimmed(old(View()), i, r, sndNxt)
    {
      if r.unreachable { return R.Unreachable; }
      var avail: int := r.wndEnd - q[i].start;
      if avail <= 0 {
        if q[i].start != r.sndUna { return R.TryAgain; }
        avail := r.mss;
      }
      var len := R.SendLength(r.mss, r.segs, avail);
      if |q[i].data| > len {
        e := Fragment(i, len, r.mss, r.noMemory);
        return;
      }
      if r.noMemory { return R.NoMemory; }
      var size := |q[i].data|;
      Resegment(i, r.mss);
      avail := Min(avail, r.mss);
      if r.collapse && size < avail { TryCollapse(i, avail, r.wndEnd, r.shifts); }
      e := R.Ok;
    }
  }
}
