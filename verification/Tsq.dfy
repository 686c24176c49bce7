/** The TCP Small Queues throttle/wakeup protocol of redhat_kernel/tcp_output.c as a
    state machine of atomic steps: one sender under the socket lock, any number of skb
    destructors on any CPU, per-CPU tasklets, packets received in softirq and the releasing
    user.  Memory is taken to
    be sequentially consistent. */
module Tsq {

  /** The TSQ bits of `sk_tsq_flags`; the other bits never meet these. */
  datatype Flags = Flags(throttled: bool, queued: bool, deferred: bool)

  /** `tcp_wfree` of one skb: charged, after the subtraction, with the flags it loaded,
      after a won exchange, on the way out, done. */
  datatype Skb =
    | InFlight(truesize: nat)
    | Uncharged
    | Loaded(seen: Flags)
    | Enqueueing
    | Leaving
    | Freed

  /** A tasklet run for this socket: `tcp_tasklet_func` and `tcp_tsq_handler`. */
  datatype Worker =
    | Popped
    | Unqueued
    | Locked
    | Writing
    | Unlocking
    | Releasing
    | Finished

  /** The socket's user: `release_sock` runs the release callback under the spin lock. */
  datatype User = Away | Owner | InRelease | SawFlags(seen: Flags) | InCallback | Dropping

  /** `tcp_small_queue_check` inside the transmit loop. */
  datatype Sender = Idle | Running | Throttling(limit: nat) | Retesting(limit: nat) | MaySend

  /** A packet received in softirq, under the lock; with an owner it is left to the backlog. */
  datatype Soft = Off | Receiving

  datatype Holder = Nobody | ByUser | ByWorker(w: nat) | BySoftirq

  /** `lists` are the tasklet lists the socket is linked on, `stalled` says that the last
      transmit attempt ended throttled, `rtx` counts the retransmit queue and `open` says
      that the connection is in a state in which `tcp_tsq_write` writes. */
  datatype State = State(
    wmem: int, flags: Flags, skbs: seq<Skb>, lists: seq<nat>, workers: seq<Worker>,
    user: User, sender: Sender, soft: Soft, lock: Holder, stalled: bool, rtx: nat, open: bool)

  /** `base` is the socket's own share of `sk_wmem_alloc`, `truesize1` is SKB_TRUESIZE(1)
      and `minLimit` the smallest limit `tcp_small_queue_check` computes. */
  datatype Config = Config(base: nat, truesize1: nat, minLimit: nat)

  predicate Owned(s: State) {
    s.user != Away
  }

  const NO_FLAGS := Flags(false, false, false)

  predicate Init(c: Config, s: State) {
    s == State(c.base, NO_FLAGS, [], [], [], Away, Idle, Off, Nobody, false, 0, true)
  }

  // -------------------------------------------------------------------------- steps

  datatype UserAct =
    LockSock | UserSend | UserAck(n: nat) | UserClose | BeginRelease | LoadFlags | CallbackSkip | CallbackRun | CallbackRetry | CallbackDone | Drop

  datatype SendAct =
    Unchecked | BelowLimit(limit: nat) | OverLimit(limit: nat) | SetThrottled | RetestOver | RetestUnder
    | Transmit(truesize: nat, again: bool) | StopSending

  datatype SoftAct = SoftLock | SoftSend | SoftAck(n: nat) | SoftClose | SoftUnlock

  datatype SkbAct =
    Uncharge | KsoftirqdLeave | LoadTsq | NotNeeded | Win | Lose | Enqueue(cpu: nat) | FreeUnit

  datatype WorkerAct =
    ClearQueued | TakeLock | Handle | Defer | WriteDone | Unlock | FreeSock

  datatype Step =
    | OfUser(u: UserAct)
    | OfSender(a: SendAct)
    | OfSkb(i: nat, d: SkbAct)
    | Pop(k: nat)
    | OfWorker(w: nat, t: WorkerAct)
    | OfSoft(r: SoftAct)

  /** Whether the destructor goes on to exchange THROTTLED for QUEUED. */
  predicate WillExchange(f: Flags) {
    f.throttled && !f.queued
  }

  predicate UserEnabled(s: State, u: UserAct) {
    match u
    case LockSock => s.user == Away && s.lock == Nobody
    case UserSend => s.user == Owner && s.sender == Idle && s.open
    case UserAck(n) => s.user == Owner && s.sender == Idle && n <= s.rtx
    case UserClose => s.user == Owner && s.sender == Idle
    case BeginRelease => s.user == Owner && s.sender == Idle && s.lock == Nobody
    case LoadFlags => s.user == InRelease
    case CallbackSkip => s.user.SawFlags? && !s.user.seen.deferred
    case CallbackRun => s.user.SawFlags? && s.user.seen.deferred && s.flags == s.user.seen
    case CallbackRetry => s.user.SawFlags? && s.user.seen.deferred && s.flags != s.user.seen
    case CallbackDone => s.user == InCallback && s.sender == Idle
    case Drop => s.user == Dropping
  }

  /** A transmit attempt begins: whatever stalled the last one is being retried. */
  function Start(s: State): State {
    s.(sender := Running, stalled := false)
  }

  /** `tcp_tsq_write` does nothing once the connection is past sending. */
  function TsqWrite(s: State): State {
    if s.open then Start(s) else s
  }

  function UserNext(s: State, u: UserAct): State
    requires UserEnabled(s, u)
  {
    match u
    case LockSock => s.(user := Owner)
    case UserSend => Start(s)
    case UserAck(n) => s.(rtx := s.rtx - n)
    case UserClose => s.(open := false)
    case BeginRelease => s.(user := InRelease, lock := ByUser)
    case LoadFlags => s.(user := SawFlags(s.flags))
    case CallbackSkip => s.(user := Dropping)
    case CallbackRun => TsqWrite(s.(flags := s.flags.(deferred := false), user := InCallback))
    case CallbackRetry => s.(user := SawFlags(s.flags))
    case CallbackDone => s.(user := Dropping)
    case Drop => s.(user := Away, lock := Nobody)
  }

  /** The check passes at or below the limit, and over it when the retransmit queue holds at
      most one skb.  Some transmissions, as from timers, are not checked at all. */
  predicate SendEnabled(c: Config, s: State, a: SendAct) {
    match a
    case Unchecked => s.sender == Running
    case BelowLimit(limit) => s.sender == Running && limit >= c.minLimit && (s.wmem <= limit || s.rtx <= 1)
    case OverLimit(limit) => s.sender == Running && s.wmem > limit >= c.minLimit && s.rtx >= 2
    case SetThrottled => s.sender.Throttling?
    case RetestOver => s.sender.Retesting? && s.wmem > s.sender.limit
    case RetestUnder => s.sender.Retesting? && s.wmem <= s.sender.limit
    case Transmit(truesize, again) => s.sender == MaySend && truesize >= c.truesize1 && (again ==> s.rtx > 0)
    case StopSending => s.sender == Running
  }

  function SendNext(c: Config, s: State, a: SendAct): State
    requires SendEnabled(c, s, a)
  {
    match a
    case Unchecked => s.(sender := MaySend)
    case BelowLimit(_) => s.(sender := MaySend)
    case OverLimit(limit) => s.(sender := Throttling(limit))
    case SetThrottled => s.(sender := Retesting(s.sender.limit), flags := s.flags.(throttled := true))
    case RetestOver => s.(sender := Idle, stalled := true)
    case RetestUnder => s.(sender := MaySend)
    case Transmit(truesize, again) =>
      s.(sender := Running, wmem := s.wmem + truesize, skbs := s.skbs + [InFlight(truesize)],
         rtx := if again then s.rtx else s.rtx + 1)
    case StopSending => s.(sender := Idle)
  }

  predicate SkbEnabled(c: Config, s: State, p: Skb, d: SkbAct) {
    match d
    case Uncharge => p.InFlight?
    case KsoftirqdLeave => p == Uncharged && s.wmem >= c.truesize1
    case LoadTsq => p == Uncharged
    case NotNeeded => p.Loaded? && !WillExchange(p.seen)
    case Win => p.Loaded? && WillExchange(p.seen) && s.flags == p.seen
    case Lose => p.Loaded? && WillExchange(p.seen) && s.flags != p.seen
    case Enqueue(_) => p == Enqueueing
    case FreeUnit => p == Leaving
  }

  function SkbAfter(s: State, d: SkbAct): Skb {
    match d
    case Uncharge => Uncharged
    case KsoftirqdLeave => Leaving
    case LoadTsq => Loaded(s.flags)
    case NotNeeded => Leaving
    case Win => Enqueueing
    case Lose => Loaded(s.flags)
    case Enqueue(_) => Freed
    case FreeUnit => Freed
  }

  function SkbNext(c: Config, s: State, i: nat, d: SkbAct): State
    requires i < |s.skbs| && SkbEnabled(c, s, s.skbs[i], d)
  {
    var s' := s.(skbs := s.skbs[i := SkbAfter(s, d)]);
    match d
    case Uncharge => s'.(wmem := s.wmem - (s.skbs[i].truesize - 1))
    case Win => s'.(flags := s.flags.(throttled := false, queued := true))
    case Enqueue(cpu) => s'.(lists := s.lists + [cpu])
    case FreeUnit => s'.(wmem := s.wmem - 1)
    case _ => s'
  }

  predicate WorkerEnabled(s: State, p: Worker, t: WorkerAct) {
    match t
    case ClearQueued => p == Popped
    case TakeLock => p == Unqueued && s.lock == Nobody
    case Handle => p == Locked && !Owned(s)
    case Defer => p == Locked && Owned(s)
    case WriteDone => p == Writing && s.sender == Idle
    case Unlock => p == Unlocking
    case FreeSock => p == Releasing
  }

  function WorkerAfter(t: WorkerAct): Worker {
    match t
    case ClearQueued => Unqueued
    case TakeLock => Locked
    case Handle => Writing
    case Defer => Unlocking
    case WriteDone => Unlocking
    case Unlock => Releasing
    case FreeSock => Finished
  }

  function WorkerNext(s: State, w: nat, t: WorkerAct): State
    requires w < |s.workers| && WorkerEnabled(s, s.workers[w], t)
  {
    var s' := s.(workers := s.workers[w := WorkerAfter(t)]);
    match t
    case ClearQueued => s'.(flags := s.flags.(queued := false))
    case TakeLock => s'.(lock := ByWorker(w))
    case Handle => TsqWrite(s')
    case Defer => s'.(flags := s.flags.(deferred := true))
    case WriteDone => s'
    case Unlock => s'.(lock := Nobody)
    case FreeSock => s'.(wmem := s.wmem - 1)
  }

  predicate SoftEnabled(s: State, r: SoftAct) {
    match r
    case SoftLock => s.soft == Off && s.lock == Nobody
    case SoftSend => s.soft == Receiving && !Owned(s) && s.sender == Idle && s.open
    case SoftAck(n) => s.soft == Receiving && !Owned(s) && s.sender == Idle && n <= s.rtx
    case SoftClose => s.soft == Receiving && !Owned(s) && s.sender == Idle
    case SoftUnlock => s.soft == Receiving && (Owned(s) || s.sender == Idle)
  }

  function SoftNext(s: State, r: SoftAct): State
    requires SoftEnabled(s, r)
  {
    match r
    case SoftLock => s.(soft := Receiving, lock := BySoftirq)
    case SoftSend => Start(s)
    case SoftAck(n) => s.(rtx := s.rtx - n)
    case SoftClose => s.(open := false)
    case SoftUnlock => s.(soft := Off, lock := Nobody)
  }

  predicate Enabled(c: Config, s: State, step: Step) {
    match step
    case OfUser(u) => UserEnabled(s, u)
    case OfSender(a) => SendEnabled(c, s, a)
    case OfSkb(i, d) => i < |s.skbs| && SkbEnabled(c, s, s.skbs[i], d)
    case Pop(k) => k < |s.lists|
    case OfWorker(w, t) => w < |s.workers| && WorkerEnabled(s, s.workers[w], t)
    case OfSoft(r) => SoftEnabled(s, r)
  }

  function Next(c: Config, s: State, step: Step): State
    requires Enabled(c, s, step)
  {
    match step
    case OfUser(u) => UserNext(s, u)
    case OfSender(a) => SendNext(c, s, a)
    case OfSkb(i, d) => SkbNext(c, s, i, d)
    case Pop(k) => s.(lists := s.lists[..k] + s.lists[k + 1..], workers := s.workers + [Popped])
    case OfWorker(w, t) => WorkerNext(s, w, t)
    case OfSoft(r) => SoftNext(s, r)
  }

  // ----------------------------------------------------------------------- counting

  function Sum<T>(xs: seq<T>, f: T -> int): int {
    if xs == [] then 0 else Sum(xs[..|xs| - 1], f) + f(xs[|xs| - 1])
  }

  lemma {:induction false} SumUpdate<T>(xs: seq<T>, f: T -> int, i: nat, x: T)
    requires i < |xs|
    ensures Sum(xs[i := x], f) == Sum(xs, f) - f(xs[i]) + f(x)
  {
    var n := |xs| - 1;
    if i < n {
      assert xs[i := x][..n] == xs[..n][i := x];
      SumUpdate(xs[..n], f, i, x);
    } else {
      assert xs[i := x][..n] == xs[..n];
    }
  }

  lemma SumAppend<T>(xs: seq<T>, f: T -> int, x: T)
    ensures Sum(xs + [x], f) == Sum(xs, f) + f(x)
  {
    assert (xs + [x])[..|xs|] == xs;
  }

  /** A non-negative weight with a positive total is positive somewhere. */
  lemma {:induction false} SumWitness<T>(xs: seq<T>, f: T -> int) returns (i: nat)
    requires Sum(xs, f) > 0
    ensures i < |xs| && f(xs[i]) > 0
  {
    var n := |xs| - 1;
    if f(xs[n]) > 0 { i := n; } else { i := SumWitness(xs[..n], f); }
  }

  lemma {:induction false} SumAtLeast<T>(xs: seq<T>, f: T -> int, i: nat)
    requires i < |xs| && forall x :: f(x) >= 0
    ensures Sum(xs, f) >= f(xs[i]) && Sum(xs[..|xs| - 1], f) >= 0
  {
    var n := |xs| - 1;
    SumNonNegative(xs[..n], f);
    if i < n { SumAtLeast(xs[..n], f, i); }
  }

  lemma {:induction false} SumNonNegative<T>(xs: seq<T>, f: T -> int)
    requires forall x :: f(x) >= 0
    ensures Sum(xs, f) >= 0
  {
    if xs != [] { SumNonNegative(xs[..|xs| - 1], f); }
  }

  /** Bytes of data still charged by an skb. */
  function DataOf(p: Skb): int {
    if p.InFlight? then p.truesize else 0
  }

  /** The unit a destructor keeps between its subtraction and `sk_free`. */
  function UnitOf(p: Skb): int {
    if p.InFlight? || p.Freed? then 0 else 1
  }

  function WorkerUnit(p: Worker): int {
    if p.Finished? then 0 else 1
  }

  /** Holders of the right to link or unlink the socket. */
  function SkbToken(p: Skb): int {
    if p.Enqueueing? then 1 else 0
  }

  function WorkerToken(p: Worker): int {
    if p.Popped? then 1 else 0
  }

  function Units(s: State): int {
    Sum(s.skbs, UnitOf) + |s.lists| + Sum(s.workers, WorkerUnit)
  }

  function Tokens(s: State): int {
    Sum(s.skbs, SkbToken) + |s.lists| + Sum(s.workers, WorkerToken)
  }

  // ---------------------------------------------------------------------- invariants

  /** `sk_wmem_alloc` is the base, the data in flight and one unit per destructor in
      progress, list entry and tasklet run. */
  ghost predicate Accounted(c: Config, s: State) {
    s.wmem == c.base + Sum(s.skbs, DataOf) + Units(s)
  }

  /** QUEUED is held by exactly one destructor, list entry or tasklet run. */
  ghost predicate LinkedOnce(s: State) {
    Tokens(s) == if s.flags.queued then 1 else 0
  }

  predicate HoldsLock(p: Worker) {
    p == Locked || p == Writing || p == Unlocking
  }

  predicate UserHoldsLock(u: User) {
    u == InRelease || u.SawFlags? || u == InCallback || u == Dropping
  }

  /** The socket lock admits one sender, and DEFERRED is left only to an owner who has
      not yet run its release callback. */
  ghost predicate Exclusive(s: State) {
    && (UserHoldsLock(s.user) <==> s.lock == ByUser)
    && (s.soft == Receiving <==> s.lock == BySoftirq)
    && (s.lock.ByWorker? ==> s.lock.w < |s.workers|)
    && (forall w :: 0 <= w < |s.workers| ==> (HoldsLock(s.workers[w]) <==> s.lock == ByWorker(w)))
    && (forall w :: 0 <= w < |s.workers| && s.workers[w] == Writing ==> !Owned(s))
    && (s.sender != Idle ==>
          || s.user == Owner || s.user == InCallback
          || (s.lock.ByWorker? && s.workers[s.lock.w] == Writing)
          || (s.lock == BySoftirq && !Owned(s)))
    && (s.flags.deferred ==> s.user == Owner || s.user == InRelease || s.user.SawFlags?)
    && (s.user.SawFlags? ==> s.user.seen.deferred == s.flags.deferred)
  }

  /** A destructor that has not yet decided, or has decided to exchange. */
  predicate Watching(p: Skb) {
    p.InFlight? || p.Uncharged? || (p.Loaded? && WillExchange(p.seen))
  }

  ghost predicate Watched(s: State) {
    exists i :: 0 <= i < |s.skbs| && Watching(s.skbs[i])
  }

  predicate Handling(p: Worker) {
    p == Unqueued || p == Locked
  }

  ghost predicate HandlerInSight(s: State) {
    exists w :: 0 <= w < |s.workers| && Handling(s.workers[w])
  }

  /** A handler is queued, running or left to the owner of the socket. */
  ghost predicate Pending(s: State) {
    || s.flags.queued
    || s.flags.deferred
    || HandlerInSight(s)
  }

  /** No wakeup is lost: whoever returned "throttled" will be called back. */
  ghost predicate Awaited(s: State) {
    Pending(s) || (s.flags.throttled && Watched(s))
  }

  ghost predicate NoLostWakeup(s: State) {
    && (s.stalled ==> s.sender == Idle && (s.open ==> Awaited(s)))
    && (s.sender.Retesting? && s.open ==> s.flags.throttled || Pending(s))
  }

  /** The units kept by destructors and tasklets do not amount to one skb. */
  ghost predicate FewUnits(c: Config, s: State) {
    c.base + Units(s) < c.truesize1
  }

  ghost predicate Inv(c: Config, s: State) {
    Accounted(c, s) && LinkedOnce(s) && Exclusive(s) && NoLostWakeup(s) && LimitKnown(c, s)
  }

  ghost predicate LimitKnown(c: Config, s: State) {
    s.sender.Throttling? || s.sender.Retesting? ==> s.sender.limit >= c.minLimit
  }

  // ------------------------------------------------------------------- preservation

  lemma SkbChange(skbs: seq<Skb>, i: nat, p: Skb)
    requires i < |skbs|
    ensures Sum(skbs[i := p], DataOf) == Sum(skbs, DataOf) - DataOf(skbs[i]) + DataOf(p)
    ensures Sum(skbs[i := p], UnitOf) == Sum(skbs, UnitOf) - UnitOf(skbs[i]) + UnitOf(p)
    ensures Sum(skbs[i := p], SkbToken) == Sum(skbs, SkbToken) - SkbToken(skbs[i]) + SkbToken(p)
  {
    SumUpdate(skbs, DataOf, i, p);
    SumUpdate(skbs, UnitOf, i, p);
    SumUpdate(skbs, SkbToken, i, p);
  }

  lemma WorkerChange(workers: seq<Worker>, w: nat, p: Worker)
    requires w < |workers|
    ensures Sum(workers[w := p], WorkerUnit) == Sum(workers, WorkerUnit) - WorkerUnit(workers[w]) + WorkerUnit(p)
    ensures Sum(workers[w := p], WorkerToken) == Sum(workers, WorkerToken) - WorkerToken(workers[w]) + WorkerToken(p)
  {
    SumUpdate(workers, WorkerUnit, w, p);
    SumUpdate(workers, WorkerToken, w, p);
  }

  /** Someone holding the token means QUEUED is set, so nobody else holds it. */
  lemma TokenHolder(s: State, i: nat, w: nat)
    requires LinkedOnce(s)
    ensures (i < |s.skbs| && s.skbs[i] == Enqueueing) || (w < |s.workers| && s.workers[w] == Popped) || s.lists != []
            ==> s.flags.queued
    ensures |s.lists| <= 1
  {
    SumNonNegative(s.skbs, SkbToken);
    SumNonNegative(s.workers, WorkerToken);
    if i < |s.skbs| && s.skbs[i] == Enqueueing { SumAtLeast(s.skbs, SkbToken, i); }
    if w < |s.workers| && s.workers[w] == Popped { SumAtLeast(s.workers, WorkerToken, w); }
  }

  lemma SkbCounts(c: Config, s: State, i: nat, d: SkbAct)
    requires i < |s.skbs| && SkbEnabled(c, s, s.skbs[i], d) && Accounted(c, s) && LinkedOnce(s)
    ensures Accounted(c, SkbNext(c, s, i, d)) && LinkedOnce(SkbNext(c, s, i, d))
  {
    SkbChange(s.skbs, i, SkbAfter(s, d));
  }

  lemma WorkerCounts(c: Config, s: State, w: nat, t: WorkerAct)
    requires w < |s.workers| && WorkerEnabled(s, s.workers[w], t) && Accounted(c, s) && LinkedOnce(s)
    ensures Accounted(c, WorkerNext(s, w, t)) && LinkedOnce(WorkerNext(s, w, t))
  {
    TokenHolder(s, 0, w);
    WorkerChange(s.workers, w, WorkerAfter(t));
  }

  lemma UserCounts(c: Config, s: State, u: UserAct)
    requires UserEnabled(s, u) && Accounted(c, s) && LinkedOnce(s)
    ensures Accounted(c, UserNext(s, u)) && LinkedOnce(UserNext(s, u))
  {
  }

  lemma SendCounts(c: Config, s: State, a: SendAct)
    requires SendEnabled(c, s, a) && Accounted(c, s) && LinkedOnce(s)
    ensures Accounted(c, SendNext(c, s, a)) && LinkedOnce(SendNext(c, s, a))
  {
    if a.Transmit? {
      SumAppend(s.skbs, DataOf, InFlight(a.truesize));
      SumAppend(s.skbs, UnitOf, InFlight(a.truesize));
      SumAppend(s.skbs, SkbToken, InFlight(a.truesize));
    }
  }

  lemma PopCounts(c: Config, s: State, k: nat)
    requires k < |s.lists| && Accounted(c, s) && LinkedOnce(s)
    ensures Accounted(c, Next(c, s, Pop(k))) && LinkedOnce(Next(c, s, Pop(k)))
  {
    SumAppend(s.workers, WorkerUnit, Popped);
    SumAppend(s.workers, WorkerToken, Popped);
  }

  /** Every step keeps the accounting and hands the QUEUED token to one holder. */
  lemma CountsStep(c: Config, s: State, step: Step)
    requires Enabled(c, s, step) && Accounted(c, s) && LinkedOnce(s)
    ensures Accounted(c, Next(c, s, step)) && LinkedOnce(Next(c, s, step))
  {
    hide UserNext, SendNext, SkbNext, WorkerNext;
    match step
    case OfUser(u) => UserCounts(c, s, u);
    case OfSender(a) => SendCounts(c, s, a);
    case OfSkb(i, d) => SkbCounts(c, s, i, d);
    case Pop(k) => PopCounts(c, s, k);
    case OfWorker(w, t) => WorkerCounts(c, s, w, t);
    case OfSoft(_) =>
  }

  lemma WorkerExclusive(s: State, w: nat, t: WorkerAct)
    requires w < |s.workers| && WorkerEnabled(s, s.workers[w], t) && Exclusive(s)
    ensures Exclusive(WorkerNext(s, w, t))
  {
  }

  lemma UserExclusive(s: State, u: UserAct)
    requires UserEnabled(s, u) && Exclusive(s)
    ensures Exclusive(UserNext(s, u))
  {
  }

  lemma SoftExclusive(s: State, r: SoftAct)
    requires SoftEnabled(s, r) && Exclusive(s)
    ensures Exclusive(SoftNext(s, r))
  {
  }

  lemma SendExclusive(c: Config, s: State, a: SendAct)
    requires SendEnabled(c, s, a) && Exclusive(s)
    ensures Exclusive(SendNext(c, s, a))
  {
  }

  lemma SkbExclusive(c: Config, s: State, i: nat, d: SkbAct)
    requires i < |s.skbs| && SkbEnabled(c, s, s.skbs[i], d) && Exclusive(s)
    ensures Exclusive(SkbNext(c, s, i, d))
  {
  }

  lemma PopExclusive(c: Config, s: State, k: nat)
    requires k < |s.lists| && Exclusive(s)
    ensures Exclusive(Next(c, s, Pop(k)))
  {
  }

  /** One sender at a time, and no DEFERRED left behind by a release. */
  lemma ExclusiveStep(c: Config, s: State, step: Step)
    requires Enabled(c, s, step) && Exclusive(s)
    ensures Exclusive(Next(c, s, step))
  {
    hide Exclusive, UserNext, SendNext, SkbNext, WorkerNext, SoftNext;
    match step
    case OfUser(u) => UserExclusive(s, u);
    case OfSender(a) => SendExclusive(c, s, a);
    case OfSkb(i, d) => SkbExclusive(c, s, i, d);
    case Pop(k) => PopExclusive(c, s, k);
    case OfWorker(w, t) => WorkerExclusive(s, w, t);
    case OfSoft(r) => SoftExclusive(s, r);
  }

  /** More memory charged than units and base means data is in flight. */
  lemma DataInFlight(c: Config, s: State)
    requires Accounted(c, s) && s.wmem > c.base + Units(s)
    ensures exists i :: 0 <= i < |s.skbs| && s.skbs[i].InFlight?
  {
    var i := SumWitness(s.skbs, DataOf);
  }

  lemma WorkerPending(s: State, w: nat, t: WorkerAct)
    requires w < |s.workers| && WorkerEnabled(s, s.workers[w], t) && Pending(s)
    ensures Pending(WorkerNext(s, w, t)) || WorkerNext(s, w, t).sender == Running || !s.open
  {
    var s' := WorkerNext(s, w, t);
    if t == ClearQueued || t == TakeLock {
      assert Handling(s'.workers[w]);
    } else if HandlerInSight(s) && t != Handle && t != Defer {
      var v :| 0 <= v < |s.workers| && Handling(s.workers[v]);
      assert Handling(s'.workers[v]);
    }
  }

  /** A handler in sight stays in sight until it has run the sender or deferred to it. */
  lemma PendingStep(c: Config, s: State, step: Step)
    requires Enabled(c, s, step) && Exclusive(s) && Pending(s)
    ensures Pending(Next(c, s, step)) || Next(c, s, step).sender == Running || !s.open
  {
    if step.OfWorker? {
      WorkerPending(s, step.w, step.t);
    } else if HandlerInSight(s) {
      var v :| 0 <= v < |s.workers| && Handling(s.workers[v]);
      assert Handling(Next(c, s, step).workers[v]);
    }
  }

  /** An skb is left alone, and THROTTLED stays or has become QUEUED. */
  ghost predicate SkbKept(s: State, s': State, i: nat) {
    i < |s.skbs| && i < |s'.skbs| && s'.skbs[i] == s.skbs[i] && (s'.flags.throttled || s'.flags.queued)
  }

  lemma UserKeepsSkb(s: State, u: UserAct, i: nat)
    requires UserEnabled(s, u) && i < |s.skbs| && s.flags.throttled
    ensures SkbKept(s, UserNext(s, u), i)
  {
  }

  lemma WorkerKeepsSkb(s: State, w: nat, t: WorkerAct, i: nat)
    requires w < |s.workers| && WorkerEnabled(s, s.workers[w], t) && i < |s.skbs| && s.flags.throttled
    ensures SkbKept(s, WorkerNext(s, w, t), i)
  {
  }

  lemma SendKeepsSkb(c: Config, s: State, a: SendAct, i: nat)
    requires SendEnabled(c, s, a) && i < |s.skbs| && s.flags.throttled
    ensures SkbKept(s, SendNext(c, s, a), i)
  {
  }

  lemma SkbKeepsSkb(c: Config, s: State, j: nat, d: SkbAct, i: nat)
    requires j < |s.skbs| && SkbEnabled(c, s, s.skbs[j], d) && i < |s.skbs| && s.flags.throttled && i != j
    ensures SkbKept(s, SkbNext(c, s, j, d), i)
  {
  }

  /** A step of anyone but its own destructor keeps an skb. */
  lemma OtherKeepsSkb(c: Config, s: State, step: Step, i: nat)
    requires Enabled(c, s, step) && i < |s.skbs| && s.flags.throttled && !(step.OfSkb? && step.i == i)
    ensures SkbKept(s, Next(c, s, step), i)
  {
    hide UserNext, SendNext, SkbNext, WorkerNext;
    match step
    case OfUser(u) => UserKeepsSkb(s, u, i);
    case OfSender(a) => SendKeepsSkb(c, s, a, i);
    case OfSkb(j, d) => SkbKeepsSkb(c, s, j, d, i);
    case Pop(_) =>
    case OfWorker(w, t) => WorkerKeepsSkb(s, w, t, i);
    case OfSoft(_) =>
  }

  /** A destructor that will see THROTTLED keeps watching or turns it into QUEUED. */
  lemma OwnStepKeepsWatch(c: Config, s: State, i: nat, d: SkbAct)
    requires i < |s.skbs| && SkbEnabled(c, s, s.skbs[i], d) && Watching(s.skbs[i]) && s.flags.throttled && d != KsoftirqdLeave
    ensures var s' := SkbNext(c, s, i, d);
            s'.flags.queued || (s'.flags.throttled && i < |s'.skbs| && Watching(s'.skbs[i]))
  {
  }

  lemma LeavingKeepsFlags(c: Config, s: State, i: nat, j: nat)
    requires i < |s.skbs| && SkbEnabled(c, s, s.skbs[i], KsoftirqdLeave) && j < |s.skbs| && s.skbs[j].InFlight?
    ensures var s' := SkbNext(c, s, i, KsoftirqdLeave);
            s'.flags == s.flags && j < |s'.skbs| && Watching(s'.skbs[j])
  {
  }

  /** A watched THROTTLED is kept until a destructor turns it into QUEUED. */
  lemma WatchedStep(c: Config, s: State, step: Step)
    requires Enabled(c, s, step) && Accounted(c, s) && FewUnits(c, s)
    requires s.flags.throttled && Watched(s)
    ensures Awaited(Next(c, s, step))
  {
    hide Accounted, FewUnits, UserNext, SendNext, SkbNext, WorkerNext, SoftNext, Watching;
    var i :| 0 <= i < |s.skbs| && Watching(s.skbs[i]);
    if step == OfSkb(i, KsoftirqdLeave) {
      KsoftirqdSeesData(c, s);
      var j :| 0 <= j < |s.skbs| && s.skbs[j].InFlight?;
      LeavingKeepsFlags(c, s, i, j);
    } else if step.OfSkb? && step.i == i {
      OwnStepKeepsWatch(c, s, i, step.d);
    } else {
      OtherKeepsSkb(c, s, step, i);
    }
  }

  /** A destructor leaves early only while data is in flight. */
  lemma KsoftirqdSeesData(c: Config, s: State)
    requires Accounted(c, s) && FewUnits(c, s)
    ensures s.wmem >= c.truesize1 ==> exists i :: 0 <= i < |s.skbs| && s.skbs[i].InFlight?
  {
    if s.wmem >= c.truesize1 { DataInFlight(c, s); }
  }

  /** Throttling for good over a limit that units cannot reach: something is in flight. */
  lemma RetestStep(c: Config, s: State)
    requires SendEnabled(c, s, RetestOver) && Inv(c, s) && FewUnits(c, s) && c.minLimit + 1 >= c.truesize1 && s.open
    ensures Awaited(SendNext(c, s, RetestOver))
  {
    var s' := SendNext(c, s, RetestOver);
    if !Pending(s) {
      DataInFlight(c, s);
      var i :| 0 <= i < |s.skbs| && s.skbs[i].InFlight?;
      assert Watching(s'.skbs[i]);
    } else if HandlerInSight(s) {
      var v :| 0 <= v < |s.workers| && Handling(s.workers[v]);
      assert Handling(s'.workers[v]);
    }
  }

  /** No step but the sender's own makes it stalled or retesting, and none reopens. */
  ghost predicate StallKept(s: State, s': State) {
    && (s'.open ==> s.open)
    && (s'.stalled ==> s'.sender == Idle && s.stalled)
    && (s'.sender.Retesting? ==> s.sender.Retesting?)
  }

  lemma UserStall(s: State, u: UserAct)
    requires UserEnabled(s, u) && (s.stalled ==> s.sender == Idle)
    ensures StallKept(s, UserNext(s, u))
  {
  }

  lemma SkbStall(c: Config, s: State, i: nat, d: SkbAct)
    requires i < |s.skbs| && SkbEnabled(c, s, s.skbs[i], d) && (s.stalled ==> s.sender == Idle)
    ensures StallKept(s, SkbNext(c, s, i, d))
  {
  }

  lemma WorkerStall(s: State, w: nat, t: WorkerAct)
    requires w < |s.workers| && WorkerEnabled(s, s.workers[w], t) && (s.stalled ==> s.sender == Idle)
    ensures StallKept(s, WorkerNext(s, w, t))
  {
  }

  lemma SoftStall(s: State, r: SoftAct)
    requires SoftEnabled(s, r) && (s.stalled ==> s.sender == Idle)
    ensures StallKept(s, SoftNext(s, r))
  {
  }

  lemma SendStall(c: Config, s: State, a: SendAct)
    requires SendEnabled(c, s, a) && (s.stalled ==> s.sender == Idle) && a != RetestOver && a != SetThrottled
    ensures StallKept(s, SendNext(c, s, a))
  {
  }

  lemma StallIsOwn(c: Config, s: State, step: Step)
    requires Enabled(c, s, step) && (s.stalled ==> s.sender == Idle)
    requires step != OfSender(RetestOver) && step != OfSender(SetThrottled)
    ensures StallKept(s, Next(c, s, step))
  {
    hide UserNext, SendNext, SkbNext, WorkerNext, SoftNext, StallKept;
    match step
    case OfUser(u) => UserStall(s, u);
    case OfSender(a) => SendStall(c, s, a);
    case OfSkb(i, d) => SkbStall(c, s, i, d);
    case Pop(k) => PopStall(c, s, k);
    case OfWorker(w, t) => WorkerStall(s, w, t);
    case OfSoft(r) => SoftStall(s, r);
  }

  lemma PopStall(c: Config, s: State, k: nat)
    requires k < |s.lists| && (s.stalled ==> s.sender == Idle)
    ensures StallKept(s, Next(c, s, Pop(k)))
  {
  }

  lemma WakeupStep(c: Config, s: State, step: Step)
    requires Enabled(c, s, step) && Inv(c, s) && FewUnits(c, s) && c.minLimit + 1 >= c.truesize1
    ensures NoLostWakeup(Next(c, s, step))
  {
    hide Next, Enabled, Accounted, LinkedOnce, Exclusive, FewUnits, LimitKnown, Pending, Watched;
    if step == OfSender(RetestOver) {
      RetestApplies(c, s, step);
    } else if step == OfSender(SetThrottled) {
      SetApplies(c, s, step);
    } else {
      StallIsOwn(c, s, step);
      if s.open {
        if Pending(s) { PendingStep(c, s, step); }
        else if s.flags.throttled && Watched(s) { WatchedStep(c, s, step); }
        else { ThrottledStays(c, s, step); }
      }
    }
  }

  lemma SetApplies(c: Config, s: State, step: Step)
    requires Enabled(c, s, step) && step == OfSender(SetThrottled) && NoLostWakeup(s)
    ensures NoLostWakeup(Next(c, s, step))
  {
  }

  lemma RetestApplies(c: Config, s: State, step: Step)
    requires Enabled(c, s, step) && step == OfSender(RetestOver)
    requires Inv(c, s) && FewUnits(c, s) && c.minLimit + 1 >= c.truesize1
    ensures NoLostWakeup(Next(c, s, step))
  {
    hide Awaited, Inv;
    if s.open { RetestStep(c, s); }
  }

  /** THROTTLED is cleared only by turning it into QUEUED. */
  lemma ThrottledStays(c: Config, s: State, step: Step)
    requires Enabled(c, s, step)
    ensures s.flags.throttled ==> Next(c, s, step).flags.throttled || Pending(Next(c, s, step))
  {
  }

  lemma InvStep(c: Config, s: State, step: Step)
    requires Enabled(c, s, step) && Inv(c, s) && FewUnits(c, s) && c.minLimit + 1 >= c.truesize1
    ensures Inv(c, Next(c, s, step))
  {
    CountsStep(c, s, step);
    ExclusiveStep(c, s, step);
    WakeupStep(c, s, step);
    LimitStep(c, s, step);
  }

  lemma LimitStep(c: Config, s: State, step: Step)
    requires Enabled(c, s, step) && LimitKnown(c, s)
    ensures LimitKnown(c, Next(c, s, step))
  {
  }

  // -------------------------------------------------------------------- every run

  ghost predicate Goes(c: Config, s: State, s': State) {
    exists step :: Enabled(c, s, step) && s' == Next(c, s, step)
  }

  ghost predicate IsRun(c: Config, run: seq<State>) {
    && |run| > 0 && Init(c, run[0])
    && forall i :: 0 < i < |run| ==> Goes(c, run[i - 1], run[i])
  }

  lemma InitInv(c: Config, s: State)
    requires Init(c, s)
    ensures Inv(c, s)
  {
  }

  lemma GoesInv(c: Config, s: State, s': State)
    requires Goes(c, s, s') && Inv(c, s) && FewUnits(c, s) && c.minLimit + 1 >= c.truesize1
    ensures Inv(c, s')
  {
    var step :| Enabled(c, s, step) && s' == Next(c, s, step);
    InvStep(c, s, step);
  }

  lemma GoesBy(c: Config, s: State, step: Step)
    requires Enabled(c, s, step)
    ensures Goes(c, s, Next(c, s, step))
  {
  }

  lemma {:induction false} RunInv(c: Config, run: seq<State>)
    requires IsRun(c, run) && c.minLimit + 1 >= c.truesize1
    requires forall i :: 0 <= i < |run| ==> FewUnits(c, run[i])
    ensures Inv(c, run[|run| - 1])
  {
    var n := |run| - 1;
    if n == 0 {
      InitInv(c, run[0]);
    } else {
      RunInv(c, run[..n]);
      GoesInv(c, run[n - 1], run[n]);
    }
  }

  /** In every state of every interleaving, a sender that returned "throttled" has a
      handler coming, and the socket is on at most one tasklet list. */
  lemma NoWakeupIsLost(c: Config, run: seq<State>, i: nat)
    requires IsRun(c, run) && c.minLimit + 1 >= c.truesize1 && i < |run|
    requires forall i :: 0 <= i < |run| ==> FewUnits(c, run[i])
    ensures run[i].stalled ==> run[i].sender == Idle && (run[i].open ==> Awaited(run[i]))
    ensures |run[i].lists| <= 1
    ensures run[i].wmem == c.base + Sum(run[i].skbs, DataOf) + Units(run[i])
  {
    RunInv(c, run[..i + 1]);
    assert run[..i + 1][i] == run[i];
    TokenHolder(run[i], 0, 0);
  }

  // ------------------------------------------------------------ the bound on the limit

  ghost predicate FewUnitsAlways(c: Config, run: seq<State>) {
    forall i :: 0 <= i < |run| ==> FewUnits(c, run[i])
  }

  /** Some run with few units ends here. */
  ghost predicate Reaches(c: Config, s: State) {
    exists run :: IsRun(c, run) && FewUnitsAlways(c, run) && run[|run| - 1] == s
  }

  lemma ReachesNext(c: Config, s: State, step: Step)
    requires Reaches(c, s) && Enabled(c, s, step) && FewUnits(c, Next(c, s, step))
    ensures Reaches(c, Next(c, s, step))
  {
    var run :| IsRun(c, run) && FewUnitsAlways(c, run) && run[|run| - 1] == s;
    var s' := Next(c, s, step);
    GoesBy(c, s, step);
    var run' := run + [s'];
    assert IsRun(c, run') by {
      forall i | 0 < i < |run'| ensures Goes(c, run'[i - 1], run'[i]) {
        if i < |run| { assert Goes(c, run[i - 1], run[i]); }
      }
    }
    assert FewUnitsAlways(c, run') && run'[|run'| - 1] == s';
  }

  /** The sender as it is before the check of its next skb. */
  ghost predicate ReadyToSend(c: Config, s: State) {
    Reaches(c, s) && s.sender == Running && s.flags == NO_FLAGS
  }

  /** Every destructor step of the last skb leaves few units. */
  lemma LastSkb(c: Config, s: State, skbs: seq<Skb>, p: Skb, p': Skb)
    requires s.skbs == skbs + [p]
    ensures |skbs| < |s.skbs| && s.skbs[|skbs|] == p && s.skbs[|skbs| := p'] == skbs + [p']
    ensures Units(s) == Sum(skbs, UnitOf) + UnitOf(p) + |s.lists| + Sum(s.workers, WorkerUnit)
  {
    SumAppend(skbs, UnitOf, p);
  }

  lemma Check(c: Config, s: State)
    requires ReadyToSend(c, s) && FewUnits(c, s)
    ensures Reaches(c, s.(sender := MaySend))
  {
    hide Reaches;
    ReachesNext(c, s, OfSender(BelowLimit(if s.wmem > c.minLimit then s.wmem else c.minLimit)));
  }

  lemma TransmitOne(c: Config, s: State)
    requires Reaches(c, s) && s.sender == MaySend && FewUnits(c, s)
    ensures Reaches(c, s.(sender := Running, wmem := s.wmem + c.truesize1, skbs := s.skbs + [InFlight(c.truesize1)], rtx := s.rtx + 1))
  {
    hide Reaches;
    var s' := s.(sender := Running, wmem := s.wmem + c.truesize1, skbs := s.skbs + [InFlight(c.truesize1)], rtx := s.rtx + 1);
    LastSkb(c, s', s.skbs, InFlight(c.truesize1), Freed);
    ReachesNext(c, s, OfSender(Transmit(c.truesize1, false)));
  }

  /** One destructor step of the last skb. */
  lemma Destruct(c: Config, s: State, skbs: seq<Skb>, p: Skb, d: SkbAct)
    requires Reaches(c, s) && s.skbs == skbs + [p] && SkbEnabled(c, s, p, d) && !d.Win? && !d.Enqueue?
    requires c.base + Sum(skbs, UnitOf) + UnitOf(SkbAfter(s, d)) + |s.lists| + Sum(s.workers, WorkerUnit) < c.truesize1
    ensures Reaches(c, Destructed(s, skbs, p, d))
  {
    hide Reaches, Sum;
    LastSkb(c, s, skbs, p, SkbAfter(s, d));
    var s' := Destructed(s, skbs, p, d);
    assert SkbNext(c, s, |skbs|, d) == s';
    LastSkb(c, s', skbs, SkbAfter(s, d), Freed);
    hide SkbNext, SkbEnabled, SkbAfter, Destructed;
    ReachesNext(c, s, OfSkb(|skbs|, d));
  }

  function Destructed(s: State, skbs: seq<Skb>, p: Skb, d: SkbAct): State {
    var s' := s.(skbs := skbs + [SkbAfter(s, d)]);
    if d.Uncharge? && p.InFlight? then s'.(wmem := s.wmem - (p.truesize - 1))
    else if d.FreeUnit? then s'.(wmem := s.wmem - 1) else s'
  }

  /** An skb is sent and its destructor, seeing no THROTTLED, leaves; its unit stays. */
  lemma SendOne(c: Config, s: State)
    requires ReadyToSend(c, s) && c.base + Units(s) + 1 < c.truesize1
    ensures var s' := s.(wmem := s.wmem + 1, skbs := s.skbs + [Leaving], rtx := s.rtx + 1);
            ReadyToSend(c, s') && Units(s') == Units(s) + 1
  {
    hide Reaches, Sum;
    var t, skbs := c.truesize1, s.skbs;
    Check(c, s);
    TransmitOne(c, s.(sender := MaySend));
    var s2 := s.(wmem := s.wmem + t, skbs := skbs + [InFlight(t)], rtx := s.rtx + 1);
    Destruct(c, s2, skbs, InFlight(t), Uncharge);
    var s3 := s2.(wmem := s.wmem + 1, skbs := skbs + [Uncharged]);
    Destruct(c, s3, skbs, Uncharged, LoadTsq);
    Destruct(c, s3.(skbs := skbs + [Loaded(NO_FLAGS)]), skbs, Loaded(NO_FLAGS), NotNeeded);
    LastSkb(c, s3.(skbs := skbs + [Leaving]), skbs, Leaving, Freed);
  }

  /** The last destructor finishes; its skb is still to be acknowledged. */
  lemma FreeOne(c: Config, s: State, skbs: seq<Skb>)
    requires ReadyToSend(c, s) && s.skbs == skbs + [Leaving] && c.base + Units(s) <= c.truesize1
    ensures var s' := s.(wmem := s.wmem - 1, skbs := skbs + [Freed]);
            ReadyToSend(c, s') && Units(s') == Units(s) - 1
  {
    hide Reaches, Sum;
    LastSkb(c, s, skbs, Leaving, Freed);
    Destruct(c, s, skbs, Leaving, FreeUnit);
    LastSkb(c, s.(skbs := skbs + [Freed]), skbs, Freed, Freed);
  }

  /** Two skbs sent and freed, then `k` whose destructors have not yet given back the unit. */
  function Sent(k: nat): seq<Skb> {
    if k == 0 then [Freed, Freed] else Sent(k - 1) + [Leaving]
  }

  function Sending(c: Config, k: nat): State {
    State(c.base + k, NO_FLAGS, Sent(k), [], [], Owner, Running, Off, Nobody, false, k + 2, true)
  }

  lemma InitReaches(c: Config)
    requires c.base < c.truesize1
    ensures var s := State(c.base, NO_FLAGS, [], [], [], Owner, Running, Off, Nobody, false, 0, true);
            ReadyToSend(c, s) && Units(s) == 0
  {
    var s0 := State(c.base, NO_FLAGS, [], [], [], Away, Idle, Off, Nobody, false, 0, true);
    assert IsRun(c, [s0]) && FewUnitsAlways(c, [s0]) && [s0][|[s0]| - 1] == s0;
    ReachesNext(c, s0, OfUser(LockSock));
    ReachesNext(c, s0.(user := Owner), OfUser(UserSend));
  }

  lemma {:induction false} SendingReaches(c: Config, k: nat)
    requires c.base + 1 < c.truesize1 && c.base + k < c.truesize1
    ensures ReadyToSend(c, Sending(c, k)) && Units(Sending(c, k)) == k
  {
    hide ReadyToSend, Units;
    if k > 0 {
      SendingReaches(c, k - 1);
      SendOne(c, Sending(c, k - 1));
    } else {
      InitReaches(c);
      var s := State(c.base, NO_FLAGS, [], [], [], Owner, Running, Off, Nobody, false, 0, true);
      SendOne(c, s);
      var s1 := s.(wmem := c.base + 1, skbs := [] + [Leaving], rtx := 1);
      FreeOne(c, s1, []);
      var s2 := s1.(wmem := c.base, skbs := [] + [Freed]);
      SendOne(c, s2);
      FreeOne(c, s2.(wmem := c.base + 1, skbs := s2.skbs + [Leaving], rtx := 2), s2.skbs);
      assert s2.skbs + [Freed] == [Freed, Freed];
    }
  }

  lemma {:induction false} NobodyWatches(k: nat, i: nat)
    requires i < |Sent(k)|
    ensures !Watching(Sent(k)[i])
  {
    if k > 0 && i < |Sent(k - 1)| { NobodyWatches(k - 1, i); }
  }

  /** With a limit that units alone can exceed, a sender can be throttled although no skb is
      left to see it: at least two were sent and their destructors had left before. */
  lemma TinyLimitLosesWakeup(c: Config) returns (s: State)
    requires c.base + 1 < c.truesize1 && c.minLimit + 1 < c.truesize1
    ensures Reaches(c, s) && s.rtx >= 2 && s.stalled && s.open && !Awaited(s)
  {
    var k := if c.base > c.minLimit then 0 else c.minLimit + 1 - c.base;
    SendingReaches(c, k);
    var s0 := Sending(c, k);
    var s1 := s0.(sender := Throttling(c.minLimit));
    ReachesNext(c, s0, OfSender(OverLimit(c.minLimit)));
    var s2 := s1.(sender := Retesting(c.minLimit), flags := Flags(true, false, false));
    ReachesNext(c, s1, OfSender(SetThrottled));
    s := s2.(sender := Idle, stalled := true);
    ReachesNext(c, s2, OfSender(RetestOver));
    forall i | 0 <= i < |s.skbs| ensures !Watching(s.skbs[i]) { NobodyWatches(k, i); }
  }

  /** No run with few units loses a wakeup. */
  ghost predicate NeverLost(c: Config) {
    forall s :: Reaches(c, s) && s.stalled && s.open ==> Awaited(s)
  }

  /** Wakeups are never lost if and only if the smallest limit is at least one less than the
      truesize of the smallest skb: over it, something is in flight. */
  lemma NeverLostExactly(c: Config)
    requires c.base + 1 < c.truesize1
    ensures NeverLost(c) <==> c.minLimit + 1 >= c.truesize1
  {
    if c.minLimit + 1 >= c.truesize1 {
      forall s | Reaches(c, s) && s.stalled && s.open ensures Awaited(s) {
        var run :| IsRun(c, run) && FewUnitsAlways(c, run) && run[|run| - 1] == s;
        RunInv(c, run);
      }
    } else {
      var s := TinyLimitLosesWakeup(c);
    }
  }

  // ------------------------------------------------------------------- the wakeup comes

  /** Steps that finish what was started: destructors, tasklets and releasing the socket. */
  predicate Completion(step: Step) {
    !step.OfSender?
    && (step.OfUser? ==> !step.u.LockSock? && !step.u.UserSend? && !step.u.UserAck? && !step.u.UserClose?)
    && (step.OfSoft? ==> step.r.SoftUnlock?)
  }

  function SkbRank(p: Skb): int {
    match p
    case InFlight(_) => 11
    case Uncharged => 10
    case Loaded(_) => 9
    case Enqueueing => 8
    case Leaving => 1
    case Freed => 0
  }

  function WorkerRank(p: Worker): int {
    match p
    case Popped => 6
    case Unqueued => 5
    case Locked => 4
    case Writing => 3
    case Unlocking => 2
    case Releasing => 1
    case Finished => 0
  }

  function UserRank(u: User): int {
    match u
    case Owner => 5
    case InRelease => 4
    case SawFlags(_) => 3
    case InCallback => 2
    case Dropping => 1
    case Away => 0
  }

  function Remaining(s: State): int {
    Sum(s.skbs, SkbRank) + 7 * |s.lists| + Sum(s.workers, WorkerRank) + UserRank(s.user) + (if s.soft == Receiving then 1 else 0)
  }

  function Stale(f: Flags): Skb -> int {
    (p: Skb) => if p.Loaded? && p.seen != f then 1 else 0
  }

  function Retries(s: State): int {
    Sum(s.skbs, Stale(s.flags)) + if s.user.SawFlags? && s.user.seen != s.flags then 1 else 0
  }

  /** A bound on the number of completion steps left. */
  function Work(s: State): int {
    Remaining(s) * (|s.skbs| + 2) + Retries(s)
  }

  lemma {:induction false} StaleBound(skbs: seq<Skb>, f: Flags)
    ensures 0 <= Sum(skbs, Stale(f)) <= |skbs|
  {
    if skbs != [] { StaleBound(skbs[..|skbs| - 1], f); }
  }

  lemma RemainingNonNegative(s: State)
    ensures Remaining(s) >= 0 && 0 <= Retries(s) <= |s.skbs| + 1
  {
    SumNonNegative(s.skbs, SkbRank);
    SumNonNegative(s.workers, WorkerRank);
    StaleBound(s.skbs, s.flags);
  }

  ghost predicate Moves(s: State, s': State) {
    && |s'.skbs| == |s.skbs|
    && (|| Remaining(s') < Remaining(s)
        || (Remaining(s') == Remaining(s) && Retries(s') < Retries(s)))
  }

  lemma SkbMoves(c: Config, s: State, i: nat, d: SkbAct)
    requires i < |s.skbs| && SkbEnabled(c, s, s.skbs[i], d)
    ensures Moves(s, SkbNext(c, s, i, d))
  {
    SumUpdate(s.skbs, SkbRank, i, SkbAfter(s, d));
    if d.Lose? {
      SumUpdate(s.skbs, Stale(s.flags), i, SkbAfter(s, d));
      assert Stale(s.flags)(s.skbs[i]) == 1 && Stale(s.flags)(SkbAfter(s, d)) == 0;
    }
  }

  lemma WorkerMoves(s: State, w: nat, t: WorkerAct)
    requires w < |s.workers| && WorkerEnabled(s, s.workers[w], t)
    ensures Moves(s, WorkerNext(s, w, t))
  {
    SumUpdate(s.workers, WorkerRank, w, WorkerAfter(t));
  }

  lemma UserMoves(s: State, u: UserAct)
    requires UserEnabled(s, u) && !u.LockSock? && !u.UserSend? && !u.UserAck? && !u.UserClose?
    ensures Moves(s, UserNext(s, u))
  {
  }

  lemma PopMoves(c: Config, s: State, k: nat)
    requires k < |s.lists|
    ensures Moves(s, Next(c, s, Pop(k)))
  {
    SumAppend(s.workers, WorkerRank, Popped);
  }

  lemma SoftMoves(s: State)
    requires SoftEnabled(s, SoftUnlock)
    ensures Moves(s, SoftNext(s, SoftUnlock))
  {
  }

  /** A completion step moves an agent forward, or refreshes a stale copy of the flags. */
  lemma CompletionMoves(c: Config, s: State, step: Step)
    requires Enabled(c, s, step) && Completion(step)
    ensures Moves(s, Next(c, s, step))
  {
    hide UserNext, SkbNext, WorkerNext, SoftNext, Moves;
    match step
    case OfUser(u) => UserMoves(s, u);
    case OfSkb(i, d) => SkbMoves(c, s, i, d);
    case Pop(k) => PopMoves(c, s, k);
    case OfWorker(w, t) => WorkerMoves(s, w, t);
    case OfSoft(_) => SoftMoves(s);
  }

  lemma LexicographicBound(a: nat, a': nat, b: nat, b': nat, k: nat)
    requires b < k && b' < k && (a' < a || (a' == a && b' < b))
    ensures 0 <= a' * k + b' < a * k + b
  {
    if a' < a { assert (a' + 1) * k <= a * k; }
  }

  lemma WorkShrinks(c: Config, s: State, step: Step)
    requires Enabled(c, s, step) && Completion(step)
    ensures 0 <= Work(Next(c, s, step)) < Work(s)
  {
    var s' := Next(c, s, step);
    CompletionMoves(c, s, step);
    RemainingNonNegative(s);
    RemainingNonNegative(s');
    LexicographicBound(Remaining(s), Remaining(s'), Retries(s), Retries(s'), |s.skbs| + 2);
  }

  /** Whoever holds the lock while no sender runs has a step to take. */
  lemma HolderCanMove(c: Config, s: State) returns (step: Step)
    requires Exclusive(s) && s.sender == Idle && s.lock != Nobody
    ensures Completion(step) && Enabled(c, s, step)
  {
    if s.lock.ByWorker? {
      var w := s.lock.w;
      assert HoldsLock(s.workers[w]);
      step := OfWorker(w, if s.workers[w] == Writing then WriteDone
                          else if s.workers[w] == Unlocking then Unlock
                          else if Owned(s) then Defer else Handle);
    } else if s.lock == BySoftirq {
      step := OfSoft(SoftUnlock);
    } else {
      step := OfUser(match s.user
        case InRelease => LoadFlags
        case SawFlags(f) => if !f.deferred then CallbackSkip else if s.flags == f then CallbackRun else CallbackRetry
        case InCallback => CallbackDone
        case _ => Drop);
    }
  }

  /** The QUEUED token is always in hands that can move. */
  lemma TokenCanMove(c: Config, s: State) returns (step: Step)
    requires LinkedOnce(s) && s.flags.queued
    ensures Completion(step) && Enabled(c, s, step)
  {
    if s.lists != [] {
      step := Pop(0);
    } else if Sum(s.skbs, SkbToken) > 0 {
      var i := SumWitness(s.skbs, SkbToken);
      step := OfSkb(i, Enqueue(0));
    } else {
      var w := SumWitness(s.workers, WorkerToken);
      step := OfWorker(w, ClearQueued);
    }
  }

  /** As long as a sender is stalled, something can still complete. */
  lemma StalledCanComplete(c: Config, s: State) returns (step: Step)
    requires Inv(c, s) && s.stalled && s.open
    ensures Completion(step) && Enabled(c, s, step)
  {
    if s.flags.queued {
      step := TokenCanMove(c, s);
    } else if s.lock != Nobody {
      step := HolderCanMove(c, s);
    } else if HandlerInSight(s) {
      var w :| 0 <= w < |s.workers| && Handling(s.workers[w]);
      step := OfWorker(w, TakeLock);
    } else if s.flags.deferred {
      step := OfUser(BeginRelease);
    } else {
      var i :| 0 <= i < |s.skbs| && Watching(s.skbs[i]);
      step := OfSkb(i, if s.skbs[i].InFlight? then Uncharge
                       else if s.skbs[i].Uncharged? then LoadTsq
                       else if s.flags == s.skbs[i].seen then Win else Lose);
    }
  }

  function Complete(c: Config, s: State, steps: seq<Step>): (r: State)
    requires Completes(c, s, steps)
    decreases steps
  {
    if steps == [] then s else Complete(c, Next(c, s, steps[0]), steps[1..])
  }

  /** `steps` are completion steps, each enabled in turn, between states with few units. */
  predicate Completes(c: Config, s: State, steps: seq<Step>)
    decreases steps
  {
    steps != [] ==>
      Completion(steps[0]) && Enabled(c, s, steps[0]) && Completes(c, Next(c, s, steps[0]), steps[1..])
  }

  ghost predicate FewUnitsThroughout(c: Config, s: State, steps: seq<Step>)
    requires Completes(c, s, steps)
    decreases steps
  {
    FewUnits(c, s) && (steps != [] ==> FewUnitsThroughout(c, Next(c, s, steps[0]), steps[1..]))
  }

  /** From any state of any run, completing what was started takes a bounded number of
      steps, and when nothing is left to complete the sender is not stalled: it has been
      run again in between. */
  lemma {:induction false} WakeupComes(c: Config, s: State, steps: seq<Step>)
    requires Inv(c, s) && c.minLimit + 1 >= c.truesize1
    requires Completes(c, s, steps) && FewUnitsThroughout(c, s, steps)
    ensures |steps| <= Work(s)
    ensures Inv(c, Complete(c, s, steps))
    ensures AllComplete(c, Complete(c, s, steps)) ==> !(Complete(c, s, steps).stalled && Complete(c, s, steps).open)
    decreases steps
  {
    if steps == [] {
      WorkNonNegative(s);
      if s.stalled && s.open { var step := StalledCanComplete(c, s); }
    } else {
      WorkShrinks(c, s, steps[0]);
      InvStep(c, s, steps[0]);
      WakeupComes(c, Next(c, s, steps[0]), steps[1..]);
    }
  }

  ghost predicate AllComplete(c: Config, s: State) {
    forall step :: Completion(step) ==> !Enabled(c, s, step)
  }

  lemma WorkNonNegative(s: State)
    ensures Work(s) >= 0
  {
    RemainingNonNegative(s);
    assert Remaining(s) * (|s.skbs| + 2) >= 0;
  }
}
