/** The resumable walk over the listening and established hash tables behind
    /proc/net/tcp (redhat_kernel/tcp_ipv4.c), on tables that do not change. */
module SocketIterator {
  import opened MachineInts
  import opened Containers

  datatype Sock = Sock(id: int, family: int, net: int)

  /** `seq_sk_match`: AF_UNSPEC matches every family. */
  datatype Filter = Filter(family: int, net: int)
  {
    predicate Match(sk: Sock) { (family == AF_UNSPEC || family == sk.family) && sk.net == net }
  }

  const AF_UNSPEC: int := 0

  type Hash = seq<seq<Sock>>

  datatype Pos = Pos(bucket: nat, i: nat)

  // -------------------------------------------------------------------- specification

  /** All matching sockets at or after chain position `i` of bucket `b`, in table order. */
  function From(h: Hash, f: Filter, b: nat, i: nat): seq<Pos>
    decreases |h| - b, if b < |h| then |h[b]| - i else 0
  {
    if b >= |h| then []
    else if i >= |h[b]| then From(h, f, b + 1, 0)
    else if f.Match(h[b][i]) then [Pos(b, i)] + From(h, f, b, i + 1)
    else From(h, f, b, i + 1)
  }

  /** Matching sockets among the first `i` of a chain. */
  function CountIn(chain: seq<Sock>, f: Filter, i: nat): nat
    requires i <= |chain|
  {
    if i == 0 then 0 else CountIn(chain, f, i - 1) + if f.Match(chain[i - 1]) then 1 else 0
  }

  predicate Matching(h: Hash, f: Filter, p: Pos) {
    p.bucket < |h| && p.i < |h[p.bucket]| && f.Match(h[p.bucket][p.i])
  }

  predicate Before(p: Pos, q: Pos) {
    p.bucket < q.bucket || (p.bucket == q.bucket && p.i < q.i)
  }

  lemma {:induction false} FromSound(h: Hash, f: Filter, b: nat, i: nat, k: nat)
    requires k < |From(h, f, b, i)|
    ensures var p := From(h, f, b, i)[k]; Matching(h, f, p) && !Before(p, Pos(b, i))
    decreases |h| - b, if b < |h| then |h[b]| - i else 0
  {
    if i >= |h[b]| {
      FromSound(h, f, b + 1, 0, k);
    } else if !f.Match(h[b][i]) {
      FromSound(h, f, b, i + 1, k);
    } else if k > 0 {
      FromSound(h, f, b, i + 1, k - 1);
    }
  }

  lemma {:induction false} FromComplete(h: Hash, f: Filter, b: nat, i: nat, p: Pos)
    requires Matching(h, f, p) && !Before(p, Pos(b, i))
    ensures p in From(h, f, b, i)
    decreases |h| - b, if b < |h| then |h[b]| - i else 0
  {
    if i >= |h[b]| {
      FromComplete(h, f, b + 1, 0, p);
    } else if p != Pos(b, i) {
      FromComplete(h, f, b, i + 1, p);
    }
  }

  lemma {:induction false} FromIncreasing(h: Hash, f: Filter, b: nat, i: nat, j: nat, k: nat)
    requires j < k < |From(h, f, b, i)|
    ensures Before(From(h, f, b, i)[j], From(h, f, b, i)[k])
    decreases |h| - b, if b < |h| then |h[b]| - i else 0
  {
    if i >= |h[b]| {
      FromIncreasing(h, f, b + 1, 0, j, k);
    } else if !f.Match(h[b][i]) {
      FromIncreasing(h, f, b, i + 1, j, k);
    } else if j > 0 {
      FromIncreasing(h, f, b, i + 1, j - 1, k - 1);
    } else {
      FromSound(h, f, b, i + 1, k - 1);
    }
  }

  /** The walk of a table visits exactly its matching sockets, each one once. */
  lemma WalkIsTheMatchingSockets(h: Hash, f: Filter)
    ensures forall p :: p in From(h, f, 0, 0) <==> Matching(h, f, p)
    ensures forall j, k :: 0 <= j < k < |From(h, f, 0, 0)| ==> Before(From(h, f, 0, 0)[j], From(h, f, 0, 0)[k])
  {
    var all := From(h, f, 0, 0);
    forall p ensures p in all <==> Matching(h, f, p) {
      if p in all {
        var k :| 0 <= k < |all| && all[k] == p;
        FromSound(h, f, 0, 0, k);
      }
      if Matching(h, f, p) { FromComplete(h, f, 0, 0, p); }
    }
    forall j, k | 0 <= j < k < |all| ensures Before(all[j], all[k]) { FromIncreasing(h, f, 0, 0, j, k); }
  }

  /** Passing a chain's first `i` sockets passes its matching ones, all in that bucket. */
  lemma {:induction false} Skip(h: Hash, f: Filter, b: nat, i: nat)
    requires b < |h| && i <= |h[b]|
    ensures CountIn(h[b], f, i) <= |From(h, f, b, 0)|
    ensures From(h, f, b, 0)[CountIn(h[b], f, i)..] == From(h, f, b, i)
    ensures forall j :: 0 <= j < CountIn(h[b], f, i) ==> From(h, f, b, 0)[j].bucket == b
  {
    if i > 0 {
      Skip(h, f, b, i - 1);
      var all, n := From(h, f, b, 0), CountIn(h[b], f, i - 1);
      if f.Match(h[b][i - 1]) {
        assert all[n..] == [Pos(b, i - 1)] + From(h, f, b, i);
        assert all[n] == all[n..][0];
        assert all[n + 1..] == all[n..][1..];
      }
    }
  }

  /** A position found while walking from the start is found again by walking from its
      bucket alone and skipping its offset there: the resume point is exact. */
  lemma ResumePoint(h: Hash, f: Filter, p: Pos)
    requires Matching(h, f, p)
    ensures var off := CountIn(h[p.bucket], f, p.i);
            && off < |From(h, f, p.bucket, 0)|
            && From(h, f, p.bucket, 0)[off..] == From(h, f, p.bucket, p.i)
            && (forall j :: 0 <= j <= off ==> From(h, f, p.bucket, 0)[j].bucket == p.bucket)
  {
    Skip(h, f, p.bucket, p.i);
    var all, off := From(h, f, p.bucket, 0), CountIn(h[p.bucket], f, p.i);
    assert From(h, f, p.bucket, p.i)[0] == p;
    assert all[off] == all[off..][0];
  }

  // ------------------------------------------------------------------------- iterator

  datatype Table = Listening | Established

  datatype Lock = ListenLock(bucket: nat) | EhashLock(slot: nat)

  datatype Value = StartToken | Item(t: Table, pos: Pos) | End

  class Iterator {
    const lhash: Hash
    const ehash: Hash
    const ehashLocks: nat
    const filter: Filter
    var state: Table
    var bucket: nat
    var offset: nat
    var num: nat
    var lastPos: nat
    var locks: set<Lock>

    constructor (lhash: Hash, ehash: Hash, ehashLocks: nat, filter: Filter)
      requires ehashLocks > 0
      ensures Valid() && locks == {} && lastPos == 0
    {
      this.lhash, this.ehash, this.ehashLocks, this.filter := lhash, ehash, ehashLocks, filter;
      state, bucket, offset, num, lastPos, locks := Listening, 0, 0, 0, 0, {};
    }

    function HashOf(t: Table): Hash { if t.Listening? then lhash else ehash }

    /** Several established buckets may share a lock. */
    function LockOf(t: Table, b: nat): Lock {
      if t.Listening? then ListenLock(b) else EhashLock(if ehashLocks == 0 then 0 else b % ehashLocks)
    }

    function All(t: Table): seq<Pos> { From(HashOf(t), filter, 0, 0) }

    function Total(): nat { |All(Listening)| + |All(Established)| }

    /** What the file shows at a position: a header, then the listening sockets, then the
        established ones. */
    function ValueAt(pos: nat): Value {
      if pos == 0 then StartToken
      else if pos <= |All(Listening)| then Item(Listening, All(Listening)[pos - 1])
      else if pos <= Total() then Item(Established, All(Established)[pos - 1 - |All(Listening)|])
      else End
    }

    function LocksFor(v: Value): set<Lock> {
      if v.Item? then {LockOf(v.t, v.pos.bucket)} else {}
    }

    /** `r` is the head of `rest`, what is still to come of the table, and bucket, offset
        and lock belong to it. */
    ghost predicate On(t: Table, r: Option<Pos>, rest: seq<Pos>)
      reads this`bucket, this`offset, this`locks
    {
      if rest == [] then r == None && bucket >= |HashOf(t)| && locks == {}
      else
        var p := rest[0];
        && r == Some(p) && Matching(HashOf(t), filter, p) && From(HashOf(t), filter, p.bucket, p.i) == rest
        && bucket == p.bucket && offset == CountIn(HashOf(t)[p.bucket], filter, p.i)
        && locks == {LockOf(t, bucket)}
    }

    /** Bucket `b` and offset `off` designate the `k`-th matching socket of the table. */
    ghost predicate DesignatesAt(t: Table, k: nat, b: nat, off: int) {
      && k < |All(t)|
      && var p := All(t)[k];
      && Matching(HashOf(t), filter, p) && From(HashOf(t), filter, p.bucket, p.i) == All(t)[k..]
      && b == p.bucket && off == CountIn(HashOf(t)[p.bucket], filter, p.i)
    }

    ghost predicate Designates(t: Table, k: nat)
      reads this`bucket, this`offset
    {
      DesignatesAt(t, k, bucket, offset)
    }

    /** The saved cursor belongs to the item shown at `pos`. */
    ghost predicate SavedAt(pos: nat)
      reads this`state, this`bucket, this`offset, this`num
    {
      && (ValueAt(pos).Item? ==> state == ValueAt(pos).t && num == pos - 1)
      && (ValueAt(pos).Item? && state.Listening? ==> Designates(Listening, pos - 1))
      && (ValueAt(pos).Item? && state.Established? ==> pos > |All(Listening)| && Designates(Established, pos - 1 - |All(Listening)|))
      && (ValueAt(pos) == End ==> state.Established? && bucket >= |ehash|)
      && (pos == 0 ==> state.Listening? && num == 0)
    }

    ghost predicate Valid()
      reads this
    {
      ehashLocks > 0 && (lastPos > 0 ==> SavedAt(lastPos))
    }

    /** `v` is being shown at `pos`, under its lock and with the cursor on it. */
    ghost predicate Showing(v: Value, pos: nat)
      reads this
    {
      Valid() && v == ValueAt(pos) && SavedAt(pos) && locks == LocksFor(v)
    }

    /** The walk of one chain from `i` on. */
    method FindInChain(t: Table, i: nat) returns (r: Option<Pos>)
      requires bucket < |HashOf(t)| && i <= |HashOf(t)[bucket]|
      ensures r.Some? ==> r.value.bucket == bucket && r.value.i < |HashOf(t)[bucket]| && Matching(HashOf(t), filter, r.value)
      ensures r.Some? ==> From(HashOf(t), filter, bucket, i) == From(HashOf(t), filter, bucket, r.value.i)
      ensures r.Some? ==> CountIn(HashOf(t)[bucket], filter, r.value.i) == CountIn(HashOf(t)[bucket], filter, i)
      ensures r.None? ==> From(HashOf(t), filter, bucket, i) == From(HashOf(t), filter, bucket + 1, 0)
    {
      var chain := HashOf(t)[bucket];
      var j := i;
      while j < |chain|
        invariant i <= j <= |chain|
        invariant From(HashOf(t), filter, bucket, i) == From(HashOf(t), filter, bucket, j)
        invariant CountIn(chain, filter, i) == CountIn(chain, filter, j)
      {
        if filter.Match(chain[j]) { return Some(Pos(bucket, j)); }
        j := j + 1;
      }
      return None;
    }

    /** `listening_get_first` and `established_get_first`. */
    method GetFirst(t: Table) returns (r: Option<Pos>)
      requires locks == {}
      modifies this`bucket, this`offset, this`locks
      ensures On(t, r, From(HashOf(t), filter, old(bucket), 0))
    {
      ghost var rest := From(HashOf(t), filter, bucket, 0);
      offset := 0;
      while bucket < |HashOf(t)|
        invariant locks == {} && offset == 0 && From(HashOf(t), filter, bucket, 0) == rest
        decreases |HashOf(t)| - bucket
      {
        if HashOf(t)[bucket] != [] {
          locks := locks + {LockOf(t, bucket)};
          r := FindInChain(t, 0);
          if r.Some? { return; }
          locks := locks - {LockOf(t, bucket)};
        }
        bucket := bucket + 1;
      }
      return None;
    }

    /** `listening_get_next` and `established_get_next`. */
    method GetNext(t: Table, cur: Pos, ghost rest: seq<Pos>) returns (r: Option<Pos>)
      requires rest != [] && On(t, Some(cur), rest)
      modifies this`bucket, this`offset, this`locks, this`num
      ensures On(t, r, rest[1..]) && num == old(num) + 1
    {
      num := num + 1;
      offset := offset + 1;
      r := FindInChain(t, cur.i + 1);
      assert rest[1..] == From(HashOf(t), filter, bucket, cur.i + 1);
      if r.Some? { return; }
      locks := locks - {LockOf(t, bucket)};
      bucket := bucket + 1;
      r := GetFirst(t);
    }

    /** `listening_get_idx` and `established_get_idx`. */
    method GetIdx(t: Table, pos: nat) returns (r: Option<Pos>, left: nat)
      requires locks == {}
      modifies this`bucket, this`offset, this`locks, this`num
      ensures var k := Min(pos, |All(t)|); On(t, r, All(t)[k..]) && num == old(num) + k && left == pos - k
    {
      bucket, offset := 0, 0;
      r := GetFirst(t);
      left := pos;
      ghost var k := 0;
      assert All(t)[0..] == All(t);
      while r.Some? && left > 0
        invariant 0 <= k <= |All(t)| && k + left == pos && left >= 0
        invariant On(t, r, All(t)[k..]) && num == old(num) + k
        decreases left
      {
        ghost var rest := All(t)[k..];
        r := GetNext(t, r.value, rest);
        k := k + 1;
        assert All(t)[k..] == rest[1..];
        left := left - 1;
      }
    }

    /** The found position, or the end of the table, is the one shown at `pos`. */
    ghost predicate Shows(r: Option<Pos>, pos: nat)
      reads this`state, this`bucket, this`offset, this`num, this`locks
    {
      && pos > 0 && SavedAt(pos) && locks == LocksFor(ValueAt(pos))
      && (if r.Some? then ValueAt(pos) == Item(state, r.value) else ValueAt(pos) == End)
    }

    lemma OnDesignates(t: Table, r: Option<Pos>, k: nat)
      requires k <= |All(t)| && On(t, r, All(t)[k..])
      ensures k < |All(t)| <==> r.Some?
      ensures r.Some? ==> Designates(t, k) && r.value == All(t)[k] && locks == {LockOf(t, r.value.bucket)}
      ensures r.None? ==> k == |All(t)| && bucket >= |HashOf(t)| && locks == {}
    {
      if k < |All(t)| { assert All(t)[k..][0] == All(t)[k]; }
    }

    /** `tcp_get_idx`: the full rescan. */
    method TcpGetIdx(pos: nat) returns (r: Option<Pos>)
      requires locks == {} && num == 0
      modifies this`state, this`bucket, this`offset, this`locks, this`num
      ensures Shows(r, pos + 1)
    {
      state := Listening;
      var left;
      r, left := GetIdx(Listening, pos);
      OnDesignates(Listening, r, Min(pos, |All(Listening)|));
      if r.None? {
        state := Established;
        ghost var skipped := left;
        r, left := GetIdx(Established, left);
        OnDesignates(Established, r, Min(skipped, |All(Established)|));
      }
    }

    /** The loop of `tcp_seek_last_pos` in one table: at most `off` steps, and none out of
        the bucket it started in.  A cursor saved at item `k` leads back to it. */
    method SeekInTable(t: Table, from: nat, off: int, ghost k: nat) returns (r: Option<Pos>, off': int, ghost rest: seq<Pos>)
      requires locks == {}
      modifies this`bucket, this`offset, this`locks, this`num
      ensures On(t, r, rest)
      ensures DesignatesAt(t, k, old(bucket), off) && from == old(bucket) ==> rest == All(t)[k..]
    {
      ghost var start, b := From(HashOf(t), filter, bucket, 0), bucket;
      r := GetFirst(t);
      off', rest := off, start;
      ghost var j := 0;
      assert start[0..] == start;
      while true
        invariant On(t, r, rest) && 0 <= j <= |start| && rest == start[j..]
        invariant off' == off - j && (off >= 0 ==> off' >= 0)
        decreases |rest|
      {
        var more := off' != 0;
        off' := off' - 1;
        if !more || r.None? || bucket != from { break; }
        r := GetNext(t, r.value, rest);
        assert rest[1..] == start[j + 1..];
        rest, j := rest[1..], j + 1;
      }
      if DesignatesAt(t, k, b, off) && from == b {
        ResumePoint(HashOf(t), filter, All(t)[k]);
      }
    }

    /** `tcp_seek_last_pos`.  Whatever the saved cursor, a socket is returned exactly with
        its bucket locked; a cursor saved at `pos` shows `pos` again. */
    method SeekLastPos(ghost pos: nat) returns (r: Option<Pos>)
      requires locks == {}
      modifies this`state, this`bucket, this`offset, this`locks, this`num
      ensures r.None? ==> locks == {}
      ensures r.Some? ==> locks == {LockOf(state, r.value.bucket)} && Matching(HashOf(state), filter, r.value)
      ensures num == old(num)
      ensures pos > 0 && old(SavedAt(pos)) ==> if r.Some? then Shows(r, pos) else ValueAt(pos) == End
    {
      var from, off, origNum := bucket, offset, num;
      ghost var n := |All(Listening)|;
      r := None;
      if state.Listening? {
        if bucket >= |lhash| { return; }
        ghost var k: nat, rest := if pos > 0 then pos - 1 else 0, [];
        var off';
        r, off', rest := SeekInTable(Listening, from, off, k);
        if k < |All(Listening)| && rest == All(Listening)[k..] { OnDesignates(Listening, r, k); }
        if r.Some? {
          num := origNum;
          return;
        }
        bucket, state := 0, Established;
        r := SeekEstablished(from, off', 0);
      } else {
        r := SeekEstablished(from, off, if pos > n then pos - 1 - n else 0);
      }
      num := origNum;
    }

    method SeekEstablished(from: nat, off: int, ghost k: nat) returns (r: Option<Pos>)
      requires locks == {}
      modifies this`bucket, this`offset, this`locks, this`num
      ensures r.None? ==> locks == {}
      ensures r.Some? ==> locks == {LockOf(Established, r.value.bucket)} && Matching(ehash, filter, r.value)
      ensures DesignatesAt(Established, k, old(bucket), off) && from == old(bucket)
              ==> r == Some(All(Established)[k]) && Designates(Established, k)
      ensures old(bucket) >= |ehash| ==> r.None?
    {
      if bucket >= |ehash| { return None; }
      var off';
      ghost var rest;
      r, off', rest := SeekInTable(Established, from, off, k);
      if k < |All(Established)| && rest == All(Established)[k..] { OnDesignates(Established, r, k); }
    }

    /** `tcp_seq_start`: by resuming or by rescanning, it shows the item at `pos`, with the
        one bucket lock that belongs to it and with its running number. */
    method SeqStart(pos: nat) returns (v: Value)
      requires Valid() && locks == {}
      modifies this
      ensures Showing(v, pos) && lastPos == pos
    {
      if pos > 0 && pos == lastPos {
        var r := SeekLastPos(pos);
        if r.Some? {
          lastPos := pos;
          return Item(state, r.value);
        }
      }
      state, num, bucket, offset := Listening, 0, 0, 0;
      v := StartToken;
      if pos > 0 {
        var r := TcpGetIdx(pos - 1);
        v := if r.Some? then Item(state, r.value) else End;
      }
      lastPos := pos;
    }

    /** `tcp_seq_next`: the item after the one shown. */
    method SeqNext(v: Value, pos: nat) returns (v': Value, pos': nat)
      requires Showing(v, pos) && v != End
      modifies this
      ensures Showing(v', pos') && pos' == pos + 1 && lastPos == pos'
    {
      var r;
      if v == StartToken {
        r := TcpGetIdx(0);
      } else if state.Listening? {
        r := NextListening(v.pos, pos);
      } else {
        r := NextEstablished(v.pos, pos);
      }
      pos' := pos + 1;
      lastPos := pos';
      v' := if r.Some? then Item(state, r.value) else End;
    }

    /** After the last listening socket come the established ones. */
    method NextListening(cur: Pos, ghost pos: nat) returns (r: Option<Pos>)
      requires state.Listening? && ValueAt(pos) == Item(Listening, cur) && SavedAt(pos) && locks == LocksFor(ValueAt(pos))
      modifies this`state, this`bucket, this`offset, this`locks, this`num
      ensures Shows(r, pos + 1)
    {
      ghost var all := All(Listening);
      assert all[pos - 1..][0] == cur;
      assert all[pos - 1..][1..] == all[pos..];
      r := GetNext(Listening, cur, all[pos - 1..]);
      OnDesignates(Listening, r, pos);
      if r.None? {
        state, bucket, offset := Established, 0, 0;
        r := GetFirst(Established);
        assert All(Established)[0..] == All(Established);
        OnDesignates(Established, r, 0);
      }
    }

    method NextEstablished(cur: Pos, ghost pos: nat) returns (r: Option<Pos>)
      requires state.Established? && ValueAt(pos) == Item(Established, cur) && SavedAt(pos) && locks == LocksFor(ValueAt(pos))
      modifies this`bucket, this`offset, this`locks, this`num
      ensures Shows(r, pos + 1)
    {
      ghost var all, k := All(Established), pos - 1 - |All(Listening)|;
      assert all[k..][0] == cur;
      assert all[k..][1..] == all[k + 1..];
      r := GetNext(Established, cur, all[k..]);
      OnDesignates(Established, r, k + 1);
    }

    /** `tcp_seq_stop`: the lock it drops is the one that is held. */
    method SeqStop(v: Value, ghost pos: nat)
      requires Showing(v, pos)
      modifies this`locks
      ensures Valid() && locks == {}
    {
      if state.Listening? {
        if v != StartToken {
          assert LockOf(Listening, bucket) in locks;
          locks := locks - {LockOf(Listening, bucket)};
        }
      } else if v != End {
        assert LockOf(Established, bucket) in locks;
        locks := locks - {LockOf(Established, bucket)};
      }
    }

    /** One read of the file: from any position, resumed or not, it lists the next `n`
        items (fewer at the end) and leaves no lock behind. */
    method Session(pos: nat, n: nat) returns (shown: seq<Value>)
      requires Valid() && locks == {}
      modifies this
      ensures Valid() && locks == {} && |shown| <= n
      ensures forall k :: 0 <= k < |shown| ==> shown[k] == ValueAt(pos + k) && shown[k] != End
      ensures |shown| < n ==> ValueAt(pos + |shown|) == End
    {
      shown := [];
      var at := pos;
      var v := SeqStart(pos);
      while v != End && |shown| < n
        invariant Showing(v, at)
        invariant at == pos + |shown| && |shown| <= n
        invariant forall k :: 0 <= k < |shown| ==> shown[k] == ValueAt(pos + k) && shown[k] != End
        decreases n - |shown|
      {
        shown := shown + [v];
        v, at := SeqNext(v, at);
      }
      SeqStop(v, at);
    }
  }
}
