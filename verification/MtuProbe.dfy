/** Building an MTU probe out of the write queue (redhat_kernel/tcp_output.c; RFC 4821,
    section 7): payload clone with merging of adjacent page fragments, head trim with
    in-place compaction of the fragment array, and the queue surgery around them. */
module MtuProbe {
  import opened MachineInts
  import opened Containers

  /** What the pages hold; the code only moves references into it. */
  type Memory = (int, int) -> Byte

  datatype Frag = Frag(page: int, off: nat, size: nat)

  datatype Skb = Skb(start: nat, end: nat, headlen: nat, frags: seq<Frag>, fin: bool, psh: bool, eor: bool)

  const MAX_SKB_FRAGS: nat := 17

  // ------------------------------------------------------------------------ payload

  function Bytes(mem: Memory, f: Frag): (r: seq<Byte>)
    ensures |r| == f.size
  {
    seq(f.size, k => mem(f.page, f.off + k))
  }

  function Size(fs: seq<Frag>): nat {
    if fs == [] then 0 else Size(fs[..|fs| - 1]) + fs[|fs| - 1].size
  }

  function Payload(mem: Memory, fs: seq<Frag>): (r: seq<Byte>)
    ensures |r| == Size(fs)
  {
    if fs == [] then [] else Payload(mem, fs[..|fs| - 1]) + Bytes(mem, fs[|fs| - 1])
  }

  lemma {:induction false} PayloadConcat(mem: Memory, a: seq<Frag>, b: seq<Frag>)
    ensures Payload(mem, a + b) == Payload(mem, a) + Payload(mem, b)
    ensures Size(a + b) == Size(a) + Size(b)
  {
    if b == [] {
      assert a + b == a;
    } else {
      var c := b[..|b| - 1];
      PayloadConcat(mem, a, c);
      assert (a + b)[..|a + b| - 1] == a + c;
      Assoc(Payload(mem, a), Payload(mem, c), Bytes(mem, b[|b| - 1]));
    }
  }

  lemma PayloadOne(mem: Memory, f: Frag)
    ensures Payload(mem, [f]) == Bytes(mem, f) && Size([f]) == f.size
  {
    assert [f][..0] == [];
  }

  /** All fragments of a queue, in order. */
  function Fragments(q: seq<Skb>): seq<Frag> {
    if q == [] then [] else Fragments(q[..|q| - 1]) + q[|q| - 1].frags
  }

  lemma {:induction false} FragmentsConcat(a: seq<Skb>, b: seq<Skb>)
    ensures Fragments(a + b) == Fragments(a) + Fragments(b)
  {
    if b == [] {
      assert a + b == a;
    } else {
      var c := b[..|b| - 1];
      FragmentsConcat(a, c);
      assert (a + b)[..|a + b| - 1] == a + c;
      Assoc(Fragments(a), Fragments(c), b[|b| - 1].frags);
    }
  }

  lemma FragmentsHead(q: seq<Skb>)
    requires q != []
    ensures Fragments(q) == q[0].frags + Fragments(q[1..])
  {
    assert q == [q[0]] + q[1..];
    FragmentsConcat([q[0]], q[1..]);
    assert [q[0]][..0] == [];
  }

  /** The bytes of a queue, skb by skb, and their number. */
  function Stream(mem: Memory, q: seq<Skb>): (r: seq<Byte>)
    ensures |r| == Length(q)
  {
    if q == [] then [] else Payload(mem, q[0].frags) + Stream(mem, q[1..])
  }

  function Length(q: seq<Skb>): nat {
    if q == [] then 0 else Size(q[0].frags) + Length(q[1..])
  }

  lemma {:induction false} StreamIsPayload(mem: Memory, q: seq<Skb>)
    ensures Stream(mem, q) == Payload(mem, Fragments(q)) && Length(q) == Size(Fragments(q))
  {
    if q != [] {
      StreamIsPayload(mem, q[1..]);
      FragmentsHead(q);
      PayloadConcat(mem, q[0].frags, Fragments(q[1..]));
    }
  }

  // ---------------------------------------------------------------------- head trim

  /** What is left of the fragments from `i` on after `eat` bytes are taken off. */
  function TrimmedFrom(fs: seq<Frag>, i: nat, eat: nat): seq<Frag>
    requires i <= |fs|
    decreases |fs| - i
  {
    if i == |fs| then []
    else if fs[i].size <= eat then TrimmedFrom(fs, i + 1, eat - fs[i].size)
    else [fs[i].(off := fs[i].off + eat, size := fs[i].size - eat)] + TrimmedFrom(fs, i + 1, 0)
  }

  function Trimmed(fs: seq<Frag>, eat: nat): seq<Frag> {
    TrimmedFrom(fs, 0, eat)
  }

  lemma DropFirst<T>(a: seq<T>, b: seq<T>, n: nat)
    requires n <= |a| + |b|
    ensures (a + b)[n..] == if n <= |a| then a[n..] + b else b[n - |a|..]
  {
  }

  lemma PayloadHead(mem: Memory, f: Frag, fs: seq<Frag>)
    ensures Payload(mem, [f] + fs) == Bytes(mem, f) + Payload(mem, fs)
    ensures Size([f] + fs) == f.size + Size(fs)
  {
    PayloadConcat(mem, [f], fs);
    PayloadOne(mem, f);
  }

  /** The payload of the fragments from `i` on. */
  function PayloadFrom(mem: Memory, fs: seq<Frag>, i: nat): (r: seq<Byte>)
    requires i <= |fs|
    decreases |fs| - i
  {
    if i == |fs| then [] else Bytes(mem, fs[i]) + PayloadFrom(mem, fs, i + 1)
  }

  lemma {:induction false} PayloadFromIs(mem: Memory, fs: seq<Frag>, i: nat)
    requires i <= |fs|
    ensures PayloadFrom(mem, fs, i) == Payload(mem, fs[i..])
    decreases |fs| - i
  {
    if i < |fs| {
      PayloadFromIs(mem, fs, i + 1);
      assert fs[i..] == [fs[i]] + fs[i + 1..];
      PayloadHead(mem, fs[i], fs[i + 1..]);
    }
  }

  lemma NoPayload(mem: Memory)
    ensures Payload(mem, []) == []
  {
  }

  lemma {:induction false} TrimmedFromPayload(mem: Memory, fs: seq<Frag>, i: nat, eat: nat)
    requires i <= |fs| && eat <= |PayloadFrom(mem, fs, i)|
    ensures Payload(mem, TrimmedFrom(fs, i, eat)) == PayloadFrom(mem, fs, i)[eat..]
    decreases |fs| - i
  {
    hide Payload, Bytes;
    if i == |fs| {
      PayloadFromIs(mem, fs, i);
      NoPayload(mem);
    } else {
      var f := fs[i];
      DropFirst(Bytes(mem, f), PayloadFrom(mem, fs, i + 1), eat);
      if f.size <= eat {
        TrimmedFromPayload(mem, fs, i + 1, eat - f.size);
      } else {
        TrimmedFromPayload(mem, fs, i + 1, 0);
        CutHead(mem, f, eat);
        PayloadHead(mem, f.(off := f.off + eat, size := f.size - eat), TrimmedFrom(fs, i + 1, 0));
      }
    }
  }

  lemma CutHead(mem: Memory, f: Frag, eat: nat)
    requires eat <= f.size
    ensures Bytes(mem, f.(off := f.off + eat, size := f.size - eat)) == Bytes(mem, f)[eat..]
  {
  }

  /** Trimming drops exactly the first bytes of the payload. */
  lemma TrimmedPayload(mem: Memory, fs: seq<Frag>, eat: nat)
    requires eat <= Size(fs)
    ensures Payload(mem, Trimmed(fs, eat)) == Payload(mem, fs)[eat..]
    ensures Size(Trimmed(fs, eat)) == Size(fs) - eat
  {
    assert fs[0..] == fs;
    PayloadFromIs(mem, fs, 0);
    TrimmedFromPayload(mem, fs, 0, eat);
  }

  /** `__pskb_trim_head`: compacts the fragment array in place. */
  method TrimHead(frags: array<Frag>, nr: nat, len: nat) returns (k: nat)
    requires nr <= frags.Length
    modifies frags
    ensures k <= nr && frags[..k] == Trimmed(old(frags[..nr]), len)
  {
    ghost var was, built: seq<Frag> := frags[..nr], [];
    var eat := len;
    k := 0;
    assert [] + TrimmedFrom(was, 0, len) == Trimmed(was, len);
    for i := 0 to nr
      invariant k <= i && eat >= 0 && |built| == k
      invariant forall j :: i <= j < nr ==> frags[j] == was[j]
      invariant forall j :: 0 <= j < k ==> frags[j] == built[j]
      invariant built + TrimmedFrom(was, i, eat) == Trimmed(was, len)
    {
      if frags[i].size <= eat {
        eat := eat - frags[i].size;
      } else {
        MoveFragment(frags, k, i, eat);
        Assoc(built, [frags[k]], TrimmedFrom(was, i + 1, 0));
        built := built + [frags[k]];
        eat := 0;
        k := k + 1;
      }
    }
    assert frags[..k] == built;
  }

  /** Fragment `i` moves down to `k`, without its first `eat` bytes. */
  method MoveFragment(frags: array<Frag>, k: nat, i: nat, eat: nat)
    requires k <= i < frags.Length && eat < frags[i].size
    modifies frags
    ensures frags[k] == old(frags[i]).(off := old(frags[i]).off + eat, size := old(frags[i]).size - eat)
    ensures forall j :: 0 <= j < frags.Length && j != k ==> frags[j] == old(frags[j])
  {
    frags[k] := frags[i];
    if eat != 0 {
      frags[k] := frags[k].(off := frags[k].off + eat, size := frags[k].size - eat);
    }
  }

  // ------------------------------------------------------------------ payload clone

  datatype CloneResult = Cloned(nr: nat) | HasLinearData | TooManyFragments

  /** A fragment taken up to `n` bytes. */
  function Cut(f: Frag, n: nat): Frag {
    f.(size := Min(f.size, n))
  }

  /** Taking `todo` bytes of the next fragment continues the prefix taken so far. */
  lemma PrefixGrows(mem: Memory, all: seq<Frag>, done: nat, len: nat, n: nat)
    requires done < |all| && len == Size(all[..done]) && len < n
    ensures var todo := Min(all[done].size, n - len);
            && Size(all[..done + 1]) == len + all[done].size
            && Payload(mem, all[..done]) + Bytes(mem, Cut(all[done], todo)) == Payload(mem, all[..done + 1])[..len + todo]
  {
    assert all[..done + 1][..done] == all[..done];
    var todo := Min(all[done].size, n - len);
    assert Bytes(mem, Cut(all[done], todo)) == Bytes(mem, all[done])[..todo];
  }

  lemma PrefixOfPrefix(mem: Memory, all: seq<Frag>, done: nat, len: nat)
    requires done <= |all| && len <= Size(all[..done])
    ensures len <= Size(all) && Payload(mem, all[..done])[..len] == Payload(mem, all)[..len]
  {
    assert all == all[..done] + all[done..];
    PayloadConcat(mem, all[..done], all[done..]);
  }

  /** Merging an adjacent fragment into the last one appends its bytes. */
  lemma MergeAdjacent(mem: Memory, fs: seq<Frag>, f: Frag)
    requires fs != []
    requires var l := fs[|fs| - 1]; f.page == l.page && f.off == l.off + l.size
    ensures var l := fs[|fs| - 1];
            Payload(mem, fs[|fs| - 1 := l.(size := l.size + f.size)]) == Payload(mem, fs) + Bytes(mem, f)
  {
    var n := |fs| - 1;
    var l := fs[n];
    var m := l.(size := l.size + f.size);
    assert fs[n := m][..n] == fs[..n];
    assert Bytes(mem, m) == Bytes(mem, l) + Bytes(mem, f);
  }

  /** Adds `todo` bytes of `f` to the fragments built so far, growing the last one when
      they continue it on the same page. */
  method AddFragment(to: array<Frag>, nr: nat, f: Frag, todo: nat, ghost mem: Memory) returns (nr': nat, ok: bool)
    requires to.Length == MAX_SKB_FRAGS && nr <= MAX_SKB_FRAGS
    modifies to
    ensures nr <= nr' <= MAX_SKB_FRAGS && nr' <= nr + 1
    ensures !ok ==> nr == MAX_SKB_FRAGS && to[..] == old(to[..])
    ensures ok ==> Payload(mem, to[..nr']) == old(Payload(mem, to[..nr])) + Bytes(mem, f.(size := todo))
  {
    ghost var was := to[..nr];
    if nr > 0 && f.page == to[nr - 1].page && f.off == to[nr - 1].off + to[nr - 1].size {
      MergeAdjacent(mem, was, f.(size := todo));
      to[nr - 1] := to[nr - 1].(size := to[nr - 1].size + todo);
      assert to[..nr] == was[nr - 1 := to[nr - 1]];
      return nr, true;
    }
    if nr == MAX_SKB_FRAGS {
      return nr, false;
    }
    to[nr] := f.(size := todo);
    assert to[..nr + 1] == was + [f.(size := todo)];
    PayloadConcat(mem, was, [f.(size := todo)]);
    PayloadOne(mem, f.(size := todo));
    return nr + 1, true;
  }

  lemma FragmentsNext(q: seq<Skb>, j: nat)
    requires j < |q|
    ensures Fragments(q[..j + 1]) == Fragments(q[..j]) + q[j].frags
  {
    assert q[..j + 1][..j] == q[..j];
  }

  /** The fragments of skb `j` sit in the queue's fragments right after those before it. */
  lemma FragmentsIndex(q: seq<Skb>, j: nat)
    requires j < |q|
    ensures Fragments(q) == Fragments(q[..j]) + q[j].frags + Fragments(q[j + 1..])
    ensures |Fragments(q[..j + 1])| == |Fragments(q[..j])| + |q[j].frags|
  {
    var a, b := q[..j + 1], q[j + 1..];
    assert q == a + b;
    FragmentsConcat(a, b);
    FragmentsNext(q, j);
  }

  lemma FragmentsAt(q: seq<Skb>, j: nat)
    requires j < |q|
    ensures var base := |Fragments(q[..j])|;
            && base + |q[j].frags| <= |Fragments(q)|
            && Fragments(q)[base..base + |q[j].frags|] == q[j].frags
            && |Fragments(q[..j + 1])| == base + |q[j].frags|
  {
    FragmentsIndex(q, j);
  }

  /** How far the clone has come: `len` bytes of the first `done` fragments are in `built`,
      all of them unless the probe is full. */
  ghost predicate ClonedSoFar(mem: Memory, all: seq<Frag>, done: nat, len: nat, n: nat, built: seq<Frag>) {
    && done <= |all| && len <= n && len <= Size(all[..done])
    && (len < n ==> len == Size(all[..done]))
    && Payload(mem, built) == Payload(mem, all[..done])[..len]
  }

  lemma CloneComplete(mem: Memory, all: seq<Frag>, done: nat, len: nat, n: nat, built: seq<Frag>)
    requires ClonedSoFar(mem, all, done, len, n, built) && n <= Size(all) && (done == |all| || len >= n)
    ensures len == n && Payload(mem, built) == Payload(mem, all)[..n]
  {
    if done == |all| { assert all[..done] == all; }
    PrefixOfPrefix(mem, all, done, len);
  }

  /** One fragment further. */
  method CloneFragment(to: array<Frag>, nr: nat, f: Frag, len: nat, n: nat, ghost all: seq<Frag>, ghost done: nat, ghost mem: Memory)
    returns (nr': nat, len': nat, ok: bool)
    requires to.Length == MAX_SKB_FRAGS && nr <= MAX_SKB_FRAGS
    requires ClonedSoFar(mem, all, done, len, n, to[..nr]) && len < n && done < |all| && all[done] == f
    modifies to
    ensures nr' <= MAX_SKB_FRAGS && nr' <= nr + 1 && (!ok ==> nr == MAX_SKB_FRAGS)
    ensures ok ==> ClonedSoFar(mem, all, done + 1, len', n, to[..nr'])
  {
    var todo := Min(f.size, n - len);
    PrefixGrows(mem, all, done, len, n);
    assert Payload(mem, to[..nr]) == Payload(mem, all[..done]);
    len' := len + todo;
    nr', ok := AddFragment(to, nr, f, todo, mem);
  }

  /** The inner loop: all fragments of one skb, which are `all[base..]` up to their number. */
  method CloneSkb(frags: seq<Frag>, to: array<Frag>, nr: nat, len: nat, n: nat, ghost all: seq<Frag>, ghost base: nat, ghost mem: Memory)
    returns (nr': nat, len': nat, ok: bool, full: bool)
    requires to.Length == MAX_SKB_FRAGS && nr <= MAX_SKB_FRAGS && n <= Size(all)
    requires base + |frags| <= |all| && all[base..base + |frags|] == frags
    requires ClonedSoFar(mem, all, base, len, n, to[..nr]) && nr <= base
    modifies to
    ensures nr' <= MAX_SKB_FRAGS && nr' <= base + |frags| && (!ok ==> |all| > MAX_SKB_FRAGS)
    ensures ok && full ==> Payload(mem, to[..nr']) == Payload(mem, all)[..n]
    ensures ok && !full ==> ClonedSoFar(mem, all, base + |frags|, len', n, to[..nr'])
  {
    hide Payload, Size;
    nr', len', ok, full := nr, len, true, false;
    for i := 0 to |frags|
      invariant nr' <= MAX_SKB_FRAGS && nr' <= base + i
      invariant ClonedSoFar(mem, all, base + i, len', n, to[..nr'])
    {
      if len' >= n {
        CloneComplete(mem, all, base + i, len', n, to[..nr']);
        return nr', len', true, true;
      }
      assert all[base + i] == frags[i];
      nr', len', ok := CloneFragment(to, nr', frags[i], len', n, all, base + i, mem);
      if !ok { return; }
    }
  }

  /** `tcp_clone_payload`: references the first `n` bytes of the queue, whatever the pages
      hold.  On failure nothing but the unused fragment array has been written. */
  method ClonePayload(q: seq<Skb>, to: array<Frag>, n: nat, ghost mem: Memory) returns (r: CloneResult)
    requires to.Length == MAX_SKB_FRAGS && n <= Size(Fragments(q))
    modifies to
    ensures r.Cloned? ==> r.nr <= MAX_SKB_FRAGS && Payload(mem, to[..r.nr]) == Payload(mem, Fragments(q))[..n]
    ensures r.HasLinearData? ==> exists skb :: skb in q && skb.headlen > 0
    ensures r.TooManyFragments? ==> |Fragments(q)| > MAX_SKB_FRAGS
  {
    ghost var all, base: nat := Fragments(q), 0;
    var nr: nat, len: nat, j: nat := 0, 0, 0;
    assert all[..0] == [];
    while j < |q|
      invariant j <= |q| && nr <= MAX_SKB_FRAGS && nr <= base == |Fragments(q[..j])|
      invariant ClonedSoFar(mem, all, base, len, n, to[..nr])
    {
      if q[j].headlen > 0 { return HasLinearData; }
      FragmentsAt(q, j);
      var ok, full;
      nr, len, ok, full := CloneSkb(q[j].frags, to, nr, len, n, all, base, mem);
      if !ok { return TooManyFragments; }
      if full { return Cloned(nr); }
      j, base := j + 1, base + |q[j].frags|;
    }
    assert q[..j] == q;
    CloneComplete(mem, all, base, len, n, to[..nr]);
    return Cloned(nr);
  }

  // ------------------------------------------------------------------ queue surgery

  predicate WellFormed(p: Skb) {
    p.end == p.start + Size(p.frags) + (if p.fin then 1 else 0)
  }

  /** Consecutive skbs meet and only the last one may carry FIN. */
  ghost predicate Partition(q: seq<Skb>) {
    && (forall i :: 0 <= i < |q| ==> WellFormed(q[i]))
    && (forall i :: 0 <= i < |q| - 1 ==> q[i].end == q[i + 1].start && !q[i].fin)
  }

  datatype Flags = Flags(fin: bool, psh: bool, eor: bool)

  /** `need` bytes are taken off the head of the queue: whole skbs are dropped and their
      flags gathered, the last one is trimmed. */
  function Eat(q: seq<Skb>, need: nat, flags: Flags): (seq<Skb>, Flags)
    decreases |q|
  {
    if need == 0 || q == [] then (q, flags)
    else if Size(q[0].frags) <= need then
      Eat(q[1..], need - Size(q[0].frags), Flags(flags.fin || q[0].fin, flags.psh || q[0].psh, q[0].eor))
    else
      ([q[0].(start := q[0].start + need, frags := Trimmed(q[0].frags, need))] + q[1..], flags)
  }

  lemma PartitionTail(q: seq<Skb>)
    requires q != [] && Partition(q)
    ensures Partition(q[1..])
  {
    forall i | 0 <= i < |q[1..]| - 1 ensures q[1..][i].end == q[1..][i + 1].start && !q[1..][i].fin {
      assert q[i + 1].end == q[i + 2].start;
    }
  }

  /** `r` is what is left of `q` when its first `need` bytes are gone. */
  ghost predicate Rest(mem: Memory, q: seq<Skb>, need: nat, r: seq<Skb>) {
    && q != [] && r != [] && Partition(r) && r[0].start == q[0].start + need
    && r[|r| - 1].end == q[|q| - 1].end && r[|r| - 1].fin == q[|q| - 1].fin
    && need <= Length(q)
    && Stream(mem, r) == Stream(mem, q)[need..]
  }

  lemma EatTrim(mem: Memory, q: seq<Skb>, need: nat)
    requires q != [] && Partition(q) && need < Size(q[0].frags)
    ensures var p := q[0].(start := q[0].start + need, frags := Trimmed(q[0].frags, need));
            var r := [p] + q[1..];
            Rest(mem, q, need, r)
  {
    var p := q[0].(start := q[0].start + need, frags := Trimmed(q[0].frags, need));
    var r := [p] + q[1..];
    TrimmedPayload(mem, q[0].frags, need);
    assert r[1..] == q[1..];
    DropFirst(Payload(mem, q[0].frags), Stream(mem, q[1..]), need);
    PartitionTail(q);
    assert q[1..] != [] ==> q[0].end == q[1].start && !q[0].fin;
  }

  lemma EatWhole(mem: Memory, q: seq<Skb>, need: nat, r: seq<Skb>)
    requires |q| > 1 && Partition(q) && Size(q[0].frags) <= need
    requires Rest(mem, q[1..], need - Size(q[0].frags), r)
    ensures Rest(mem, q, need, r)
  {
    DropFirst(Payload(mem, q[0].frags), Stream(mem, q[1..]), need);
    assert q[0].end == q[1].start && !q[0].fin;
  }

  /** More bytes than the first skb holds are in later ones, so it is not the last. */
  lemma MoreFollows(q: seq<Skb>, need: nat)
    requires q != [] && need < Length(q) && Size(q[0].frags) <= need
    ensures |q| > 1 && need - Size(q[0].frags) < Length(q[1..])
  {
  }

  /** What is left is the old stream without its first `need` bytes, still contiguous and
      starting where the eaten bytes end; no FIN is eaten. */
  lemma {:induction false} EatKeepsStream(mem: Memory, q: seq<Skb>, need: nat, flags: Flags)
    requires Partition(q) && need < Length(q)
    ensures Rest(mem, q, need, Eat(q, need, flags).0) && Eat(q, need, flags).1.fin == flags.fin
    decreases |q|
  {
    if need > 0 {
      if Size(q[0].frags) <= need {
        MoreFollows(q, need);
        PartitionTail(q);
        assert !q[0].fin;
        var left, gathered := need - Size(q[0].frags), Flags(flags.fin || q[0].fin, flags.psh || q[0].psh, q[0].eor);
        EatKeepsStream(mem, q[1..], left, gathered);
        EatWhole(mem, q, need, Eat(q[1..], left, gathered).0);
      } else {
        EatTrim(mem, q, need);
      }
    }
  }

  // ------------------------------------------------------------------ record marks

  /** Sequence numbers at which the application ended a record. */
  function Marks(q: seq<Skb>): set<nat> {
    if q == [] then {} else (if q[0].eor then {q[0].end} else {}) + Marks(q[1..])
  }

  /** `tcp_can_coalesce_send_queue_head`; `alike(i)` stands for its tests on timestamps and
      extensions of the skb that is `i` from the end. */
  function CanCoalesce(q: seq<Skb>, len: int, alike: int -> bool): bool {
    if q == [] || len <= Size(q[0].frags) then true
    else alike(|q|) && !q[0].eor && CanCoalesce(q[1..], len - Size(q[0].frags), alike)
  }

  /** A probe that may be coalesced keeps every end-of-record mark where it was. */
  lemma {:induction false} EatKeepsMarks(q: seq<Skb>, need: nat, flags: Flags, alike: int -> bool)
    requires Partition(q) && 0 < need < Length(q) && CanCoalesce(q, need, alike) && !flags.eor
    ensures var (r, f) := Eat(q, need, flags);
            (if f.eor then {q[0].start + need} else {}) + Marks(r) == Marks(q)
    decreases |q|
  {
    var n := Size(q[0].frags);
    if n <= need {
      MoreFollows(q, need);
      PartitionTail(q);
      assert q[0].end == q[1].start && !q[0].fin;
      var gathered := Flags(flags.fin || q[0].fin, flags.psh || q[0].psh, q[0].eor);
      if n < need {
        EatKeepsMarks(q[1..], need - n, gathered, alike);
      } else {
        assert Eat(q[1..], 0, gathered) == (q[1..], gathered);
      }
    } else {
      var p := q[0].(start := q[0].start + need, frags := Trimmed(q[0].frags, need));
      assert ([p] + q[1..])[1..] == q[1..];
    }
  }

  // ------------------------------------------------------------------- whole operation

  datatype ProbeInput = ProbeInput(
    eligible: bool,          // enabled, not probing, CA Open, cwnd >= 11, no SACK blocks, search range wide enough
    probeSize: nat, reordering: nat, mssCache: nat, sndWnd: nat, sndUna: nat, inFlight: nat,
    alike: int -> bool, skbOk: bool, scheduled: bool, transmitted: bool)
  {
    /** Both sizes leave room for some payload: after the TCP options, which are subtracted
        from at least the smallest send MSS, eight bytes remain.  Two are all it takes. */
    predicate Valid() { probeSize > 0 && mssCache >= 2 }

    function SizeNeeded(): nat { probeSize + (reordering + 1) * mssCache }

    /** Probing makes sense with this much data at hand. */
    predicate Wanted(available: int) { eligible && available >= SizeNeeded() && sndWnd >= SizeNeeded() }

    predicate OutsideWindow(sndNxt: nat) { sndNxt + SizeNeeded() > sndUna + sndWnd }

    /** The window or cwnd has no room for two more packets yet. */
    predicate MustWait(sndNxt: nat, cwnd: nat) { OutsideWindow(sndNxt) || inFlight + 2 > cwnd }

    /** Waiting would stall: cwnd is too small with nothing in flight. */
    predicate Stuck(sndNxt: nat, cwnd: nat) { !OutsideWindow(sndNxt) && inFlight == 0 }

    /** Every later step succeeds. */
    ghost predicate Buildable(q: seq<Skb>) {
      CanCoalesce(q, probeSize, alike) && Clonable(q) && skbOk && scheduled && transmitted
    }
  }

  const NoFlags := Flags(false, false, false)

  /** The probe the code fills in from the old head and what it gathered. */
  function ProbeSkb(q: seq<Skb>, n: nat, frags: seq<Frag>, f: Flags): Skb
    requires q != []
  {
    Skb(q[0].start, q[0].start + n, 0, frags, f.fin, f.psh, f.eor)
  }

  /** Same bytes at the same sequence numbers, same FIN, same record marks. */
  ghost predicate SameStream(mem: Memory, q: seq<Skb>, r: seq<Skb>) {
    && q != [] && r != [] && Partition(r)
    && r[0].start == q[0].start && r[|r| - 1].end == q[|q| - 1].end && r[|r| - 1].fin == q[|q| - 1].fin
    && Stream(mem, r) == Stream(mem, q)
    && Marks(r) == Marks(q)
  }

  lemma PartitionCons(p: Skb, r: seq<Skb>)
    requires WellFormed(p) && Partition(r) && r != [] && p.end == r[0].start && !p.fin
    ensures Partition([p] + r)
  {
    var s := [p] + r;
    forall i | 0 <= i < |s| - 1 ensures s[i].end == s[i + 1].start && !s[i].fin {
      if i > 0 { assert s[i] == r[i - 1] && s[i + 1] == r[i]; }
    }
  }

  /** Whatever the pages hold, probe payload followed by the rest is the old write queue. */
  lemma ProbeKeepsStream(mem: Memory, q: seq<Skb>, n: nat, frags: seq<Frag>, alike: int -> bool, rest: seq<Skb>, f: Flags)
    requires Partition(q) && 0 < n < Length(q) && CanCoalesce(q, n, alike)
    requires Payload(mem, frags) == Stream(mem, q)[..n] && (rest, f) == Eat(q, n, NoFlags)
    ensures SameStream(mem, q, [ProbeSkb(q, n, frags, f)] + rest)
    ensures Follows(ProbeSkb(q, n, frags, f), rest) && !f.fin
  {
    EatKeepsStream(mem, q, n, NoFlags);
    EatKeepsMarks(q, n, NoFlags, alike);
    ProbeThenRest(mem, q, n, ProbeSkb(q, n, frags, f), rest);
  }

  lemma ProbeThenRest(mem: Memory, q: seq<Skb>, n: nat, p: Skb, rest: seq<Skb>)
    requires q != [] && n <= Length(q) && Payload(mem, p.frags) == Stream(mem, q)[..n]
    requires Rest(mem, q, n, rest) && p.start == q[0].start && p.end == p.start + n && !p.fin
    requires (if p.eor then {p.end} else {}) + Marks(rest) == Marks(q)
    ensures SameStream(mem, q, [p] + rest)
  {
    var r := [p] + rest;
    assert r[1..] == rest;
    PartitionCons(p, rest);
  }

  lemma {:induction false} EndOfPartition(q: seq<Skb>)
    requires q != [] && Partition(q)
    ensures q[|q| - 1].end == q[0].start + Length(q) + (if q[|q| - 1].fin then 1 else 0)
  {
    if |q| > 1 {
      PartitionTail(q);
      assert q[0].end == q[1].start && !q[0].fin;
      EndOfPartition(q[1..]);
    }
  }

  /** Nothing stands in the way of a clone: no linear data, and few enough fragments. */
  ghost predicate Clonable(q: seq<Skb>) {
    (forall skb :: skb in q ==> skb.headlen == 0) && |Fragments(q)| <= MAX_SKB_FRAGS
  }

  /** The fragments of a new skb that references the first `n` bytes of the queue. */
  method CloneHead(q: seq<Skb>, n: nat, ghost mem: Memory) returns (frags: seq<Frag>, ok: bool)
    requires n <= Length(q)
    ensures ok ==> |frags| <= MAX_SKB_FRAGS && Payload(mem, frags) == Stream(mem, q)[..n]
    ensures Clonable(q) ==> ok
  {
    StreamIsPayload(mem, q);
    var to := new Frag[MAX_SKB_FRAGS](_ => Frag(0, 0, 0));
    var clone := ClonePayload(q, to, n, mem);
    ok := clone.Cloned?;
    frags := if ok then to[..clone.nr] else [];
  }

  /** The head of the write queue, the retransmit queue and the counters a probe touches. */
  class SendQueue {
    var queue: seq<Skb>
    var sent: seq<Skb>
    var sndNxt: nat
    var writeSeq: nat
    var cwnd: nat

    ghost predicate Valid() reads this {
      && Partition(queue)
      && (if queue == [] then writeSeq == sndNxt else sndNxt == queue[0].start && writeSeq == queue[|queue| - 1].end)
    }

    /** The loop of `tcp_mtu_probe`: eats `n` bytes after the probe has been put in front. */
    method EatHead(n: nat) returns (flags: Flags)
      requires n < Length(queue) && Partition(queue)
      modifies this`queue
      ensures (queue, flags) == Eat(old(queue), n, NoFlags)
    {
      flags := NoFlags;
      var len := 0;
      ghost var goal := Eat(queue, n, flags);
      while len < n && queue != []
        invariant 0 <= len <= n && Eat(queue, n - len, flags) == goal
        decreases |queue|, n - len
      {
        var skb := queue[0];
        var size := Size(skb.frags);
        var copy := Min(size, n - len);
        if size <= copy {
          flags := Flags(flags.fin || skb.fin, flags.psh || skb.psh, skb.eor);
          queue := queue[1..];
        } else {
          var frags := new Frag[|skb.frags|](i requires 0 <= i < |skb.frags| => skb.frags[i]);
          assert frags[..|skb.frags|] == skb.frags;
          var k := TrimHead(frags, |skb.frags|, copy);
          queue := [skb.(start := skb.start + copy, frags := frags[..k])] + queue[1..];
        }
        len := len + copy;
      }
    }

    /** Clones the payload and eats it off the queue; a failed clone touches nothing. */
    method BuildProbe(n: nat, ghost alike: int -> bool, ghost mem: Memory) returns (probe: Skb, ok: bool)
      requires Partition(queue) && 0 < n < Length(queue) && CanCoalesce(queue, n, alike)
      modifies this`queue
      ensures !ok ==> queue == old(queue) && !Clonable(queue)
      ensures ok ==> SameStream(mem, old(queue), [probe] + queue) && Follows(probe, queue)
      ensures ok ==> probe.start == old(queue)[0].start && probe.end == probe.start + n && !probe.fin
    {
      hide Stream, Payload, Fragments, Eat, Marks, CanCoalesce;
      ghost var before := queue;
      var frags;
      frags, ok := CloneHead(queue, n, mem);
      if !ok { return queue[0], false; }
      var start := queue[0].start;
      var flags := EatHead(n);
      probe := Skb(start, start + n, 0, frags, flags.fin, flags.psh, flags.eor);
      ProbeKeepsStream(mem, before, n, frags, alike, queue, flags);
    }

    /** `tcp_mtu_probe`: -1, 0 or 1 as in the source.  Unless it reports 1 the stream in the
        write queue is the same; before the payload clone succeeds nothing is touched at all;
        with 1 exactly the first `probeSize` bytes moved to the retransmit queue. */
    method Probe(input: ProbeInput, ghost mem: Memory) returns (r: int)
      requires Valid() && input.Valid() && cwnd > 0
      modifies this
      ensures Valid() && writeSeq == old(writeSeq)
      ensures r == -1 || r == 0 || r == 1
      ensures r != 1 ==> sent == old(sent) && cwnd == old(cwnd) && sndNxt == old(sndNxt)
      ensures r != 1 ==> queue == old(queue) || (r == -1 && !input.transmitted && SameStream(mem, old(queue), queue))
      ensures r == 1 ==> |sent| == |old(sent)| + 1 && sent[..|old(sent)|] == old(sent) && !sent[|sent| - 1].fin
      ensures r == 1 ==> SameStream(mem, old(queue), [sent[|sent| - 1]] + queue)
      ensures r == 1 ==> sndNxt == old(sndNxt) + input.probeSize && cwnd == old(cwnd) - 1
      ensures r == 0 <==> input.Wanted(writeSeq - old(sndNxt)) && input.MustWait(old(sndNxt), old(cwnd)) && !input.Stuck(old(sndNxt), old(cwnd))
      ensures r == 1 ==> input.Wanted(writeSeq - old(sndNxt)) && !input.MustWait(old(sndNxt), old(cwnd))
      ensures input.Wanted(writeSeq - old(sndNxt)) && !input.MustWait(old(sndNxt), old(cwnd)) && input.Buildable(old(queue)) ==> r == 1
    {
      var n, needed := input.probeSize, input.SizeNeeded();
      if !input.eligible || writeSeq - sndNxt < needed || input.sndWnd < needed { return -1; }
      if sndNxt + needed > input.sndUna + input.sndWnd { return 0; }
      if input.inFlight + 2 > cwnd { return if input.inFlight == 0 then -1 else 0; }
      if !CanCoalesce(queue, n, input.alike) || !input.skbOk || !input.scheduled { return -1; }
      EnoughData(queue, input, writeSeq - sndNxt);
      var probe, ok := BuildProbe(n, input.alike, mem);
      if !ok { return -1; }
      if input.transmitted {
        r, sent, sndNxt, cwnd := 1, sent + [probe], probe.end, cwnd - 1;
      } else {
        r, queue := -1, [probe] + queue;
      }
    }
  }

  /** A sent-or-sendable skb directly before the rest of the queue. */
  ghost predicate Follows(p: Skb, r: seq<Skb>) {
    r != [] && Partition(r) && p.end == r[0].start
  }

  /** Room for the probe and at least one more segment leaves a byte that is not probed, so
      a FIN behind the data stays where it is. */
  lemma EnoughData(q: seq<Skb>, input: ProbeInput, available: int)
    requires Partition(q) && input.Valid() && available >= input.SizeNeeded()
    requires available == if q == [] then 0 else q[|q| - 1].end - q[0].start
    ensures 0 < input.probeSize < Length(q)
  {
    MulGrows(input.reordering + 1, input.mssCache);
    if q != [] { EndOfPartition(q); }
  }
}
