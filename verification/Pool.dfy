/** The QUIC connection pool (quic/src/pool.rs): a 128-slot open-addressed table with linear probing and
  * eviction, beside a lookup that scans the slots for a packed address.
  */
module Pool {
  import opened Bits
  import opened Common

  const MAX_POOL_SIZE: nat := 128
  const U32: nat := 0x1_0000_0000

  type Port = p: nat | p < 0x1_0000
  type Ipv4 = a: nat | a < U32
  type Segments = s: seq<Port> | |s| == 8 witness [0, 0, 0, 0, 0, 0, 0, 0]

  datatype SocketAddr =
    | V4(ip: Ipv4, port: Port)
    | V6(segments: Segments, port: Port, flowInfo: nat, scopeId: nat)

  datatype ConnectionState = Connecting | Ready | Failed | Dead

  // ------------------------------------------------------------ packing and hashing

  /** The segments of an IPv6 address as one number, most significant first. */
  function PackSegments(s: Segments, n: nat): (val: nat)
    requires n <= 8
  {
    if n == 0 then 0 else Or(PackSegments(s, n - 1), ShiftLeft(s[n - 1], (8 - n) * 16))
  }

  /** `socket_addr_to_u128`. */
  function Pack(addr: SocketAddr): (packed: nat)
  {
    match addr
    case V4(ip, port) => Or(ShiftLeft(ip, 16), port)
    case V6(segments, port, _, _) => Xor(PackSegments(segments, 8), port)
  }

  function Fnv(hash: nat, value: nat, prime: nat, modulus: nat): (h: nat)
    requires modulus > 0
    ensures h < modulus
  {
    (Xor(hash, value) * prime) % modulus
  }

  function FnvSegments(s: Segments, n: nat): (h: nat)
    requires n <= 8
  {
    if n == 0 then 2166136261 else Fnv(FnvSegments(s, n - 1), s[n - 1], 1099511628211, U64)
  }

  /** `hash_addr`. */
  function Hash(addr: SocketAddr): (h: nat)
    ensures h < MAX_POOL_SIZE
  {
    match addr
    case V4(ip, port) => Fnv(Fnv(2166136261, ip, 16777619, U32), port, 16777619, U32) % MAX_POOL_SIZE
    case V6(segments, port, _, _) => Fnv(FnvSegments(segments, 8), port, 1099511628211, U64) % MAX_POOL_SIZE
  }

  /** The low digits of a shifted number are free to be filled in. */
  lemma {:induction false} OrAppends(hi: nat, lo: nat, n: nat)
    requires lo < Pow2(n)
    ensures Or(ShiftLeft(hi, n), lo) == ShiftLeft(hi, n) + lo
  {
    if n == 0 {
      OrWithZero(hi);
    } else {
      OrAppends(hi, lo / 2, n - 1);
    }
  }

  lemma {:induction false} OrWithZero(a: nat)
    ensures Or(a, 0) == a
  {
    if a > 0 { OrWithZero(a / 2); }
  }

  lemma {:induction false} OrShifted(a: nat, b: nat, n: nat)
    ensures Or(ShiftLeft(a, n), ShiftLeft(b, n)) == ShiftLeft(Or(a, b), n)
  {
    if n > 0 { OrShifted(a, b, n - 1); }
  }

  lemma {:induction false} ShiftTwice(x: nat, m: nat, n: nat)
    ensures ShiftLeft(x, m + n) == ShiftLeft(ShiftLeft(x, m), n)
  {
    if n > 0 { ShiftTwice(x, m, n - 1); }
  }

  lemma {:induction false} XorAppends(hi: nat, x: nat, y: nat, n: nat)
    requires x < Pow2(n) && y < Pow2(n)
    ensures Xor(ShiftLeft(hi, n) + x, y) == ShiftLeft(hi, n) + Xor(x, y)
  {
    if n == 0 {
      XorZero(hi);
    } else {
      XorAppends(hi, x / 2, y / 2, n - 1);
    }
  }

  lemma {:induction false} SamePair(x: nat, p: nat, y: nat, q: nat, n: nat)
    requires p < Pow2(n) && q < Pow2(n) && ShiftLeft(x, n) + p == ShiftLeft(y, n) + q
    ensures x == y && p == q
  {
    if n > 0 { SamePair(x, p / 2, y, q / 2, n - 1); }
  }

  lemma {:induction false} XorCommutes(x: nat, y: nat)
    ensures Xor(x, y) == Xor(y, x)
    decreases x + y
  {
    if x + y > 0 { XorCommutes(x / 2, y / 2); }
  }

  /** IPv4 packing is injective. */
  lemma {:induction false} PackV4Injective(a: SocketAddr, b: SocketAddr)
    requires a.V4? && b.V4? && Pack(a) == Pack(b)
    ensures a == b
  {
    var n := 16;
    Pow16(n);
    OrAppends(a.ip, a.port, n);
    OrAppends(b.ip, b.port, n);
    SamePair(a.ip, a.port, b.ip, b.port, n);
  }

  /** Segments before the last one leave its sixteen digits free. */
  lemma {:induction false} PrefixIsShifted(s: Segments, n: nat, k: nat) returns (m: nat)
    requires n <= 7 && k == 16
    ensures PackSegments(s, n) == ShiftLeft(m, k)
  {
    if n == 0 {
      m := 0;
      ShiftZero(k);
    } else {
      var before := PrefixIsShifted(s, n - 1, k);
      var rest := (7 - n) * 16;
      ShiftTwice(s[n - 1], rest, k);
      OrShifted(before, ShiftLeft(s[n - 1], rest), k);
      m := Or(before, ShiftLeft(s[n - 1], rest));
    }
  }

  lemma {:induction false} ShiftZero(k: nat)
    ensures ShiftLeft(0, k) == 0
  {
    if k > 0 { ShiftZero(k - 1); }
  }

  /** IPv6 packing is not: exchanging the last segment and the port gives the same number. */
  lemma {:induction false} PackV6Collides(s: Segments, x: Port, y: Port, f: nat, g: nat)
    ensures Pack(V6(s[7 := x], y, f, g)) == Pack(V6(s[7 := y], x, f, g))
  {
    var k := 16;
    var m := PrefixIsShifted(s, 7, k);
    PackV6Is(s, x, y, f, g, m, k);
    PackV6Is(s, y, x, f, g, m, k);
    XorCommutes(x, y);
  }

  /** The port meets only the last segment. */
  lemma {:induction false} PackV6Is(s: Segments, x: Port, y: Port, f: nat, g: nat, m: nat, k: nat)
    requires k == 16 && PackSegments(s, 7) == ShiftLeft(m, k)
    ensures Pack(V6(s[7 := x], y, f, g)) == ShiftLeft(m, k) + Xor(x, y)
  {
    Pow16(k);
    PrefixIgnoresLast(s, x, 7);
    OrAppends(m, x, k);
    XorAppends(m, x, y, k);
  }

  lemma {:induction false} PrefixIgnoresLast(s: Segments, x: Port, n: nat)
    requires n <= 7
    ensures PackSegments(s[7 := x], n) == PackSegments(s, n)
  {
    if n > 0 { PrefixIgnoresLast(s, x, n - 1); }
  }

  // ------------------------------------------------------------ the table

  datatype Slot = Slot(addr: SocketAddr, occupied: bool, state: ConnectionState, retryCount: nat, version: nat,
      lastActivity: nat)

  const VACANT: Slot := Slot(V4(0, 0), false, Connecting, 0, 0, 0)

  type Table = t: seq<Slot> | |t| == MAX_POOL_SIZE witness seq(MAX_POOL_SIZE, i => VACANT)

  /** Slot `k` is tried before slot `j` by a probe that starts at `h`. */
  predicate OnPath(h: nat, j: nat, k: nat)
  {
    if h <= j then h <= k < j else h <= k || k < j
  }

  predicate Holds(t: Table, k: nat, addr: SocketAddr)
  {
    k < MAX_POOL_SIZE && t[k].occupied && t[k].addr == addr
  }

  /** Slot `k` is taken by another address. */
  predicate Taken(t: Table, k: nat, addr: SocketAddr)
  {
    k < MAX_POOL_SIZE && t[k].occupied && t[k].addr != addr
  }

  ghost predicate Passed(t: Table, addr: SocketAddr, idx: nat)
  {
    forall k: nat :: k < MAX_POOL_SIZE && OnPath(Hash(addr), idx, k) ==> Taken(t, k, addr)
  }

  ghost predicate FullMiss(t: Table, addr: SocketAddr)
  {
    forall k: nat :: k < MAX_POOL_SIZE ==> Taken(t, k, addr)
  }

  predicate Expendable(s: Slot) { s.occupied && (s.state.Dead? || s.state.Failed?) }

  /** The slot eviction picks in a full table: the first dead or failed one, otherwise the first of those
    * inactive for longest.
    */
  ghost predicate IsVictim(t: Table, v: nat)
  {
    && v < MAX_POOL_SIZE
    && (forall k :: 0 <= k < v ==> !Expendable(t[k]))
    && (!Expendable(t[v]) ==>
          && (forall k :: 0 <= k < MAX_POOL_SIZE ==> !Expendable(t[k]) && t[v].lastActivity <= t[k].lastActivity)
          && (forall k :: 0 <= k < v ==> t[v].lastActivity < t[k].lastActivity))
  }

  function Connected(before: Slot, addr: SocketAddr, now: nat): (s: Slot)
  {
    Slot(addr, true, Connecting, 0, (before.version + 1) % U64, now)
  }

  /** What one call of `find_or_allocate` does to the table. */
  ghost predicate Allocates(t: Table, t': Table, addr: SocketAddr, now: nat, idx: nat)
  {
    || (Holds(t, idx, addr) && Passed(t, addr, idx) && t' == t)
    || (idx < MAX_POOL_SIZE && !t[idx].occupied && Passed(t, addr, idx) && t' == t[idx := Connected(t[idx], addr, now)])
    || (FullMiss(t, addr) && IsVictim(t, idx) && t' == t[idx := Connected(t[idx], addr, now)])
  }

  predicate Matches(s: Slot, packed: nat) { s.occupied && Pack(s.addr) == packed }

  /** The result of the scan: the first occupied slot whose packed address equals that of `addr`. */
  ghost predicate Finds(t: Table, addr: SocketAddr, r: Option<nat>)
  {
    match r
    case Some(idx) =>
      && idx < MAX_POOL_SIZE && Matches(t[idx], Pack(addr))
      && forall k :: 0 <= k < idx ==> !Matches(t[k], Pack(addr))
    case None => forall k :: 0 <= k < MAX_POOL_SIZE ==> !Matches(t[k], Pack(addr))
  }

  class ConnectionPool {
    const slots: array<Slot>

    ghost predicate Valid()
      reads this, slots
    {
      slots.Length == MAX_POOL_SIZE && forall k :: 0 <= k < MAX_POOL_SIZE ==> slots[k].lastActivity < U64
    }

    ghost function Contents(): (t: Table)
      requires Valid()
      reads this, slots
    {
      slots[..]
    }

    constructor ()
      ensures Valid() && fresh(slots) && forall k :: 0 <= k < MAX_POOL_SIZE ==> slots[k] == VACANT
    {
      slots := new Slot[MAX_POOL_SIZE](i => VACANT);
    }

    /** `find_scalar`. */
    method Find(addr: SocketAddr) returns (r: Option<nat>)
      requires Valid()
      ensures Finds(Contents(), addr, r)
    {
      var target := Pack(addr);
      for idx := 0 to MAX_POOL_SIZE
        invariant forall k :: 0 <= k < idx ==> !Matches(slots[k], target)
      {
        if Matches(slots[idx], target) {
          return Some(idx);
        }
      }
      return None;
    }

    /** `find_simd_avx2`: the same search four slots at a time. */
    method FindInChunks(addr: SocketAddr) returns (r: Option<nat>)
      requires Valid()
      ensures Finds(Contents(), addr, r)
    {
      var target := Pack(addr);
      var chunkStart := 0;
      while chunkStart < MAX_POOL_SIZE
        invariant chunkStart % 4 == 0 && chunkStart <= MAX_POOL_SIZE
        invariant forall k :: 0 <= k < chunkStart ==> !Matches(slots[k], target)
      {
        var foundIdx: Option<nat> := None;
        var i := 0;
        while i < 4 && foundIdx.None?
          invariant i <= 4
          invariant foundIdx.None? ==> forall k :: 0 <= k < chunkStart + i ==> !Matches(slots[k], target)
          invariant foundIdx.Some? ==> Finds(Contents(), addr, foundIdx)
          decreases 4 - i, foundIdx.None?
        {
          if Matches(slots[chunkStart + i], target) {
            foundIdx := Some(chunkStart + i);
          } else {
            i := i + 1;
          }
        }
        if foundIdx.Some? {
          return foundIdx;
        }
        chunkStart := chunkStart + 4;
      }
      return None;
    }

    /** `find_or_allocate`, single-threaded: claiming a vacant slot always succeeds. */
    method FindOrAllocate(addr: SocketAddr, now: nat) returns (idx: nat)
      requires Valid() && now < U64
      modifies slots
      ensures Valid() && Allocates(old(Contents()), Contents(), addr, now, idx)
    {
      var start := Hash(addr);
      for i := 0 to MAX_POOL_SIZE
        invariant Valid() && Contents() == old(Contents())
        invariant forall j: nat :: j < i ==> Taken(Contents(), Probe(start, j), addr)
      {
        idx := Probe(start, i);
        ProbedPath(Contents(), addr, i);
        if slots[idx].occupied {
          if slots[idx].addr == addr {
            return;
          }
        } else {
          slots[idx] := Connected(slots[idx], addr, now);
          assert Contents() == old(Contents())[idx := Connected(old(Contents())[idx], addr, now)];
          return;
        }
      }
      ProbedAll(Contents(), addr);
      idx := EvictAndAllocate(addr, now);
    }

    method EvictAndAllocate(addr: SocketAddr, now: nat) returns (oldestIdx: nat)
      requires Valid() && now < U64 && FullMiss(Contents(), addr)
      modifies slots
      ensures Valid() && IsVictim(old(Contents()), oldestIdx)
      ensures Contents() == old(Contents())[oldestIdx := Connected(old(Contents())[oldestIdx], addr, now)]
    {
      oldestIdx := FindVictim(addr);
      slots[oldestIdx] := Connected(slots[oldestIdx], addr, now);
    }

    method FindVictim(ghost addr: SocketAddr) returns (oldestIdx: nat)
      requires Valid() && FullMiss(Contents(), addr)
      ensures IsVictim(Contents(), oldestIdx)
    {
      oldestIdx := 0;
      var oldestTime := U64 - 1;
      for i := 0 to MAX_POOL_SIZE
        invariant oldestIdx < MAX_POOL_SIZE
        invariant forall k :: 0 <= k < i ==> !Expendable(slots[k]) && oldestTime <= slots[k].lastActivity
        invariant forall k :: 0 <= k < oldestIdx ==> oldestTime < slots[k].lastActivity
        invariant oldestIdx < i || oldestIdx == 0
        invariant oldestTime == slots[oldestIdx].lastActivity || (oldestIdx == 0 && oldestTime == U64 - 1)
      {
        assert Taken(Contents(), i, addr);
        if slots[i].occupied {
          if slots[i].state.Dead? || slots[i].state.Failed? {
            oldestIdx := i;
            break;
          }
          if slots[i].lastActivity < oldestTime {
            oldestTime := slots[i].lastActivity;
            oldestIdx := i;
          }
        }
      }
    }

    /** `remove` vacates a slot and leaves its address behind. */
    method Remove(idx: nat)
      requires Valid() && idx < MAX_POOL_SIZE
      modifies slots
      ensures Valid() && Contents() == Removed(old(Contents()), idx)
    {
      slots[idx] := slots[idx].(occupied := false, version := (slots[idx].version + 1) % U64);
    }
  }

  function Removed(t: Table, idx: nat): (t': Table)
    requires idx < MAX_POOL_SIZE
  {
    t[idx := t[idx].(occupied := false, version := (t[idx].version + 1) % U64)]
  }

  /** The slot looked at in turn `i` of a probe. */
  function Probe(start: nat, i: nat): (idx: nat)
    ensures idx < MAX_POOL_SIZE
  {
    (start + i) % MAX_POOL_SIZE
  }

  /** The slots on the path are the ones probed before. */
  lemma {:induction false} ProbedPath(t: Table, addr: SocketAddr, i: nat)
    requires i < MAX_POOL_SIZE && forall j: nat :: j < i ==> Taken(t, Probe(Hash(addr), j), addr)
    ensures Passed(t, addr, Probe(Hash(addr), i))
  {
    var h := Hash(addr);
    forall k: nat | k < MAX_POOL_SIZE && OnPath(h, Probe(h, i), k)
      ensures Taken(t, k, addr)
    {
      var j := ProbedBefore(h, i, k);
    }
  }

  lemma {:induction false} ProbedBefore(h: nat, i: nat, k: nat) returns (j: nat)
    requires h < MAX_POOL_SIZE && i < MAX_POOL_SIZE && k < MAX_POOL_SIZE && OnPath(h, Probe(h, i), k)
    ensures j < i && Probe(h, j) == k
  {
    j := if h <= k then k - h else k + MAX_POOL_SIZE - h;
  }

  lemma {:induction false} ProbedAll(t: Table, addr: SocketAddr)
    requires forall j: nat :: j < MAX_POOL_SIZE ==> Taken(t, Probe(Hash(addr), j), addr)
    ensures FullMiss(t, addr)
  {
    var h := Hash(addr);
    forall k: nat | k < MAX_POOL_SIZE
      ensures Taken(t, k, addr)
    {
      var j := if h <= k then k - h else k + MAX_POOL_SIZE - h;
      assert Probe(h, j) == k;
    }
  }

  // ------------------------------------------------------------ invariant

  /** No address sits in two slots. */
  ghost predicate Distinct(t: Table)
  {
    forall i: nat, j: nat ::
      i < MAX_POOL_SIZE && j < MAX_POOL_SIZE && t[i].occupied && t[j].occupied && t[i].addr == t[j].addr ==> i == j
  }

  /** Every slot between an address's hash and its slot is occupied, so a probe gets there. */
  ghost predicate Reachable(t: Table)
  {
    forall j: nat, k: nat ::
      j < MAX_POOL_SIZE && k < MAX_POOL_SIZE && t[j].occupied && OnPath(Hash(t[j].addr), j, k) ==> t[k].occupied
  }

  ghost predicate Inv(t: Table) { Distinct(t) && Reachable(t) }

  /** A probe that has passed over taken slots up to a vacant one has seen every copy of the address. */
  lemma {:induction false} PassedMeansAbsent(t: Table, addr: SocketAddr, idx: nat, j: nat)
    requires Inv(t) && idx < MAX_POOL_SIZE && !t[idx].occupied && Passed(t, addr, idx) && j < MAX_POOL_SIZE
    ensures !Holds(t, j, addr)
  {
    var h := Hash(addr);
    assert OnPath(h, idx, j) ==> Taken(t, j, addr);
    assert j == idx || OnPath(h, idx, j) || OnPath(h, j, idx);
  }

  lemma {:induction false} ClaimInv(t: Table, addr: SocketAddr, now: nat, idx: nat)
    requires Inv(t) && idx < MAX_POOL_SIZE && !t[idx].occupied && Passed(t, addr, idx)
    ensures Inv(t[idx := Connected(t[idx], addr, now)])
  {
    var s := Connected(t[idx], addr, now);
    forall j: nat | j < MAX_POOL_SIZE ensures !Holds(t, j, addr) {
      PassedMeansAbsent(t, addr, idx, j);
    }
    ClaimDistinct(t, s, idx);
    forall k: nat | k < MAX_POOL_SIZE && OnPath(Hash(addr), idx, k) ensures t[k].occupied {
      assert Taken(t, k, addr);
    }
    ClaimReachable(t, s, idx);
  }

  lemma {:induction false} ClaimDistinct(t: Table, s: Slot, idx: nat)
    requires Distinct(t) && idx < MAX_POOL_SIZE
    requires forall j: nat :: j < MAX_POOL_SIZE && j != idx ==> !Holds(t, j, s.addr)
    ensures Distinct(t[idx := s])
  {
    forall j: nat | j < MAX_POOL_SIZE && j != idx && t[j].occupied ensures t[j].addr != s.addr {
      assert !Holds(t, j, s.addr);
    }
  }

  lemma {:induction false} ClaimReachable(t: Table, s: Slot, idx: nat)
    requires Reachable(t) && idx < MAX_POOL_SIZE && s.occupied
    requires forall k: nat :: k < MAX_POOL_SIZE && OnPath(Hash(s.addr), idx, k) ==> t[k].occupied
    ensures Reachable(t[idx := s])
  {
    var t' := t[idx := s];
    forall j: nat, k: nat | j < MAX_POOL_SIZE && k < MAX_POOL_SIZE && t'[j].occupied && OnPath(Hash(t'[j].addr), j, k)
      ensures t'[k].occupied
    {
      assert j == idx || t[j] == t'[j];
    }
  }

  lemma {:induction false} EvictInv(t: Table, addr: SocketAddr, now: nat, idx: nat)
    requires Inv(t) && FullMiss(t, addr) && idx < MAX_POOL_SIZE
    ensures Inv(t[idx := Connected(t[idx], addr, now)])
  {
    var s := Connected(t[idx], addr, now);
    forall k: nat | k < MAX_POOL_SIZE ensures t[k].occupied && !Holds(t, k, addr) {
      assert Taken(t, k, addr);
    }
    ClaimDistinct(t, s, idx);
    ClaimReachable(t, s, idx);
  }

  lemma {:induction false} AllocateInv(t: Table, t': Table, addr: SocketAddr, now: nat, idx: nat)
    requires Inv(t) && Allocates(t, t', addr, now, idx)
    ensures Inv(t') && Holds(t', idx, addr)
  {
    if FullMiss(t, addr) && IsVictim(t, idx) {
      EvictInv(t, addr, now, idx);
    } else if !Holds(t, idx, addr) {
      ClaimInv(t, addr, now, idx);
    }
  }

  /** The prober returns the slot the address has, and changes nothing, exactly when it has one. */
  lemma {:induction false} ProberFinds(t: Table, t': Table, addr: SocketAddr, now: nat, idx: nat, j: nat)
    requires Inv(t) && Allocates(t, t', addr, now, idx) && Holds(t, j, addr)
    ensures idx == j && t' == t
  {
    assert Taken(t, j, addr) == false;
    if !t[idx].occupied {
      PassedMeansAbsent(t, addr, idx, j);
      assert false;
    }
  }

  /** A call has exactly one outcome. */
  lemma {:induction false} AllocateDeterministic(t: Table, addr: SocketAddr, now: nat, t1: Table, i1: nat, t2: Table,
      i2: nat)
    requires Allocates(t, t1, addr, now, i1) && Allocates(t, t2, addr, now, i2)
    ensures i1 == i2 && t1 == t2
  {
    var h := Hash(addr);
    assert i1 == i2 || OnPath(h, i1, i2) || OnPath(h, i2, i1);
    assert FullMiss(t, addr) ==> Taken(t, i1, addr) && Taken(t, i2, addr);
    assert Passed(t, addr, i1) && OnPath(h, i1, i2) ==> Taken(t, i2, addr);
    assert Passed(t, addr, i2) && OnPath(h, i2, i1) ==> Taken(t, i1, addr);
    if IsVictim(t, i1) && IsVictim(t, i2) {
      VictimUnique(t, i1, i2);
    }
  }

  lemma {:induction false} VictimUnique(t: Table, v: nat, w: nat)
    requires IsVictim(t, v) && IsVictim(t, w)
    ensures v == w
  {
    var sv, sw := t[v], t[w];
    assert Expendable(sv) == Expendable(sw);
  }

  /** As long as some connection is dead or has failed, that is what eviction takes: the first of them. Otherwise no
    * connection has been inactive for longer than the one it takes.
    */
  lemma {:induction false} EvictsBrokenFirst(t: Table, v: nat)
    requires (forall k :: 0 <= k < MAX_POOL_SIZE ==> t[k].occupied) && IsVictim(t, v)
    ensures (exists k :: 0 <= k < MAX_POOL_SIZE && (t[k].state == Dead || t[k].state == Failed))
       <==> t[v].state == Dead || t[v].state == Failed
    ensures forall k :: 0 <= k < v ==> t[k].state == Connecting || t[k].state == Ready
    ensures t[v].state == Connecting || t[v].state == Ready ==>
              forall k :: 0 <= k < MAX_POOL_SIZE ==> t[v].lastActivity <= t[k].lastActivity
  {
    forall k | 0 <= k < MAX_POOL_SIZE && (t[k].state == Dead || t[k].state == Failed)
      ensures Expendable(t[k])
    {
    }
    forall k | 0 <= k < v ensures t[k].state == Connecting || t[k].state == Ready {
      assert !Expendable(t[k]);
    }
  }

  /** A slot that has just been claimed is connecting, with a clean record and the time of the call. If the clock has
    * not gone back it is the next to be evicted only as a last resort: when it is the first slot, no slot is dead or
    * failed, and none has been inactive for longer.
    */
  lemma {:induction false} ClaimedIsNewest(t: Table, t': Table, addr: SocketAddr, now: nat, idx: nat, v: nat)
    requires Allocates(t, t', addr, now, idx) && !Holds(t, idx, addr) && IsVictim(t', v)
    requires forall k :: 0 <= k < MAX_POOL_SIZE ==> t[k].lastActivity <= now
    ensures t'[idx] == Slot(addr, true, Connecting, 0, (t[idx].version + 1) % U64, now)
    ensures forall k :: 0 <= k < MAX_POOL_SIZE && k != idx ==> t'[k] == t[k]
    ensures v == idx <==>
            idx == 0 && forall k :: 0 <= k < MAX_POOL_SIZE ==> !Expendable(t'[k]) && t'[k].lastActivity == now
  {
    assert !Expendable(t'[idx]);
    if v == idx && idx > 0 {
      assert t'[idx].lastActivity < t'[0].lastActivity;
    }
    if idx == 0 && v > 0 && !Expendable(t'[v]) {
      assert t'[v].lastActivity < t'[0].lastActivity;
    }
  }

  // ------------------------------------------------------------ whole runs

  datatype Step =
    | Allocate(addr: SocketAddr, now: nat, idx: nat)
    | Vacate(idx: nat)             // `remove`
    | Adjust(k: nat, slot: Slot)   // state, retries, activity: all the other slot updates

  ghost predicate NextStep(t: Table, t': Table, step: Step)
  {
    match step
    case Allocate(addr, now, idx) => Allocates(t, t', addr, now, idx)
    case Vacate(idx) => idx < MAX_POOL_SIZE && t' == Removed(t, idx)
    case Adjust(k, slot) =>
      k < MAX_POOL_SIZE && slot.addr == t[k].addr && slot.occupied == t[k].occupied && t' == t[k := slot]
  }

  /** A new pool. */
  function Empty(): (t: Table)
    ensures forall k :: 0 <= k < MAX_POOL_SIZE ==> t[k] == VACANT
  {
    seq(MAX_POOL_SIZE, i => VACANT)
  }

  /** Tables and the steps between them, from an empty pool. */
  ghost predicate IsRun(tables: seq<Table>, steps: seq<Step>)
  {
    && |tables| == |steps| + 1 && tables[0] == Empty()
    && forall i :: 0 <= i < |steps| ==> NextStep(tables[i], tables[i + 1], steps[i])
  }

  /** No address in another slot is reached past slot `idx`. */
  ghost predicate Unprobed(t: Table, idx: nat)
  {
    forall j: nat :: j < MAX_POOL_SIZE && j != idx && t[j].occupied ==> !OnPath(Hash(t[j].addr), j, idx)
  }

  /** Slots are only removed when nothing is reached past them; runs without `remove` are safe. */
  ghost predicate Safe(tables: seq<Table>, steps: seq<Step>)
    requires |tables| == |steps| + 1
  {
    forall i :: 0 <= i < |steps| && steps[i].Vacate? ==> Unprobed(tables[i], steps[i].idx)
  }

  /** `remove` keeps the invariant exactly when no other address was reached past the vacated slot. */
  lemma {:induction false} RemoveKeepsExactly(t: Table, idx: nat)
    requires Inv(t) && idx < MAX_POOL_SIZE
    ensures Inv(Removed(t, idx)) <==> Unprobed(t, idx)
  {
    var t' := Removed(t, idx);
    if Inv(t') {
      forall j: nat | j < MAX_POOL_SIZE && j != idx && t[j].occupied
        ensures !OnPath(Hash(t[j].addr), j, idx)
      {
        assert t'[j].occupied && !t'[idx].occupied;
      }
    }
  }

  lemma {:induction false} StepInv(t: Table, t': Table, step: Step)
    requires Inv(t) && NextStep(t, t', step) && (step.Vacate? ==> Unprobed(t, step.idx))
    ensures Inv(t')
  {
    match step
    case Allocate(addr, now, idx) => AllocateInv(t, t', addr, now, idx);
    case Vacate(idx) => RemoveKeepsExactly(t, idx);
    case Adjust(_, _) =>
  }

  lemma {:induction false} RunInv(tables: seq<Table>, steps: seq<Step>, i: nat)
    requires IsRun(tables, steps) && Safe(tables, steps) && i <= |steps|
    ensures Inv(tables[i])
  {
    if i > 0 {
      RunInv(tables, steps, i - 1);
      assert NextStep(tables[i - 1], tables[i], steps[i - 1]);
      StepInv(tables[i - 1], tables[i], steps[i - 1]);
    }
  }

  /** Some occupied slot other than `idx` packs to the same number, before `idx`. */
  ghost predicate Shadowed(t: Table, addr: SocketAddr, idx: nat)
  {
    exists k :: 0 <= k < idx < MAX_POOL_SIZE && Matches(t[k], Pack(addr))
  }

  /** Main theorem. After any calls, evictions and safe removals included, an address is in at most one slot; that
    * is the slot the prober returns, without touching the table; and the scan returns the same slot exactly when
    * no earlier slot is occupied by another address with the same packing.
    */
  lemma {:induction false} ProberAndScanAgree(tables: seq<Table>, steps: seq<Step>, i: nat, addr: SocketAddr, j: nat,
                                             t': Table, now: nat, idx: nat, r: Option<nat>)
    requires IsRun(tables, steps) && Safe(tables, steps) && i <= |steps| && Holds(tables[i], j, addr)
    requires Allocates(tables[i], t', addr, now, idx) && Finds(tables[i], addr, r)
    ensures forall k: nat :: k != j ==> !Holds(tables[i], k, addr)
    ensures idx == j && t' == tables[i]
    ensures r == Some(idx) <==> !Shadowed(tables[i], addr, j)
  {
    RunInv(tables, steps, i);
    ProberFinds(tables[i], t', addr, now, idx, j);
    assert Matches(tables[i][j], Pack(addr));
  }

  /** The index a call returned is where the address now is. */
  lemma {:induction false} AllocatedIsHeld(tables: seq<Table>, steps: seq<Step>, i: nat)
    requires IsRun(tables, steps) && Safe(tables, steps) && i < |steps| && steps[i].Allocate?
    ensures Holds(tables[i + 1], steps[i].idx, steps[i].addr)
  {
    RunInv(tables, steps, i);
    assert NextStep(tables[i], tables[i + 1], steps[i]);
    AllocateInv(tables[i], tables[i + 1], steps[i].addr, steps[i].now, steps[i].idx);
  }

  // ------------------------------------------------------------ IPv4

  ghost predicate AllV4(steps: seq<Step>)
  {
    forall i :: 0 <= i < |steps| && steps[i].Allocate? ==> steps[i].addr.V4?
  }

  lemma {:induction false} OccupiedAreV4(tables: seq<Table>, steps: seq<Step>, i: nat, k: nat)
    requires IsRun(tables, steps) && AllV4(steps) && i <= |steps| && k < MAX_POOL_SIZE
    ensures tables[i][k].addr.V4?
  {
    if i > 0 {
      OccupiedAreV4(tables, steps, i - 1, k);
      assert NextStep(tables[i - 1], tables[i], steps[i - 1]);
    }
  }

  /** Main theorem for IPv4 pools: the scan is exact. It finds an address if and only if some slot holds it,
    * and then it is the one slot that holds it.
    */
  lemma {:induction false} ScanIsExactOnV4(tables: seq<Table>, steps: seq<Step>, i: nat, addr: SocketAddr,
      r: Option<nat>)
    requires IsRun(tables, steps) && Safe(tables, steps) && AllV4(steps)
    requires i <= |steps| && addr.V4? && Finds(tables[i], addr, r)
    ensures forall j: nat :: Holds(tables[i], j, addr) <==> r == Some(j)
  {
    RunInv(tables, steps, i);
    forall k: nat | k < MAX_POOL_SIZE && Matches(tables[i][k], Pack(addr))
      ensures Holds(tables[i], k, addr)
    {
      OccupiedAreV4(tables, steps, i, k);
      PackV4Injective(tables[i][k].addr, addr);
    }
    assert forall j: nat :: Holds(tables[i], j, addr) ==> Matches(tables[i][j], Pack(addr));
  }

  /** Prober and scan never disagree on an IPv4 pool: right after a call returned `idx`, the scan returns `idx`. */
  lemma {:induction false} ScanFindsAllocated(tables: seq<Table>, steps: seq<Step>, i: nat, r: Option<nat>)
    requires IsRun(tables, steps) && Safe(tables, steps) && AllV4(steps) && i < |steps| && steps[i].Allocate?
    requires Finds(tables[i + 1], steps[i].addr, r)
    ensures r == Some(steps[i].idx)
  {
    AllocatedIsHeld(tables, steps, i);
    ScanIsExactOnV4(tables, steps, i + 1, steps[i].addr, r);
  }

  // ------------------------------------------------------------ why not IPv6, and why not remove

  function Stored(addr: SocketAddr, now: nat): (s: Slot) { Connected(VACANT, addr, now) }

  /** The first call of a run claims the slot the hash names. */
  lemma {:induction false} FirstAllocate(addr: SocketAddr, now: nat)
    ensures Allocates(Empty(), Empty()[Hash(addr) := Stored(addr, now)], addr, now, Hash(addr))
  {
    assert Passed(Empty(), addr, Hash(addr));
  }

  /** With IPv6 the scan can return another address's slot, after a single call: exchange the port and a
    * different last segment of any address.
    */
  lemma {:induction false} ScanConfusesV6(s: Segments, x: Port, y: Port, f: nat, g: nat, now: nat)
    requires x != y
    ensures var a, b := V6(s[7 := x], y, f, g), V6(s[7 := y], x, f, g);
            var t: Table := Empty()[Hash(a) := Stored(a, now)];
            && IsRun([Empty(), t], [Allocate(a, now, Hash(a))])
            && Finds(t, b, Some(Hash(a))) && forall k: nat :: !Holds(t, k, b)
  {
    var a := V6(s[7 := x], y, f, g);
    FirstAllocate(a, now);
    PackV6Collides(s, x, y, f, g);
    assert s[7 := y][7] != s[7 := x][7];
  }

  /** Otherwise the next call for an address behind the hole claims a second slot for it. */
  lemma {:induction false} RemoveDuplicates(t: Table, t': Table, idx: nat, j: nat, now: nat, k: nat)
    requires Inv(t) && idx < MAX_POOL_SIZE && j < MAX_POOL_SIZE && j != idx && t[j].occupied
    requires OnPath(Hash(t[j].addr), j, idx)
    requires Allocates(Removed(t, idx), t', t[j].addr, now, k)
    ensures k == idx && Holds(t', k, t[j].addr) && Holds(t', j, t[j].addr)
  {
    var addr, u := t[j].addr, Removed(t, idx);
    assert !Taken(u, j, addr) && !Taken(u, idx, addr);
    assert forall m: nat :: m < MAX_POOL_SIZE && OnPath(Hash(addr), idx, m) ==> t[m].occupied;
  }

  /** Ports that agree modulo the size of the table put an IPv4 address into the same slot. */
  lemma {:induction false} SameBucket(ip: Ipv4, p: Port, q: Port)
    requires p % MAX_POOL_SIZE == q % MAX_POOL_SIZE
    ensures Hash(V4(ip, p)) == Hash(V4(ip, q))
  {
    var h, n := Fnv(2166136261, ip, 16777619, U32), 7;
    Pow7(n);
    XorLowDigits(h, p, q, n);
    ProductLowDigits(Xor(h, p), Xor(h, q));
  }

  lemma {:induction false} Pow7(n: nat)
    requires n == 7
    ensures Pow2(n) == MAX_POOL_SIZE
  {
    assert Pow2(n - 5) == 4;
    assert Pow2(n - 3) == 16;
  }

  /** The low digits of an exclusive or come from the low digits of its operands. */
  lemma {:induction false} XorLowDigits(a: nat, x: nat, y: nat, n: nat)
    requires x % Pow2(n) == y % Pow2(n)
    ensures Xor(a, x) % Pow2(n) == Xor(a, y) % Pow2(n)
  {
    if n > 0 {
      var p := Pow2(n - 1);
      DivModDouble(x, p);
      DivModDouble(y, p);
      XorLowDigits(a / 2, x / 2, y / 2, n - 1);
      XorDigit(a, x);
      XorDigit(a, y);
      DivModDouble(Xor(a, x), p);
      DivModDouble(Xor(a, y), p);
    }
  }

  lemma {:induction false} ProductLowDigits(x: nat, y: nat)
    requires x % MAX_POOL_SIZE == y % MAX_POOL_SIZE
    ensures (x * 16777619) % U32 % MAX_POOL_SIZE == (y * 16777619) % U32 % MAX_POOL_SIZE
  {
    LowDigitsOfWord(x * 16777619);
    LowDigitsOfWord(y * 16777619);
    LowDigitsOfProduct(x);
    LowDigitsOfProduct(y);
  }

  lemma {:induction false} LowDigitsOfProduct(x: nat)
    ensures (x * 16777619) % MAX_POOL_SIZE == (x % MAX_POOL_SIZE * 16777619) % MAX_POOL_SIZE
  {
    var r, i := x % 128, x / 128;
    assert x * 16777619 == r * 16777619 + 128 * (i * 16777619);
    AddMultiple(r * 16777619, i * 16777619);
  }

  lemma {:induction false} AddMultiple(a: nat, k: nat)
    ensures (a + 128 * k) % 128 == a % 128
  {
  }

  lemma {:induction false} LowDigitsOfWord(x: nat)
    ensures x % U32 % MAX_POOL_SIZE == x % MAX_POOL_SIZE
  {
    assert x == U32 * (x / U32) + x % U32;
  }

  /** Allocate A, allocate B, remove A, allocate B: for every two IPv4 addresses that differ only in ports equal
    * modulo 128, B ends up in two slots.
    */
  lemma {:induction false} RemovalRun(ip: Ipv4, p: Port, q: Port, now: nat)
      returns (tables: seq<Table>, steps: seq<Step>)
    requires p != q && p % MAX_POOL_SIZE == q % MAX_POOL_SIZE
    ensures var a, b := V4(ip, p), V4(ip, q); var h := Hash(a);
            && steps == [Allocate(a, now, h), Allocate(b, now, Probe(h, 1)), Vacate(h), Allocate(b, now, h)]
            && IsRun(tables, steps)
            && h != Probe(h, 1) && Holds(tables[4], h, b) && Holds(tables[4], Probe(h, 1), b)
  {
    var a, b := V4(ip, p), V4(ip, q);
    var h := Hash(a);
    SameBucket(ip, p, q);
    FirstAllocate(a, now);
    var t1: Table := Empty()[h := Stored(a, now)];
    var t2 := SecondAllocate(t1, a, b, now);
    var t3 := Removed(t2, h);
    var t4: Table := t3[h := Connected(t3[h], b, now)];
    assert Allocates(t3, t4, b, now, h) by { assert Passed(t3, b, h); }
    steps := [Allocate(a, now, h), Allocate(b, now, Probe(h, 1)), Vacate(h), Allocate(b, now, h)];
    tables := [Empty(), t1, t2, t3, t4];
  }

  /** An address with the same hash goes one slot further. */
  lemma {:induction false} SecondAllocate(t: Table, a: SocketAddr, b: SocketAddr, now: nat) returns (t': Table)
    requires Hash(a) == Hash(b) && a != b && Holds(t, Hash(a), a) && !t[Probe(Hash(a), 1)].occupied
    ensures t' == t[Probe(Hash(a), 1) := Connected(t[Probe(Hash(a), 1)], b, now)]
    ensures Allocates(t, t', b, now, Probe(Hash(a), 1))
  {
    var h := Hash(a);
    t' := t[Probe(h, 1) := Connected(t[Probe(h, 1)], b, now)];
    forall k: nat | k < MAX_POOL_SIZE && OnPath(h, Probe(h, 1), k) ensures Taken(t, k, b) {
      assert k == h;
    }
  }
}
