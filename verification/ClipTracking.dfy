/** Bounded bookkeeping: in-flight pulls, and markers that suppress the echo of an applied clip. */
module ClipTracking {
  import opened Common
  import opened ClipCanonical
  import opened ClipReassembly

  const MAX_PENDING_PULLS: nat := 64
  const MAX_APPLIED_CLIPS: nat := 128
  const PULL_STALL_TICKS: nat := 30

  type DeviceBytes = seq<byte>

  datatype Os = Macos | Ios | Windows | Linux | Android | OtherOs

  datatype PullKey = PullKey(origin: DeviceBytes, format: ClipFormat, hash: Hash)

  datatype Pull = Pull(key: PullKey, peerOs: Os, deadline: nat, reasm: Reasm)

  function NewPull(key: PullKey, size: nat, peerOs: Os, now: nat): Pull {
    Pull(key, peerOs, SatAdd64(now, PULL_STALL_TICKS), NewReasm(key.format, key.hash, size))
  }

  /** A map of pulls and the queue of their keys, oldest first. */
  datatype Table = Table(entries: map<PullKey, Pull>, order: seq<PullKey>)

  predicate Distinct(q: seq<PullKey>) { forall i, j :: 0 <= i < j < |q| ==> q[i] != q[j] }

  /** The queue lists exactly the map's keys, each once, and there are at most 64. */
  ghost predicate Valid(t: Table) {
    && Distinct(t.order)
    && (forall k :: k in t.order <==> k in t.entries)
    && |t.order| <= MAX_PENDING_PULLS
    && (forall k :: k in t.entries ==> t.entries[k].key == k)
  }

  function Keep(q: seq<PullKey>, ks: set<PullKey>): seq<PullKey> {
    if q == [] then []
    else if q[|q| - 1] in ks then Keep(q[..|q| - 1], ks)
    else Keep(q[..|q| - 1], ks) + [q[|q| - 1]]
  }

  function Without(t: Table, ks: set<PullKey>): Table { Table(t.entries - ks, Keep(t.order, ks)) }

  /** Drops the oldest pull if the table is full. */
  function MakeRoom(t: Table): Table {
    if |t.order| < MAX_PENDING_PULLS then t else Without(t, {t.order[0]})
  }

  function Inserted(t: Table, p: Pull): Table {
    var t' := MakeRoom(Without(t, {p.key}));
    Table(t'.entries[p.key := p], t'.order + [p.key])
  }

  /** The keys satisfying one of the source's filters. */
  function WithHash(t: Table, hash: Hash): set<PullKey> { set k | k in t.entries && k.hash == hash }
  function OfOrigin(t: Table, origin: DeviceBytes): set<PullKey> { set k | k in t.entries && k.origin == origin }
  function Superseded(t: Table, origin: DeviceBytes, offered: seq<PullKey>): set<PullKey> {
    set k | k in t.entries && k.origin == origin && k !in offered
  }
  function Stalled(t: Table, now: nat): set<PullKey> { set k | k in t.entries && now >= t.entries[k].deadline }

  // ---- Keep ---------------------------------------------------------------------------------

  lemma {:induction false} KeepHas(q: seq<PullKey>, ks: set<PullKey>, k: PullKey)
    ensures k in Keep(q, ks) <==> k in q && k !in ks
  {
    if q != [] {
      KeepHas(q[..|q| - 1], ks, k);
      assert k in q <==> k in q[..|q| - 1] || k == q[|q| - 1];
    }
  }

  lemma {:induction false} KeepLength(q: seq<PullKey>, ks: set<PullKey>)
    ensures |Keep(q, ks)| <= |q|
  {
    if q != [] { KeepLength(q[..|q| - 1], ks); }
  }

  lemma {:induction false} KeepDistinct(q: seq<PullKey>, ks: set<PullKey>)
    requires Distinct(q)
    ensures Distinct(Keep(q, ks))
  {
    if q != [] {
      var init, last := q[..|q| - 1], q[|q| - 1];
      KeepDistinct(init, ks);
      KeepHas(init, ks, last);
      assert last !in Keep(init, ks);
    }
  }

  lemma {:induction false} KeepIs(q: seq<PullKey>, ks: set<PullKey>)
    ensures forall k :: k in Keep(q, ks) <==> k in q && k !in ks
    ensures |Keep(q, ks)| <= |q|
    ensures Distinct(q) ==> Distinct(Keep(q, ks))
  {
    forall k ensures k in Keep(q, ks) <==> k in q && k !in ks { KeepHas(q, ks, k); }
    KeepLength(q, ks);
    if Distinct(q) { KeepDistinct(q, ks); }
  }

  lemma {:induction false} KeepAll(q: seq<PullKey>, ks: set<PullKey>)
    requires forall k :: k in q ==> k !in ks
    ensures Keep(q, ks) == q
  {
    if q != [] {
      KeepAll(q[..|q| - 1], ks);
      assert q == q[..|q| - 1] + [q[|q| - 1]];
    }
  }

  lemma {:induction false} KeepUnion(q: seq<PullKey>, a: set<PullKey>, b: set<PullKey>)
    ensures Keep(Keep(q, a), b) == Keep(q, a + b)
  {
    if q != [] {
      var init, last := q[..|q| - 1], q[|q| - 1];
      KeepUnion(init, a, b);
      if last !in a {
        var kept := Keep(init, a) + [last];
        assert kept[..|kept| - 1] == Keep(init, a);
      }
    }
  }

  lemma {:induction false} KeepDropsHead(q: seq<PullKey>)
    requires q != [] && Distinct(q)
    ensures Keep(q, {q[0]}) == q[1..]
  {
    var init, last := q[..|q| - 1], q[|q| - 1];
    if |q| > 1 {
      KeepDropsHead(init);
      assert q[1..] == init[1..] + [last];
    } else {
      assert init == [];
    }
  }

  lemma {:induction false} WithoutKeeps(t: Table, ks: set<PullKey>)
    requires Valid(t)
    ensures Valid(Without(t, ks))
  {
    KeepIs(t.order, ks);
  }

  /** Removing from the queue is removing from a valid table; two removals are one. */
  lemma {:induction false} WithoutTwice(t: Table, a: set<PullKey>, b: set<PullKey>)
    ensures Without(Without(t, a), b) == Without(t, a + b)
  {
    KeepUnion(t.order, a, b);
    assert (t.entries - a) - b == t.entries - (a + b);
  }

  lemma {:induction false} MakeRoomKeeps(t: Table)
    requires Valid(t)
    ensures Valid(MakeRoom(t)) && |MakeRoom(t).order| < MAX_PENDING_PULLS
    ensures forall k :: k in MakeRoom(t).order ==> k in t.order
  {
    if |t.order| >= MAX_PENDING_PULLS {
      WithoutKeeps(t, {t.order[0]});
      KeepIs(t.order, {t.order[0]});
      KeepDropsHead(t.order);
    }
  }

  lemma {:induction false} AppendKeeps(t: Table, p: Pull)
    requires Valid(t) && |t.order| < MAX_PENDING_PULLS && p.key !in t.order
    ensures Valid(Table(t.entries[p.key := p], t.order + [p.key]))
  {
  }

  lemma {:induction false} InsertedKeeps(t: Table, p: Pull)
    requires Valid(t)
    ensures Valid(Inserted(t, p))
  {
    WithoutKeeps(t, {p.key});
    KeepIs(t.order, {p.key});
    MakeRoomKeeps(Without(t, {p.key}));
    AppendKeeps(MakeRoom(Without(t, {p.key})), p);
  }

  /** The queue of a valid table is as long as its map. */
  lemma {:induction false} QueueLength(entries: map<PullKey, Pull>, order: seq<PullKey>)
    requires Distinct(order) && forall k :: k in order <==> k in entries
    ensures |order| == |entries|
  {
    if order == [] {
      assert entries == map[];
    } else {
      var last, init := order[|order| - 1], order[..|order| - 1];
      assert last in order && last !in init;
      assert order == init + [last];
      var rest := entries - {last};
      assert forall k :: k in init <==> k in rest;
      QueueLength(rest, init);
      assert entries.Keys == rest.Keys + {last};
      assert |entries.Keys| == |rest.Keys| + 1;
    }
  }

  class PendingPulls {
    var entries: map<PullKey, Pull>
    var order: seq<PullKey>

    ghost function Now(): Table
      reads this
    {
      Table(entries, order)
    }

    constructor ()
      ensures Now() == Table(map[], []) && Valid(Now())
    {
      entries, order := map[], [];
    }

    method Remove(key: PullKey)
      modifies this
      ensures Now() == Without(old(Now()), {key})
    {
      var kept := [];
      for i := 0 to |order|
        invariant order == old(order) && entries == old(entries)
        invariant kept == Keep(order[..i], {key})
      {
        assert order[..i + 1][..i] == order[..i];
        if order[i] != key { kept := kept + [order[i]]; }
      }
      assert order[..|order|] == order;
      order := kept;
      entries := entries - {key};
    }

    /** Removes every key of `ks`, in whatever order the hash map yields them. */
    method RemoveAll(ks: set<PullKey>)
      modifies this
      ensures Now() == Without(old(Now()), ks)
    {
      var left := ks;
      ghost var gone: set<PullKey> := {};
      KeepAll(order, {});
      assert entries - {} == entries;
      while left != {}
        invariant gone + left == ks
        invariant Now() == Without(old(Now()), gone)
        decreases |left|
      {
        var k :| k in left;
        Remove(k);
        WithoutTwice(old(Now()), gone, {k});
        gone := gone + {k};
        left := left - {k};
      }
      assert gone == ks;
    }

    method EvictOldest() returns (evicted: bool)
      requires Valid(Now())
      modifies this
      ensures evicted <==> old(order) != []
      ensures Now() == if evicted then Without(old(Now()), {old(order)[0]}) else old(Now())
    {
      if |order| > 0 {
        var key := order[0];
        KeepDropsHead(order);
        order := order[1..];
        // the queue names only keys of the map, so the first one popped is found
        entries := entries - {key};
        return true;
      }
      return false;
    }

    method Insert(p: Pull)
      requires Valid(Now())
      modifies this
      ensures Now() == Inserted(old(Now()), p) && Valid(Now())
    {
      ghost var t := Now();
      Remove(p.key);
      WithoutKeeps(t, {p.key});
      ghost var t1 := Now();
      while |entries| >= MAX_PENDING_PULLS
        invariant Valid(Now())
        invariant Now() == t1 || (Now() == MakeRoom(t1) && |order| < MAX_PENDING_PULLS)
        decreases |order|
      {
        QueueLength(entries, order);
        KeepIs(order, {order[0]});
        KeepDropsHead(order);
        WithoutKeeps(Now(), {order[0]});
        var ok := EvictOldest();
        if !ok { break; }
      }
      QueueLength(entries, order);
      assert Now() == MakeRoom(t1);
      InsertedKeeps(t, p);
      order := order + [p.key];
      entries := entries[p.key := p];
    }

    method RemoveHash(hash: Hash) returns (removed: bool)
      modifies this
      ensures Now() == Without(old(Now()), WithHash(old(Now()), hash))
      ensures removed <==> WithHash(old(Now()), hash) != {}
    {
      var keys := set k | k in entries && k.hash == hash;
      removed := keys != {};
      RemoveAll(keys);
    }

    method RemoveOrigin(origin: DeviceBytes) returns (removed: nat)
      modifies this
      ensures Now() == Without(old(Now()), OfOrigin(old(Now()), origin))
      ensures removed == |OfOrigin(old(Now()), origin)|
    {
      var keys := set k | k in entries && k.origin == origin;
      removed := |keys|;
      RemoveAll(keys);
    }

    method RetainOriginOffer(origin: DeviceBytes, offered: seq<PullKey>)
      modifies this
      ensures Now() == Without(old(Now()), Superseded(old(Now()), origin, offered))
    {
      RemoveAll(set k | k in entries && k.origin == origin && k !in offered);
    }

    method ExpireStalled(now: nat) returns (removed: nat)
      modifies this
      ensures Now() == Without(old(Now()), Stalled(old(Now()), now))
      ensures removed == |Stalled(old(Now()), now)|
    {
      var keys := set k | k in entries && now >= entries[k].deadline;
      removed := |keys|;
      RemoveAll(keys);
    }
  }

  // ---- The applied log ---------------------------------------------------------------------

  /** One applied representation; `live` until its echo has been suppressed. */
  datatype Marker = Marker(key: PullKey, live: bool)
  {
    predicate Answers(format: ClipFormat, hash: Hash) { live && key.format == format && key.hash == hash }
  }

  function Others(log: seq<Marker>, key: PullKey): seq<Marker> {
    if log == [] then []
    else if log[|log| - 1].key == key then Others(log[..|log| - 1], key)
    else Others(log[..|log| - 1], key) + [log[|log| - 1]]
  }

  function Newest(log: seq<Marker>, n: nat): seq<Marker> { if |log| <= n then log else log[|log| - n..] }

  lemma {:induction false} NewestDrops(log: seq<Marker>, n: nat)
    requires |log| > n
    ensures Newest(log[1..], n) == Newest(log, n)
  {
  }

  function Recorded(log: seq<Marker>, key: PullKey): seq<Marker> {
    Newest(Others(log, key), MAX_APPLIED_CLIPS - 1) + [Marker(key, true)]
  }

  /** The oldest live marker for (format, hash), or |log|. */
  function FirstAnswer(log: seq<Marker>, format: ClipFormat, hash: Hash, k: nat): (i: nat)
    requires k <= |log|
    ensures k <= i <= |log|
    ensures i < |log| ==> log[i].Answers(format, hash)
    ensures forall j :: k <= j < i ==> !log[j].Answers(format, hash)
    decreases |log| - k
  {
    if k == |log| || log[k].Answers(format, hash) then k else FirstAnswer(log, format, hash, k + 1)
  }

  function Suppressed(log: seq<Marker>, format: ClipFormat, hash: Hash): (seq<Marker>, bool) {
    var i := FirstAnswer(log, format, hash, 0);
    if i == |log| then (log, false) else (log[i := log[i].(live := false)], true)
  }

  class AppliedLog {
    var entries: seq<Marker>

    constructor ()
      ensures entries == []
    {
      entries := [];
    }

    method Record(key: PullKey)
      modifies this
      ensures entries == Recorded(old(entries), key)
    {
      var kept := [];
      for i := 0 to |entries|
        invariant entries == old(entries) && kept == Others(entries[..i], key)
      {
        assert entries[..i + 1][..i] == entries[..i];
        if entries[i].key != key { kept := kept + [entries[i]]; }
      }
      assert entries[..|entries|] == entries;
      ghost var all := kept;
      while |kept| >= MAX_APPLIED_CLIPS
        invariant Newest(kept, MAX_APPLIED_CLIPS - 1) == Newest(all, MAX_APPLIED_CLIPS - 1)
      {
        NewestDrops(kept, MAX_APPLIED_CLIPS - 1);
        kept := kept[1..];
      }
      entries := kept + [Marker(key, true)];
    }

    method SuppressOnce(format: ClipFormat, hash: Hash) returns (b: bool)
      modifies this
      ensures (entries, b) == Suppressed(old(entries), format, hash)
    {
      for i := 0 to |entries|
        invariant entries == old(entries)
        invariant FirstAnswer(entries, format, hash, 0) == FirstAnswer(entries, format, hash, i)
      {
        if entries[i].live && entries[i].key.format == format && entries[i].key.hash == hash {
          entries := entries[i := entries[i].(live := false)];
          return true;
        }
      }
      b := false;
    }
  }
}
