/** The in-process lease store and the sweeper's cycle over it. */
module Leases {
  import opened Outcomes

  datatype Lease = Lease(
    id: string, workspace: string, backendID: string, user: string, keyID: string,
    expiresAt: int, createdAt: int, sweptAt: Option<int>)

  /** One cycle's work; the next cycle picks up what is left. */
  const BATCH_SIZE := 200

  type LeaseMap = m: map<string, Lease> | forall id :: id in m ==> m[id].id == id

  predicate IsPending(l: Lease, now: int) {
    l.sweptAt.None? && l.expiresAt < now
  }

  function Pending(m: LeaseMap, now: int): set<string> {
    set id | id in m && IsPending(m[id], now)
  }

  function Active(m: LeaseMap, now: int): set<string> {
    set id | id in m && m[id].sweptAt.None? && m[id].expiresAt >= now
  }

  function Swept(m: LeaseMap): set<string> {
    set id | id in m && m[id].sweptAt.Some?
  }

  /** At every instant each lease is exactly one of swept, pending or active. */
  lemma EachLeaseIsOne(m: LeaseMap, now: int)
    ensures Swept(m) + Pending(m, now) + Active(m, now) == m.Keys
    ensures Swept(m) !! Pending(m, now) !! Active(m, now)
    ensures |Swept(m)| + |Pending(m, now)| + |Active(m, now)| == |m|
  {
    assert Swept(m) + Pending(m, now) + Active(m, now) == m.Keys;
    assert |Swept(m) + Pending(m, now)| == |Swept(m)| + |Pending(m, now)|;
    assert |m.Keys| == |m|;
  }

  // ---- oldest first ----

  predicate OldestFirst(ls: seq<Lease>) {
    forall i, j :: 0 <= i < j < |ls| ==> ls[i].expiresAt <= ls[j].expiresAt
  }

  function Insert(l: Lease, ls: seq<Lease>): seq<Lease> {
    if ls == [] || l.expiresAt <= ls[0].expiresAt then [l] + ls else [ls[0]] + Insert(l, ls[1..])
  }

  function SortByExpiry(ls: seq<Lease>): seq<Lease> {
    if ls == [] then [] else Insert(ls[0], SortByExpiry(ls[1..]))
  }

  lemma {:induction false} InsertMembers(l: Lease, ls: seq<Lease>)
    ensures multiset(Insert(l, ls)) == multiset(ls) + multiset{l}
  {
    if ls != [] && l.expiresAt > ls[0].expiresAt {
      InsertMembers(l, ls[1..]);
      assert ls == [ls[0]] + ls[1..];
    } else {
      assert multiset([l] + ls) == multiset(ls) + multiset{l};
    }
  }

  lemma {:induction false} InsertSorts(l: Lease, ls: seq<Lease>)
    requires OldestFirst(ls)
    ensures OldestFirst(Insert(l, ls))
  {
    if ls != [] && l.expiresAt > ls[0].expiresAt {
      var rest := Insert(l, ls[1..]);
      InsertSorts(l, ls[1..]);
      InsertMembers(l, ls[1..]);
      hide Insert;
      forall i | 0 <= i < |rest|
        ensures ls[0].expiresAt <= rest[i].expiresAt
      {
        assert rest[i] in multiset(rest);
        assert rest[i] == l || rest[i] in ls[1..];
      }
    }
  }

  lemma {:induction false} SortSorts(ls: seq<Lease>)
    ensures OldestFirst(SortByExpiry(ls)) && multiset(SortByExpiry(ls)) == multiset(ls)
  {
    if ls != [] {
      SortSorts(ls[1..]);
      InsertSorts(ls[0], SortByExpiry(ls[1..]));
      InsertMembers(ls[0], SortByExpiry(ls[1..]));
      assert ls == [ls[0]] + ls[1..];
    }
  }

  function Ids(ls: seq<Lease>): set<string> {
    set l | l in ls :: l.id
  }

  predicate DistinctIds(ls: seq<Lease>) {
    forall i, j :: 0 <= i < j < |ls| ==> ls[i].id != ls[j].id
  }

  lemma {:induction false} CountIds(ls: seq<Lease>)
    requires DistinctIds(ls)
    ensures |Ids(ls)| == |ls|
  {
    if ls != [] {
      CountIds(ls[1..]);
      assert Ids(ls) == {ls[0].id} + Ids(ls[1..]);
      assert ls[0].id !in Ids(ls[1..]);
    }
  }

  /** The leases of `out` are the stored ones, each once. */
  predicate Drawn(m: LeaseMap, out: seq<Lease>, from: set<string>) {
    && DistinctIds(out)
    && Ids(out) == from
    && forall l :: l in out ==> l.id in m && m[l.id] == l
  }

  lemma SortKeepsDrawn(m: LeaseMap, out: seq<Lease>, from: set<string>)
    requires Drawn(m, out, from)
    ensures Drawn(m, SortByExpiry(out), from) && |SortByExpiry(out)| == |out|
  {
    var sorted := SortByExpiry(out);
    SortSorts(out);
    assert |sorted| == |multiset(sorted)| == |multiset(out)| == |out|;
    assert forall l :: l in sorted <==> l in multiset(sorted);
    assert forall l :: l in out <==> l in multiset(out);
    assert Ids(sorted) == Ids(out);
    CountIds(out);
    FullCountIsDistinct(sorted);
  }

  lemma {:induction false} FullCountIsDistinct(ls: seq<Lease>)
    requires |Ids(ls)| == |ls|
    ensures DistinctIds(ls)
  {
    if ls != [] {
      var rest := ls[1..];
      IdsAtMost(rest);
      assert Ids(ls) == {ls[0].id} + Ids(rest);
      assert ls[0].id !in Ids(rest);
      FullCountIsDistinct(rest);
      forall j | 0 < j < |ls|
        ensures ls[0].id != ls[j].id
      {
        assert ls[j] == rest[j - 1] && ls[j] in rest;
      }
    }
  }

  lemma {:induction false} IdsAtMost(ls: seq<Lease>)
    ensures |Ids(ls)| <= |ls|
  {
    if ls != [] {
      IdsAtMost(ls[1..]);
      assert Ids(ls) == {ls[0].id} + Ids(ls[1..]);
    } else {
      assert Ids(ls) == {};
    }
  }

  /** A batch: pending leases only, each once, oldest expiry first, as many as the limit allows,
      and none left out that expired earlier than one taken. */
  ghost predicate IsBatch(m: LeaseMap, now: int, limit: int, out: seq<Lease>) {
    && Drawn(m, out, Ids(out)) && Ids(out) <= Pending(m, now)
    && OldestFirst(out)
    && |out| == (if 0 < limit < |Pending(m, now)| then limit else |Pending(m, now)|)
    && forall id, l :: id in Pending(m, now) - Ids(out) && l in out ==> l.expiresAt <= m[id].expiresAt
  }

  lemma IdAt(ls: seq<Lease>, id: string) returns (j: nat)
    requires id in Ids(ls)
    ensures j < |ls| && ls[j].id == id && ls[j] in ls
  {
    var l :| l in ls && l.id == id;
    j :| 0 <= j < |ls| && ls[j] == l;
  }

  lemma CutIds(all: seq<Lease>, limit: nat)
    requires DistinctIds(all) && limit <= |all|
    ensures DistinctIds(all[..limit]) && Ids(all[..limit]) <= Ids(all)
    ensures forall x :: 0 <= x < limit ==> all[x].id in Ids(all[..limit])
    ensures forall l :: l in all[..limit] ==> l in all
  {
    forall x | 0 <= x < limit
      ensures all[x].id in Ids(all[..limit])
    {
      assert all[..limit][x] == all[x];
    }
  }

  lemma LeftOutIsLater(m: LeaseMap, all: seq<Lease>, limit: nat, id: string, l: Lease)
    requires Drawn(m, all, Ids(all)) && OldestFirst(all) && limit <= |all|
    requires id in Ids(all) - Ids(all[..limit]) && l in all[..limit]
    ensures l.expiresAt <= m[id].expiresAt
  {
    CutIds(all, limit);
    var j := IdAt(all, id);
    var i :| 0 <= i < limit && all[..limit][i] == l;
    hide Ids;
    assert all[i] == l && j >= limit;
  }

  lemma CutIsBatch(m: LeaseMap, now: int, limit: int, all: seq<Lease>)
    requires Drawn(m, all, Pending(m, now)) && OldestFirst(all)
    ensures IsBatch(m, now, limit, if 0 < limit < |all| then all[..limit] else all)
  {
    CountIds(all);
    hide Pending, Ids;
    if 0 < limit < |all| {
      CutIds(all, limit);
      CountIds(all[..limit]);
      forall id, l | id in Ids(all) - Ids(all[..limit]) && l in all[..limit]
        ensures l.expiresAt <= m[id].expiresAt
      {
        LeftOutIsLater(m, all, limit, id, l);
      }
    }
  }

  class MemoryStore {
    var leases: LeaseMap

    constructor ()
      ensures leases == map[]
    {
      leases := map[];
    }

    method Record(l: Lease)
      modifies this
      ensures leases == old(leases)[l.id := l]
    {
      leases := leases[l.id := l];
    }

    method PendingSweep(now: int, limit: int) returns (out: seq<Lease>)
      ensures IsBatch(leases, now, limit, out)
    {
      out := [];
      var rest := leases.Keys;
      while rest != {}
        invariant rest <= leases.Keys
        invariant Drawn(leases, out, Pending(leases, now) - rest)
      {
        var id :| id in rest;
        ghost var before := rest;
        var l := leases[id];
        rest := rest - {id};
        if l.sweptAt.None? && l.expiresAt < now {
          DrawOne(leases, out, Pending(leases, now) - before, l);
          assert Pending(leases, now) - rest == Pending(leases, now) - before + {id};
          out := out + [l];
        } else {
          assert Pending(leases, now) - rest == Pending(leases, now) - before;
        }
      }
      assert Pending(leases, now) - {} == Pending(leases, now);
      SortKeepsDrawn(leases, out, Pending(leases, now));
      SortSorts(out);
      out := SortByExpiry(out);
      CutIsBatch(leases, now, limit, out);
      if limit > 0 && |out| > limit {
        out := out[..limit];
      }
    }

    method MarkSwept(id: string, at: int)
      modifies this
      ensures leases == MarkedSwept(old(leases), {id}, at)
    {
      MarkOne(leases, {}, id, at);
      assert MarkedSwept(leases, {}, at) == leases;
      if id !in leases {
        return;
      }
      leases := leases[id := leases[id].(sweptAt := Some(at))];
    }

    method ActiveCount(now: int) returns (n: nat)
      ensures n == |Active(leases, now)|
    {
      n := 0;
      var rest := leases.Keys;
      while rest != {}
        invariant rest <= leases.Keys
        invariant n == |Active(leases, now) - rest|
      {
        var id :| id in rest;
        CountOne(Active(leases, now), rest, id);
        rest := rest - {id};
        if leases[id].sweptAt.None? && !(leases[id].expiresAt < now) {
          n := n + 1;
        }
      }
      assert Active(leases, now) - {} == Active(leases, now);
    }
  }

  lemma CountOne(all: set<string>, rest: set<string>, id: string)
    requires id in rest
    ensures |all - (rest - {id})| == |all - rest| + if id in all then 1 else 0
  {
    if id in all {
      assert all - (rest - {id}) == all - rest + {id};
    } else {
      assert all - (rest - {id}) == all - rest;
    }
  }

  lemma DrawOne(m: LeaseMap, out: seq<Lease>, from: set<string>, l: Lease)
    requires Drawn(m, out, from) && l.id in m && m[l.id] == l && l.id !in from
    ensures Drawn(m, out + [l], from + {l.id})
  {
    forall i | 0 <= i < |out|
      ensures out[i].id != l.id
    {
      assert out[i] in out && out[i].id in Ids(out);
    }
    assert Ids(out + [l]) == Ids(out) + {l.id};
  }

  /** `m` with the leases named in `ids` confirmed gone at time `at`. */
  function MarkedSwept(m: LeaseMap, ids: set<string>, at: int): LeaseMap {
    map id | id in m :: if id in ids then m[id].(sweptAt := Some(at)) else m[id]
  }

  lemma MarkOne(m: LeaseMap, ids: set<string>, id: string, at: int)
    ensures
      var marked := MarkedSwept(m, ids, at);
      MarkedSwept(m, ids + {id}, at)
      == if id in marked then marked[id := marked[id].(sweptAt := Some(at))] else marked
  {
  }

  // ---- one sweep cycle ----

  datatype CycleResult = CycleResult(swept: nat, failed: nat, active: nat, oldestBacklogAge: int)

  /** `failing` are the leases whose clean-up reports an error this cycle. */
  method SweepOnce(store: MemoryStore, now: int, failing: set<string>)
    returns (res: CycleResult, ghost batch: seq<Lease>)
    modifies store
    ensures IsCycle(old(store.leases), store.leases, now, failing, batch)
    ensures res.swept + res.failed == |batch| && res.failed == |Ids(batch) * failing|
    ensures res.active == |Active(store.leases, now)|
    // The true backlog age, even of a backlog larger than a batch: the oldest pending lease's.
    ensures forall id :: id in Pending(old(store.leases), now) ==>
              now - old(store.leases)[id].expiresAt <= res.oldestBacklogAge
    ensures if Pending(old(store.leases), now) == {} then res.oldestBacklogAge == 0
            else exists id :: id in Pending(old(store.leases), now) && now - old(store.leases)[id].expiresAt == res.oldestBacklogAge
    // Exactly the batch's leases that did not fail are marked, with the time of this cycle.
    ensures store.leases.Keys == old(store.leases).Keys
    ensures forall id :: id in old(store.leases) ==>
              store.leases[id] == if id in Ids(batch) && id !in failing then old(store.leases)[id].(sweptAt := Some(now))
                                  else old(store.leases)[id]
    ensures |batch| == if |Pending(old(store.leases), now)| > 200 then 200 else |Pending(old(store.leases), now)|
  {
    hide Ids, MarkedSwept, Pending, Active, IsBatch, DistinctIds;
    var pending := store.PendingSweep(now, BATCH_SIZE);
    batch := pending;
    ghost var before := store.leases;
    var swept, failed, age := 0, 0, 0;
    if |pending| > 0 {
      age := now - pending[0].expiresAt;
    }
    OldestAge(before, now, pending);
    NothingMarked(before, pending, failing, now);
    var i := 0;
    while i < |pending|
      invariant 0 <= i <= |pending|
      invariant swept + failed == i && failed == |Ids(pending[..i]) * failing|
      invariant store.leases == MarkedSwept(before, Ids(pending[..i]) - failing, now)
    {
      var lease := pending[i];
      IdsStep(pending, i, failing);
      if lease.id in failing {
        failed := failed + 1;
        i := i + 1;
        continue;
      }
      MarkMore(before, Ids(pending[..i]) - failing, lease.id, now);
      store.MarkSwept(lease.id, now);
      swept := swept + 1;
      i := i + 1;
    }
    assert pending[..i] == pending;
    var active := store.ActiveCount(now);
    res := CycleResult(swept, failed, active, age);
    CycleMarks(before, batch, failing, now);
  }

  lemma CycleMarks(m: LeaseMap, batch: seq<Lease>, failing: set<string>, now: int)
    requires IsBatch(m, now, BATCH_SIZE, batch)
    ensures |batch| == if |Pending(m, now)| > 200 then 200 else |Pending(m, now)|
    ensures var after := MarkedSwept(m, Ids(batch) - failing, now);
            && after.Keys == m.Keys
            && forall id :: id in m ==>
                 after[id] == if id in Ids(batch) && id !in failing then m[id].(sweptAt := Some(now)) else m[id]
  {
    hide Pending, Ids, Drawn, OldestFirst;
  }

  lemma NothingMarked(m: LeaseMap, ls: seq<Lease>, failing: set<string>, at: int)
    ensures MarkedSwept(m, Ids(ls[..0]) - failing, at) == m
    ensures |Ids(ls[..0]) * failing| == 0
  {
    assert Ids(ls[..0]) == {};
    assert Ids(ls[..0]) * failing == {};
  }

  lemma MarkMore(m: LeaseMap, ids: set<string>, id: string, at: int)
    ensures MarkedSwept(MarkedSwept(m, ids, at), {id}, at) == MarkedSwept(m, ids + {id}, at)
  {
  }

  lemma IdsStep(ls: seq<Lease>, i: nat, failing: set<string>)
    requires DistinctIds(ls) && i < |ls|
    ensures Ids(ls[..i + 1]) == Ids(ls[..i]) + {ls[i].id}
    ensures ls[i].id !in Ids(ls[..i])
    ensures ls[i].id in failing ==>
              && Ids(ls[..i + 1]) - failing == Ids(ls[..i]) - failing
              && |Ids(ls[..i + 1]) * failing| == |Ids(ls[..i]) * failing| + 1
    ensures ls[i].id !in failing ==>
              && Ids(ls[..i + 1]) - failing == Ids(ls[..i]) - failing + {ls[i].id}
              && Ids(ls[..i + 1]) * failing == Ids(ls[..i]) * failing
  {
    assert ls[..i + 1] == ls[..i] + [ls[i]];
    assert Ids(ls[..i + 1]) == Ids(ls[..i]) + {ls[i].id};
    if ls[i].id in failing {
      assert Ids(ls[..i + 1]) * failing == Ids(ls[..i]) * failing + {ls[i].id};
    }
  }

  lemma OldestAge(m: LeaseMap, now: int, batch: seq<Lease>)
    requires IsBatch(m, now, BATCH_SIZE, batch)
    ensures DistinctIds(batch)
    ensures batch == [] ==> Pending(m, now) == {}
    ensures batch != [] ==> forall id :: id in Pending(m, now) ==> batch[0].expiresAt <= m[id].expiresAt
    ensures batch != [] ==> batch[0].id in Pending(m, now) && m[batch[0].id] == batch[0]
  {
    assert batch != [] ==> batch[0] in batch && batch[0].id in Ids(batch);
    forall id | batch != [] && id in Pending(m, now)
      ensures batch[0].expiresAt <= m[id].expiresAt
    {
      if id in Ids(batch) {
        var j :| 0 <= j < |batch| && batch[j].id == id;
        assert batch[j] in batch;
      } else {
        assert batch[0] in batch;
      }
    }
  }

  /** What one cycle does to the store: the batch, except what failed, is marked. */
  ghost predicate IsCycle(before: LeaseMap, after: LeaseMap, now: int, failing: set<string>, batch: seq<Lease>) {
    && IsBatch(before, now, BATCH_SIZE, batch)
    && after == MarkedSwept(before, Ids(batch) - failing, now)
  }

  // ---- a backlog is worked off ----

  /** With `stuck` the only leases that keep failing, one cycle sweeps all the others or at
      least a batch less the stuck ones. */
  lemma CycleShrinksBacklog(before: LeaseMap, after: LeaseMap, now: int, failing: set<string>, batch: seq<Lease>, stuck: set<string>)
    requires IsCycle(before, after, now, failing, batch) && failing <= stuck && |stuck| < BATCH_SIZE
    ensures Pending(after, now) == Pending(before, now) - (Ids(batch) - failing)
    ensures
      var left, others := |Pending(after, now) - stuck|, |Pending(before, now) - stuck|;
      left == 0 || left + (BATCH_SIZE - |stuck|) <= others
  {
    CountIds(batch);
    assert Pending(after, now) == Pending(before, now) - (Ids(batch) - failing);
    hide Pending, Ids, MarkedSwept;
    BatchRemoves(Pending(before, now), Ids(batch), failing, stuck);
  }

  /** The set arithmetic of one cycle: `p` pending, `b` the batch. */
  lemma BatchRemoves(p: set<string>, b: set<string>, failing: set<string>, stuck: set<string>)
    requires b <= p && failing <= stuck && |stuck| < BATCH_SIZE
    requires |b| == if |p| > BATCH_SIZE then BATCH_SIZE else |p|
    ensures
      var left, others := |(p - (b - failing)) - stuck|, |p - stuck|;
      left == 0 || left + (BATCH_SIZE - |stuck|) <= others
  {
    assert (p - (b - failing)) - stuck == (p - stuck) - (b - stuck);
    if |p| <= BATCH_SIZE {
      SameSizeSubset(b, p);
      assert (p - stuck) - (b - stuck) == {};
    } else {
      SubsetSize(b * stuck, stuck);
      assert b == (b - stuck) + (b * stuck);
      assert p - stuck == ((p - stuck) - (b - stuck)) + (b - stuck);
    }
  }

  lemma {:induction false} SubsetSize(a: set<string>, b: set<string>)
    requires a <= b
    ensures |a| <= |b|
  {
    assert b == a + (b - a);
  }

  lemma SameSizeSubset(a: set<string>, b: set<string>)
    requires a <= b && |a| == |b|
    ensures a == b
  {
    assert b == a + (b - a);
  }

  /** The bound is sharp: a full batch of leases that keep failing and expired before all others
      blocks the rest; the cycle then changes nothing. */
  lemma StuckBatchStarves(before: LeaseMap, after: LeaseMap, now: int, failing: set<string>, batch: seq<Lease>)
    requires IsCycle(before, after, now, failing, batch)
    requires failing <= Pending(before, now) && |failing| >= BATCH_SIZE
    requires forall f, id :: f in failing && id in Pending(before, now) - failing ==> before[f].expiresAt < before[id].expiresAt
    ensures after == before
  {
    hide Ids, Pending, MarkedSwept, IsBatch;
    FullBatch(before, now, failing, batch);
    if failing <= Ids(batch) {
      SameSizeSubset(failing, Ids(batch));
    } else {
      var f := Outsider(failing, Ids(batch));
      forall id | id in Ids(batch)
        ensures id in failing
      {
        TakenIsOlder(before, now, batch, id, f);
      }
    }
    NoneMarked(before, Ids(batch) - failing, now);
  }

  lemma FullBatch(m: LeaseMap, now: int, failing: set<string>, batch: seq<Lease>)
    requires IsBatch(m, now, BATCH_SIZE, batch) && failing <= Pending(m, now) && |failing| >= BATCH_SIZE
    ensures Ids(batch) <= Pending(m, now)
    ensures failing <= Ids(batch) ==> |failing| == |Ids(batch)|
  {
    hide Ids, Pending, MarkedSwept;
    CountIds(batch);
    SubsetSize(failing, Pending(m, now));
    if failing <= Ids(batch) {
      SubsetSize(failing, Ids(batch));
    }
  }

  lemma Outsider(a: set<string>, b: set<string>) returns (x: string)
    requires !(a <= b)
    ensures x in a && x !in b
  {
    x :| x in a && x !in b;
  }

  lemma TakenIsOlder(m: LeaseMap, now: int, batch: seq<Lease>, id: string, other: string)
    requires IsBatch(m, now, BATCH_SIZE, batch) && id in Ids(batch) && other in Pending(m, now) && other !in Ids(batch)
    ensures m[id].expiresAt <= m[other].expiresAt
  {
    hide Ids, Pending, MarkedSwept;
    var j := IdAt(batch, id);
  }

  lemma NoneMarked(m: LeaseMap, ids: set<string>, at: int)
    ensures ids == {} ==> MarkedSwept(m, ids, at) == m
  {
  }

  /** Cycles one after the other; between them leases may be recorded or change, but no further
      lease becomes pending. */
  ghost predicate QuietCycles(befores: seq<LeaseMap>, afters: seq<LeaseMap>, nows: seq<int>,
                              failing: seq<set<string>>, batches: seq<seq<Lease>>, stuck: set<string>) {
    && |befores| == |nows| == |afters| + 1 == |failing| + 1 == |batches| + 1
    && (forall i :: 0 <= i < |afters| ==>
          IsCycle(befores[i], afters[i], nows[i], failing[i], batches[i]) && failing[i] <= stuck)
    && (forall i :: 0 <= i < |afters| ==> Pending(befores[i + 1], nows[i + 1]) <= Pending(afters[i], nows[i]))
  }

  /** After `k` quiet cycles at least `k` batches, each less the stuck leases, are gone. */
  lemma {:induction false} BacklogAfter(befores: seq<LeaseMap>, afters: seq<LeaseMap>, nows: seq<int>,
                                        failing: seq<set<string>>, batches: seq<seq<Lease>>, stuck: set<string>, d: nat, k: nat)
    requires QuietCycles(befores, afters, nows, failing, batches, stuck) && |stuck| < BATCH_SIZE
    requires d == BATCH_SIZE - |stuck| && k <= |afters|
    ensures
      var left := |Pending(befores[k], nows[k]) - stuck|;
      left == 0 || left + Times(k, d) <= |Pending(befores[0], nows[0]) - stuck|
  {
    hide Times, Pending, IsCycle;
    if k == 0 {
      NoTimes(d);
    } else {
      BacklogAfter(befores, afters, nows, failing, batches, stuck, d, k - 1);
      CycleShrinksBacklog(befores[k - 1], afters[k - 1], nows[k - 1], failing[k - 1], batches[k - 1], stuck);
      assert IsCycle(befores[k - 1], afters[k - 1], nows[k - 1], failing[k - 1], batches[k - 1]);
      assert Pending(befores[k - 1 + 1], nows[k - 1 + 1]) <= Pending(afters[k - 1], nows[k - 1]);
      SubsetSize(Pending(befores[k], nows[k]) - stuck, Pending(afters[k - 1], nows[k - 1]) - stuck);
      OneMoreTime(k, d);
      if |Pending(befores[k - 1], nows[k - 1]) - stuck| == 0 {
        SubsetSize(Pending(afters[k - 1], nows[k - 1]) - stuck, Pending(befores[k - 1], nows[k - 1]) - stuck);
      }
    }
  }

  function Times(k: nat, d: nat): nat {
    k * d
  }

  lemma NoTimes(d: nat)
    ensures Times(0, d) == 0
  {
  }

  lemma OneMoreTime(k: nat, d: nat)
    requires k > 0
    ensures Times(k, d) == Times(k - 1, d) + d
  {
  }

  /** A backlog of `n` leases beside at most `f` stuck ones, `f` below the batch size, is empty
      after any number of cycles that is at least n / (200 - f). */
  lemma BacklogEmpties(befores: seq<LeaseMap>, afters: seq<LeaseMap>, nows: seq<int>,
                       failing: seq<set<string>>, batches: seq<seq<Lease>>, stuck: set<string>)
    requires QuietCycles(befores, afters, nows, failing, batches, stuck) && |stuck| < BATCH_SIZE
    requires |afters| * (200 - |stuck|) >= |Pending(befores[0], nows[0]) - stuck|
    ensures Pending(befores[|afters|], nows[|afters|]) <= stuck
  {
    hide Pending, Times, IsCycle;
    var n, d, k := |Pending(befores[0], nows[0]) - stuck|, BATCH_SIZE - |stuck|, |afters|;
    BacklogAfter(befores, afters, nows, failing, batches, stuck, d, k);
    NothingLeft(|Pending(befores[k], nows[k]) - stuck|, n, d, k);
    EmptyDifference(Pending(befores[k], nows[k]), stuck);
  }

  lemma EmptyDifference(a: set<string>, b: set<string>)
    requires |a - b| == 0
    ensures a <= b
  {
    forall x | x in a
      ensures x in b
    {
      assert x !in a - b;
    }
  }

  lemma NothingLeft(left: nat, n: nat, d: nat, k: nat)
    requires d > 0 && k * d >= n
    requires left == 0 || left + Times(k, d) <= n
    ensures left == 0
  {
  }
}
