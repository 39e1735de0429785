/** Minting and sweeping SeaweedFS IAM keys: any number of mints and sweepers, interleaved call
    by call, with a failure, a lost reply or a crash possible at each call and the registry
    changing underneath.

    A mint, its lease, its IAM user and that user's one access key all carry the mint's own
    fresh number. `users` and `keys` say which exist on the server the mint addressed; no other
    server ever has them. */
module LeaseProtocol {
  type Endpoint = nat

  /** What is registered for a backend. Without stored credentials a sweeper cannot even read it,
      whatever its kind. */
  datatype Entry = S3(endpoint: Endpoint) | OtherKind | WithoutCredentials

  /** What a sweeper read about the lease's backend before acting. */
  datatype Reading = Gone | NotS3 | Addressed(endpoint: Endpoint)

  /** `seen` and `marks` are bookkeeping: what every sweeper that took up the lease read, and
      what those that marked it swept had read. */
  datatype Lease = Lease(backend: string, expiresAt: int, swept: bool, seen: set<Reading>, marks: set<Reading>)

  datatype MintPhase =
    | CreatingUser | PuttingPolicy | CreatingKey | Recording | Returning | Returned
    | UndoingKey | UndoingUser | Failed | Crashed

  /** `keyMade` and `keyUndone` are bookkeeping: the key came to exist, the undo removed it. */
  datatype Mint = Mint(backend: string, endpoint: Endpoint, ttl: int, phase: MintPhase, keyMade: bool, keyUndone: bool)

  datatype SweepPhase = Reading_ | DeletingKey(at: Endpoint) | DeletingUser(at: Endpoint) | Marking(read: Reading) | Idle

  datatype Sweep = Sweep(lease: nat, phase: SweepPhase)

  datatype World = World(
    users: set<nat>, keys: set<nat>, leases: map<nat, Lease>, registry: map<string, Entry>,
    mints: map<nat, Mint>, sweeps: map<nat, Sweep>, now: int)

  /** Each remote call has an effect or not and is reported to have worked or not; a reported
      success always had its effect, a reported failure may have. */
  datatype Event =
    | BeginMint(m: nat, backend: string, ttl: int)
    | CreateUser(m: nat, effect: bool, ok: bool)
    | PutPolicy(m: nat, ok: bool)
    | CreateKey(m: nat, effect: bool, ok: bool)
    | RecordLease(m: nat, effect: bool, ok: bool)
    | Return(m: nat)
    | UndoKey(m: nat, effect: bool)
    | UndoUser(m: nat, effect: bool)
    | CrashMint(m: nat)
    | StartSweep(s: nat, lease: nat)
    | ReadBackend(s: nat, ok: bool)
    | DeleteKey(s: nat, effect: bool, ok: bool)
    | DeleteUser(s: nat, effect: bool, ok: bool)
    | MarkSwept(s: nat, effect: bool, ok: bool)
    | CrashSweep(s: nat)
    | SetBackend(backend: string, entry: Entry)
    | RemoveBackend(backend: string)
    | Tick(seconds: nat)

  /** Seconds. */
  const DEFAULT_TTL := 300

  predicate MintAt(w: World, m: nat, phase: MintPhase) {
    m in w.mints && w.mints[m].phase == phase
  }

  function MintTo(w: World, m: nat, phase: MintPhase): World
    requires m in w.mints
  {
    w.(mints := w.mints[m := w.mints[m].(phase := phase)])
  }

  function SweepTo(w: World, s: nat, phase: SweepPhase): World
    requires s in w.sweeps
  {
    w.(sweeps := w.sweeps[s := w.sweeps[s].(phase := phase)])
  }

  // ---- minting ----

  function BeginMintStep(w: World, m: nat, backend: string, ttl: int): World {
    if m in w.mints || backend !in w.registry || !w.registry[backend].S3? then w
    else w.(mints := w.mints[m := Mint(backend, w.registry[backend].endpoint, ttl, CreatingUser, false, false)])
  }

  function CreateUserStep(w: World, m: nat, effect: bool, ok: bool): World {
    if !MintAt(w, m, CreatingUser) then w
    else
      MintTo(w, m, if ok then PuttingPolicy else Failed)
      .(users := if ok || effect then w.users + {m} else w.users)
  }

  function PutPolicyStep(w: World, m: nat, ok: bool): World {
    if !MintAt(w, m, PuttingPolicy) then w else MintTo(w, m, if ok then CreatingKey else UndoingUser)
  }

  /** A failed key creation undoes the user only. */
  function CreateKeyStep(w: World, m: nat, effect: bool, ok: bool): World {
    if !MintAt(w, m, CreatingKey) then w
    else
      var made := ok || effect;
      w.(mints := w.mints[m := w.mints[m].(phase := if ok then Recording else UndoingUser, keyMade := made)],
         keys := if made then w.keys + {m} else w.keys)
  }

  function RecordLeaseStep(w: World, m: nat, effect: bool, ok: bool): World {
    if !MintAt(w, m, Recording) then w
    else
      var mint := w.mints[m];
      var ttl := if mint.ttl <= 0 then DEFAULT_TTL else mint.ttl;
      MintTo(w, m, if ok then Returning else UndoingKey)
      .(leases := if ok || effect then w.leases[m := Lease(mint.backend, w.now + ttl, false, {}, {})] else w.leases)
  }

  function ReturnStep(w: World, m: nat): World {
    if MintAt(w, m, Returning) then MintTo(w, m, Returned) else w
  }

  /** Undo calls: what they report is ignored. */
  function UndoKeyStep(w: World, m: nat, effect: bool): World {
    if !MintAt(w, m, UndoingKey) then w
    else if !effect then MintTo(w, m, UndoingUser)
    else
      w.(mints := w.mints[m := w.mints[m].(phase := UndoingUser, keyUndone := true)], keys := w.keys - {m})
  }

  function UndoUserStep(w: World, m: nat, effect: bool): World {
    if !MintAt(w, m, UndoingUser) then w
    else MintTo(w, m, Failed).(users := if effect then w.users - {m} else w.users)
  }

  function CrashMintStep(w: World, m: nat): World {
    if m in w.mints && w.mints[m].phase !in {Returned, Failed} then MintTo(w, m, Crashed) else w
  }

  // ---- sweeping ----

  /** A sweeper takes up a lease of its batch: it was recorded and had expired. */
  function StartSweepStep(w: World, s: nat, lease: nat): World {
    if (s in w.sweeps && !w.sweeps[s].phase.Idle?) || lease !in w.leases || w.leases[lease].expiresAt >= w.now then w
    else w.(sweeps := w.sweeps[s := Sweep(lease, Reading_)])
  }

  function ReadingOf(w: World, backend: string): Reading {
    if backend !in w.registry then Gone
    else if !w.registry[backend].S3? then NotS3
    else Addressed(w.registry[backend].endpoint)
  }

  predicate SweepAt(w: World, s: nat) {
    s in w.sweeps && w.sweeps[s].lease in w.leases && w.sweeps[s].lease in w.mints
  }

  predicate Unreadable(w: World, backend: string) {
    backend in w.registry && w.registry[backend].WithoutCredentials?
  }

  /** A backend that is gone or of another kind has nothing to delete: straight to marking. One
      that cannot be read is an error, and the sweep of this lease ends. */
  function ReadBackendStep(w: World, s: nat, ok: bool): World {
    if !SweepAt(w, s) || !w.sweeps[s].phase.Reading_? then w
    else if !ok || Unreadable(w, w.leases[w.sweeps[s].lease].backend) then SweepTo(w, s, Idle)
    else
      var m := w.sweeps[s].lease;
      var read := ReadingOf(w, w.leases[m].backend);
      SweepTo(w, s, if read.Addressed? then DeletingKey(read.endpoint) else Marking(read))
      .(leases := w.leases[m := w.leases[m].(seen := w.leases[m].seen + {read})])
  }

  /** "No such key" counts as success. */
  function DeleteKeyStep(w: World, s: nat, effect: bool, ok: bool): World {
    if !SweepAt(w, s) || !w.sweeps[s].phase.DeletingKey? then w
    else
      var m, at := w.sweeps[s].lease, w.sweeps[s].phase.at;
      SweepTo(w, s, if ok then DeletingUser(at) else Idle)
      .(keys := if at == w.mints[m].endpoint && (ok || effect) then w.keys - {m} else w.keys)
  }

  function DeleteUserStep(w: World, s: nat, effect: bool, ok: bool): World {
    if !SweepAt(w, s) || !w.sweeps[s].phase.DeletingUser? then w
    else
      var m, at := w.sweeps[s].lease, w.sweeps[s].phase.at;
      SweepTo(w, s, if ok then Marking(Addressed(at)) else Idle)
      .(users := if at == w.mints[m].endpoint && (ok || effect) then w.users - {m} else w.users)
  }

  function MarkSweptStep(w: World, s: nat, effect: bool, ok: bool): World {
    if !SweepAt(w, s) || !w.sweeps[s].phase.Marking? then w
    else if !ok && !effect then SweepTo(w, s, Idle)
    else
      var m := w.sweeps[s].lease;
      SweepTo(w, s, Idle)
      .(leases := w.leases[m := w.leases[m].(swept := true, marks := w.leases[m].marks + {w.sweeps[s].phase.read})])
  }

  function CrashSweepStep(w: World, s: nat): World {
    if s in w.sweeps then SweepTo(w, s, Idle) else w
  }

  function Apply(w: World, e: Event): World {
    match e
    case BeginMint(m, backend, ttl) => BeginMintStep(w, m, backend, ttl)
    case CreateUser(m, effect, ok) => CreateUserStep(w, m, effect, ok)
    case PutPolicy(m, ok) => PutPolicyStep(w, m, ok)
    case CreateKey(m, effect, ok) => CreateKeyStep(w, m, effect, ok)
    case RecordLease(m, effect, ok) => RecordLeaseStep(w, m, effect, ok)
    case Return(m) => ReturnStep(w, m)
    case UndoKey(m, effect) => UndoKeyStep(w, m, effect)
    case UndoUser(m, effect) => UndoUserStep(w, m, effect)
    case CrashMint(m) => CrashMintStep(w, m)
    case StartSweep(s, lease) => StartSweepStep(w, s, lease)
    case ReadBackend(s, ok) => ReadBackendStep(w, s, ok)
    case DeleteKey(s, effect, ok) => DeleteKeyStep(w, s, effect, ok)
    case DeleteUser(s, effect, ok) => DeleteUserStep(w, s, effect, ok)
    case MarkSwept(s, effect, ok) => MarkSweptStep(w, s, effect, ok)
    case CrashSweep(s) => CrashSweepStep(w, s)
    case SetBackend(backend, entry) => w.(registry := w.registry[backend := entry])
    case RemoveBackend(backend) => w.(registry := w.registry - {backend})
    case Tick(seconds) => w.(now := w.now + seconds)
  }

  function Run(w: World, events: seq<Event>): World
    decreases |events|
  {
    if events == [] then w else Run(Apply(w, events[0]), events[1..])
  }

  function Start(registry: map<string, Entry>, now: int): World {
    World({}, {}, map[], registry, map[], map[], now)
  }

  // ---- the invariant ----

  /** The part of the invariant about one mint, its lease and its account. */
  ghost predicate MintOk(w: World, m: nat)
    requires m in w.mints
  {
    var mint := w.mints[m];
    && (mint.phase in {CreatingUser, PuttingPolicy, CreatingKey} ==> !mint.keyMade && m !in w.leases)
    && (mint.phase == Recording ==> mint.keyMade && m !in w.leases)
    && (mint.phase == UndoingKey ==> mint.keyMade)
    && (mint.phase in {Returning, Returned} ==> m in w.leases && !mint.keyUndone)
    && (mint.phase in {CreatingUser, PuttingPolicy, CreatingKey, Recording, UndoingKey} ==> !mint.keyUndone)
    && (m in w.keys ==> mint.keyMade && !mint.keyUndone)
    && (m !in w.leases && mint.keyMade && !mint.keyUndone ==> m in w.keys)
    && (m in w.leases ==> LeaseOk(w, m))
  }

  ghost predicate LeaseOk(w: World, m: nat)
    requires m in w.mints && m in w.leases
  {
    var mint, lease := w.mints[m], w.leases[m];
    var here := Addressed(mint.endpoint);
    && mint.keyMade && lease.backend == mint.backend
    && mint.phase !in {CreatingUser, PuttingPolicy, CreatingKey, Recording}
    && (lease.swept <==> lease.marks != {})
    && lease.marks <= lease.seen
    && (here in lease.marks ==> m !in w.keys && m !in w.users)
    && (here !in lease.seen && !mint.keyUndone ==> m in w.keys)
  }

  ghost predicate SweepOk(w: World, s: nat)
    requires s in w.sweeps
  {
    var m, phase := w.sweeps[s].lease, w.sweeps[s].phase;
    && m in w.leases && m in w.mints
    && (phase.DeletingKey? ==> Addressed(phase.at) in w.leases[m].seen)
    && (phase.DeletingUser? ==>
          Addressed(phase.at) in w.leases[m].seen && (phase.at == w.mints[m].endpoint ==> m !in w.keys))
    && (phase.Marking? ==>
          phase.read in w.leases[m].seen
          && (phase.read == Addressed(w.mints[m].endpoint) ==> m !in w.keys && m !in w.users))
  }

  ghost predicate Inv(w: World) {
    && (forall m :: m in w.mints ==> MintOk(w, m))
    && (forall s :: s in w.sweeps ==> SweepOk(w, s))
    && (forall m :: m in w.leases || m in w.keys || m in w.users ==> m in w.mints)
  }

  lemma StartInv(registry: map<string, Entry>, now: int)
    ensures Inv(Start(registry, now))
  {
  }

  /** One mint moved, its own account and lease perhaps with it, and it is still in order. */
  ghost predicate MintMoved(w: World, v: World, m: nat) {
    && m in v.mints && v.mints == w.mints[m := v.mints[m]] && v.sweeps == w.sweeps
    && (m in w.mints ==> v.mints[m].endpoint == w.mints[m].endpoint)
    && v.keys - {m} == w.keys - {m} && v.users - {m} == w.users - {m}
    && w.leases.Keys <= v.leases.Keys <= w.leases.Keys + {m}
    && (forall l :: l in w.leases ==> v.leases[l] == w.leases[l])
    && (m in w.leases ==> (m in v.keys ==> m in w.keys) && (m in v.users ==> m in w.users))
    && MintOk(v, m)
  }

  lemma MintMovedInv(w: World, v: World, m: nat)
    requires Inv(w) && MintMoved(w, v, m)
    ensures Inv(v)
  {
    hide MintOk, SweepOk, LeaseOk;
    forall x | x in v.mints
      ensures MintOk(v, x)
    {
      if x != m {
        OtherMintOk(w, v, m, x);
      }
    }
    forall s | s in v.sweeps
      ensures SweepOk(v, s)
    {
      SweepStillOk(w, v, m, s);
    }
    KnownAccounts(w, v, m);
  }

  lemma OtherMintOk(w: World, v: World, m: nat, x: nat)
    requires Inv(w) && MintMoved(w, v, m) && x in v.mints && x != m
    ensures MintOk(v, x)
  {
    hide Inv, SweepOk;
    MintIsOk(w, x);
    assert (x in v.keys <==> x in v.keys - {m}) && (x in w.keys <==> x in w.keys - {m});
    assert (x in v.users <==> x in v.users - {m}) && (x in w.users <==> x in w.users - {m});
  }

  lemma SweepStillOk(w: World, v: World, m: nat, s: nat)
    requires Inv(w) && MintMoved(w, v, m) && s in v.sweeps
    ensures SweepOk(v, s)
  {
    hide MintOk, LeaseOk;
    assert SweepOk(w, s);
    var l := w.sweeps[s].lease;
    assert (l in v.keys - {m} <==> l in w.keys - {m}) && (l in v.users - {m} <==> l in w.users - {m});
    hide Inv;
  }

  lemma KnownAccounts(w: World, v: World, m: nat)
    requires Inv(w) && MintMoved(w, v, m)
    ensures forall x :: x in v.leases || x in v.keys || x in v.users ==> x in v.mints
  {
    hide MintOk, SweepOk, LeaseOk;
    forall x | x in v.leases || x in v.keys || x in v.users
      ensures x in v.mints
    {
      if x != m {
        assert x in v.keys ==> x in w.keys - {m};
        assert x in v.users ==> x in w.users - {m};
      }
    }
  }

  /** One sweeper moved, its lease and that lease's account perhaps with it, and all are in order. */
  ghost predicate SweepMoved(w: World, v: World, s: nat) {
    && v.mints == w.mints && s in v.sweeps && v.sweeps == w.sweeps[s := v.sweeps[s]]
    && var l := v.sweeps[s].lease;
    && l in w.leases && l in v.leases && l in w.mints && v.leases == w.leases[l := v.leases[l]]
    && w.leases[l].seen <= v.leases[l].seen
    && v.keys <= w.keys && v.users <= w.users && w.keys - v.keys <= {l} && w.users - v.users <= {l}
    && MintOk(v, l) && SweepOk(v, s)
  }

  lemma SweepMovedInv(w: World, v: World, s: nat)
    requires Inv(w) && SweepMoved(w, v, s)
    ensures Inv(v)
  {
    hide MintOk, SweepOk, LeaseOk;
    forall x | x in v.mints
      ensures MintOk(v, x)
    {
      if x != v.sweeps[s].lease {
        UnsweptMintOk(w, v, s, x);
      }
    }
    forall t | t in v.sweeps
      ensures SweepOk(v, t)
    {
      if t != s {
        OtherSweepOk(w, v, s, t);
      }
    }
  }

  lemma UnsweptMintOk(w: World, v: World, s: nat, x: nat)
    requires Inv(w) && SweepMoved(w, v, s) && x in v.mints && x != v.sweeps[s].lease
    ensures MintOk(v, x)
  {
    hide Inv, SweepOk;
    MintIsOk(w, x);
    assert x in w.keys && x !in v.keys ==> x in w.keys - v.keys;
    assert x in w.users && x !in v.users ==> x in w.users - v.users;
  }

  lemma OtherSweepOk(w: World, v: World, s: nat, t: nat)
    requires Inv(w) && SweepMoved(w, v, s) && t in v.sweeps && t != s
    ensures SweepOk(v, t)
  {
    hide MintOk, LeaseOk;
    assert SweepOk(w, t);
    hide Inv;
  }

  lemma MintIsOk(w: World, m: nat)
    requires Inv(w)
    ensures m in w.mints ==> MintOk(w, m)
    ensures m in w.keys || m in w.users || m in w.leases ==> m in w.mints
  {
    hide MintOk, SweepOk;
  }

  lemma SweepIsOk(w: World, s: nat)
    requires Inv(w)
    ensures s in w.sweeps ==> SweepOk(w, s) && w.sweeps[s].lease in w.mints && MintOk(w, w.sweeps[s].lease)
  {
    hide MintOk;
  }

  lemma BeginMintInv(w: World, m: nat, backend: string, ttl: int)
    requires Inv(w)
    ensures Inv(BeginMintStep(w, m, backend, ttl))
  {
    hide Inv, SweepOk;
    MintIsOk(w, m);
    var v := BeginMintStep(w, m, backend, ttl);
    if v != w {
      assert MintMoved(w, v, m);
      MintMovedInv(w, v, m);
    }
  }

  lemma CreateUserInv(w: World, m: nat, effect: bool, ok: bool)
    requires Inv(w)
    ensures Inv(CreateUserStep(w, m, effect, ok))
  {
    hide Inv, SweepOk;
    MintIsOk(w, m);
    var v := CreateUserStep(w, m, effect, ok);
    if v != w {
      assert MintMoved(w, v, m);
      MintMovedInv(w, v, m);
    }
  }

  lemma PutPolicyInv(w: World, m: nat, ok: bool)
    requires Inv(w)
    ensures Inv(PutPolicyStep(w, m, ok))
  {
    hide Inv, SweepOk;
    MintIsOk(w, m);
    var v := PutPolicyStep(w, m, ok);
    if v != w {
      assert MintMoved(w, v, m);
      MintMovedInv(w, v, m);
    }
  }

  lemma CreateKeyInv(w: World, m: nat, effect: bool, ok: bool)
    requires Inv(w)
    ensures Inv(CreateKeyStep(w, m, effect, ok))
  {
    hide Inv, SweepOk;
    MintIsOk(w, m);
    var v := CreateKeyStep(w, m, effect, ok);
    if v != w {
      assert MintMoved(w, v, m);
      MintMovedInv(w, v, m);
    }
  }

  lemma RecordLeaseInv(w: World, m: nat, effect: bool, ok: bool)
    requires Inv(w)
    ensures Inv(RecordLeaseStep(w, m, effect, ok))
  {
    hide Inv, SweepOk;
    MintIsOk(w, m);
    var v := RecordLeaseStep(w, m, effect, ok);
    if v != w {
      assert MintMoved(w, v, m);
      MintMovedInv(w, v, m);
    }
  }

  lemma ReturnInv(w: World, m: nat)
    requires Inv(w)
    ensures Inv(ReturnStep(w, m))
  {
    hide Inv, SweepOk;
    MintIsOk(w, m);
    var v := ReturnStep(w, m);
    if v != w {
      assert MintMoved(w, v, m);
      MintMovedInv(w, v, m);
    }
  }

  lemma UndoKeyInv(w: World, m: nat, effect: bool)
    requires Inv(w)
    ensures Inv(UndoKeyStep(w, m, effect))
  {
    hide Inv, SweepOk;
    MintIsOk(w, m);
    var v := UndoKeyStep(w, m, effect);
    if v != w {
      assert MintMoved(w, v, m);
      MintMovedInv(w, v, m);
    }
  }

  lemma UndoUserInv(w: World, m: nat, effect: bool)
    requires Inv(w)
    ensures Inv(UndoUserStep(w, m, effect))
  {
    hide Inv, SweepOk;
    MintIsOk(w, m);
    var v := UndoUserStep(w, m, effect);
    if v != w {
      assert MintMoved(w, v, m);
      MintMovedInv(w, v, m);
    }
  }

  lemma CrashMintInv(w: World, m: nat)
    requires Inv(w)
    ensures Inv(CrashMintStep(w, m))
  {
    hide Inv, SweepOk;
    MintIsOk(w, m);
    var v := CrashMintStep(w, m);
    if v != w {
      assert MintMoved(w, v, m);
      MintMovedInv(w, v, m);
    }
  }

  lemma StartSweepInv(w: World, s: nat, lease: nat)
    requires Inv(w)
    ensures Inv(StartSweepStep(w, s, lease))
  {
    hide Inv;
    MintIsOk(w, lease);
    var v := StartSweepStep(w, s, lease);
    if v != w {
      assert SweepMoved(w, v, s);
      SweepMovedInv(w, v, s);
    }
  }

  lemma ReadBackendInv(w: World, s: nat, ok: bool)
    requires Inv(w)
    ensures Inv(ReadBackendStep(w, s, ok))
  {
    hide Inv;
    SweepIsOk(w, s);
    var v := ReadBackendStep(w, s, ok);
    if v != w {
      assert SweepMoved(w, v, s);
      SweepMovedInv(w, v, s);
    }
  }

  lemma DeleteKeyInv(w: World, s: nat, effect: bool, ok: bool)
    requires Inv(w)
    ensures Inv(DeleteKeyStep(w, s, effect, ok))
  {
    hide Inv;
    SweepIsOk(w, s);
    var v := DeleteKeyStep(w, s, effect, ok);
    if v != w {
      assert SweepMoved(w, v, s);
      SweepMovedInv(w, v, s);
    }
  }

  lemma DeleteUserInv(w: World, s: nat, effect: bool, ok: bool)
    requires Inv(w)
    ensures Inv(DeleteUserStep(w, s, effect, ok))
  {
    hide Inv;
    SweepIsOk(w, s);
    var v := DeleteUserStep(w, s, effect, ok);
    if v != w {
      assert SweepMoved(w, v, s);
      SweepMovedInv(w, v, s);
    }
  }

  lemma MarkSweptInv(w: World, s: nat, effect: bool, ok: bool)
    requires Inv(w)
    ensures Inv(MarkSweptStep(w, s, effect, ok))
  {
    hide Inv;
    SweepIsOk(w, s);
    var v := MarkSweptStep(w, s, effect, ok);
    if v != w {
      assert SweepMoved(w, v, s);
      SweepMovedInv(w, v, s);
    }
  }

  lemma CrashSweepInv(w: World, s: nat)
    requires Inv(w)
    ensures Inv(CrashSweepStep(w, s))
  {
    hide Inv;
    SweepIsOk(w, s);
    var v := CrashSweepStep(w, s);
    if v != w {
      assert SweepMoved(w, v, s);
      SweepMovedInv(w, v, s);
    }
  }

  lemma OutsideInv(w: World, registry: map<string, Entry>, now: int)
    requires Inv(w)
    ensures Inv(w.(registry := registry, now := now))
  {
  }

  lemma StepInv(w: World, e: Event)
    requires Inv(w)
    ensures Inv(Apply(w, e))
  {
    hide Inv;
    hide BeginMintStep, CreateUserStep, PutPolicyStep, CreateKeyStep, RecordLeaseStep, ReturnStep, UndoKeyStep, UndoUserStep, CrashMintStep, StartSweepStep, ReadBackendStep, DeleteKeyStep, DeleteUserStep, MarkSweptStep, CrashSweepStep;
    match e {
      case BeginMint(m, backend, ttl) => BeginMintInv(w, m, backend, ttl);
      case CreateUser(m, effect, ok) => CreateUserInv(w, m, effect, ok);
      case PutPolicy(m, ok) => PutPolicyInv(w, m, ok);
      case CreateKey(m, effect, ok) => CreateKeyInv(w, m, effect, ok);
      case RecordLease(m, effect, ok) => RecordLeaseInv(w, m, effect, ok);
      case Return(m) => ReturnInv(w, m);
      case UndoKey(m, effect) => UndoKeyInv(w, m, effect);
      case UndoUser(m, effect) => UndoUserInv(w, m, effect);
      case CrashMint(m) => CrashMintInv(w, m);
      case StartSweep(s, lease) => StartSweepInv(w, s, lease);
      case ReadBackend(s, ok) => ReadBackendInv(w, s, ok);
      case DeleteKey(s, effect, ok) => DeleteKeyInv(w, s, effect, ok);
      case DeleteUser(s, effect, ok) => DeleteUserInv(w, s, effect, ok);
      case MarkSwept(s, effect, ok) => MarkSweptInv(w, s, effect, ok);
      case CrashSweep(s) => CrashSweepInv(w, s);
      case SetBackend(backend, entry) => OutsideInv(w, w.registry[backend := entry], w.now);
      case RemoveBackend(backend) => OutsideInv(w, w.registry - {backend}, w.now);
      case Tick(seconds) => OutsideInv(w, w.registry, w.now + seconds);
    }
  }

  lemma {:induction false} RunInv(w: World, events: seq<Event>)
    requires Inv(w)
    ensures Inv(Run(w, events))
    decreases |events|
  {
    hide Inv, Apply;
    if events != [] {
      StepInv(w, events[0]);
      RunInv(Apply(w, events[0]), events[1..]);
    }
  }

  // ---- what holds in every run ----

  ghost predicate Reachable(w: World) {
    exists registry, now, events :: w == Run(Start(registry, now), events)
  }

  lemma ReachableInv(w: World)
    requires Reachable(w)
    ensures Inv(w)
  {
    hide Inv, Run;
    var registry, now, events :| w == Run(Start(registry, now), events);
    StartInv(registry, now);
    RunInv(Start(registry, now), events);
  }

  /** A credential is returned only after its lease is stored. */
  lemma ReturnedMeansStored(w: World, m: nat)
    requires Reachable(w) && m in w.mints && w.mints[m].phase in {Returning, Returned}
    ensures m in w.leases && w.leases[m].backend == w.mints[m].backend
  {
    ReachableInv(w);
    assert MintOk(w, m);
  }

  /** No sweeper call ever removes a user whose key is still there. */
  lemma SweepersDeleteKeysFirst(w: World, s: nat, effect: bool, ok: bool, m: nat)
    requires Reachable(w) && m in w.users && m !in DeleteUserStep(w, s, effect, ok).users
    ensures m !in w.keys
  {
    ReachableInv(w);
    assert SweepOk(w, s);
  }

  /** A lease some sweeper marked after reading the address it was minted under: key and user
      are gone. One no sweeper has read that address for: its key is where the mint left it. */
  lemma MarksAndKeys(w: World, m: nat)
    requires Reachable(w) && m in w.leases
    ensures m in w.mints
    ensures Addressed(w.mints[m].endpoint) in w.leases[m].marks ==> m !in w.keys && m !in w.users
    ensures Addressed(w.mints[m].endpoint) !in w.leases[m].seen && !w.mints[m].keyUndone ==> m in w.keys
  {
    ReachableInv(w);
    assert MintOk(w, m);
  }

  /** A lease marked swept, every sweeper having read the same thing about its backend: the
      credential is gone exactly when what they read was the address it was minted under. */
  lemma SweptAndGone(w: World, m: nat, read: Reading)
    requires Reachable(w) && m in w.leases && w.leases[m].swept && w.leases[m].seen == {read}
    requires m in w.mints && w.mints[m].phase == Returned
    ensures m !in w.keys && m !in w.users <==> read == Addressed(w.mints[m].endpoint)
    ensures read != Addressed(w.mints[m].endpoint) ==> m in w.keys
  {
    ReachableInv(w);
    assert MintOk(w, m);
    var mark :| mark in w.leases[m].marks;
    assert mark in w.leases[m].seen;
  }

  ghost predicate Registered(w: World, m: nat) {
    m in w.mints ==>
      w.mints[m].backend in w.registry && w.registry[w.mints[m].backend] == S3(w.mints[m].endpoint)
  }

  ghost predicate RegisteredThroughout(w: World, events: seq<Event>, m: nat)
    decreases |events|
  {
    Registered(w, m) && (events != [] ==> RegisteredThroughout(Apply(w, events[0]), events[1..], m))
  }

  ghost predicate SeenOnlyHere(w: World, m: nat) {
    m in w.leases && m in w.mints ==> w.leases[m].seen <= {Addressed(w.mints[m].endpoint)}
  }

  lemma StepSeen(w: World, e: Event, m: nat)
    requires Inv(w) && Registered(w, m) && SeenOnlyHere(w, m)
    ensures SeenOnlyHere(Apply(w, e), m)
  {
    hide Inv, MintOk, LeaseOk, SweepOk;
    if m in w.leases {
      LeaseBackend(w, m);
    }
    if e.RecordLease? || e.ReadBackend? {
      hide BeginMintStep, CreateUserStep, PutPolicyStep, CreateKeyStep, ReturnStep, UndoKeyStep, UndoUserStep, CrashMintStep;
      hide StartSweepStep, DeleteKeyStep, DeleteUserStep, MarkSweptStep, CrashSweepStep;
    } else {
      hide Apply;
      SameSeen(w, e, m);
    }
  }

  lemma LeaseBackend(w: World, m: nat)
    requires Inv(w) && m in w.leases
    ensures m in w.mints && w.leases[m].backend == w.mints[m].backend
  {
    hide SweepOk;
    MintIsOk(w, m);
  }

  /** Only recording a lease and reading its backend touch what its sweepers have seen. */
  lemma SameSeen(w: World, e: Event, m: nat)
    requires !e.RecordLease? && !e.ReadBackend?
    ensures var v := Apply(w, e);
            && (m in v.leases <==> m in w.leases)
            && (m in w.leases ==> v.leases[m].seen == w.leases[m].seen)
            && (m in w.mints ==> m in v.mints && v.mints[m].endpoint == w.mints[m].endpoint)
  {
    hide Apply;
    if Minting(e) {
      MintingSeesNothing(w, e, m);
    } else {
      SweepingSeesNothing(w, e, m);
    }
  }

  lemma MintingSeesNothing(w: World, e: Event, m: nat)
    requires Minting(e) && !e.RecordLease?
    ensures var v := Apply(w, e);
            v.leases == w.leases && (m in w.mints ==> m in v.mints && v.mints[m].endpoint == w.mints[m].endpoint)
  {
    hide RecordLeaseStep, StartSweepStep, ReadBackendStep, DeleteKeyStep, DeleteUserStep, MarkSweptStep, CrashSweepStep;
  }

  lemma SweepingSeesNothing(w: World, e: Event, m: nat)
    requires !Minting(e) && !e.ReadBackend?
    ensures var v := Apply(w, e);
            && v.mints == w.mints
            && (m in v.leases <==> m in w.leases)
            && (m in w.leases ==> v.leases[m].seen == w.leases[m].seen)
  {
    hide BeginMintStep, CreateUserStep, PutPolicyStep, CreateKeyStep, RecordLeaseStep, ReturnStep, UndoKeyStep, UndoUserStep;
    hide CrashMintStep, ReadBackendStep;
  }

  lemma {:induction false} RunSeen(w: World, events: seq<Event>, m: nat)
    requires Inv(w) && RegisteredThroughout(w, events, m) && SeenOnlyHere(w, m)
    ensures SeenOnlyHere(Run(w, events), m)
    decreases |events|
  {
    hide Inv, Apply, Registered, SeenOnlyHere;
    if events != [] {
      StepInv(w, events[0]);
      StepSeen(w, events[0], m);
      RunSeen(Apply(w, events[0]), events[1..], m);
    }
  }

  /** A lease whose backend stays registered at the address it was minted under is marked swept
      only when its key and its user are both gone. */
  lemma SweptWhileRegistered(registry: map<string, Entry>, now: int, events: seq<Event>, m: nat)
    requires RegisteredThroughout(Start(registry, now), events, m)
    requires m in Run(Start(registry, now), events).leases && Run(Start(registry, now), events).leases[m].swept
    ensures m !in Run(Start(registry, now), events).keys && m !in Run(Start(registry, now), events).users
  {
    hide Run, RegisteredThroughout;
    StartInv(registry, now);
    RunInv(Start(registry, now), events);
    RunSeen(Start(registry, now), events, m);
    var w := Run(Start(registry, now), events);
    assert MintOk(w, m);
    var mark :| mark in w.leases[m].marks;
    assert mark in w.leases[m].seen;
  }

  // ---- how long a credential lives ----

  function Lifetime(ttl: int): int {
    if ttl > 0 then ttl else 300
  }

  /** The time that passes in a run. */
  function Elapsed(events: seq<Event>): nat
    decreases |events|
  {
    if events == [] then 0 else (if events[0].Tick? then events[0].seconds else 0) + Elapsed(events[1..])
  }

  /** What no step changes once it is there, and how a step can make it be there. */
  lemma StepRecords(w: World, e: Event, m: nat)
    requires Inv(w)
    ensures var v := Apply(w, e);
            && v.now == w.now + Elapsed([e])
            && (m in w.mints ==>
                  m in v.mints && v.mints[m].backend == w.mints[m].backend && v.mints[m].endpoint == w.mints[m].endpoint
                  && v.mints[m].ttl == w.mints[m].ttl)
            && (m !in w.mints && m in v.mints ==>
                  e == BeginMint(m, v.mints[m].backend, v.mints[m].ttl)
                  && v.mints[m].backend in w.registry && w.registry[v.mints[m].backend] == S3(v.mints[m].endpoint))
            && (m in w.leases ==>
                  m in v.leases && v.leases[m].backend == w.leases[m].backend && v.leases[m].expiresAt == w.leases[m].expiresAt)
            && (m !in w.leases && m in v.leases ==>
                  e.RecordLease? && e.m == m && m in w.mints && v.leases[m].backend == w.mints[m].backend
                  && v.leases[m].expiresAt == w.now + Lifetime(w.mints[m].ttl))
  {
    hide Inv, Apply;
    assert [e][1..] == [];
    MintIsOk(w, m);
    hide MintOk;
    if Minting(e) {
      MintingRecords(w, e, m);
    } else {
      SweepingRecords(w, e, m);
    }
  }

  lemma MintingRecords(w: World, e: Event, m: nat)
    requires Minting(e) && (m in w.leases ==> m in w.mints) && (MintAt(w, m, Recording) ==> m !in w.leases)
    ensures var v := Apply(w, e);
            && v.now == w.now && w.leases.Keys <= v.leases.Keys && w.mints.Keys <= v.mints.Keys
            && (m in w.mints ==>
                  v.mints[m].backend == w.mints[m].backend && v.mints[m].endpoint == w.mints[m].endpoint
                  && v.mints[m].ttl == w.mints[m].ttl)
            && (m !in w.mints && m in v.mints ==>
                  e == BeginMint(m, v.mints[m].backend, v.mints[m].ttl)
                  && v.mints[m].backend in w.registry && w.registry[v.mints[m].backend] == S3(v.mints[m].endpoint))
            && (m in w.leases ==> v.leases[m] == w.leases[m])
            && (m !in w.leases && m in v.leases ==>
                  e.RecordLease? && e.m == m && m in w.mints && v.leases[m].backend == w.mints[m].backend
                  && v.leases[m].expiresAt == w.now + Lifetime(w.mints[m].ttl))
  {
    if e.BeginMint? || e.RecordLease? {
      hide StartSweepStep, ReadBackendStep, DeleteKeyStep, DeleteUserStep, MarkSweptStep, CrashSweepStep;
      hide CreateUserStep, PutPolicyStep, CreateKeyStep, ReturnStep, UndoKeyStep, UndoUserStep, CrashMintStep;
    } else {
      hide Apply;
      PhasesRecordNothing(w, e, m);
    }
  }

  lemma PhasesRecordNothing(w: World, e: Event, m: nat)
    requires Minting(e) && !e.BeginMint? && !e.RecordLease?
    ensures var v := Apply(w, e);
            && v.now == w.now && v.leases == w.leases && v.mints.Keys == w.mints.Keys
            && (m in w.mints ==>
                  v.mints[m].backend == w.mints[m].backend && v.mints[m].endpoint == w.mints[m].endpoint
                  && v.mints[m].ttl == w.mints[m].ttl)
  {
    hide BeginMintStep, RecordLeaseStep, StartSweepStep, ReadBackendStep, DeleteKeyStep, DeleteUserStep, MarkSweptStep, CrashSweepStep;
    if e.CreateUser? || e.PutPolicy? || e.CreateKey? {
      hide ReturnStep, UndoKeyStep, UndoUserStep, CrashMintStep;
    } else {
      hide CreateUserStep, PutPolicyStep, CreateKeyStep;
    }
  }

  lemma SweepingRecords(w: World, e: Event, m: nat)
    requires !Minting(e)
    ensures var v := Apply(w, e);
            && v.now == w.now + (if e.Tick? then e.seconds else 0)
            && v.mints == w.mints && v.leases.Keys == w.leases.Keys
            && (m in w.leases ==> v.leases[m].backend == w.leases[m].backend && v.leases[m].expiresAt == w.leases[m].expiresAt)
  {
    hide BeginMintStep, CreateUserStep, PutPolicyStep, CreateKeyStep, RecordLeaseStep, ReturnStep, UndoKeyStep, UndoUserStep;
    hide CrashMintStep, ReadingOf, Unreadable;
  }

  lemma {:induction false} RunNow(w: World, events: seq<Event>)
    requires Inv(w)
    ensures Run(w, events).now == w.now + Elapsed(events)
    decreases |events|
  {
    hide Inv, Apply;
    if events != [] {
      StepInv(w, events[0]);
      StepRecords(w, events[0], 0);
      RunNow(Apply(w, events[0]), events[1..]);
      assert [events[0]][1..] == [];
    }
  }

  /** The event that began mint `m`, for a backend registered then at the mint's address. */
  lemma {:induction false} MintBegan(w: World, events: seq<Event>, m: nat) returns (b: nat)
    requires Inv(w) && m !in w.mints && m in Run(w, events).mints
    ensures b < |events|
    ensures var mint := Run(w, events).mints[m];
            events[b] == BeginMint(m, mint.backend, mint.ttl)
            && mint.backend in Run(w, events[..b]).registry
            && Run(w, events[..b]).registry[mint.backend] == S3(mint.endpoint)
            && m !in Run(w, events[..b]).mints
    decreases |events|
  {
    hide Inv, Apply;
    var next := Apply(w, events[0]);
    StepInv(w, events[0]);
    StepRecords(w, events[0], m);
    if m in next.mints {
      b := 0;
      MintStays(next, events[1..], m);
    } else {
      b := MintBegan(next, events[1..], m);
      assert events[..b + 1][1..] == events[1..][..b];
      b := b + 1;
    }
  }

  lemma {:induction false} MintStays(w: World, events: seq<Event>, m: nat)
    requires Inv(w) && m in w.mints
    ensures var v := Run(w, events);
            && m in v.mints && v.mints[m].backend == w.mints[m].backend && v.mints[m].endpoint == w.mints[m].endpoint
            && v.mints[m].ttl == w.mints[m].ttl
            && (m in w.leases ==> m in v.leases && v.leases[m].expiresAt == w.leases[m].expiresAt && v.leases[m].backend == w.leases[m].backend)
    decreases |events|
  {
    hide Inv, Apply;
    if events != [] {
      StepInv(w, events[0]);
      StepRecords(w, events[0], m);
      MintStays(Apply(w, events[0]), events[1..], m);
    }
  }

  /** The event that recorded a lease, and the expiry it set. */
  lemma {:induction false} LeaseRecorded(w: World, events: seq<Event>, m: nat) returns (r: nat)
    requires Inv(w) && m !in w.leases && m in Run(w, events).leases
    ensures r < |events| && events[r].RecordLease? && events[r].m == m
    ensures var before, after := Run(w, events[..r]), Run(w, events);
            && m in before.mints && m !in before.leases && m in after.mints && after.mints[m].ttl == before.mints[m].ttl
            && after.leases[m].expiresAt == before.now + Lifetime(before.mints[m].ttl)
            && after.leases[m].backend == before.mints[m].backend
    decreases |events|
  {
    hide Inv, Apply, Lifetime;
    var next := Apply(w, events[0]);
    StepInv(w, events[0]);
    StepRecords(w, events[0], m);
    if m in next.leases {
      r := 0;
      MintStays(next, events[1..], m);
    } else {
      r := LeaseRecorded(next, events[1..], m);
      assert events[..r + 1][1..] == events[1..][..r];
      r := r + 1;
    }
  }

  /** In every run a lease recorded at some time for a mint begun with some time to live expires that
      much later, 300 seconds when none was asked for. */
  lemma LeaseLifetime(registry: map<string, Entry>, now: int, events: seq<Event>, m: nat)
    returns (b: nat, r: nat, ttl: int)
    requires m in Run(Start(registry, now), events).leases
    ensures b < r < |events| && events[r].RecordLease? && events[r].m == m
    ensures var lease := Run(Start(registry, now), events).leases[m];
            && events[b] == BeginMint(m, lease.backend, ttl)
            && lease.expiresAt == now + Elapsed(events[..r]) + (if ttl > 0 then ttl else 300)
  {
    hide Run, Inv, Elapsed;
    var w0 := Start(registry, now);
    StartInv(registry, now);
    r := LeaseRecorded(w0, events, m);
    b := MintBegan(w0, events[..r], m);
    RunInv(w0, events[..r]);
    RunNow(w0, events[..r]);
    ttl := Run(w0, events[..r]).mints[m].ttl;
    assert events[..r][b] == events[b];
  }

  /** Until its lease has expired no sweeper has taken up the mint's account. */
  ghost predicate Untouched(w: World, m: nat) {
    m in w.mints && (m in w.leases ==> w.now <= w.leases[m].expiresAt) ==>
      && (forall s :: s in w.sweeps ==> w.sweeps[s].lease != m)
      && (w.mints[m].phase in {PuttingPolicy, CreatingKey, Recording, Returning, Returned} ==> m in w.users)
      && (w.mints[m].phase in {Recording, Returning, Returned} ==> m in w.keys)
      && (m in w.leases ==> !w.leases[m].swept)
  }

  lemma StepUntouched(w: World, e: Event, m: nat)
    requires Inv(w) && Untouched(w, m)
    ensures Untouched(Apply(w, e), m)
  {
    hide Inv, Apply, MintOk, LeaseOk, Untouched;
    StepRecords(w, e, m);
    MintIsOk(w, m);
    if Minting(e) {
      NotSweptBefore(w, m);
      MintingUntouched(w, e, m);
    } else {
      SweepingUntouched(w, e, m);
    }
  }

  lemma NotSweptBefore(w: World, m: nat)
    requires Inv(w)
    ensures m !in w.mints ==> forall s :: s in w.sweeps ==> w.sweeps[s].lease != m
  {
    hide MintOk;
  }

  lemma MintingUntouched(w: World, e: Event, m: nat)
    requires Untouched(w, m) && Minting(e)
    requires m in w.mints ==> MintOk(w, m)
    requires m in w.leases ==> m in w.mints
    requires m !in w.mints ==> forall s :: s in w.sweeps ==> w.sweeps[s].lease != m
    ensures Untouched(Apply(w, e), m)
  {
    hide LeaseOk, StartSweepStep, ReadBackendStep, DeleteKeyStep, DeleteUserStep, MarkSweptStep, CrashSweepStep;
  }

  lemma SweepingUntouched(w: World, e: Event, m: nat)
    requires Untouched(w, m) && !Minting(e)
    ensures Untouched(Apply(w, e), m)
  {
    hide BeginMintStep, CreateUserStep, PutPolicyStep, CreateKeyStep, RecordLeaseStep, ReturnStep, UndoKeyStep, UndoUserStep;
    hide CrashMintStep, ReadingOf, Unreadable;
  }

  lemma {:induction false} RunUntouched(w: World, events: seq<Event>, m: nat)
    requires Inv(w) && Untouched(w, m)
    ensures Untouched(Run(w, events), m)
    decreases |events|
  {
    hide Inv, Apply, Untouched;
    if events != [] {
      StepInv(w, events[0]);
      StepUntouched(w, events[0], m);
      RunUntouched(Apply(w, events[0]), events[1..], m);
    }
  }

  /** In every run a returned credential has its user and its key, and its lease is not swept, until
      the time to live its mint was begun with has passed since the lease was recorded. */
  lemma ReturnedCredentialLives(registry: map<string, Entry>, now: int, events: seq<Event>, m: nat)
    returns (b: nat, r: nat, ttl: int)
    requires MintAt(Run(Start(registry, now), events), m, Returned)
    ensures b < r < |events| && events[r].RecordLease? && events[r].m == m && events[b].BeginMint? && events[b].m == m && events[b].ttl == ttl
    ensures var w := Run(Start(registry, now), events);
            Elapsed(events) <= Elapsed(events[..r]) + (if ttl > 0 then ttl else 300) ==>
              m in w.users && m in w.keys && m in w.leases && !w.leases[m].swept
  {
    hide Run, Inv, Elapsed;
    var w0 := Start(registry, now);
    StartInv(registry, now);
    RunInv(w0, events);
    RunNow(w0, events);
    RunUntouched(w0, events, m);
    MintIsOk(Run(w0, events), m);
    b, r, ttl := LeaseLifetime(registry, now, events, m);
  }

  /** A mint nobody disturbs and whose calls all work. */
  function WholeMint(w: World, m: nat, backend: string, ttl: int): World {
    var w3 := PutPolicyStep(CreateUserStep(BeginMintStep(w, m, backend, ttl), m, true, true), m, true);
    ReturnStep(RecordLeaseStep(CreateKeyStep(w3, m, true, true), m, true, true), m)
  }

  /** It ends with a user, a key and a lease, and the credential returned; for a backend that is not
      S3 nothing is begun. */
  lemma LoneMint(w: World, m: nat, backend: string, ttl: int)
    requires m !in w.mints
    ensures var v := WholeMint(w, m, backend, ttl);
            if backend in w.registry && w.registry[backend].S3? then
              && MintAt(v, m, Returned) && v.mints[m].endpoint == w.registry[backend].endpoint
              && v == w.(users := w.users + {m}, keys := w.keys + {m}, mints := w.mints[m := v.mints[m]],
                         leases := w.leases[m := Lease(backend, w.now + (if ttl > 0 then ttl else 300), false, {}, {})])
            else v == w
  {
    hide BeginMintStep, CreateUserStep, PutPolicyStep, CreateKeyStep, RecordLeaseStep, ReturnStep;
    if backend in w.registry && w.registry[backend].S3? {
      HalfMint(w, m, backend, ttl);
      var mint := Mint(backend, w.registry[backend].endpoint, ttl, CreatingKey, false, false);
      OtherHalf(w.(users := w.users + {m}, mints := w.mints[m := mint]), m);
      assert w.mints[m := mint][m := mint.(phase := Returned, keyMade := true)] == w.mints[m := mint.(phase := Returned, keyMade := true)];
    } else {
      NoMint(w, m, backend, ttl);
    }
  }

  lemma NoMint(w: World, m: nat, backend: string, ttl: int)
    requires m !in w.mints && !(backend in w.registry && w.registry[backend].S3?)
    ensures WholeMint(w, m, backend, ttl) == w
  {
  }

  lemma OtherHalf(w: World, m: nat)
    requires MintAt(w, m, CreatingKey)
    ensures ReturnStep(RecordLeaseStep(CreateKeyStep(w, m, true, true), m, true, true), m)
         == w.(keys := w.keys + {m}, mints := w.mints[m := w.mints[m].(phase := Returned, keyMade := true)],
               leases := w.leases[m := Lease(w.mints[m].backend, w.now + Lifetime(w.mints[m].ttl), false, {}, {})])
  {
    var w4 := CreateKeyStep(w, m, true, true);
    assert w4 == w.(keys := w.keys + {m}, mints := w.mints[m := w.mints[m].(phase := Recording, keyMade := true)]);
    hide CreateKeyStep;
  }

  lemma HalfMint(w: World, m: nat, backend: string, ttl: int)
    requires m !in w.mints && backend in w.registry && w.registry[backend].S3?
    ensures PutPolicyStep(CreateUserStep(BeginMintStep(w, m, backend, ttl), m, true, true), m, true)
         == w.(users := w.users + {m},
               mints := w.mints[m := Mint(backend, w.registry[backend].endpoint, ttl, CreatingKey, false, false)])
  {
  }

  /** A mint one of whose calls fails without effect, and whose undo calls work, leaves no user, key
      or lease. */
  lemma UndoneMint(w: World, m: nat, backend: string, ttl: int)
    requires m !in w.mints && m !in w.users && m !in w.keys && m !in w.leases
    ensures var w2 := CreateUserStep(BeginMintStep(w, m, backend, ttl), m, true, true);
            var w4 := CreateKeyStep(PutPolicyStep(w2, m, true), m, true, true);
            && SameAccounts(w, CreateUserStep(BeginMintStep(w, m, backend, ttl), m, false, false))
            && SameAccounts(w, UndoUserStep(PutPolicyStep(w2, m, false), m, true))
            && SameAccounts(w, UndoUserStep(CreateKeyStep(PutPolicyStep(w2, m, true), m, false, false), m, true))
            && SameAccounts(w, UndoUserStep(UndoKeyStep(RecordLeaseStep(w4, m, false, false), m, true), m, true))
  {
    hide BeginMintStep, CreateUserStep, PutPolicyStep, CreateKeyStep, RecordLeaseStep, UndoKeyStep, UndoUserStep;
    var w1 := BeginMintStep(w, m, backend, ttl);
    BegunMint(w, m, backend, ttl);
    UserUndone(w1, m);
    KeyUndone(w1, m);
  }

  lemma BegunMint(w: World, m: nat, backend: string, ttl: int)
    requires m !in w.mints
    ensures var w1 := BeginMintStep(w, m, backend, ttl);
            SameAccounts(w, w1) && (m in w1.mints ==> MintAt(w1, m, CreatingUser))
  {
  }

  lemma UserUndone(w: World, m: nat)
    requires m !in w.users && m !in w.keys && m !in w.leases
    ensures var w2 := CreateUserStep(w, m, true, true);
            && SameAccounts(w, CreateUserStep(w, m, false, false))
            && SameAccounts(w, UndoUserStep(PutPolicyStep(w2, m, false), m, true))
            && SameAccounts(w, UndoUserStep(CreateKeyStep(PutPolicyStep(w2, m, true), m, false, false), m, true))
  {
    var w2 := CreateUserStep(w, m, true, true);
    assert w2.users - {m} == w.users && w2.keys == w.keys && w2.leases == w.leases;
    assert MintAt(w, m, CreatingUser) <==> MintAt(w2, m, PuttingPolicy) && w2 != w;
    hide CreateUserStep;
  }

  lemma KeyUndone(w: World, m: nat)
    requires m !in w.users && m !in w.keys && m !in w.leases && (m in w.mints ==> MintAt(w, m, CreatingUser))
    ensures var w4 := CreateKeyStep(PutPolicyStep(CreateUserStep(w, m, true, true), m, true), m, true, true);
            SameAccounts(w, UndoUserStep(UndoKeyStep(RecordLeaseStep(w4, m, false, false), m, true), m, true))
  {
    hide CreateUserStep, PutPolicyStep;
    var w3 := PutPolicyStep(CreateUserStep(w, m, true, true), m, true);
    UserMade(w, m);
    var w4 := CreateKeyStep(w3, m, true, true);
    assert w4.users == w3.users && w4.keys - {m} == w.keys && w4.leases == w.leases;
    assert (m in w.mints && MintAt(w4, m, Recording)) || (m !in w4.mints && w4 == w);
    hide CreateKeyStep;
  }

  lemma UserMade(w: World, m: nat)
    requires m !in w.users && (m in w.mints ==> MintAt(w, m, CreatingUser))
    ensures var w3 := PutPolicyStep(CreateUserStep(w, m, true, true), m, true);
            && w3.users - {m} == w.users && w3.keys == w.keys && w3.leases == w.leases
            && if m in w.mints then MintAt(w3, m, CreatingKey) else w3 == w
  {
  }

  predicate SameAccounts(w: World, v: World) {
    v.users == w.users && v.keys == w.keys && v.leases == w.leases
  }

  // ---- failed mints ----

  /** A live key that no lease tracks and no mint is going to record or delete any more. */
  ghost predicate Stranded(w: World, m: nat) {
    m in w.keys && m !in w.leases && m in w.mints && w.mints[m].phase in {UndoingUser, Failed, Crashed}
  }

  /** The calls that strand a key: its creation behind a failure reply, an undo that does nothing, a
      crash between the key's creation and its lease or its undo. */
  predicate Strands(w: World, e: Event, m: nat) {
    || (e == CreateKey(m, true, false) && MintAt(w, m, CreatingKey))
    || (e == UndoKey(m, false) && MintAt(w, m, UndoingKey) && m !in w.leases)
    || (e == CrashMint(m) && (MintAt(w, m, Recording) || MintAt(w, m, UndoingKey)) && m !in w.leases)
  }

  predicate Minting(e: Event) {
    || e.BeginMint? || e.CreateUser? || e.PutPolicy? || e.CreateKey? || e.RecordLease? || e.Return?
    || e.UndoKey? || e.UndoUser? || e.CrashMint?
  }

  /** A step strands a key exactly when it is one of those calls; a stranded key stays so. */
  lemma StepStrands(w: World, e: Event, m: nat)
    requires Inv(w)
    ensures Stranded(Apply(w, e), m) <==> Stranded(w, m) || Strands(w, e, m)
  {
    hide Inv, Apply, MintOk, Stranded, Strands;
    MintIsOk(w, m);
    if !Minting(e) {
      SweepingStrandsNothing(w, e, m);
    } else if e.m == m {
      MintingStrands(w, e, m);
    } else {
      OtherMintsStrandNothing(w, e, m);
    }
  }

  lemma SweepingStrandsNothing(w: World, e: Event, m: nat)
    requires !Minting(e)
    ensures Stranded(Apply(w, e), m) <==> Stranded(w, m)
    ensures !Strands(w, e, m)
  {
    hide ReadingOf, Unreadable, BeginMintStep, CreateUserStep, PutPolicyStep, CreateKeyStep, RecordLeaseStep, ReturnStep;
    hide UndoKeyStep, UndoUserStep, CrashMintStep;
  }

  lemma MintingStrands(w: World, e: Event, m: nat)
    requires m in w.mints ==> MintOk(w, m)
    requires m in w.keys || m in w.leases ==> m in w.mints
    requires Minting(e) && e.m == m
    ensures Stranded(Apply(w, e), m) <==> Stranded(w, m) || Strands(w, e, m)
  {
    hide LeaseOk, StartSweepStep, ReadBackendStep, DeleteKeyStep, DeleteUserStep, MarkSweptStep, CrashSweepStep;
  }

  lemma OtherMintsStrandNothing(w: World, e: Event, m: nat)
    requires Minting(e) && e.m != m
    ensures Stranded(Apply(w, e), m) <==> Stranded(w, m)
    ensures !Strands(w, e, m)
  {
    hide StartSweepStep, ReadBackendStep, DeleteKeyStep, DeleteUserStep, MarkSweptStep, CrashSweepStep;
  }

  ghost predicate StrandsSomewhere(w: World, events: seq<Event>, m: nat)
    decreases |events|
  {
    events != [] && (Strands(w, events[0], m) || StrandsSomewhere(Apply(w, events[0]), events[1..], m))
  }

  lemma {:induction false} RunStrands(w: World, events: seq<Event>, m: nat)
    requires Inv(w)
    ensures Stranded(Run(w, events), m) <==> Stranded(w, m) || StrandsSomewhere(w, events, m)
    decreases |events|
  {
    hide Inv, Apply, Stranded, Strands;
    if events != [] {
      StepInv(w, events[0]);
      StepStrands(w, events[0], m);
      RunStrands(Apply(w, events[0]), events[1..], m);
    }
  }

  /** In every run: a live key has a stored lease, or its mint is still about to record or delete it,
      or else, and exactly then, one of the stranding calls happened for it. */
  lemma NoUntrackedKeys(registry: map<string, Entry>, now: int, events: seq<Event>, m: nat)
    ensures
      var w := Run(Start(registry, now), events);
      && (m in w.keys && m !in w.leases && m in w.mints && w.mints[m].phase !in {Recording, UndoingKey}
          <==> StrandsSomewhere(Start(registry, now), events, m))
      && (m in w.keys ==> m in w.mints)
  {
    hide Run, StrandsSomewhere;
    StartInv(registry, now);
    RunInv(Start(registry, now), events);
    RunStrands(Start(registry, now), events, m);
    MintIsOk(Run(Start(registry, now), events), m);
  }

  /** A mint whose lease cannot be recorded and whose key cannot be deleted. */
  function FailedRecording(backend: string): seq<Event> {
    [BeginMint(0, backend, 300), CreateUser(0, true, true), PutPolicy(0, true), CreateKey(0, true, true),
     RecordLease(0, false, false), UndoKey(0, false)]
  }

  function FailedRecordingSteps(w: World, backend: string): World {
    var w3 := PutPolicyStep(CreateUserStep(BeginMintStep(w, 0, backend, 300), 0, true, true), 0, true);
    UndoKeyStep(RecordLeaseStep(CreateKeyStep(w3, 0, true, true), 0, false, false), 0, false)
  }

  lemma FailedRecordingRuns(w: World, backend: string)
    ensures Run(w, FailedRecording(backend)) == FailedRecordingSteps(w, backend)
  {
    hide BeginMintStep, CreateUserStep, PutPolicyStep, CreateKeyStep, RecordLeaseStep, UndoKeyStep;
    var es := FailedRecording(backend);
    var w1 := Apply(w, es[0]);
    var w2 := Apply(w1, es[1]);
    var w3 := Apply(w2, es[2]);
    var w4 := Apply(w3, es[3]);
    var w5 := Apply(w4, es[4]);
    assert Run(w, es) == Run(w1, es[1..]);
    assert Run(w1, es[1..]) == Run(w2, es[2..]) by { assert es[1..][1..] == es[2..]; }
    assert Run(w2, es[2..]) == Run(w3, es[3..]) by { assert es[2..][1..] == es[3..]; }
    assert Run(w3, es[3..]) == Run(w4, es[4..]) by { assert es[3..][1..] == es[4..]; }
    assert Run(w4, es[4..]) == Run(w5, es[5..]) by { assert es[4..][1..] == es[5..]; }
    assert Run(w5, es[5..]) == Run(Apply(w5, es[5]), []) by { assert es[5..][1..] == []; }
  }

  /** With such a fault: recording the lease fails, the undo's own failure is ignored, and a key
      is left that no lease tracks; the last undo call then removes its user from under it. */
  lemma IgnoredUndoFailureLeavesAKey(backend: string, endpoint: Endpoint, now: int)
    ensures
      var w := Run(Start(map[backend := S3(endpoint)], now), FailedRecording(backend));
      && 0 in w.keys && 0 in w.users && 0 !in w.leases && MintAt(w, 0, UndoingUser)
      && 0 in UndoUserStep(w, 0, true).keys && 0 !in UndoUserStep(w, 0, true).users
  {
    hide Run;
    FailedRecordingRuns(Start(map[backend := S3(endpoint)], now), backend);
  }

  // ---- lost replies ----

  predicate SameServer(w: World, v: World) {
    w.users == v.users && w.keys == v.keys && w.leases == v.leases
  }

  /** A mint's call whose reply is lost leaves the server as one that reports success; one without
      effect leaves it as it was. */
  lemma LostMintReplies(w: World, m: nat)
    ensures SameServer(Apply(w, CreateUser(m, true, false)), Apply(w, CreateUser(m, true, true)))
    ensures SameServer(Apply(w, CreateKey(m, true, false)), Apply(w, CreateKey(m, true, true)))
    ensures SameServer(Apply(w, RecordLease(m, true, false)), Apply(w, RecordLease(m, true, true)))
    ensures SameServer(w, Apply(w, CreateUser(m, false, false))) && SameServer(w, Apply(w, CreateKey(m, false, false)))
    ensures SameServer(w, Apply(w, RecordLease(m, false, false)))
    ensures SameServer(w, Apply(w, UndoKey(m, false))) && SameServer(w, Apply(w, UndoUser(m, false)))
  {
    hide BeginMintStep, PutPolicyStep, ReturnStep, CrashMintStep, StartSweepStep, ReadBackendStep, DeleteKeyStep, DeleteUserStep;
    hide MarkSweptStep, CrashSweepStep;
  }

  lemma LostSweepReplies(w: World, s: nat)
    ensures SameServer(Apply(w, DeleteKey(s, true, false)), Apply(w, DeleteKey(s, true, true)))
    ensures SameServer(Apply(w, DeleteUser(s, true, false)), Apply(w, DeleteUser(s, true, true)))
    ensures SameServer(Apply(w, MarkSwept(s, true, false)), Apply(w, MarkSwept(s, true, true)))
    ensures SameServer(w, Apply(w, DeleteKey(s, false, false))) && SameServer(w, Apply(w, DeleteUser(s, false, false)))
    ensures SameServer(w, Apply(w, MarkSwept(s, false, false)))
  {
  }

  /** A sweeper makes only the call that is its turn, and none when idle. */
  lemma SweepersTakeTurns(w: World, s: nat, effect: bool, ok: bool)
    requires s in w.sweeps
    ensures !w.sweeps[s].phase.Reading_? ==> Apply(w, ReadBackend(s, ok)) == w
    ensures !w.sweeps[s].phase.DeletingKey? ==> Apply(w, DeleteKey(s, effect, ok)) == w
    ensures !w.sweeps[s].phase.DeletingUser? ==> Apply(w, DeleteUser(s, effect, ok)) == w
    ensures !w.sweeps[s].phase.Marking? ==> Apply(w, MarkSwept(s, effect, ok)) == w
    ensures !w.sweeps[s].phase.Idle? ==> forall lease :: Apply(w, StartSweep(s, lease)) == w
  {
  }

  /** The registry is told what a backend is now, or that there is none. */
  function Tell(w: World, backend: string, entry: Telling): World {
    Apply(w, if entry.Nothing? then RemoveBackend(backend) else SetBackend(backend, entry.entry))
  }

  datatype Telling = Nothing | Just(entry: Entry)

  lemma ToldRegistry(w: World, backend: string, entry: Telling)
    ensures var v := Tell(w, backend, entry);
            && v == w.(registry := v.registry)
            && (if entry.Just? then backend in v.registry && v.registry[backend] == entry.entry else backend !in v.registry)
            && forall other :: other != backend ==>
                 (other in v.registry <==> other in w.registry) && (other in w.registry ==> v.registry[other] == w.registry[other])
  {
    hide BeginMintStep, CreateUserStep, PutPolicyStep, CreateKeyStep, RecordLeaseStep, ReturnStep, UndoKeyStep, UndoUserStep;
    hide CrashMintStep, StartSweepStep, ReadBackendStep, DeleteKeyStep, DeleteUserStep, MarkSweptStep, CrashSweepStep;
  }

  /** What a sweeper acts on is what the registry was last told of its lease's backend: the address to
      delete at, nothing to delete there, or an error that ends the sweep. */
  lemma SweepersReadTheRegistry(w: World, s: nat, entry: Telling)
    requires SweepAt(w, s) && w.sweeps[s].phase.Reading_?
    ensures var v := ReadBackendStep(Tell(w, w.leases[w.sweeps[s].lease].backend, entry), s, true);
            && s in v.sweeps
            && v.sweeps[s].phase == match entry
                                    case Nothing => Marking(Gone)
                                    case Just(S3(at)) => DeletingKey(at)
                                    case Just(OtherKind) => Marking(NotS3)
                                    case Just(WithoutCredentials) => Idle
  {
    hide Tell;
    ToldRegistry(w, w.leases[w.sweeps[s].lease].backend, entry);
  }

  // ---- repeating a sweep ----

  /** A whole sweep of one lease by one sweeper, every call working. */
  function SweepWhole(w: World, s: nat, m: nat): World {
    var w1 := ReadBackendStep(StartSweepStep(w, s, m), s, true);
    MarkSweptStep(DeleteUserStep(DeleteKeyStep(w1, s, true, true), s, true, true), s, true, true)
  }

  predicate SweeperEvent(e: Event, s: nat) {
    (e.ReadBackend? || e.DeleteKey? || e.DeleteUser? || e.MarkSwept? || e.CrashSweep?) && e.s == s
  }

  /** What a sweeper's calls leave alone: everything but its own lease. */
  ghost predicate OnlyTouches(w: World, v: World, s: nat, m: nat) {
    && v.users - {m} == w.users - {m} && v.keys - {m} == w.keys - {m}
    && v.leases.Keys == w.leases.Keys
    && (m in w.leases ==> v.leases[m].backend == w.leases[m].backend && v.leases[m].expiresAt == w.leases[m].expiresAt)
    && (forall l :: l in w.leases && l != m ==> v.leases[l] == w.leases[l])
    && v.mints == w.mints && v.registry == w.registry && v.now == w.now
    && s in v.sweeps && v.sweeps[s].lease == m
  }

  lemma SweeperStep(w: World, e: Event, s: nat, m: nat)
    requires SweeperEvent(e, s) && s in w.sweeps && w.sweeps[s].lease == m
    ensures OnlyTouches(w, Apply(w, e), s, m)
  {
    hide BeginMintStep, CreateUserStep, PutPolicyStep, CreateKeyStep, RecordLeaseStep, ReturnStep, UndoKeyStep, UndoUserStep, CrashMintStep, StartSweepStep;
  }

  lemma {:induction false} SweeperRun(w: World, events: seq<Event>, s: nat, m: nat)
    requires s in w.sweeps && w.sweeps[s].lease == m
    requires forall i :: 0 <= i < |events| ==> SweeperEvent(events[i], s)
    ensures OnlyTouches(w, Run(w, events), s, m)
    decreases |events|
  {
    hide Apply, SweeperEvent;
    if events != [] {
      SweeperStep(w, events[0], s, m);
      SweeperRun(Apply(w, events[0]), events[1..], s, m);
    }
  }

  lemma WholeSweepEffect(w: World, s: nat, m: nat)
    requires m in w.mints && m in w.leases && w.leases[m].expiresAt < w.now
    requires Registered(w, m) && w.leases[m].backend == w.mints[m].backend
    requires s in w.sweeps ==> w.sweeps[s].phase.Idle?
    ensures
      var v := SweepWhole(w, s, m);
      && v.users == w.users - {m} && v.keys == w.keys - {m}
      && v.leases.Keys == w.leases.Keys && v.leases[m].swept
      && forall l :: l in w.leases && l != m ==> v.leases[l] == w.leases[l]
  {
  }

  /** Whatever a sweeper did of a sweep before it crashed, sweeping again ends in the same users,
      keys and leases as one uninterrupted sweep. */
  lemma RepeatingAHalfDoneSweep(w: World, half: seq<Event>, s: nat, m: nat)
    requires m in w.mints && m in w.leases && w.leases[m].expiresAt < w.now
    requires Registered(w, m) && w.leases[m].backend == w.mints[m].backend
    requires s in w.sweeps ==> w.sweeps[s].phase.Idle?
    requires forall i :: 0 <= i < |half| ==> SweeperEvent(half[i], s)
    ensures
      var crashed := CrashSweepStep(Run(StartSweepStep(w, s, m), half), s);
      var again, once := SweepWhole(crashed, s, m), SweepWhole(w, s, m);
      && again.users == once.users && again.keys == once.keys
      && again.leases.Keys == once.leases.Keys == w.leases.Keys
      && again.leases[m].swept && once.leases[m].swept
      && forall l :: l in w.leases && l != m ==> again.leases[l] == once.leases[l]
  {
    hide SweepWhole, Run;
    var started := StartSweepStep(w, s, m);
    SweeperRun(started, half, s, m);
    var crashed := CrashSweepStep(Run(started, half), s);
    WholeSweepEffect(w, s, m);
    WholeSweepEffect(crashed, s, m);
    assert crashed.users - {m} == w.users - {m} && crashed.keys - {m} == w.keys - {m};
  }

  /** A lease whose backend was removed, or is of another kind now, is marked swept with nothing
      deleted. */
  lemma RemovedBackendIsMarkedOnly(w: World, s: nat, m: nat)
    requires m in w.mints && m in w.leases && w.leases[m].expiresAt < w.now
    requires w.leases[m].backend in w.registry ==> w.registry[w.leases[m].backend].OtherKind?
    requires s in w.sweeps ==> w.sweeps[s].phase.Idle?
    ensures
      var v := MarkSweptStep(ReadBackendStep(StartSweepStep(w, s, m), s, true), s, true, true);
      v.leases.Keys == w.leases.Keys && v.leases[m].swept && v.users == w.users && v.keys == w.keys
  {
  }

  // ---- a backend that cannot be read ----

  /** The lease is unswept and no sweeper of it is past reading its backend. */
  ghost predicate Waiting(w: World, m: nat) {
    && m in w.leases && !w.leases[m].swept
    && forall s :: s in w.sweeps && w.sweeps[s].lease == m ==> w.sweeps[s].phase in {Idle, Reading_}
  }

  ghost predicate UnreadableThroughout(w: World, events: seq<Event>, m: nat)
    decreases |events|
  {
    && (m in w.leases ==> Unreadable(w, w.leases[m].backend))
    && (events != [] ==> UnreadableThroughout(Apply(w, events[0]), events[1..], m))
  }

  lemma StepWaiting(w: World, e: Event, m: nat)
    requires Waiting(w, m) && Unreadable(w, w.leases[m].backend)
    ensures Waiting(Apply(w, e), m)
  {
    hide ReadingOf;
  }

  /** While a lease's backend is registered without credentials (re-registered as a filesystem, say,
      or as anonymous S3), no run ever marks the lease swept, though the server may long be out of
      use: its sweep fails every time. */
  lemma {:induction false} UnreadableBackendBlocksItsLeases(w: World, events: seq<Event>, m: nat)
    requires Waiting(w, m) && UnreadableThroughout(w, events, m)
    ensures m in Run(w, events).leases && !Run(w, events).leases[m].swept
    decreases |events|
  {
    hide Apply, Unreadable;
    if events != [] {
      StepWaiting(w, events[0], m);
      UnreadableBackendBlocksItsLeases(Apply(w, events[0]), events[1..], m);
    }
  }

  /** With every call working, one sweep of an expired lease marks it if and only if its backend is
      gone or can be read. */
  lemma MarkedIffReadable(w: World, s: nat, m: nat)
    requires m in w.mints && m in w.leases && w.leases[m].expiresAt < w.now && !w.leases[m].swept
    requires s in w.sweeps ==> w.sweeps[s].phase.Idle?
    ensures m in SweepWhole(w, s, m).leases
    ensures SweepWhole(w, s, m).leases[m].swept <==> !Unreadable(w, w.leases[m].backend)
  {
    hide SweepWhole;
    assert StartSweepStep(w, s, m) == w.(sweeps := w.sweeps[s := Sweep(m, Reading_)]);
    SweepOfReading(StartSweepStep(w, s, m), s, m);
    assert SweepWhole(w, s, m) == SweepFrom(StartSweepStep(w, s, m), s) by { SweepWholeSplits(w, s, m); }
  }

  function SweepFrom(w: World, s: nat): World {
    MarkSweptStep(DeleteUserStep(DeleteKeyStep(ReadBackendStep(w, s, true), s, true, true), s, true, true), s, true, true)
  }

  lemma SweepWholeSplits(w: World, s: nat, m: nat)
    ensures SweepWhole(w, s, m) == SweepFrom(StartSweepStep(w, s, m), s)
  {
    hide StartSweepStep, ReadBackendStep, DeleteKeyStep, DeleteUserStep, MarkSweptStep;
  }

  lemma SweepOfReading(w: World, s: nat, m: nat)
    requires m in w.mints && m in w.leases && !w.leases[m].swept
    requires s in w.sweeps && w.sweeps[s] == Sweep(m, Reading_)
    ensures m in SweepFrom(w, s).leases
    ensures SweepFrom(w, s).leases[m].swept <==> !Unreadable(w, w.leases[m].backend)
  {
    var w1 := ReadBackendStep(w, s, true);
    assert s in w1.sweeps && w1.sweeps[s].lease == m && m in w1.leases && !w1.leases[m].swept && m in w1.mints;
    assert Unreadable(w, w.leases[m].backend) <==> w1.sweeps[s].phase.Idle?;
    assert !Unreadable(w, w.leases[m].backend) <==> w1.sweeps[s].phase.DeletingKey? || w1.sweeps[s].phase.Marking?;
    hide ReadBackendStep, Unreadable;
  }
}
