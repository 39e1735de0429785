/** Many replicas over the same two stores: one backend's record, its credentials and every
    replica's cached client. Each store call is a step of its own, so opens interleave with
    everything; creations, edits, deletions and tests of the backend do not overlap each other. */
module RegistryReplicas {
  import opened Outcomes
  import opened Registry

  // ---- the world ----

  /** What a creation or an edit stored. `mark` is the place in the credentials' history of the
      set it wrote or kept, `given` that set. */
  datatype Version = Version(rec: Record, life: nat, mark: nat, given: Creds)

  datatype Busy =
    | Idle
    | Creating(given: Creds)
    | Undoing
    | Saving(replica: nat, to: Record, given: Creds)
    | Saved(replica: nat)
    | Removed(replica: nat)
    | Cleaning

  /** An open past its cache check: the record is read, then the client built. */
  datatype Flight =
    | Read(replica: nat, version: nat)
    | Loaded(replica: nat, version: nat, mark: nat, client: Client)

  datatype Entry = Entry(version: nat, mark: nat, cached: Cached)

  datatype ProbeRun = ProbeRun(version: nat, client: Client, passed: bool)

  datatype World = World(
    rec: Option<Record>,
    secrets: seq<Option<Creds>>,
    lives: nat,
    versions: seq<Version>,
    busy: Busy,
    cache: map<nat, Entry>,
    flights: map<nat, Flight>,
    probes: seq<ProbeRun>)

  datatype Event =
    | Reserve(rec: Record, given: Creds)
    | PutCreated(ok: bool)
    | PutCreatedLost
    | UndoCreate(ok: bool)
    | Prepare(replica: nat, input: UpdateInput, now: int)
    | Save(ok: bool)
    | Invalidate
    | Remove(replica: nat)
    | Uncache
    | Clean(ok: bool)
    | Abandon
    | BeginOpen(open: nat, replica: nat, now: int)
    | Load(open: nat)
    | Store(open: nat, now: int)
    | Forget(open: nat)
    | Restart(replica: nat)
    | Test(replica: nat, now: int, stored: int, passed: bool, recorded: bool)

  const EMPTY := World(None, [None], 0, [], Idle, map[], map[], [])

  function Last<T>(s: seq<T>): T
    requires s != []
  {
    s[|s| - 1]
  }

  // ---- the steps ----

  predicate IsNew(rec: Record, given: Creds) {
    rec.hasCredentials == (given != map[]) && !rec.createOnlyVerified && rec.createdAt == rec.updatedAt
  }

  function ReserveStep(w: World, rec: Record, given: Creds): World {
    if w.rec.Some? || !w.busy.Idle? || !IsNew(rec, given) || w.secrets == [] then w
    else
      w.(rec := Some(rec), lives := w.lives + 1,
         versions := w.versions + [Version(rec, w.lives + 1, if rec.hasCredentials then |w.secrets| else |w.secrets| - 1, given)],
         busy := if rec.hasCredentials then Creating(given) else Idle)
  }

  function PutCreatedStep(w: World, ok: bool): World {
    if !w.busy.Creating? then w
    else if ok then w.(secrets := w.secrets + [Some(w.busy.given)], busy := Idle)
    else w.(busy := Undoing)
  }

  /** The credentials are written, but the call reports a failure. */
  function PutCreatedLostStep(w: World): World {
    if !w.busy.Creating? then w else w.(secrets := w.secrets + [Some(w.busy.given)], busy := Undoing)
  }

  function UndoCreateStep(w: World, ok: bool): World {
    if !w.busy.Undoing? then w else w.(rec := if ok then None else w.rec, busy := Idle)
  }

  /** The edit is valid and its credentials, if it brings any, are written. */
  function PrepareStep(rules: Rules, w: World, r: nat, input: UpdateInput, now: int): World {
    if w.rec.None? || !w.busy.Idle? || w.secrets == [] || w.versions == [] then w
    else
      var rec := w.rec.value;
      var edit := Edited(rules, rec, input);
      if edit.None? || !rules.builds(ClientOf(edit.value, Supplied(rec, Last(w.secrets), input))) then w
      else
        w.(secrets := if input.creds.None? then w.secrets
                      else w.secrets + [if input.creds.value == map[] then None else input.creds],
           busy := Saving(r, edit.value.(updatedAt := NextStamp(now, rec.updatedAt)),
                          if input.creds.Some? then input.creds.value else Last(w.versions).given))
  }

  function SaveStep(w: World, ok: bool): World {
    if !w.busy.Saving? || w.rec.None? || w.secrets == [] then w
    else if !ok then w.(busy := Idle)
    else
      var rec := Overwritten(w.rec.value, w.busy.to);
      w.(rec := Some(rec), busy := Saved(w.busy.replica),
         versions := w.versions + [Version(rec, w.lives, |w.secrets| - 1, w.busy.given)])
  }

  function InvalidateStep(w: World): World {
    if w.busy.Saved? then w.(cache := w.cache - {w.busy.replica}, busy := Idle) else w
  }

  function RemoveStep(w: World, r: nat): World {
    if w.rec.None? || !w.busy.Idle? then w else w.(rec := None, busy := Removed(r))
  }

  function UncacheStep(w: World): World {
    if w.busy.Removed? then w.(cache := w.cache - {w.busy.replica}, busy := Cleaning) else w
  }

  function CleanStep(w: World, ok: bool): World {
    if !w.busy.Cleaning? then w
    else w.(secrets := if ok then w.secrets + [None] else w.secrets, busy := Idle)
  }

  predicate Hits(w: World, r: nat, now: int) {
    w.rec.Some? && r in w.cache && Hit(w.cache[r].cached, w.rec.value, now)
  }

  function BeginOpenStep(w: World, o: nat, r: nat, now: int): World {
    if o in w.flights || w.rec.None? || w.versions == [] || Hits(w, r, now) then w
    else w.(flights := w.flights[o := Read(r, |w.versions| - 1)])
  }

  function LoadStep(rules: Rules, w: World, o: nat): World {
    if o !in w.flights || !w.flights[o].Read? || w.flights[o].version >= |w.versions| || w.secrets == [] then w
    else
      var f := w.flights[o];
      var client := Build(rules, w.versions[f.version].rec, Last(w.secrets));
      if client.None? then w.(flights := w.flights - {o})
      else w.(flights := w.flights[o := Loaded(f.replica, f.version, |w.secrets| - 1, client.value)])
  }

  function StoreStep(w: World, o: nat, now: int): World {
    if o !in w.flights || !w.flights[o].Loaded? || w.flights[o].version >= |w.versions| then w
    else
      var f := w.flights[o];
      w.(cache := w.cache[f.replica := Entry(f.version, f.mark, Cached(w.versions[f.version].rec.updatedAt, now, f.client))],
         flights := w.flights - {o})
  }

  /** The cached client while it hits, else a newly built one, which is cached. */
  function OpenNow(rules: Rules, w: World, r: nat, now: int, stored: int): Option<World> {
    if w.rec.None? || w.versions == [] || w.secrets == [] then None
    else if Hits(w, r, now) then Some(w)
    else
      var client := Build(rules, w.rec.value, Last(w.secrets));
      if client.None? then None
      else Some(w.(cache := w.cache[r := Entry(|w.versions| - 1, |w.secrets| - 1,
                                               Cached(w.rec.value.updatedAt, stored, client.value))]))
  }

  /** Open the saved backend, probe it, and record the outcome if that call succeeds. */
  function TestStep(rules: Rules, w: World, r: nat, now: int, stored: int, passed: bool, recorded: bool): World {
    if !w.busy.Idle? then w
    else
      var found := OpenNow(rules, w, r, now, stored);
      if found.None? then w
      else
        var v := found.value;
        if v.rec.None? || r !in v.cache || !v.rec.value.kind.S3? then v
        else
          v.(probes := v.probes + [ProbeRun(|v.versions| - 1, v.cache[r].cached.client, passed)],
             rec := if recorded then Some(v.rec.value.(createOnlyVerified := passed)) else v.rec)
  }

  function Step(rules: Rules, w: World, e: Event): World {
    match e
    case Reserve(rec, given) => ReserveStep(w, rec, given)
    case PutCreated(ok) => PutCreatedStep(w, ok)
    case PutCreatedLost => PutCreatedLostStep(w)
    case UndoCreate(ok) => UndoCreateStep(w, ok)
    case Prepare(r, input, now) => PrepareStep(rules, w, r, input, now)
    case Save(ok) => SaveStep(w, ok)
    case Invalidate => InvalidateStep(w)
    case Remove(r) => RemoveStep(w, r)
    case Uncache => UncacheStep(w)
    case Clean(ok) => CleanStep(w, ok)
    case Abandon => w.(busy := Idle)
    case BeginOpen(o, r, now) => BeginOpenStep(w, o, r, now)
    case Load(o) => LoadStep(rules, w, o)
    case Store(o, now) => StoreStep(w, o, now)
    case Forget(o) => w.(flights := w.flights - {o})
    case Restart(r) => w.(cache := w.cache - {r})
    case Test(r, now, stored, passed, recorded) => TestStep(rules, w, r, now, stored, passed, recorded)
  }

  function Run(rules: Rules, w: World, events: seq<Event>): World {
    if events == [] then w else Step(rules, Run(rules, w, events[..|events| - 1]), Last(events))
  }

  // ---- what every step keeps ----

  /** `v` began a life: it is a creation, not an edit. */
  predicate First(versions: seq<Version>, v: nat)
    requires v < |versions|
  {
    v == 0 || versions[v - 1].life < versions[v].life
  }

  /** From `a` to a later version of the same life: a later stamp, the same identity. */
  predicate Successor(a: Record, b: Record) {
    && a.updatedAt < b.updatedAt
    && a.workspace == b.workspace && a.id == b.id && a.kind == b.kind
    && a.createdBy == b.createdBy && a.createdAt == b.createdAt
  }

  predicate History(versions: seq<Version>, lives: nat) {
    && (forall i :: 0 <= i < |versions| ==> versions[i].life <= lives)
    && (forall i, j :: 0 <= i < j < |versions| ==> versions[i].life <= versions[j].life)
    && (forall i, j :: 0 <= i < j < |versions| && versions[i].life == versions[j].life ==>
          Successor(versions[i].rec, versions[j].rec))
  }

  /** A version's credentials are in the history, but for a creation that has not written them. */
  predicate Marked(versions: seq<Version>, written: nat) {
    forall v :: 0 <= v < |versions| ==>
      || versions[v].mark < written
      || (versions[v].mark == written && versions[v].rec.hasCredentials && First(versions, v))
  }

  predicate SameButVerified(a: Record, b: Record) {
    a == b.(createOnlyVerified := a.createOnlyVerified)
  }

  /** The stored record is the last version's, its probe result aside. */
  predicate Current(w: World) {
    && w.secrets != []
    && (w.rec.Some? ==> w.versions != [] && Last(w.versions).life == w.lives && SameButVerified(w.rec.value, Last(w.versions).rec))
    && (w.busy.Saving? ==> w.rec.Some? && Successor(w.rec.value, w.busy.to))
    && (w.busy.Creating? || w.busy.Undoing? || w.busy.Saved? ==> w.rec.Some?)
    && (w.busy.Removed? || w.busy.Cleaning? ==> w.rec.None?)
  }

  /** A client built from version `v` with the credentials at `mark`: those are at least as new as
      the ones `v`'s operation wrote or kept, unless they were read after a creation reserved the
      ID and before it wrote its own. */
  predicate BuiltFrom(versions: seq<Version>, secrets: seq<Option<Creds>>, v: nat, mark: nat, client: Client) {
    && v < |versions| && mark < |secrets|
    && (versions[v].rec.hasCredentials ==> secrets[mark].Some?)
    && client == ClientOf(versions[v].rec, if versions[v].rec.hasCredentials then secrets[mark].value else map[])
    && (|| versions[v].mark <= mark
        || (versions[v].mark == mark + 1 && versions[v].rec.hasCredentials && First(versions, v)))
  }

  predicate EntryOk(versions: seq<Version>, secrets: seq<Option<Creds>>, e: Entry) {
    && BuiltFrom(versions, secrets, e.version, e.mark, e.cached.client)
    && e.cached.stamp == versions[e.version].rec.updatedAt
  }

  predicate FlightOk(versions: seq<Version>, secrets: seq<Option<Creds>>, f: Flight) {
    && f.version < |versions|
    && (f.Loaded? ==> BuiltFrom(versions, secrets, f.version, f.mark, f.client))
  }

  predicate Held(w: World) {
    && (forall r :: r in w.cache ==> EntryOk(w.versions, w.secrets, w.cache[r]))
    && (forall o :: o in w.flights ==> FlightOk(w.versions, w.secrets, w.flights[o]))
  }

  predicate Inv(w: World) {
    History(w.versions, w.lives) && Marked(w.versions, |w.secrets|) && Current(w) && Held(w)
  }

  // ---- single-step lemmas ----

  lemma AppendVersion(versions: seq<Version>, lives: nat, written: nat, v: Version)
    requires History(versions, lives) && Marked(versions, written)
    requires v.life > lives || (v.life == lives && versions != [] && Last(versions).life == lives && Successor(Last(versions).rec, v.rec))
    requires v.mark < written || (v.mark == written && v.rec.hasCredentials && v.life > lives)
    ensures History(versions + [v], v.life) && Marked(versions + [v], written)
  {
    var after := versions + [v];
    forall i | 0 <= i < |versions| && versions[i].life == v.life
      ensures Successor(versions[i].rec, v.rec)
    {
      assert i == |versions| - 1 || Successor(versions[i].rec, Last(versions).rec);
    }
    forall i | 0 <= i < |after|
      ensures i < |versions| ==> First(after, i) == First(versions, i)
      ensures i == |versions| && v.life > lives ==> First(after, i)
    {
    }
  }

  lemma MarkedGrows(versions: seq<Version>, written: nat)
    requires Marked(versions, written)
    ensures Marked(versions, written + 1)
  {
  }

  /** What is held stays well built while the histories only grow. */
  lemma HeldGrows(w: World, w': World)
    requires Held(w) && w.versions <= w'.versions && w.secrets <= w'.secrets
    requires forall r :: r in w'.cache ==> r in w.cache && w'.cache[r] == w.cache[r]
    requires forall o :: o in w'.flights ==> o in w.flights && w'.flights[o] == w.flights[o]
    ensures Held(w')
  {
    forall r | r in w'.cache
      ensures EntryOk(w'.versions, w'.secrets, w'.cache[r])
    {
      var e := w.cache[r];
      assert EntryOk(w.versions, w.secrets, e);
      BuiltGrows(w, w', e.version, e.mark, e.cached.client);
    }
    forall o | o in w'.flights
      ensures FlightOk(w'.versions, w'.secrets, w'.flights[o])
    {
      var f := w.flights[o];
      assert FlightOk(w.versions, w.secrets, f);
      if f.Loaded? {
        BuiltGrows(w, w', f.version, f.mark, f.client);
      }
    }
  }

  lemma BuiltGrows(w: World, w': World, v: nat, mark: nat, client: Client)
    requires w.versions <= w'.versions && w.secrets <= w'.secrets
    requires BuiltFrom(w.versions, w.secrets, v, mark, client)
    ensures BuiltFrom(w'.versions, w'.secrets, v, mark, client)
  {
    assert w'.versions[v] == w.versions[v] && w'.secrets[mark] == w.secrets[mark];
    assert First(w'.versions, v) == First(w.versions, v);
  }

  lemma ReserveInv(w: World, rec: Record, given: Creds)
    requires Inv(w)
    ensures Inv(ReserveStep(w, rec, given))
  {
    var w' := ReserveStep(w, rec, given);
    if w' != w {
      AppendVersion(w.versions, w.lives, |w.secrets|, Last(w'.versions));
      hide History, Marked, EntryOk, FlightOk;
      HeldGrows(w, w');
    }
  }

  lemma PutCreatedInv(w: World, ok: bool)
    requires Inv(w)
    ensures Inv(PutCreatedStep(w, ok))
  {
    MarkedGrows(w.versions, |w.secrets|);
    hide History, Marked, EntryOk, FlightOk;
    HeldGrows(w, PutCreatedStep(w, ok));
  }

  lemma PutCreatedLostInv(w: World)
    requires Inv(w)
    ensures Inv(PutCreatedLostStep(w))
  {
    MarkedGrows(w.versions, |w.secrets|);
    hide History, Marked, EntryOk, FlightOk;
    HeldGrows(w, PutCreatedLostStep(w));
  }

  lemma PrepareInv(rules: Rules, w: World, r: nat, input: UpdateInput, now: int)
    requires Inv(w)
    ensures Inv(PrepareStep(rules, w, r, input, now))
  {
    var w' := PrepareStep(rules, w, r, input, now);
    MarkedGrows(w.versions, |w.secrets|);
    hide History, Marked, EntryOk, FlightOk;
    if w' != w {
      EditKeeps(rules, w.rec.value, input, now);
      hide Edited, NextStamp, Overwritten;
      HeldGrows(w, w');
    }
  }

  lemma SaveInv(w: World, ok: bool)
    requires Inv(w)
    ensures Inv(SaveStep(w, ok))
  {
    var w' := SaveStep(w, ok);
    if w.busy.Saving? && ok {
      assert Successor(Last(w.versions).rec, w'.rec.value);
      AppendVersion(w.versions, w.lives, |w.secrets|, Last(w'.versions));
      hide History, Marked, EntryOk, FlightOk;
      HeldGrows(w, w');
    }
  }

  lemma CleanInv(w: World, ok: bool)
    requires Inv(w)
    ensures Inv(CleanStep(w, ok))
  {
    MarkedGrows(w.versions, |w.secrets|);
    hide History, Marked, EntryOk, FlightOk;
    HeldGrows(w, CleanStep(w, ok));
  }

  predicate Drops(w: World, w': World) {
    && w'.versions == w.versions && w'.secrets == w.secrets && w'.lives == w.lives
    && (w'.rec == w.rec || w'.rec.None?)
    && (forall r :: r in w'.cache ==> r in w.cache && w'.cache[r] == w.cache[r])
    && (forall o :: o in w'.flights ==> o in w.flights && w'.flights[o] == w.flights[o])
  }

  /** The steps that only drop a record, cached clients, opens or the operation under way. */
  predicate Dropping(e: Event) {
    e.UndoCreate? || e.Invalidate? || e.Remove? || e.Uncache? || e.Abandon? || e.Forget? || e.Restart?
  }

  lemma DroppingDrops(rules: Rules, w: World, e: Event)
    requires Dropping(e)
    ensures Drops(w, Step(rules, w, e))
  {
  }

  lemma DroppingCurrent(rules: Rules, w: World, e: Event)
    requires Dropping(e) && Current(w)
    ensures Current(Step(rules, w, e))
  {
    hide SameButVerified, Successor;
  }

  lemma DroppingInv(rules: Rules, w: World, e: Event)
    requires Inv(w) && Dropping(e)
    ensures Inv(Step(rules, w, e))
  {
    DroppingDrops(rules, w, e);
    DroppingCurrent(rules, w, e);
    hide Dropping, Step, Held, History, Marked, Current;
    HeldGrows(w, Step(rules, w, e));
  }

  lemma BuildMeaning(rules: Rules, rec: Record, secret: Option<Creds>, client: Client)
    requires Build(rules, rec, secret) == Some(client)
    ensures rules.builds(client) && (rec.hasCredentials ==> secret.Some?)
    ensures client == ClientOf(rec, if rec.hasCredentials then secret.value else map[])
  {
  }

  lemma OpeningInv(rules: Rules, w: World, e: Event)
    requires Inv(w) && (e.BeginOpen? || e.Load? || e.Store?)
    ensures Inv(Step(rules, w, e))
  {
    hide History, First, Build;
    if e.Load? && e.open in w.flights && w.flights[e.open].Read? && w.flights[e.open].version < |w.versions| {
      var v := w.flights[e.open].version;
      var client := Build(rules, w.versions[v].rec, Last(w.secrets));
      if client.Some? {
        BuildMeaning(rules, w.versions[v].rec, Last(w.secrets), client.value);
        assert BuiltFrom(w.versions, w.secrets, v, |w.secrets| - 1, client.value);
      }
    }
    hide BuiltFrom, Marked;
  }

  /** A build from the current record is a build from its last version. */
  lemma OpenNowHeld(rules: Rules, w: World, r: nat, now: int, stored: int)
    requires Inv(w) && OpenNow(rules, w, r, now, stored).Some?
    ensures var w' := OpenNow(rules, w, r, now, stored).value;
            && Held(w') && w' == w.(cache := w'.cache) && r in w'.cache
            && (Hits(w, r, now) ==> w' == w)
            && (!Hits(w, r, now) ==>
                  && w'.cache[r].version == |w.versions| - 1
                  && w'.cache[r].cached.client.config == w.rec.value.config)
  {
    hide History, First, Build;
    if !Hits(w, r, now) {
      var last := Last(w.versions).rec;
      var client := Build(rules, w.rec.value, Last(w.secrets)).value;
      BuildMeaning(rules, w.rec.value, Last(w.secrets), client);
      assert ClientOf(w.rec.value, client.creds) == ClientOf(last, client.creds);
      assert BuiltFrom(w.versions, w.secrets, |w.versions| - 1, |w.secrets| - 1, client);
      hide BuiltFrom, Marked;
    }
  }

  lemma TestInv(rules: Rules, w: World, r: nat, now: int, stored: int, passed: bool, recorded: bool)
    requires Inv(w)
    ensures Inv(TestStep(rules, w, r, now, stored, passed, recorded))
  {
    hide History, Marked, EntryOk, FlightOk, Build, Hits;
    if w.busy.Idle? && OpenNow(rules, w, r, now, stored).Some? {
      OpenNowHeld(rules, w, r, now, stored);
      hide OpenNow;
      var v := OpenNow(rules, w, r, now, stored).value;
      assert TestStep(rules, w, r, now, stored, passed, recorded).cache == v.cache;
    }
  }

  lemma StepInv(rules: Rules, w: World, e: Event)
    requires Inv(w)
    ensures Inv(Step(rules, w, e))
  {
    hide Inv, ReserveStep, PutCreatedStep, PrepareStep, SaveStep, TestStep;
    match e
    case Reserve(rec, given) => ReserveInv(w, rec, given);
    case PutCreated(ok) => PutCreatedInv(w, ok);
    case PutCreatedLost => PutCreatedLostInv(w);
    case Prepare(r, input, now) => PrepareInv(rules, w, r, input, now);
    case Save(ok) => SaveInv(w, ok);
    case BeginOpen(_, _, _) => OpeningInv(rules, w, e);
    case Load(_) => OpeningInv(rules, w, e);
    case Store(_, _) => OpeningInv(rules, w, e);
    case Test(r, now, stored, passed, recorded) => TestInv(rules, w, r, now, stored, passed, recorded);
    case Clean(ok) => CleanInv(w, ok);
    case _ => DroppingInv(rules, w, e);
  }

  lemma {:induction false} RunInv(rules: Rules, events: seq<Event>)
    ensures Inv(Run(rules, EMPTY, events))
  {
    if events != [] {
      RunInv(rules, events[..|events| - 1]);
      StepInv(rules, Run(rules, EMPTY, events[..|events| - 1]), Last(events));
    }
  }

  // ---- operations nobody interrupts ----

  /** Creation, without interleaving: what `Registry.Service.Create` leaves at the backend's key. */
  lemma UninterruptedCreate(w: World, rec: Record, given: Creds, undone: bool)
    requires Inv(w) && w.rec.None? && w.busy.Idle? && IsNew(rec, given)
    ensures var v := PutCreatedStep(ReserveStep(w, rec, given), true);
            && v.rec == Some(rec) && v.busy.Idle? && v.cache == w.cache && v.secrets != []
            && Last(v.secrets) == if given == map[] then Last(w.secrets) else Some(given)
    // the credential write fails: the record goes again, or stays when that fails too
    ensures given != map[] ==>
              var v := UndoCreateStep(PutCreatedStep(ReserveStep(w, rec, given), false), undone);
              && v.rec == (if undone then None else Some(rec)) && v.busy.Idle? && v.cache == w.cache
              && v.secrets == w.secrets
    // it only seems to fail: the secret stays, whatever becomes of the record
    ensures given != map[] ==>
              var v := UndoCreateStep(PutCreatedLostStep(ReserveStep(w, rec, given)), undone);
              && v.rec == (if undone then None else Some(rec)) && v.busy.Idle? && v.cache == w.cache
              && v.secrets == w.secrets + [Some(given)]
  {
    hide Held, History, Marked;
  }

  /** The records the service makes are such new ones, and the machine takes no other. */
  lemma NewRecordsAreReserved(w: World, rec: Record, given: Creds)
    requires Inv(w) && w.rec.None? && w.busy.Idle?
    ensures ReserveStep(w, rec, given).rec == Some(rec) <==>
              !rec.createOnlyVerified && rec.createdAt == rec.updatedAt && rec.hasCredentials == (given != map[])
    ensures forall ws, actor, input: CreateInput, name, config, now ::
              ReserveStep(w, NewRecord(ws, actor, input, name, config, now), input.creds).rec.Some?
  {
    hide Held, History, Marked;
  }

  /** Editing, without interleaving: the stored record and credentials and the invalidation are
      those of `Registry.Service.Update`, `secrets` being the whole credential store. */
  lemma UninterruptedUpdate(rules: Rules, w: World, r: nat, input: UpdateInput, now: int, secrets: map<string, Creds>, k: string)
    requires Inv(w) && w.rec.Some? && w.busy.Idle? && Find(secrets, k) == Last(w.secrets)
    requires Edited(rules, w.rec.value, input).Some?
    requires rules.builds(ClientOf(Edited(rules, w.rec.value, input).value, Supplied(w.rec.value, Find(secrets, k), input)))
    ensures var v := InvalidateStep(SaveStep(PrepareStep(rules, w, r, input, now), true));
            var to := Edited(rules, w.rec.value, input).value.(updatedAt := NextStamp(now, w.rec.value.updatedAt));
            && v.rec == Some(to) && v.busy.Idle? && v.cache == w.cache - {r} && v.secrets != []
            && Last(v.secrets) == Find(Replaced(secrets, k, input.creds), k)
            && Applied(rules, w.rec.value, input, v.rec.value)
            && to.updatedAt == if now > w.rec.value.updatedAt then now else w.rec.value.updatedAt + 1
  {
    hide Held, History, Marked, Edited, Overwritten, Applied;
    EditKeeps(rules, w.rec.value, input, now);
    EditedMeaning(rules, w.rec.value, None, input);
    var edited := Edited(rules, w.rec.value, input).value;
    AppliedAtTime(rules, w.rec.value, input, edited, NextStamp(now, w.rec.value.updatedAt));
  }

  /** Which edits a step takes up: those the service does not refuse. */
  lemma EditsTakenUp(rules: Rules, w: World, r: nat, input: UpdateInput, now: int)
    requires Inv(w) && w.rec.Some? && w.busy.Idle?
    ensures var v := PrepareStep(rules, w, r, input, now);
            && (v.busy.Saving? <==> !EditRefused(rules, w.rec.value, Last(w.secrets), input))
            && (v.busy.Saving? ==> Applied(rules, w.rec.value, input, v.busy.to))
            && (v.busy.Idle? ==> v == w)
  {
    hide Held, History, Marked, Edited, NextStamp, Applied, EditRefused, Supplied;
    EditedMeaning(rules, w.rec.value, Last(w.secrets), input);
    if Edited(rules, w.rec.value, input).Some? {
      var edited := Edited(rules, w.rec.value, input).value;
      AppliedAtTime(rules, w.rec.value, input, edited, NextStamp(now, w.rec.value.updatedAt));
      assert ClientOf(edited, Supplied(w.rec.value, Last(w.secrets), input))
        == ClientOf(edited.(updatedAt := NextStamp(now, w.rec.value.updatedAt)), Supplied(w.rec.value, Last(w.secrets), input));
    }
  }

  /** When the record write fails: the old record with the new credentials. */
  lemma FailedUpdate(rules: Rules, w: World, r: nat, input: UpdateInput, now: int, secrets: map<string, Creds>, k: string)
    requires Inv(w) && w.rec.Some? && w.busy.Idle? && Find(secrets, k) == Last(w.secrets)
    requires Edited(rules, w.rec.value, input).Some?
    requires rules.builds(ClientOf(Edited(rules, w.rec.value, input).value, Supplied(w.rec.value, Find(secrets, k), input)))
    ensures var v := SaveStep(PrepareStep(rules, w, r, input, now), false);
            && v.rec == w.rec && v.busy.Idle? && v.cache == w.cache && v.secrets != []
            && Last(v.secrets) == Find(Replaced(secrets, k, input.creds), k)
  {
    hide Held, History, Marked, Edited, NextStamp, Overwritten;
  }

  lemma UninterruptedDelete(w: World, r: nat, ok: bool)
    requires Inv(w) && w.rec.Some? && w.busy.Idle?
    ensures var v := CleanStep(UncacheStep(RemoveStep(w, r)), ok);
            && v.rec.None? && v.busy.Idle? && v.cache == w.cache - {r} && v.secrets != []
            && Last(v.secrets) == if ok then None else Last(w.secrets)
  {
    hide Held, History, Marked;
  }

  /** Opening, without interleaving: a hit changes nothing, a miss caches the client that the
      current record and credentials make, both as `Registry.Service.Open`. */
  lemma UninterruptedOpen(rules: Rules, w: World, o: nat, r: nat, now: int, stored: int)
    requires Inv(w) && w.rec.Some? && o !in w.flights
    ensures var v := StoreStep(LoadStep(rules, BeginOpenStep(w, o, r, now), o), o, stored);
            var client := Build(rules, w.rec.value, Last(w.secrets));
            if Hits(w, r, now) || client.None? then v.cache == w.cache
            else && r in v.cache && v.cache == w.cache[r := v.cache[r]]
                 && v.cache[r].cached == Cached(w.rec.value.updatedAt, stored, client.value)
  {
    hide Held, History, Marked, Hit;
    assert Build(rules, w.rec.value, Last(w.secrets)) == Build(rules, Last(w.versions).rec, Last(w.secrets));
  }

  // ---- what a cache hit serves ----

  /** Same place, credentials aside. */
  predicate SameTarget(a: Record, b: Record) {
    a.workspace == b.workspace && a.kind == b.kind && a.config == b.config
  }

  predicate Serves(c: Client, rec: Record) {
    c.workspace == rec.workspace && c.kind == rec.kind && c.config == rec.config
  }

  /** Within one life a hit serves the current record: the cached client was built from the last
      version, with credentials at least as new as the ones its operation wrote or kept, or with a
      leftover secret that was there when the ID was reserved. */
  lemma HitsWithinALife(rules: Rules, events: seq<Event>, r: nat, now: int)
    requires var w := Run(rules, EMPTY, events);
             Hits(w, r, now) && w.cache[r].version < |w.versions| && w.versions[w.cache[r].version].life == w.lives
    ensures var w := Run(rules, EMPTY, events);
            var e := w.cache[r];
            && e.version == |w.versions| - 1
            && Serves(e.cached.client, w.rec.value)
            && (w.rec.value.hasCredentials ==>
                  && e.mark < |w.secrets| && w.secrets[e.mark] == Some(e.cached.client.creds)
                  && (|| w.versions[e.version].mark <= e.mark
                      || (First(w.versions, e.version) && w.versions[e.version].mark == e.mark + 1)))
            && (!w.rec.value.hasCredentials ==> e.cached.client.creds == map[])
  {
    RunInv(rules, events);
    var w := Run(rules, EMPTY, events);
    hide Run;
    assert EntryOk(w.versions, w.secrets, w.cache[r]);
    var v := w.cache[r].version;
    assert v < |w.versions| - 1 ==> Successor(w.versions[v].rec, Last(w.versions).rec);
  }

  /** Kind, ID and creator never change and stamps strictly increase over a record's life. */
  lemma VersionsOfALife(rules: Rules, events: seq<Event>, i: nat, j: nat)
    requires var w := Run(rules, EMPTY, events);
             i < j < |w.versions| && w.versions[i].life == w.versions[j].life
    ensures var w := Run(rules, EMPTY, events);
            Successor(w.versions[i].rec, w.versions[j].rec)
  {
    RunInv(rules, events);
    hide Run;
  }

  /** A step caches a client only by storing it, and notes the time it is given. */
  lemma StepCaches(rules: Rules, w: World, e: Event, r: nat)
    requires r in Step(rules, w, e).cache
    ensures var w' := Step(rules, w, e);
            || (r in w.cache && w'.cache[r] == w.cache[r])
            || (e.Store? && w'.cache[r].cached.loadedAt == e.now)
            || (e.Test? && e.replica == r && w'.cache[r].cached.loadedAt == e.stored)
  {
    hide Edited, Build, Overwritten, Hit, NextStamp, IsNew;
  }

  /** In every run a replica serves from its cache only a client that was stored there less than ten
      minutes before, and under the stamp the record has now. */
  lemma {:induction false} ServedForTenMinutes(rules: Rules, events: seq<Event>, r: nat, now: int)
    returns (i: nat, stored: int)
    requires Hits(Run(rules, EMPTY, events), r, now)
    ensures i < |events|
    ensures events[i] == Store(StoredBy(events[i]), stored) || (events[i].Test? && events[i].replica == r && events[i].stored == stored)
    ensures now < stored + 600_000_000
    ensures var w := Run(rules, EMPTY, events); w.cache[r].cached.stamp == w.rec.value.updatedAt
  {
    i, stored := CachedSince(rules, events, r);
  }

  /** A restarted replica serves nothing from its cache, and an open that is given up leaves nothing
      behind; other replicas and opens do not notice. */
  lemma RestartsForget(rules: Rules, w: World, r: nat, o: nat, now: int)
    ensures var w' := Step(rules, w, Restart(r));
            && !Hits(w', r, now) && w' == w.(cache := w'.cache)
            && forall other :: other != r ==> (Hits(w', other, now) <==> Hits(w, other, now))
    ensures var w' := Step(rules, w, Forget(o));
            && o !in w'.flights && w' == w.(flights := w'.flights)
            && forall other :: other != o && other in w.flights ==> other in w'.flights && w'.flights[other] == w.flights[other]
  {
    hide Hit, ReserveStep, PutCreatedStep, PrepareStep, SaveStep, LoadStep, StoreStep, TestStep, BeginOpenStep;
  }

  function StoredBy(e: Event): nat {
    if e.Store? then e.open else 0
  }

  lemma {:induction false} CachedSince(rules: Rules, events: seq<Event>, r: nat) returns (i: nat, stored: int)
    requires r in Run(rules, EMPTY, events).cache
    ensures i < |events| && stored == Run(rules, EMPTY, events).cache[r].cached.loadedAt
    ensures events[i] == Store(StoredBy(events[i]), stored) || (events[i].Test? && events[i].replica == r && events[i].stored == stored)
    decreases |events|
  {
    hide Step;
    assert events != [];
    var before := events[..|events| - 1];
    StepCaches(rules, Run(rules, EMPTY, before), Last(events), r);
    stored := Run(rules, EMPTY, events).cache[r].cached.loadedAt;
    i := |events| - 1;
    if r in Run(rules, EMPTY, before).cache && Run(rules, EMPTY, before).cache[r] == Run(rules, EMPTY, events).cache[r] {
      i, stored := CachedSince(rules, before, r);
    }
  }

  // ---- across lives ----

  /** A replica has a client of version `v` cached, or an open under way that read it. */
  ghost predicate Holding(w: World, v: nat) {
    || (exists r :: r in w.cache && w.cache[r].version == v)
    || (exists o :: o in w.flights && w.flights[o].version == v)
  }

  /** Whatever is held under the current stamp serves the current target. */
  ghost predicate Coherent(w: World) {
    w.rec.Some? ==>
      forall v :: 0 <= v < |w.versions| && Holding(w, v) && w.versions[v].rec.updatedAt == w.rec.value.updatedAt ==>
        SameTarget(w.versions[v].rec, w.rec.value)
  }

  /** `rec` would get a stamp some replica already holds for another target. */
  ghost predicate StampTaken(w: World, rec: Record) {
    exists v :: 0 <= v < |w.versions| && Holding(w, v)
                && w.versions[v].rec.updatedAt == rec.updatedAt && !SameTarget(w.versions[v].rec, rec)
  }

  ghost predicate Clobbers(rules: Rules, w: World, e: Event) {
    var w' := Step(rules, w, e);
    |w'.versions| > |w.versions| && StampTaken(w, Last(w'.versions).rec)
  }

  lemma NewVersionCoherent(w: World, w': World)
    requires w'.rec.Some? && w'.versions != [] && w'.versions == w.versions + [Last(w'.versions)] && Last(w'.versions).rec == w'.rec.value
    requires w'.cache == w.cache && w'.flights == w.flights && Inv(w)
    ensures Coherent(w') <==> !StampTaken(w, w'.rec.value)
  {
    hide Inv, Current, History, Marked, BuiltFrom;
    assert Held(w) by { NowHeld(w); }
    forall v | 0 <= v < |w'.versions| && Holding(w', v)
      ensures v < |w.versions| && Holding(w, v)
    {
      if r :| r in w.cache && w.cache[r].version == v {
        assert EntryOk(w.versions, w.secrets, w.cache[r]);
        VersionExists(w.versions, w.secrets, w.cache[r]);
      } else {
        var o :| o in w.flights && w.flights[o].version == v;
        assert FlightOk(w.versions, w.secrets, w.flights[o]);
      }
    }
    forall v | 0 <= v < |w.versions| && Holding(w, v)
      ensures Holding(w', v) && w'.versions[v] == w.versions[v]
    {
    }
  }

  lemma NowHeld(w: World)
    requires Inv(w)
    ensures Held(w) && Current(w)
  {
  }

  lemma VersionExists(versions: seq<Version>, secrets: seq<Option<Creds>>, e: Entry)
    requires EntryOk(versions, secrets, e)
    ensures e.version < |versions| && Serves(e.cached.client, versions[e.version].rec)
    ensures e.cached.stamp == versions[e.version].rec.updatedAt
  {
  }

  /** No new version: what is held afterwards was held before or is of the last version. */
  lemma SameVersionsCoherent(w: World, w': World)
    requires Inv(w) && Coherent(w) && w'.versions == w.versions
    requires w'.rec.Some? ==> w.rec.Some? && SameButVerified(w.rec.value, w'.rec.value)
    requires forall r :: r in w'.cache ==>
               || Holding(w, w'.cache[r].version)
               || (w.rec.Some? && w'.cache[r].version == |w.versions| - 1)
    requires forall o :: o in w'.flights ==>
               || Holding(w, w'.flights[o].version)
               || (w.rec.Some? && w'.flights[o].version == |w.versions| - 1)
    ensures Coherent(w')
  {
    NowHeld(w);
    hide Inv, Held, EntryOk, FlightOk, Marked;
    if w'.rec.Some? {
      forall v | 0 <= v < |w'.versions| && Holding(w', v) && w'.versions[v].rec.updatedAt == w'.rec.value.updatedAt
        ensures SameTarget(w'.versions[v].rec, w'.rec.value)
      {
        if r :| r in w'.cache && w'.cache[r].version == v {
          assert Holding(w, v) || v == |w.versions| - 1;
        } else {
          var o :| o in w'.flights && w'.flights[o].version == v;
          assert Holding(w, v) || v == |w.versions| - 1;
        }
      }
    }
  }

  /** A step keeps every replica coherent exactly when it gives no stamp that some replica already
      holds for another target. */
  lemma CoherentStep(rules: Rules, w: World, e: Event)
    requires Inv(w) && Coherent(w)
    ensures Coherent(Step(rules, w, e)) <==> !Clobbers(rules, w, e)
  {
    var w' := Step(rules, w, e);
    hide Inv, Coherent, StampTaken, Edited, Build;
    if |w'.versions| > |w.versions| {
      VersionAdded(rules, w, e);
      NewVersionCoherent(w, w');
    } else {
      VersionsKept(rules, w, e);
      SameVersionsCoherent(w, w');
    }
  }

  lemma VersionAdded(rules: Rules, w: World, e: Event)
    requires |Step(rules, w, e).versions| > |w.versions|
    ensures e.Reserve? || e.Save?
    ensures var w' := Step(rules, w, e);
            && w'.rec.Some? && w'.versions != [] && w'.versions == w.versions + [Last(w'.versions)] && Last(w'.versions).rec == w'.rec.value
            && w'.cache == w.cache && w'.flights == w.flights
  {
    hide Edited, Build, Overwritten;
  }

  lemma VersionsKept(rules: Rules, w: World, e: Event)
    requires |Step(rules, w, e).versions| <= |w.versions|
    ensures var w' := Step(rules, w, e);
            && w'.versions == w.versions
            && (w'.rec.Some? ==> w.rec.Some? && SameButVerified(w.rec.value, w'.rec.value))
            && (forall r :: r in w'.cache ==>
                  || Holding(w, w'.cache[r].version)
                  || (w.rec.Some? && w'.cache[r].version == |w.versions| - 1))
            && (forall o :: o in w'.flights ==>
                  || Holding(w, w'.flights[o].version)
                  || (w.rec.Some? && w'.flights[o].version == |w.versions| - 1))
  {
    hide Edited, Build, Overwritten, Hit, TestStep;
    if e.Test? {
      TestHeld(rules, w, e.replica, e.now, e.stored, e.passed, e.recorded);
    } else if !e.Reserve? && !e.Save? {
      NothingNewHeld(rules, w, e);
    }
  }

  lemma NothingNewHeld(rules: Rules, w: World, e: Event)
    requires !e.Test? && !e.Reserve? && !e.Save?
    ensures var w' := Step(rules, w, e);
            && w'.versions == w.versions
            && (w'.rec.Some? ==> w.rec.Some? && w.rec == w'.rec)
            && (forall r :: r in w'.cache ==>
                  || Holding(w, w'.cache[r].version)
                  || (w.rec.Some? && w'.cache[r].version == |w.versions| - 1))
            && (forall o :: o in w'.flights ==>
                  || Holding(w, w'.flights[o].version)
                  || (w.rec.Some? && w'.flights[o].version == |w.versions| - 1))
  {
    hide Edited, Build, Overwritten, Hit, TestStep, ReserveStep, SaveStep;
  }

  lemma TestHeld(rules: Rules, w: World, r: nat, now: int, stored: int, passed: bool, recorded: bool)
    ensures var w' := TestStep(rules, w, r, now, stored, passed, recorded);
            && w'.versions == w.versions && w'.flights == w.flights
            && (w'.rec.Some? ==> w.rec.Some? && SameButVerified(w.rec.value, w'.rec.value))
            && (forall s :: s in w'.cache ==>
                  || (s in w.cache && w'.cache[s] == w.cache[s])
                  || (w.rec.Some? && w'.cache[s].version == |w.versions| - 1))
  {
    hide Build, Hit;
  }

  ghost predicate NeverClobbers(rules: Rules, events: seq<Event>) {
    events == [] || (NeverClobbers(rules, events[..|events| - 1])
                     && !Clobbers(rules, Run(rules, EMPTY, events[..|events| - 1]), Last(events)))
  }

  lemma {:induction false} RunCoherent(rules: Rules, events: seq<Event>)
    requires NeverClobbers(rules, events)
    ensures Coherent(Run(rules, EMPTY, events))
  {
    if events != [] {
      var before := events[..|events| - 1];
      RunCoherent(rules, before);
      RunInv(rules, before);
      hide Coherent, Clobbers, Inv, Step;
      CoherentStep(rules, Run(rules, EMPTY, before), Last(events));
    }
  }

  /** With no stamp reused for another target while a replica holds it, every cache hit of every
      replica in every run serves the record as it is now. */
  lemma HitsServeTheRecord(rules: Rules, events: seq<Event>, r: nat, now: int)
    requires NeverClobbers(rules, events)
    requires Hits(Run(rules, EMPTY, events), r, now)
    ensures var w := Run(rules, EMPTY, events);
            Serves(w.cache[r].cached.client, w.rec.value)
  {
    RunInv(rules, events);
    RunCoherent(rules, events);
    var w := Run(rules, EMPTY, events);
    hide Run, NeverClobbers, BuiltFrom, History, Marked;
    VersionExists(w.versions, w.secrets, w.cache[r]);
    assert Holding(w, w.cache[r].version);
  }

  predicate FreshStamp(w: World, e: Event) {
    e.Reserve? ==> forall v :: 0 <= v < |w.versions| ==> w.versions[v].rec.updatedAt < e.rec.updatedAt
  }

  /** Every creation gets a stamp later than all before it. */
  ghost predicate FreshStamps(rules: Rules, events: seq<Event>) {
    events == [] || (FreshStamps(rules, events[..|events| - 1])
                     && FreshStamp(Run(rules, EMPTY, events[..|events| - 1]), Last(events)))
  }

  predicate Ascending(versions: seq<Version>) {
    forall i, j :: 0 <= i < j < |versions| ==> versions[i].rec.updatedAt < versions[j].rec.updatedAt
  }

  lemma AscendingStep(rules: Rules, w: World, e: Event)
    requires Inv(w) && Ascending(w.versions)
    requires FreshStamp(w, e)
    ensures Ascending(Step(rules, w, e).versions) && !Clobbers(rules, w, e)
  {
    NowHeld(w);
    hide Inv, History, Marked, Held, Edited, Build, Holding;
    var w' := Step(rules, w, e);
    if |w'.versions| > |w.versions| {
      VersionAdded(rules, w, e);
      assert w.versions != [] && e.Save? ==> Last(w.versions).rec.updatedAt < w'.rec.value.updatedAt;
      assert forall v :: 0 <= v < |w.versions| ==> w.versions[v].rec.updatedAt < w'.rec.value.updatedAt;
    } else {
      VersionsKept(rules, w, e);
    }
  }

  /** A clock that never repeats a stamp of an earlier life is enough. */
  lemma {:induction false} FreshStampsSuffice(rules: Rules, events: seq<Event>)
    requires FreshStamps(rules, events)
    ensures NeverClobbers(rules, events) && Ascending(Run(rules, EMPTY, events).versions)
  {
    if events != [] {
      var before := events[..|events| - 1];
      FreshStampsSuffice(rules, before);
      RunInv(rules, before);
      hide Clobbers, Inv, Step, FreshStamp, Ascending;
      AscendingStep(rules, Run(rules, EMPTY, before), Last(events));
    }
  }

  // ---- the create-only probe ----

  /** A recorded pass that still speaks for the record: made in this life, on a client of exactly
      the current target, and every version since kept the flag and the target. */
  predicate Stands(w: World, p: nat)
    requires w.rec.Some?
  {
    && p < |w.probes| && w.probes[p].passed && Serves(w.probes[p].client, w.rec.value)
    && w.probes[p].version < |w.versions| && w.versions[w.probes[p].version].life == w.lives
    && SameTarget(w.versions[w.probes[p].version].rec, w.rec.value)
    && forall i :: w.probes[p].version < i < |w.versions| ==>
         w.versions[i].rec.createOnlyVerified && SameTarget(w.versions[i].rec, w.rec.value)
  }

  ghost predicate Proved(w: World)
    requires w.rec.Some?
  {
    exists p: nat :: Stands(w, p)
  }

  ghost predicate Verified(w: World) {
    w.rec.Some? && w.rec.value.createOnlyVerified ==> Proved(w)
  }

  /** What an edit that keeps the flag keeps. */
  predicate EditPending(w: World) {
    w.busy.Saving? && w.busy.to.createOnlyVerified ==>
      w.rec.Some? && w.rec.value.createOnlyVerified && SameTarget(w.busy.to, w.rec.value)
  }

  predicate ProbesKnown(w: World) {
    forall p :: 0 <= p < |w.probes| ==> w.probes[p].version < |w.versions|
  }

  predicate Flagged(w: World) {
    EditPending(w) && ProbesKnown(w)
  }

  /** Same target, and any new version kept the flag and the target. */
  predicate Continues(w: World, w': World) {
    && w.rec.Some? && w'.rec.Some? && SameTarget(w.rec.value, w'.rec.value) && w'.lives == w.lives
    && w.versions <= w'.versions && w.probes <= w'.probes
    && forall i :: |w.versions| <= i < |w'.versions| ==>
         w'.versions[i].rec.createOnlyVerified && SameTarget(w'.versions[i].rec, w'.rec.value)
  }

  /** The passes that stand are the same, of the probes there were before. */
  lemma StandsOn(w: World, w': World, p: nat)
    requires Continues(w, w') && ProbesKnown(w) && p < |w.probes|
    ensures Stands(w, p) <==> Stands(w', p)
  {
    assert w'.probes[p] == w.probes[p];
    assert forall i :: 0 <= i < |w.versions| ==> w'.versions[i] == w.versions[i];
  }

  lemma ProvedOn(w: World, w': World)
    requires Continues(w, w') && ProbesKnown(w) && w'.probes == w.probes
    ensures Proved(w') <==> Proved(w)
  {
    forall p: nat | p < |w.probes|
      ensures Stands(w, p) <==> Stands(w', p)
    {
      StandsOn(w, w', p);
    }
    hide SameTarget, Serves;
  }

  /** One more probe, of the last version's target or of what a cached client serves. */
  lemma ProvedWithProbe(w: World, w': World, client: Client, passed: bool)
    requires Continues(w, w') && ProbesKnown(w) && w'.versions == w.versions && w.versions != []
    requires w'.probes == w.probes + [ProbeRun(|w.versions| - 1, client, passed)]
    requires Last(w.versions).life == w.lives && SameTarget(Last(w.versions).rec, w.rec.value)
    ensures Proved(w') <==> Proved(w) || (passed && Serves(client, w.rec.value))
  {
    forall p: nat | p < |w.probes|
      ensures Stands(w, p) <==> Stands(w', p)
    {
      StandsOn(w, w', p);
    }
    assert Stands(w', |w.probes|) <==> passed && Serves(client, w.rec.value);
    hide SameTarget, Serves;
  }

  /** The edit under way stores a record that has lost the flag. */
  predicate Unflags(w: World, e: Event) {
    w.busy.Saving? && e == Save(true) && !w.busy.to.createOnlyVerified
  }

  predicate DropsRecord(w: World, e: Event) {
    (w.busy.Idle? && w.rec.Some? && e.Remove?) || (w.busy.Undoing? && e == UndoCreate(true))
  }

  /** The test takes the flag off, or its probe passes on the current target. */
  predicate Reproves(rules: Rules, w: World, e: Event) {
    && e.Test? && w.busy.Idle? && w.rec.Some? && w.rec.value.kind.S3?
    && OpenNow(rules, w, e.replica, e.now, e.stored).Some?
    && if e.passed then Hits(w, e.replica, e.now) ==> Serves(w.cache[e.replica].cached.client, w.rec.value)
       else e.recorded
  }

  /** The test probes a cached client of another target, the probe passes and is recorded, and no
      earlier pass speaks for the record. */
  ghost predicate MarksWrongly(w: World, e: Event) {
    && e.Test? && e.passed && e.recorded && w.busy.Idle?
    && Hits(w, e.replica, e.now) && w.rec.value.kind.S3?
    && !Serves(w.cache[e.replica].cached.client, w.rec.value)
    && !Proved(w)
  }

  lemma SaveVerified(rules: Rules, w: World, ok: bool)
    requires Inv(w) && Flagged(w)
    ensures Verified(Step(rules, w, Save(ok))) <==> Unflags(w, Save(ok)) || Verified(w)
    ensures Flagged(Step(rules, w, Save(ok)))
  {
    NowHeld(w);
    hide Inv, Held, Proved;
    var w' := SaveStep(w, ok);
    if w.rec.Some? && (w.busy.Saving? && ok ==> w.busy.to.createOnlyVerified) {
      ProvedOn(w, w');
    }
  }

  lemma PrepareVerified(rules: Rules, w: World, r: nat, input: UpdateInput, now: int)
    requires Inv(w) && Flagged(w)
    ensures Verified(PrepareStep(rules, w, r, input, now)) <==> Verified(w)
    ensures Flagged(PrepareStep(rules, w, r, input, now))
  {
    hide Inv, Proved;
    var w' := PrepareStep(rules, w, r, input, now);
    if w.rec.Some? {
      ProvedOn(w, w');
      if Edited(rules, w.rec.value, input).Some? {
        EditKeeps(rules, w.rec.value, input, now);
        hide Edited, Overwritten, NextStamp;
      }
    }
  }

  /** What a test leaves: the record but for its flag, and one more probe. */
  lemma TestLeaves(rules: Rules, w: World, r: nat, now: int, stored: int, passed: bool, recorded: bool)
    requires Inv(w)
    ensures var w' := TestStep(rules, w, r, now, stored, passed, recorded);
            && w'.versions == w.versions && w'.lives == w.lives && w'.busy == w.busy
            && if w.busy.Idle? && OpenNow(rules, w, r, now, stored).Some? && w.rec.Some? && w.rec.value.kind.S3? then
                 && r in w'.cache
                 && w'.rec == Some(if recorded then w.rec.value.(createOnlyVerified := passed) else w.rec.value)
                 && w'.probes == w.probes + [ProbeRun(|w.versions| - 1, w'.cache[r].cached.client, passed)]
                 && if Hits(w, r, now) then w'.cache == w.cache else Serves(w'.cache[r].cached.client, w.rec.value)
               else w'.probes == w.probes && w'.rec == w.rec
  {
    hide Held, History, Marked, Hit;
    if OpenNow(rules, w, r, now, stored).Some? && !Hits(w, r, now) {
      BuildMeaning(rules, w.rec.value, Last(w.secrets), Build(rules, w.rec.value, Last(w.secrets)).value);
    }
    hide Build;
  }

  lemma HitsOpen(rules: Rules, w: World, r: nat, now: int, stored: int)
    requires Inv(w) && Hits(w, r, now)
    ensures OpenNow(rules, w, r, now, stored).Some? && r in w.cache && w.rec.Some?
  {
    hide Held, History, Marked, Hit;
  }

  /** A hit may be on another target; a miss builds the current one. */
  lemma TestVerified(rules: Rules, w: World, e: Event)
    requires Inv(w) && Flagged(w) && e.Test?
    ensures var w' := TestStep(rules, w, e.replica, e.now, e.stored, e.passed, e.recorded);
            && Flagged(w')
            && (Verified(w') <==> if MarksWrongly(w, e) then false else Reproves(rules, w, e) || Verified(w))
  {
    NowHeld(w);
    TestLeaves(rules, w, e.replica, e.now, e.stored, e.passed, e.recorded);
    if Hits(w, e.replica, e.now) {
      HitsOpen(rules, w, e.replica, e.now, e.stored);
    }
    hide TestStep, OpenNow, Hits, Inv, Held, Proved, Serves;
    var w' := TestStep(rules, w, e.replica, e.now, e.stored, e.passed, e.recorded);
    if w.rec.Some? {
      if w'.probes != w.probes {
        ProvedWithProbe(w, w', Last(w'.probes).client, e.passed);
      } else {
        ProvedOn(w, w');
      }
    }
  }

  /** Every other step leaves the record and its flag, or drops it, or makes a new unverified one. */
  lemma OtherVerified(rules: Rules, w: World, e: Event)
    requires Inv(w) && Flagged(w) && !e.Save? && !e.Prepare? && !e.Test?
    ensures Verified(Step(rules, w, e)) <==> DropsRecord(w, e) || Verified(w)
    ensures Flagged(Step(rules, w, e))
  {
    NowHeld(w);
    OtherLeaves(rules, w, e);
    hide Inv, Held, Proved, Step, SameTarget;
    var w' := Step(rules, w, e);
    if w.rec.Some? && w'.rec.Some? {
      assert SameTarget(w.rec.value, w.rec.value) by { TargetIsItself(w.rec.value); }
      ProvedOn(w, w');
    }
  }

  lemma TargetIsItself(rec: Record)
    ensures SameTarget(rec, rec)
  {
  }

  lemma OtherLeaves(rules: Rules, w: World, e: Event)
    requires Current(w) && !e.Save? && !e.Prepare? && !e.Test?
    ensures var w' := Step(rules, w, e);
            && w'.probes == w.probes && w.versions <= w'.versions && (w'.busy.Saving? ==> w'.busy == w.busy)
            && (w.rec.Some? ==>
                  && w'.versions == w.versions && w'.lives == w.lives
                  && if DropsRecord(w, e) then w'.rec.None? else w'.rec == w.rec)
            && (w.rec.None? ==> !w'.busy.Saving? && (w'.rec.Some? ==> !w'.rec.value.createOnlyVerified))
  {
    hide SaveStep, PrepareStep, TestStep, Build, Hits, Successor, SameButVerified;
  }

  predicate Renews(rules: Rules, w: World, e: Event) {
    Unflags(w, e) || DropsRecord(w, e) || Reproves(rules, w, e)
  }

  /** Exactly which steps leave a record marked create-only capable without a passing probe of its
      target, and which end that. */
  lemma VerifiedStep(rules: Rules, w: World, e: Event)
    requires Inv(w) && Flagged(w)
    ensures Verified(Step(rules, w, e)) <==> if MarksWrongly(w, e) then false else Renews(rules, w, e) || Verified(w)
    ensures Flagged(Step(rules, w, e))
  {
    hide Inv, Flagged, Verified, SaveStep, PrepareStep, TestStep, Proved, Hits, OpenNow;
    match e
    case Save(ok) => SaveVerified(rules, w, ok);
    case Prepare(r, input, now) => PrepareVerified(rules, w, r, input, now);
    case Test(_, _, _, _, _) => TestVerified(rules, w, e);
    case _ => OtherVerified(rules, w, e);
  }

  /** A test marked the record wrongly, and nothing since has ended that. */
  ghost predicate MarkedWrongly(rules: Rules, events: seq<Event>) {
    events != [] &&
    var before := events[..|events| - 1];
    var w := Run(rules, EMPTY, before);
    MarksWrongly(w, Last(events)) || (!Renews(rules, w, Last(events)) && MarkedWrongly(rules, before))
  }

  /** In every run: a record marked create-only capable has had a passing probe since its config was
      last set, on a client built for exactly its target, unless a test on a hit of another target
      marked it without one and neither an edit of the config, a removal nor another test has
      followed. */
  lemma {:induction false} VerifiedUnlessMarkedWrongly(rules: Rules, events: seq<Event>)
    ensures Verified(Run(rules, EMPTY, events)) <==> !MarkedWrongly(rules, events)
    ensures Flagged(Run(rules, EMPTY, events))
  {
    if events != [] {
      var before := events[..|events| - 1];
      VerifiedUnlessMarkedWrongly(rules, before);
      RunInv(rules, before);
      hide Verified, Flagged, Inv, Step, MarksWrongly, Renews;
      VerifiedStep(rules, Run(rules, EMPTY, before), Last(events));
    }
  }

  lemma CoherentMarksRightly(w: World, e: Event)
    requires Inv(w) && Coherent(w)
    ensures !MarksWrongly(w, e)
  {
    NowHeld(w);
    hide Inv, BuiltFrom, Proved, FlightOk;
    if e.Test? && Hits(w, e.replica, e.now) {
      VersionExists(w.versions, w.secrets, w.cache[e.replica]);
      assert Holding(w, w.cache[e.replica].version);
    }
  }

  /** So it is in every run without a clobbered stamp. */
  lemma {:induction false} VerifiedMeansProbed(rules: Rules, events: seq<Event>)
    requires NeverClobbers(rules, events)
    ensures Verified(Run(rules, EMPTY, events)) && EditPending(Run(rules, EMPTY, events))
    ensures !MarkedWrongly(rules, events)
  {
    VerifiedUnlessMarkedWrongly(rules, events);
    if events != [] {
      var before := events[..|events| - 1];
      VerifiedMeansProbed(rules, before);
      RunInv(rules, before);
      RunCoherent(rules, before);
      hide Verified, Coherent, Inv, Step, Run, MarksWrongly, Clobbers, Renews;
      CoherentMarksRightly(Run(rules, EMPTY, before), Last(events));
    }
  }

  // ---- how old a client's credentials are ----

  lemma SecretsGrow(rules: Rules, w: World, e: Event)
    ensures w.secrets <= Step(rules, w, e).secrets && w.versions <= Step(rules, w, e).versions
    ensures |Step(rules, w, e).versions| <= |w.versions| + 1
  {
    hide Edited, Build, Overwritten, Hit, NextStamp, IsNew, OpenNow, Hits;
    if e.Test? {
      TestGrowsNothing(rules, w, e.replica, e.now, e.stored, e.passed, e.recorded);
      hide TestStep;
    }
  }

  lemma TestGrowsNothing(rules: Rules, w: World, r: nat, now: int, stored: int, passed: bool, recorded: bool)
    ensures var w' := TestStep(rules, w, r, now, stored, passed, recorded);
            w'.secrets == w.secrets && w'.versions == w.versions
  {
    hide Build, Hit, Hits;
  }

  lemma {:induction false} RunGrows(rules: Rules, events: seq<Event>, i: nat)
    requires i <= |events|
    ensures Run(rules, EMPTY, events[..i]).secrets <= Run(rules, EMPTY, events).secrets
    ensures Run(rules, EMPTY, events[..i]).versions <= Run(rules, EMPTY, events).versions
    decreases |events|
  {
    hide Step;
    if i == |events| {
      assert events[..i] == events;
    } else {
      var before := events[..|events| - 1];
      assert before[..i] == events[..i];
      RunGrows(rules, before, i);
      SecretsGrow(rules, Run(rules, EMPTY, before), Last(events));
    }
  }

  /** The event that made a version. */
  lemma {:induction false} MadeBy(rules: Rules, events: seq<Event>, v: nat) returns (i: nat)
    requires v < |Run(rules, EMPTY, events).versions|
    ensures i < |events| && |Run(rules, EMPTY, events[..i]).versions| == v && |Run(rules, EMPTY, events[..i + 1]).versions| == v + 1
    decreases |events|
  {
    hide Step;
    assert events != [];
    var before := events[..|events| - 1];
    SecretsGrow(rules, Run(rules, EMPTY, before), Last(events));
    if v < |Run(rules, EMPTY, before).versions| {
      i := MadeBy(rules, before, v);
      assert before[..i] == events[..i] && before[..i + 1] == events[..i + 1];
    } else {
      i := |events| - 1;
      assert events[..i] == before && events[..i + 1] == events;
    }
  }

  /** Where a new version's mark points. */
  lemma MarkOfNew(rules: Rules, w: World, e: Event)
    requires Inv(w) && |Step(rules, w, e).versions| == |w.versions| + 1
    ensures var v := Last(Step(rules, w, e).versions);
            && Step(rules, w, e).secrets == w.secrets
            && (v.mark == |w.secrets| <==> e.Reserve? && v.rec.hasCredentials)
            && v.mark <= |w.secrets|
  {
    hide Edited, Build, Overwritten, Hit, NextStamp, Held, History, Marked, OpenNow, Hits;
    if e.Test? {
      TestGrowsNothing(rules, w, e.replica, e.now, e.stored, e.passed, e.recorded);
      hide TestStep;
    }
  }

  /** The creation of version `v` has reserved the ID with credentials to come, and no credentials
      were written or removed since. */
  ghost predicate Unwritten(rules: Rules, events: seq<Event>, v: nat) {
    exists i :: 0 <= i < |events| && events[i].Reserve? && MakesVersion(rules, events, i, v)
                && Run(rules, EMPTY, events).secrets == Run(rules, EMPTY, events[..i]).secrets
                && events[i].rec.hasCredentials
  }

  ghost predicate MakesVersion(rules: Rules, events: seq<Event>, i: nat, v: nat)
    requires i < |events|
  {
    |Run(rules, EMPTY, events[..i]).versions| == v && |Run(rules, EMPTY, events[..i + 1]).versions| == v + 1
  }

  lemma UnwrittenIsMarked(rules: Rules, events: seq<Event>, v: nat)
    requires v < |Run(rules, EMPTY, events).versions|
    ensures Run(rules, EMPTY, events).versions[v].mark == |Run(rules, EMPTY, events).secrets| <==> Unwritten(rules, events, v)
  {
    hide Step, Inv, Run;
    var i := MadeBy(rules, events, v);
    MarkAndMaker(rules, events, i, v);
    forall j | 0 <= j < |events| && MakesVersion(rules, events, j, v)
      ensures Run(rules, EMPTY, events).versions[v].mark == |Run(rules, EMPTY, events).secrets| <==>
                events[j].Reserve? && events[j].rec.hasCredentials
                && Run(rules, EMPTY, events).secrets == Run(rules, EMPTY, events[..j]).secrets
    {
      MarkAndMaker(rules, events, j, v);
    }
    assert MakesVersion(rules, events, i, v);
  }

  lemma MarkAndMaker(rules: Rules, events: seq<Event>, i: nat, v: nat)
    requires v < |Run(rules, EMPTY, events).versions| && i < |events| && MakesVersion(rules, events, i, v)
    ensures Run(rules, EMPTY, events).versions[v].mark == |Run(rules, EMPTY, events).secrets| <==>
              events[i].Reserve? && events[i].rec.hasCredentials
              && Run(rules, EMPTY, events).secrets == Run(rules, EMPTY, events[..i]).secrets
  {
    hide Step, Inv;
    RunInv(rules, events[..i]);
    RunGrows(rules, events, i);
    RunGrows(rules, events, i + 1);
    assert events[..i + 1][..i] == events[..i];
    var w := Run(rules, EMPTY, events[..i]);
    assert Run(rules, EMPTY, events[..i + 1]) == Step(rules, w, events[i]);
    hide Run;
    MarkOfNew(rules, w, events[i]);
    ReservedRecord(rules, w, events[i]);
    assert Run(rules, EMPTY, events).versions[v] == Last(Step(rules, w, events[i]).versions);
  }

  lemma ReservedRecord(rules: Rules, w: World, e: Event)
    requires |Step(rules, w, e).versions| == |w.versions| + 1
    ensures e.Reserve? ==> Last(Step(rules, w, e).versions).rec == e.rec
  {
    hide PrepareStep, SaveStep, LoadStep, StoreStep, TestStep;
  }

  /** Which credentials an open gets when it loads: the stored ones. They are older than the ones its
      version's operation wrote or kept if and only if that operation was a creation which has
      reserved the ID and not written its own since, and a secret is there all the same. */
  lemma LoadsOlderExactlyInTheWindow(rules: Rules, events: seq<Event>, o: nat)
    requires var w := Run(rules, EMPTY, events); o in w.flights && w.flights[o].Read?
    ensures var w := Run(rules, EMPTY, events);
            var w' := Step(rules, w, Load(o));
            var v := w.flights[o].version;
            && v < |w.versions| && w.secrets != []
            && (o in w'.flights <==> Build(rules, w.versions[v].rec, Last(w.secrets)).Some?)
            && (o in w'.flights ==>
                  && w'.flights[o].Loaded? && w'.flights[o].version == v
                  && Build(rules, w.versions[v].rec, Last(w.secrets)) == Some(w'.flights[o].client)
                  && (w'.flights[o].mark < w.versions[v].mark <==> Unwritten(rules, events, v)))
            && (o in w'.flights && Unwritten(rules, events, v) ==> Last(w.secrets).Some?)
  {
    hide Unwritten, Build, Run, EntryOk;
    RunInv(rules, events);
    var w := Run(rules, EMPTY, events);
    assert FlightOk(w.versions, w.secrets, w.flights[o]);
    var v := w.flights[o].version;
    UnwrittenIsMarked(rules, events, v);
    if Build(rules, w.versions[v].rec, Last(w.secrets)).Some? {
      BuildMeaning(rules, w.versions[v].rec, Last(w.secrets), Build(rules, w.versions[v].rec, Last(w.secrets)).value);
    }
  }

  // ---- which credentials ----

  /** What an operation under way still knows of its credentials: a creation's are those of the last
      version; an edit has stored its own, or brought none and keeps what the record says. */
  predicate Pending(w: World) {
    && w.secrets != []
    && (w.busy.Creating? || w.busy.Undoing? ==> w.rec.Some? && w.rec.value.hasCredentials && w.versions != [])
    && (w.busy.Creating? ==> w.busy.given == Last(w.versions).given)
    && (w.busy.Saving? ==>
          && w.rec.Some? && w.versions != []
          && (|| Last(w.secrets) == (if w.busy.to.hasCredentials then Some(w.busy.given) else None)
              || (w.busy.to.hasCredentials == w.rec.value.hasCredentials && w.busy.given == Last(w.versions).given)))
  }

  /** The credentials that the operation under way will leave, or that none under way has left, are
      the ones last given to this record. */
  predicate GivenStored(w: World) {
    && w.secrets != []
    && match w.busy
       case Idle => LastGiven(w)
       case Saved(_) => LastGiven(w)
       case Saving(_, to, given) => to.hasCredentials ==> Last(w.secrets) == Some(given)
       case _ => true
  }

  predicate LastGiven(w: World)
    requires w.secrets != []
  {
    w.rec.Some? && w.rec.value.hasCredentials ==> w.versions != [] && Last(w.secrets) == Some(Last(w.versions).given)
  }

  predicate Accepted(rules: Rules, w: World, input: UpdateInput) {
    && w.rec.Some? && w.busy.Idle? && w.secrets != [] && w.versions != []
    && Edited(rules, w.rec.value, input).Some?
    && rules.builds(ClientOf(Edited(rules, w.rec.value, input).value, Supplied(w.rec.value, Last(w.secrets), input)))
  }

  /** A failed undo or record write, or a crash before either, while the stored credentials are not
      the ones of the record's last version. */
  predicate Unmatches(w: World, e: Event) {
    && (|| (w.busy.Undoing? && e == UndoCreate(false))
        || (w.busy.Saving? && e == Save(false))
        || ((w.busy.Creating? || w.busy.Undoing? || w.busy.Saving?) && e.Abandon?))
    && w.secrets != [] && !LastGiven(w)
  }

  /** An accepted edit that brings credentials, or the removal of the record. */
  predicate Rematches(rules: Rules, w: World, e: Event) {
    || (e.Prepare? && e.input.creds.Some? && Accepted(rules, w, e.input))
    || (e.Remove? && w.rec.Some? && w.busy.Idle?)
  }

  lemma EditedCredentials(rules: Rules, rec: Record, input: UpdateInput)
    requires Edited(rules, rec, input).Some?
    ensures Edited(rules, rec, input).value.hasCredentials ==
            if input.creds.Some? then input.creds.value != map[] else rec.hasCredentials
  {
  }

  /** What an accepted edit writes and holds. */
  lemma PreparedEdit(rules: Rules, w: World, r: nat, input: UpdateInput, now: int)
    ensures var w' := PrepareStep(rules, w, r, input, now);
            if Accepted(rules, w, input) then
              && w'.busy.Saving? && w' == w.(secrets := w'.secrets, busy := w'.busy) && w'.secrets != []
              && (input.creds.None? ==>
                    && w'.secrets == w.secrets && w'.busy.to.hasCredentials == w.rec.value.hasCredentials
                    && w'.busy.given == Last(w.versions).given)
              && (input.creds.Some? ==>
                    && w'.busy.to.hasCredentials == (input.creds.value != map[])
                    && w'.busy.given == input.creds.value
                    && Last(w'.secrets) == if w'.busy.to.hasCredentials then Some(w'.busy.given) else None)
            else w' == w
  {
    if w.rec.Some? && Edited(rules, w.rec.value, input).Some? {
      EditedCredentials(rules, w.rec.value, input);
    }
    hide Edited, NextStamp, Supplied;
  }

  /** Opens and tests. */
  predicate Reading(e: Event) {
    e.BeginOpen? || e.Load? || e.Store? || e.Forget? || e.Restart? || e.Test?
  }

  predicate SameCredentials(w: World, w': World) {
    && w'.secrets == w.secrets && w'.versions == w.versions && w'.busy == w.busy
    && (w'.rec.Some? <==> w.rec.Some?)
    && (w.rec.Some? ==> w'.rec.value.hasCredentials == w.rec.value.hasCredentials)
  }

  lemma TestKeepsCredentials(rules: Rules, w: World, r: nat, now: int, stored: int, passed: bool, recorded: bool)
    ensures SameCredentials(w, TestStep(rules, w, r, now, stored, passed, recorded))
  {
    hide Build, Hits;
  }

  lemma ReadingKeepsCredentials(rules: Rules, w: World, e: Event)
    requires Reading(e)
    ensures SameCredentials(w, Step(rules, w, e))
  {
    hide TestStep, Build, Hits;
    if e.Test? {
      TestKeepsCredentials(rules, w, e.replica, e.now, e.stored, e.passed, e.recorded);
    }
  }

  lemma ReadingIsNeutral(rules: Rules, w: World, w': World, e: Event)
    requires Reading(e) && SameCredentials(w, w')
    ensures Pending(w') == Pending(w) && GivenStored(w') == GivenStored(w) && Tidy(w') == Tidy(w)
    ensures !Unmatches(w, e) && !Rematches(rules, w, e) && !Untidies(w, e) && !Tidies(rules, w, e)
  {
    hide Accepted;
  }

  lemma PreparedPending(rules: Rules, w: World, e: Event)
    requires Pending(w) && e.Prepare?
    ensures Pending(Step(rules, w, e))
  {
    hide PrepareStep, Edited, Supplied;
    PreparedEdit(rules, w, e.replica, e.input, e.now);
  }

  lemma WritingPending(rules: Rules, w: World, e: Event)
    requires Pending(w) && Current(w) && !Reading(e) && !e.Prepare?
    ensures Pending(Step(rules, w, e))
  {
    hide SameButVerified, Successor, PrepareStep, TestStep, LoadStep, StoreStep, BeginOpenStep;
  }

  lemma StepPending(rules: Rules, w: World, e: Event)
    requires Inv(w) && Pending(w)
    ensures Pending(Step(rules, w, e))
  {
    NowHeld(w);
    hide Inv, Step, Pending, Reading, Accepted;
    if Reading(e) {
      ReadingKeepsCredentials(rules, w, e);
      ReadingIsNeutral(rules, w, Step(rules, w, e), e);
    } else if e.Prepare? {
      PreparedPending(rules, w, e);
    } else {
      WritingPending(rules, w, e);
    }
  }

  lemma GivenPrepare(rules: Rules, w: World, e: Event)
    requires Pending(w) && e.Prepare?
    ensures GivenStored(Step(rules, w, e)) <==> Rematches(rules, w, e) || GivenStored(w)
    ensures !Unmatches(w, e)
  {
    hide PrepareStep;
    PreparedEdit(rules, w, e.replica, e.input, e.now);
    hide Edited, Supplied;
  }

  lemma GivenWriting(rules: Rules, w: World, e: Event)
    requires Pending(w) && Current(w) && !Reading(e) && !e.Prepare?
    ensures GivenStored(Step(rules, w, e)) <==>
              if Unmatches(w, e) then false else Rematches(rules, w, e) || GivenStored(w)
  {
    hide SameButVerified, Successor, PrepareStep, TestStep, LoadStep, StoreStep, BeginOpenStep;
  }

  /** Exactly which steps set a record and its credentials apart, and which bring them together. */
  lemma GivenStep(rules: Rules, w: World, e: Event)
    requires Inv(w) && Pending(w)
    ensures GivenStored(Step(rules, w, e)) <==>
              if Unmatches(w, e) then false else Rematches(rules, w, e) || GivenStored(w)
  {
    NowHeld(w);
    hide Inv, Step, Pending, GivenStored, Unmatches, Rematches, Reading, Accepted;
    if Reading(e) {
      ReadingKeepsCredentials(rules, w, e);
      ReadingIsNeutral(rules, w, Step(rules, w, e), e);
    } else if e.Prepare? {
      GivenPrepare(rules, w, e);
    } else {
      GivenWriting(rules, w, e);
    }
  }

  /** The last step that set the record and its credentials apart came after every step that brought
      them together. */
  ghost predicate Apart(rules: Rules, events: seq<Event>) {
    events != [] &&
    var before := events[..|events| - 1];
    var w := Run(rules, EMPTY, before);
    Unmatches(w, Last(events)) || (!Rematches(rules, w, Last(events)) && Apart(rules, before))
  }

  lemma {:induction false} RunPending(rules: Rules, events: seq<Event>)
    ensures Pending(Run(rules, EMPTY, events))
  {
    if events != [] {
      var before := events[..|events| - 1];
      RunPending(rules, before);
      RunInv(rules, before);
      hide Step, Inv, Pending;
      StepPending(rules, Run(rules, EMPTY, before), Last(events));
    }
  }

  lemma {:induction false} GivenUnlessApart(rules: Rules, events: seq<Event>)
    ensures GivenStored(Run(rules, EMPTY, events)) <==> !Apart(rules, events)
  {
    if events != [] {
      var before := events[..|events| - 1];
      GivenUnlessApart(rules, before);
      RunPending(rules, before);
      RunInv(rules, before);
      hide Step, Inv, Pending, GivenStored, Unmatches, Rematches;
      GivenStep(rules, Run(rules, EMPTY, before), Last(events));
    }
  }

  /** An open between operations builds with the credentials of the record's latest creation or edit
      if and only if no step since set them apart: a failed undo, a failed record write, or a crash
      before either, that no edit with credentials has followed. Failed credential deletions do not
      matter. */
  lemma LatestGivenIsUsed(rules: Rules, events: seq<Event>)
    requires Run(rules, EMPTY, events).rec.Some? && Run(rules, EMPTY, events).busy.Idle?
    ensures var w := Run(rules, EMPTY, events);
            && w.versions != [] && w.secrets != []
            && (w.rec.value.hasCredentials ==>
                  (Apart(rules, events) <==> Last(w.secrets) != Some(Last(w.versions).given)))
            && forall c :: Build(rules, w.rec.value, Last(w.secrets)) == Some(c) ==>
                 (c.creds == (if w.rec.value.hasCredentials then Last(w.versions).given else map[]) <==> !Apart(rules, events))
  {
    RunInv(rules, events);
    GivenUnlessApart(rules, events);
    hide Run, Held, History, Marked, Apart;
  }

  /** Between operations, and as the operation under way will leave it: credentials are stored
      exactly when there is a record that says so. */
  predicate Tidy(w: World) {
    && w.secrets != []
    && match w.busy
       case Idle => Last(w.secrets).Some? <==> w.rec.Some? && w.rec.value.hasCredentials
       case Saved(_) => Last(w.secrets).Some? <==> w.rec.Some? && w.rec.value.hasCredentials
       case Creating(_) => Last(w.secrets).None?
       case Undoing => Last(w.secrets).None?
       case Saving(_, to, _) => Last(w.secrets).Some? <==> to.hasCredentials
       case _ => true
  }

  /** Ways an operation ends early with the stored credentials and the record disagreeing: a
      creation's write that lands and reports failure, an undo that fails, an edit that changes whether there are credentials and whose record write fails, a
      deletion that leaves a secret behind, a crash before any of these. */
  predicate Untidies(w: World, e: Event) {
    && w.secrets != []
    && match w.busy
       case Creating(_) => (e.Abandon? && Last(w.secrets).None?) || e.PutCreatedLost?
       case Undoing => (e == UndoCreate(false) || e.Abandon?) && Last(w.secrets).None?
       case Saving(_, to, _) => (e == Save(false) || e.Abandon?) && w.rec.Some? && to.hasCredentials != w.rec.value.hasCredentials
       case Removed(_) => e.Abandon? && Last(w.secrets).Some?
       case Cleaning => (e == Clean(false) || e.Abandon?) && Last(w.secrets).Some?
       case _ => false
  }

  /** An accepted edit that brings credentials, a removal, a creation that writes its own, or one
      that fails over a leftover secret and leaves its record too. */
  predicate Tidies(rules: Rules, w: World, e: Event) {
    || Rematches(rules, w, e)
    || (w.busy.Creating? && e == PutCreated(true))
    || (w.secrets != [] && Last(w.secrets).Some?
        && (|| (w.busy.Creating? && e.Abandon?)
            || (w.busy.Undoing? && (e == UndoCreate(false) || e.Abandon?))))
  }

  lemma TidyPrepare(rules: Rules, w: World, e: Event)
    requires Pending(w) && e.Prepare?
    ensures Tidy(Step(rules, w, e)) <==> Tidies(rules, w, e) || Tidy(w)
    ensures !Untidies(w, e)
  {
    hide PrepareStep;
    PreparedEdit(rules, w, e.replica, e.input, e.now);
    hide Edited, Supplied;
  }

  lemma TidyWriting(rules: Rules, w: World, e: Event)
    requires Pending(w) && Current(w) && !Reading(e) && !e.Prepare?
    ensures Tidy(Step(rules, w, e)) <==> if Untidies(w, e) then false else Tidies(rules, w, e) || Tidy(w)
  {
    hide SameButVerified, Successor, PrepareStep, TestStep, LoadStep, StoreStep, BeginOpenStep;
  }

  lemma TidyStep(rules: Rules, w: World, e: Event)
    requires Inv(w) && Pending(w)
    ensures Tidy(Step(rules, w, e)) <==> if Untidies(w, e) then false else Tidies(rules, w, e) || Tidy(w)
  {
    NowHeld(w);
    hide Inv, Step, Pending, Tidy, Untidies, Tidies, Reading, Accepted;
    if Reading(e) {
      ReadingKeepsCredentials(rules, w, e);
      ReadingIsNeutral(rules, w, Step(rules, w, e), e);
    } else if e.Prepare? {
      TidyPrepare(rules, w, e);
    } else {
      TidyWriting(rules, w, e);
    }
  }

  ghost predicate Disagreeing(rules: Rules, events: seq<Event>) {
    events != [] &&
    var before := events[..|events| - 1];
    var w := Run(rules, EMPTY, before);
    Untidies(w, Last(events)) || (!Tidies(rules, w, Last(events)) && Disagreeing(rules, before))
  }

  /** In every run, between operations: credentials are stored exactly when there is a record that
      says so, if and only if the last step that could set them at odds was made good since. */
  lemma {:induction false} StoredExactlyWhenSaid(rules: Rules, events: seq<Event>)
    ensures var w := Run(rules, EMPTY, events);
            && (Tidy(w) <==> !Disagreeing(rules, events))
            && (w.busy.Idle? ==>
                  && w.secrets != []
                  && (!Disagreeing(rules, events) <==> (Last(w.secrets).Some? <==> w.rec.Some? && w.rec.value.hasCredentials)))
  {
    RunPending(rules, events);
    if events != [] {
      var before := events[..|events| - 1];
      StoredExactlyWhenSaid(rules, before);
      RunPending(rules, before);
      RunInv(rules, before);
      hide Step, Inv, Untidies, Tidies;
      TidyStep(rules, Run(rules, EMPTY, before), Last(events));
    }
  }

  predicate Agree(w: World) {
    w.secrets != [] && w.rec.Some? && (w.rec.value.hasCredentials <==> Last(w.secrets).Some?)
  }

  /** A successful edit reconciles the record with the stored credentials if and only if it brings
      credentials of its own or there was nothing to reconcile. */
  lemma EditReconciles(rules: Rules, w: World, r: nat, input: UpdateInput, now: int)
    requires Inv(w) && Accepted(rules, w, input)
    ensures var v := InvalidateStep(SaveStep(PrepareStep(rules, w, r, input, now), true));
            && v.busy.Idle? && (Agree(v) <==> input.creds.Some? || Agree(w))
            && (GivenStored(v) <==> input.creds.Some? || GivenStored(w))
  {
    hide PrepareStep, Edited, Supplied, Held, History, Marked, SameButVerified, Successor;
    PreparedEdit(rules, w, r, input, now);
  }

  // ---- with every cleanup working, no client is built with older credentials ----

  /** While a creation's credentials are still to come, none are stored. */
  predicate NoneWaiting(w: World) {
    w.secrets != [] && forall v :: 0 <= v < |w.versions| && w.versions[v].mark >= |w.secrets| ==> Last(w.secrets).None?
  }

  predicate EntryFresh(w: World, e: Entry) {
    e.version < |w.versions| && w.versions[e.version].mark <= e.mark
  }

  predicate FlightFresh(w: World, f: Flight) {
    f.Loaded? ==> f.version < |w.versions| && w.versions[f.version].mark <= f.mark
  }

  /** Every client, cached or about to be, has credentials at least as new as its version's. */
  predicate ClientsFresh(w: World) {
    && (forall r :: r in w.cache ==> EntryFresh(w, w.cache[r]))
    && (forall o :: o in w.flights ==> FlightFresh(w, w.flights[o]))
  }

  lemma StepNoneWaiting(rules: Rules, w: World, e: Event)
    requires Inv(w) && Tidy(w) && NoneWaiting(w)
    ensures NoneWaiting(Step(rules, w, e))
  {
    hide Step, Held, History, Current, First;
    var w' := Step(rules, w, e);
    SecretsGrow(rules, w, e);
    assert Marked(w.versions, |w.secrets|);
    if |w'.versions| == |w.versions| + 1 {
      MarkOfNew(rules, w, e);
      if e.Reserve? {
        ReservesWhenIdle(rules, w, e);
      }
    }
  }

  lemma ReservesWhenIdle(rules: Rules, w: World, e: Event)
    requires e.Reserve? && |Step(rules, w, e).versions| == |w.versions| + 1
    ensures w.busy.Idle? && w.rec.None?
  {
  }

  /** This step builds a client with credentials older than its version's: it loads for a creation
      whose own are still to come while a secret is there. */
  ghost predicate LoadsOlder(rules: Rules, w: World, e: Event) {
    || (e.Load? && e.open in w.flights && w.flights[e.open].Read?
        && BuildsOlder(rules, w, w.flights[e.open].version))
    || (e.Test? && w.busy.Idle? && w.rec.Some? && !Hits(w, e.replica, e.now)
        && BuildsOlder(rules, w, |w.versions| - 1))
  }

  ghost predicate BuildsOlder(rules: Rules, w: World, v: int) {
    && 0 <= v < |w.versions| && w.secrets != [] && w.versions[v].mark == |w.secrets|
    && Build(rules, w.versions[v].rec, Last(w.secrets)).Some?
  }

  lemma MarkedBelow(w: World, v: nat)
    requires Inv(w) && v < |w.versions|
    ensures w.secrets != [] && w.versions[v].mark <= |w.secrets|
  {
    hide Held, History, First;
    assert Marked(w.versions, |w.secrets|);
  }

  /** A step leaves every client with credentials as new as its version's if and only if it is no
      such load. */
  lemma StepClientsFresh(rules: Rules, w: World, e: Event)
    requires Inv(w) && ClientsFresh(w)
    ensures ClientsFresh(Step(rules, w, e)) <==> !LoadsOlder(rules, w, e)
  {
    hide Inv, Step, Build, EntryFresh, FlightFresh, LoadsOlder;
    if LoadsOlder(rules, w, e) {
      OlderIsNotFresh(rules, w, e);
    } else {
      var w' := Step(rules, w, e);
      forall r | r in w'.cache
        ensures EntryFresh(w', w'.cache[r])
      {
        CachedStaysFresh(rules, w, e, r);
      }
      forall o | o in w'.flights
        ensures FlightFresh(w', w'.flights[o])
      {
        FlightStaysFresh(rules, w, e, o);
      }
    }
  }

  lemma OlderIsNotFresh(rules: Rules, w: World, e: Event)
    requires Inv(w) && LoadsOlder(rules, w, e)
    ensures !ClientsFresh(Step(rules, w, e))
  {
    hide Inv, Build, Hits, TestStep;
    var w' := Step(rules, w, e);
    if e.Load? {
      assert !FlightFresh(w', w'.flights[e.open]);
    } else {
      StepOfTest(rules, w, e);
      OlderTest(rules, w, e.replica, e.now, e.stored, e.passed, e.recorded);
      assert !EntryFresh(w', w'.cache[e.replica]);
    }
  }

  lemma OlderTest(rules: Rules, w: World, r: nat, now: int, stored: int, passed: bool, recorded: bool)
    requires Inv(w) && w.busy.Idle? && w.rec.Some? && !Hits(w, r, now) && BuildsOlder(rules, w, |w.versions| - 1)
    ensures var w' := TestStep(rules, w, r, now, stored, passed, recorded);
            r in w'.cache && w'.versions == w.versions && !EntryFresh(w', w'.cache[r])
  {
    hide Build, Hits, Held, History, Marked;
    SameBuild(rules, w.rec.value, Last(w.versions).rec, Last(w.secrets));
  }

  lemma FlightStaysFresh(rules: Rules, w: World, e: Event, o: nat)
    requires Inv(w) && ClientsFresh(w) && !LoadsOlder(rules, w, e) && o in Step(rules, w, e).flights
    ensures FlightFresh(Step(rules, w, e), Step(rules, w, e).flights[o])
  {
    hide Inv, EntryFresh, Build, TestStep, Edited, NextStamp, Overwritten, Hit;
    SecretsGrow(rules, w, e);
    if e.Load? && e.open == o && o in w.flights && w.flights[o].Read? && w.flights[o].version < |w.versions| {
      MarkedBelow(w, w.flights[o].version);
    } else if e.Test? {
      TestHeld(rules, w, e.replica, e.now, e.stored, e.passed, e.recorded);
    } else {
      assert o in w.flights ==> FlightFresh(w, w.flights[o]);
    }
  }

  lemma CachedStaysFresh(rules: Rules, w: World, e: Event, r: nat)
    requires Inv(w) && ClientsFresh(w) && !LoadsOlder(rules, w, e) && r in Step(rules, w, e).cache
    ensures EntryFresh(Step(rules, w, e), Step(rules, w, e).cache[r])
  {
    hide Inv, TestStep, StoreStep, Step, BuildsOlder, Hits;
    SecretsGrow(rules, w, e);
    if e.Test? {
      StepOfTest(rules, w, e);
      TestStaysFresh(rules, w, e.replica, e.now, e.stored, e.passed, e.recorded, r);
    } else if e.Store? {
      StepOfStore(rules, w, e);
      StoreStaysFresh(w, e.open, e.now, r);
    } else {
      CacheShrinks(rules, w, e);
      assert EntryFresh(w, w.cache[r]);
    }
  }

  lemma StepOfTest(rules: Rules, w: World, e: Event)
    requires e.Test?
    ensures Step(rules, w, e) == TestStep(rules, w, e.replica, e.now, e.stored, e.passed, e.recorded)
  {
    hide TestStep;
  }

  lemma StepOfStore(rules: Rules, w: World, e: Event)
    requires e.Store?
    ensures Step(rules, w, e) == StoreStep(w, e.open, e.now)
  {
    hide StoreStep;
  }

  lemma StoreStaysFresh(w: World, o: nat, now: int, r: nat)
    requires ClientsFresh(w) && r in StoreStep(w, o, now).cache
    ensures EntryFresh(StoreStep(w, o, now), StoreStep(w, o, now).cache[r])
  {
    assert o in w.flights ==> FlightFresh(w, w.flights[o]);
    assert r in w.cache ==> EntryFresh(w, w.cache[r]);
  }

  lemma CacheShrinks(rules: Rules, w: World, e: Event)
    requires !e.Test? && !e.Store?
    ensures forall r :: r in Step(rules, w, e).cache ==> r in w.cache && Step(rules, w, e).cache[r] == w.cache[r]
  {
    hide Edited, Build, Overwritten, Hit, NextStamp, IsNew, TestStep, StoreStep;
  }

  lemma TestStaysFresh(rules: Rules, w: World, r: nat, now: int, stored: int, passed: bool, recorded: bool, s: nat)
    requires Inv(w) && ClientsFresh(w)
    requires w.busy.Idle? && w.rec.Some? && !Hits(w, r, now) ==> !BuildsOlder(rules, w, |w.versions| - 1)
    requires s in TestStep(rules, w, r, now, stored, passed, recorded).cache
    ensures EntryFresh(TestStep(rules, w, r, now, stored, passed, recorded), TestStep(rules, w, r, now, stored, passed, recorded).cache[s])
  {
    hide Build, Hits, Held, History, Marked, First, Successor;
    assert s in w.cache ==> EntryFresh(w, w.cache[s]);
    if w.rec.Some? {
      SameBuild(rules, w.rec.value, Last(w.versions).rec, Last(w.secrets));
      MarkedBelow(w, |w.versions| - 1);
    }
  }

  lemma SameBuild(rules: Rules, a: Record, b: Record, secret: Option<Creds>)
    requires SameButVerified(a, b)
    ensures Build(rules, a, secret) == Build(rules, b, secret)
  {
  }

  lemma NoneWaitingLoadsNothingOlder(rules: Rules, w: World, e: Event)
    requires Inv(w) && NoneWaiting(w)
    ensures !LoadsOlder(rules, w, e)
  {
    hide Hits, Held, History, First, Current;
    assert Marked(w.versions, |w.secrets|);
  }

  /** Every client of every replica has had such credentials at every moment of the run. */
  ghost predicate AlwaysFresh(rules: Rules, events: seq<Event>) {
    ClientsFresh(Run(rules, EMPTY, events)) && (events == [] || AlwaysFresh(rules, events[..|events| - 1]))
  }

  ghost predicate NeverLoadsOlder(rules: Rules, events: seq<Event>) {
    events == [] || (NeverLoadsOlder(rules, events[..|events| - 1])
                     && !LoadsOlder(rules, Run(rules, EMPTY, events[..|events| - 1]), Last(events)))
  }

  /** Exactly when no run shows an older secret: when no open loads, for a creation whose credentials
      are still to come, while a secret is there. */
  lemma {:induction false} FreshUnlessLoadedInTheWindow(rules: Rules, events: seq<Event>)
    ensures AlwaysFresh(rules, events) <==> NeverLoadsOlder(rules, events)
  {
    if events != [] {
      var before := events[..|events| - 1];
      FreshUnlessLoadedInTheWindow(rules, before);
      RunInv(rules, before);
      hide Step, Inv, LoadsOlder, ClientsFresh;
      if AlwaysFresh(rules, before) {
        FreshNow(rules, before);
        StepClientsFresh(rules, Run(rules, EMPTY, before), Last(events));
      }
    } else {
      hide Step;
      assert ClientsFresh(EMPTY);
    }
  }

  lemma FreshNow(rules: Rules, events: seq<Event>)
    requires AlwaysFresh(rules, events)
    ensures ClientsFresh(Run(rules, EMPTY, events))
  {
  }

  /** Records and stored credentials were at odds at no moment of the run. */
  ghost predicate NeverDisagreeing(rules: Rules, events: seq<Event>) {
    !Disagreeing(rules, events) && (events == [] || NeverDisagreeing(rules, events[..|events| - 1]))
  }

  /** In runs where stored credentials and record never come to disagree, every client of every
      replica, cached or being opened, has credentials at least as new as the ones its version's
      operation wrote or kept. */
  lemma {:induction false} ClientsAreNeverOlder(rules: Rules, events: seq<Event>)
    requires NeverDisagreeing(rules, events)
    ensures ClientsFresh(Run(rules, EMPTY, events)) && NoneWaiting(Run(rules, EMPTY, events))
  {
    if events != [] {
      var before := events[..|events| - 1];
      ClientsAreNeverOlder(rules, before);
      StoredExactlyWhenSaid(rules, before);
      RunInv(rules, before);
      hide Step, Inv, Tidy, NoneWaiting, ClientsFresh;
      StepNoneWaiting(rules, Run(rules, EMPTY, before), Last(events));
      NoneWaitingLoadsNothingOlder(rules, Run(rules, EMPTY, before), Last(events));
      StepClientsFresh(rules, Run(rules, EMPTY, before), Last(events));
    }
  }

  lemma StampTellsVersion(versions: seq<Version>, v: nat)
    requires Ascending(versions) && v < |versions|
    ensures versions[v].rec.updatedAt == Last(versions).rec.updatedAt ==> v == |versions| - 1
  {
  }

  /** With fresh stamps and no load in the window, a hit on any replica serves the record as it is
      now, with credentials at least as new as the ones its latest creation or edit wrote or kept. */
  lemma HitsServeRecordAndCredentials(rules: Rules, events: seq<Event>, r: nat, now: int)
    requires FreshStamps(rules, events) && NeverLoadsOlder(rules, events)
    requires Hits(Run(rules, EMPTY, events), r, now)
    ensures var w := Run(rules, EMPTY, events);
            var e := w.cache[r];
            && w.versions != [] && e.version == |w.versions| - 1
            && Serves(e.cached.client, w.rec.value)
            && (w.rec.value.hasCredentials ==>
                  Last(w.versions).mark <= e.mark < |w.secrets| && w.secrets[e.mark] == Some(e.cached.client.creds))
            && (!w.rec.value.hasCredentials ==> e.cached.client.creds == map[])
  {
    hide Run, FreshStamps, NeverLoadsOlder, AlwaysFresh, History, Marked;
    var w := Run(rules, EMPTY, events);
    RunInv(rules, events);
    FreshStampsSuffice(rules, events);
    FreshUnlessLoadedInTheWindow(rules, events);
    FreshNow(rules, events);
    assert EntryOk(w.versions, w.secrets, w.cache[r]) && EntryFresh(w, w.cache[r]);
    StampTellsVersion(w.versions, w.cache[r].version);
  }

  // ---- where the guarantees end ----

  lemma Then(rules: Rules, events: seq<Event>, w: World, e: Event) returns (events': seq<Event>, w': World)
    requires Run(rules, EMPTY, events) == w
    ensures events' == events + [e] && w' == Step(rules, w, e) && Run(rules, EMPTY, events') == w'
  {
    events', w' := events + [e], Step(rules, w, e);
    assert events'[..|events|] == events;
  }

  /** A whole open by a replica with an empty cache and nothing else under way. */
  lemma OpenAndCache(rules: Rules, events: seq<Event>, w: World, r: nat, now: int, client: Client)
    returns (events': seq<Event>, w': World)
    requires Run(rules, EMPTY, events) == w
    requires w.flights == map[] && r !in w.cache && w.rec.Some? && w.versions != [] && w.secrets != []
    requires Build(rules, Last(w.versions).rec, Last(w.secrets)) == Some(client)
    ensures Run(rules, EMPTY, events') == w'
    ensures w' == w.(cache := w.cache[r := Entry(|w.versions| - 1, |w.secrets| - 1,
                                                 Cached(Last(w.versions).rec.updatedAt, now + 1, client))])
  {
    hide Run, Build, Hit;
    var v := |w.versions| - 1;
    events', w' := Then(rules, events, w, BeginOpen(0, r, now));
    assert w' == w.(flights := map[0 := Read(r, v)]);
    events', w' := Then(rules, events', w', Load(0));
    assert w' == w.(flights := map[0 := Loaded(r, v, |w.secrets| - 1, client)]);
    events', w' := Then(rules, events', w', Store(0, now + 1));
    assert w'.flights == map[];
  }

  /** A whole deletion by replica 0. */
  lemma DeleteAll(rules: Rules, events: seq<Event>, w: World, cleaned: bool) returns (events': seq<Event>, w': World)
    requires Run(rules, EMPTY, events) == w && w.rec.Some? && w.busy.Idle? && 0 !in w.cache
    ensures Run(rules, EMPTY, events') == w'
    ensures w' == w.(rec := None, secrets := if cleaned then w.secrets + [None] else w.secrets)
  {
    hide Run;
    events', w' := Then(rules, events, w, Remove(0));
    events', w' := Then(rules, events', w', Uncache);
    assert w'.cache == w.cache;
    events', w' := Then(rules, events', w', Clean(cleaned));
  }

  function Plain(config: string, stamp: int, hasCredentials: bool): Record {
    Record("w", "b", "b", S3, config, hasCredentials, false, "u", stamp, stamp)
  }

  /** A backend registered at 5, opened and cached by replica 1, then deleted by replica 0. */
  function OldClient(): Entry {
    Entry(0, 0, Cached(5, 7, ClientOf(Plain("old", 5, false), map[])))
  }

  lemma OpenedOnce(rules: Rules) returns (events: seq<Event>, w: World)
    requires forall c :: rules.builds(c)
    ensures Run(rules, EMPTY, events) == w
    ensures w == World(Some(Plain("old", 5, false)), [None], 1, [Version(Plain("old", 5, false), 1, 0, map[])], Idle,
                       map[1 := OldClient()], map[], [])
  {
    events, w := Then(rules, [], EMPTY, Reserve(Plain("old", 5, false), map[]));
    hide Run;
    events, w := OpenAndCache(rules, events, w, 1, 6, ClientOf(Plain("old", 5, false), map[]));
  }

  lemma DeletedElsewhere(rules: Rules) returns (events: seq<Event>, w: World)
    requires forall c :: rules.builds(c)
    ensures Run(rules, EMPTY, events) == w
    ensures w == World(None, [None, None], 1, [Version(Plain("old", 5, false), 1, 0, map[])], Idle,
                       map[1 := OldClient()], map[], [])
  {
    events, w := OpenedOnce(rules);
    hide Run;
    events, w := DeleteAll(rules, events, w, true);
  }

  /** Replica 1 keeps a client of a deleted backend; another replica registers the ID again while
      the clock reads what it read the first time. Testing on replica 1 then probes the old target
      and marks the new one. */
  lemma ReusedStampMarksAnotherTarget(rules: Rules) returns (events: seq<Event>)
    requires forall c :: rules.builds(c)
    ensures var w := Run(rules, EMPTY, events);
            && w.rec.Some? && w.rec.value.createOnlyVerified && !Verified(w)
            && exists p :: 0 <= p < |w.probes| && w.probes[p].passed && !Serves(w.probes[p].client, w.rec.value)
  {
    var w: World;
    events, w := DeletedElsewhere(rules);
    hide Run;
    events, w := Then(rules, events, w, Reserve(Plain("new", 5, false), map[]));
    events, w := Then(rules, events, w, Test(1, 8, 8, true, true));
    assert w.probes == [ProbeRun(1, ClientOf(Plain("old", 5, false), map[]), true)];
    assert !Serves(w.probes[0].client, w.rec.value);
  }

  lemma RegisteredOnce(rules: Rules, first: Creds) returns (events: seq<Event>, w: World)
    requires first != map[]
    ensures Run(rules, EMPTY, events) == w
    ensures w == World(Some(Plain("c", 5, true)), [None, Some(first)], 1, [Version(Plain("c", 5, true), 1, 1, first)],
                       Idle, map[], map[], [])
  {
    hide Run, ReserveStep, PutCreatedStep, PrepareStep, SaveStep, LoadStep, StoreStep, TestStep, BeginOpenStep;
    NothingRun(rules);
    Registered(first);
    events, w := Then(rules, [], EMPTY, Reserve(Plain("c", 5, true), first));
    events, w := Then(rules, events, w, PutCreated(true));
  }

  lemma NothingRun(rules: Rules)
    ensures Run(rules, EMPTY, []) == EMPTY
  {
  }

  lemma Registered(first: Creds)
    requires first != map[]
    ensures PutCreatedStep(ReserveStep(EMPTY, Plain("c", 5, true), first), true)
         == World(Some(Plain("c", 5, true)), [None, Some(first)], 1, [Version(Plain("c", 5, true), 1, 1, first)],
                  Idle, map[], map[], [])
  {
    var w := ReserveStep(EMPTY, Plain("c", 5, true), first);
    assert w.busy == Creating(first) && w.secrets == [None] && w.versions == [Version(Plain("c", 5, true), 1, 1, first)];
  }

  /** A failed cleanup leaves an old secret; an open between the reservation of the ID and the
      write of the new credentials builds with it, and that client is served as current after the
      creation has succeeded. */
  lemma LeftoverSecretIsServed(rules: Rules, first: Creds, second: Creds) returns (events: seq<Event>)
    requires forall c :: rules.builds(c)
    requires first != map[] && second != map[]
    ensures !Apart(rules, events)
    ensures var w := Run(rules, EMPTY, events);
            && w.busy.Idle? && w.rec.Some? && w.secrets != [] && Last(w.secrets) == Some(second)
            && Hits(w, 1, 12) && w.cache[1].cached.client.creds == first
  {
    var w: World;
    events, w := RegisteredOnce(rules, first);
    hide Run, PrepareStep, SaveStep, TestStep, Apart;
    events, w := DeleteAll(rules, events, w, false);
    events, w := Then(rules, events, w, Reserve(Plain("c", 9, true), second));
    events, w := OpenAndCache(rules, events, w, 1, 10, ClientOf(Plain("c", 9, true), first));
    events, w := Then(rules, events, w, PutCreated(true));
    GivenUnlessApart(rules, events);
  }

  lemma NameIsKept()
    ensures DisplayName("x", "b") == Some("x")
  {
  }

  /** An edit that takes the credentials away is refused by the record store after the secret is gone.
      A rename then succeeds, and the record still says it has credentials while none are stored: no
      open builds a client. */
  lemma RenameDoesNotReconcile(rules: Rules, first: Creds) returns (events: seq<Event>)
    requires first != map[] && rules.accepts(S3, map[]) && forall c :: rules.builds(c)
    ensures var w := Run(rules, EMPTY, events);
            && w.busy.Idle? && w.rec.Some? && w.rec.value.hasCredentials && w.rec.value.displayName == "x"
            && w.secrets != [] && Last(w.secrets).None? && Build(rules, w.rec.value, None).None?
    ensures |events| >= 3 && events[|events| - 3..] == [Prepare(0, UpdateInput(Some("x"), None, None), 7), Save(true), Invalidate]
  {
    var w: World;
    events, w := RegisteredOnce(rules, first);
    hide Run, TestStep, DisplayName;
    events, w := RefusedEdit(rules, events, w, map[]);
    NameIsKept();
    events, w := Then(rules, events, w, Prepare(0, UpdateInput(Some("x"), None, None), 7));
    assert w.busy == Saving(0, Plain("c", 5, true).(displayName := "x", updatedAt := 7), first);
    events, w := Then(rules, events, w, Save(true));
    events, w := Then(rules, events, w, Invalidate);
  }

  /** An edit of the credentials whose record write fails. */
  lemma RefusedEdit(rules: Rules, events: seq<Event>, w: World, creds: Creds) returns (events': seq<Event>, w': World)
    requires Run(rules, EMPTY, events) == w && w.rec == Some(Plain("c", 5, true)) && w.busy.Idle?
    requires w.secrets != [] && w.versions != [] && rules.accepts(S3, creds) && forall c :: rules.builds(c)
    ensures Run(rules, EMPTY, events') == w' && events' != [] && Last(events') == Save(false)
    ensures w' == w.(secrets := w.secrets + [if creds == map[] then None else Some(creds)])
  {
    hide Run, TestStep, Overwritten;
    events', w' := Then(rules, events, w, Prepare(0, UpdateInput(None, None, Some(creds)), 6));
    events', w' := Then(rules, events', w', Save(false));
  }

  /** The edit was refused, and its credentials are what the old record is opened with. */
  lemma RefusedCredentialsAreUsed(rules: Rules, first: Creds, refused: Creds) returns (events: seq<Event>)
    requires first != map[] && refused != map[] && first != refused
    requires rules.accepts(S3, refused) && forall c :: rules.builds(c)
    ensures events != [] && Last(events) == Save(false)
    ensures var w := Run(rules, EMPTY, events);
            && w.busy.Idle? && w.rec == Some(Plain("c", 5, true)) && w.versions != [] && Last(w.versions).given == first
            && w.secrets != [] && Build(rules, w.rec.value, Last(w.secrets)) == Some(ClientOf(w.rec.value, refused))
  {
    var w: World;
    events, w := RegisteredOnce(rules, first);
    hide Run;
    events, w := RefusedEdit(rules, events, w, refused);
  }
}
