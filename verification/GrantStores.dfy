/** The in-process grant store, keyed by grant ID, and the service over it: together they act
    like a map keyed by scope. */
module GrantStores {
  import opened Outcomes
  import opened Text
  import opened Paths
  import opened Grants

  type GrantMap = map<string, Grant>

  type ScopeMap = map<Scope, Grant>

  /** The ID-keyed store `m` holds exactly the grants of the scope-keyed map `a`. */
  ghost predicate Holds(m: GrantMap, a: ScopeMap) {
    && (forall id :: id in m ==> m[id].id == id && GrantOk(m[id]) && ScopeOf(m[id]) in a && a[ScopeOf(m[id])] == m[id])
    && (forall s :: s in a ==> ScopeOf(a[s]) == s && a[s].id in m && m[a[s].id] == a[s])
  }

  // ---- operations on the scope-keyed map ----

  datatype Op = Save(grant: Grant) | Remove(workspace: string, id: string) | Revoke(workspace: string, principal: string)

  predicate Names(g: Grant, workspace: string, id: string) {
    g.workspace == workspace && g.id == id
  }

  predicate HeldBy(g: Grant, workspace: string, principal: string) {
    g.workspace == workspace && g.principal == principal
  }

  function Perform(a: ScopeMap, op: Op): ScopeMap {
    match op
    case Save(g) => a[ScopeOf(g) := g]
    case Remove(ws, id) => map s | s in a && !Names(a[s], ws, id) :: a[s]
    case Revoke(ws, p) => map s | s in a && !HeldBy(a[s], ws, p) :: a[s]
  }

  function PerformAll(ops: seq<Op>): ScopeMap {
    if ops == [] then map[] else Perform(PerformAll(ops[..|ops| - 1]), ops[|ops| - 1])
  }

  /** The last save of a scope, unless it was removed or revoked since. */
  function LatestLive(ops: seq<Op>, s: Scope): Option<Grant> {
    if ops == [] then None
    else
      var before := LatestLive(ops[..|ops| - 1], s);
      match ops[|ops| - 1]
      case Save(g) => if ScopeOf(g) == s then Some(g) else before
      case Remove(ws, id) => if before.Some? && Names(before.value, ws, id) then None else before
      case Revoke(ws, p) => if s.workspace == ws && s.principal == p then None else before
  }

  lemma {:induction false} MapHoldsLatest(ops: seq<Op>, s: Scope)
    ensures s in PerformAll(ops) <==> LatestLive(ops, s).Some?
    ensures s in PerformAll(ops) ==> Some(PerformAll(ops)[s]) == LatestLive(ops, s) && ScopeOf(PerformAll(ops)[s]) == s
  {
    if ops != [] {
      MapHoldsLatest(ops[..|ops| - 1], s);
    }
  }

  // ---- sorted listings ----

  predicate SortedByID(gs: seq<Grant>) {
    forall i, j :: 0 <= i < j < |gs| ==> Compare(gs[i].id, gs[j].id) < 0
  }

  function Insert(g: Grant, gs: seq<Grant>): (r: seq<Grant>)
    ensures forall x :: x in r <==> x == g || x in gs
  {
    if gs == [] || Compare(g.id, gs[0].id) < 0 then [g] + gs
    else
      var r := [gs[0]] + Insert(g, gs[1..]);
      assert gs == [gs[0]] + gs[1..];
      r
  }

  function SortByID(gs: seq<Grant>): (r: seq<Grant>)
    ensures forall x :: x in r <==> x in gs
  {
    if gs == [] then []
    else
      assert gs == [gs[0]] + gs[1..];
      Insert(gs[0], SortByID(gs[1..]))
  }

  predicate DistinctIDs(gs: seq<Grant>) {
    forall i, j :: 0 <= i < j < |gs| ==> gs[i].id != gs[j].id
  }

  lemma {:induction false} InsertSorted(g: Grant, gs: seq<Grant>)
    requires SortedByID(gs) && forall x :: x in gs ==> x.id != g.id
    ensures SortedByID(Insert(g, gs))
  {
    if gs == [] {
    } else if Compare(g.id, gs[0].id) < 0 {
      forall j | 0 <= j < |gs|
        ensures Compare(g.id, gs[j].id) < 0
      {
        if j > 0 {
          CompareTransitive(g.id, gs[0].id, gs[j].id);
        }
      }
      hide Compare;
    } else {
      InsertSorted(g, gs[1..]);
      var rest := Insert(g, gs[1..]);
      CompareAntisymmetric(g.id, gs[0].id);
      CompareAntisymmetric(gs[0].id, g.id);
      assert gs[0] in gs;
      hide Compare;
      forall j | 0 <= j < |rest|
        ensures Compare(gs[0].id, rest[j].id) < 0
      {
        assert rest[j] in rest;
        if rest[j] != g {
          var k :| 0 <= k < |gs[1..]| && gs[1..][k] == rest[j];
          assert gs[k + 1] == rest[j];
        }
      }
    }
  }

  lemma {:induction false} SortSorted(gs: seq<Grant>)
    requires DistinctIDs(gs)
    ensures SortedByID(SortByID(gs))
  {
    if gs != [] {
      SortSorted(gs[1..]);
      forall x | x in SortByID(gs[1..])
        ensures x.id != gs[0].id
      {
        var k :| 0 <= k < |gs[1..]| && gs[1..][k] == x;
        assert gs[k + 1] == x;
      }
      InsertSorted(gs[0], SortByID(gs[1..]));
    }
  }

  predicate Wanted(g: Grant, workspace: string, principal: string) {
    g.workspace == workspace && (principal == "" || g.principal == principal)
  }

  function WantedIDs(m: GrantMap, workspace: string, principal: string): set<string> {
    set id | id in m && Wanted(m[id], workspace, principal)
  }

  function HeldIDs(m: GrantMap, workspace: string, principal: string): set<string> {
    set id | id in m && HeldBy(m[id], workspace, principal)
  }

  /** `out` lists the grants of `m` named in `ids`, each once. */
  ghost predicate Collected(out: seq<Grant>, m: GrantMap, ids: set<string>) {
    && DistinctIDs(out)
    && forall g: Grant :: g in out <==> g.id in ids && g.id in m && m[g.id] == g
  }

  lemma CollectOne(out: seq<Grant>, m: GrantMap, ids: set<string>, g: Grant)
    requires Collected(out, m, ids) && g.id in m && m[g.id] == g && g.id !in ids
    ensures Collected(out + [g], m, ids + {g.id})
  {
    forall i | 0 <= i < |out|
      ensures out[i].id != g.id
    {
      assert out[i] in out;
    }
    forall x: Grant
      ensures x in out + [g] <==> x.id in ids + {g.id} && x.id in m && m[x.id] == x
    {
      assert x in out + [g] <==> x in out || x == g;
    }
  }

  lemma TakeOut(all: set<string>, rest: set<string>, id: string)
    requires id in rest
    ensures all - (rest - {id}) == if id in all then all - rest + {id} else all - rest
  {
  }

  // ---- the store ----

  class MemoryStore {
    var grants: GrantMap
    ghost var scopes: ScopeMap

    ghost predicate Valid()
      reads this
    {
      Holds(grants, scopes)
    }

    constructor ()
      ensures Valid() && scopes == map[]
    {
      grants, scopes := map[], map[];
    }

    /** Saving over a scope replaces its grant outright, ID included. */
    method Upsert(g: Grant) returns (stored: Grant)
      requires Valid() && GrantOk(g) && g.id !in grants
      modifies this
      ensures Valid() && stored == g
      ensures scopes == Perform(old(scopes), Save(g))
    {
      var target := ScopeKey(ScopeOf(g));
      var rest := grants.Keys;
      ghost var replaced := false;
      hide ScopeKey, GrantOk;
      while rest != {}
        invariant rest <= grants.Keys && !replaced
        invariant grants == old(grants) && scopes == old(scopes)
        invariant forall id :: id in grants && id !in rest ==> ScopeOf(grants[id]) != ScopeOf(g)
        decreases rest
      {
        var id :| id in rest;
        assert GrantOk(grants[id]);
        ScopeKeyInjective(grants[id], g);
        if ScopeKey(ScopeOf(grants[id])) == target {
          ReplaceHolds(grants, scopes, id, g);
          grants := grants - {id};
          replaced := true;
          break;
        }
        rest := rest - {id};
      }
      if !replaced {
        AddHolds(grants, scopes, g);
      }
      hide Holds;
      grants := grants[g.id := g];
      scopes := scopes[ScopeOf(g) := g];
      return g;
    }

    method Get(workspace: string, id: string) returns (res: Result<Grant, GrantError>)
      requires Valid()
      ensures res.Ok? ==> res.value in scopes.Values && res.value.workspace == workspace && res.value.id == id
      ensures res.Err? ==> forall s :: s in scopes ==> !(scopes[s].workspace == workspace && scopes[s].id == id)
    {
      if id !in grants || grants[id].workspace != workspace {
        return Err(NoSuchGrant);
      }
      assert scopes[ScopeOf(grants[id])] == grants[id];
      return Ok(grants[id]);
    }

    method List(workspace: string, principal: string) returns (out: seq<Grant>)
      requires Valid()
      ensures SortedByID(out)
      ensures forall g :: g in out <==>
                g in scopes.Values && g.workspace == workspace && (principal == "" || g.principal == principal)
    {
      assert forall id :: id in grants ==> grants[id].id == id;
      ValuesAreGrants(grants, scopes);
      ghost var ids := WantedIDs(grants, workspace, principal);
      out := [];
      var rest := grants.Keys;
      assert ids - rest == {};
      hide Holds, Collected;
      NoneCollected(grants);
      while rest != {}
        invariant rest <= grants.Keys
        invariant Collected(out, grants, ids - rest)
      {
        var id :| id in rest;
        TakeOut(ids, rest, id);
        var g := grants[id];
        ghost var done := ids - rest;
        rest := rest - {id};
        if g.workspace != workspace {
          continue;
        }
        if principal != "" && g.principal != principal {
          continue;
        }
        CollectOne(out, grants, done, g);
        out := out + [g];
      }
      assert ids - {} == ids;
      SortCollected(out, grants, ids);
      out := SortByID(out);
    }

    method Delete(workspace: string, id: string) returns (err: Option<GrantError>)
      requires Valid()
      modifies this
      ensures Valid()
      ensures scopes == Perform(old(scopes), Remove(workspace, id))
      ensures err == Some(NoSuchGrant) || err == None
      // In another workspace the ID names nothing.
      ensures err.None? <==> exists s :: s in old(scopes) && old(scopes)[s].workspace == workspace && old(scopes)[s].id == id
      ensures forall s :: s in scopes <==>
                s in old(scopes) && !(old(scopes)[s].workspace == workspace && old(scopes)[s].id == id)
    {
      if id !in grants || grants[id].workspace != workspace {
        assert Perform(scopes, Remove(workspace, id)) == scopes;
        return Some(NoSuchGrant);
      }
      assert scopes[ScopeOf(grants[id])] == grants[id] && Names(grants[id], workspace, id);
      RemoveHolds(grants, scopes, workspace, id);
      scopes := Perform(scopes, Remove(workspace, id));
      grants := grants - {id};
      return None;
    }

    method DeleteByPrincipal(workspace: string, principal: string) returns (out: seq<Grant>)
      requires Valid()
      modifies this
      ensures Valid()
      ensures scopes == Perform(old(scopes), Revoke(workspace, principal))
      ensures SortedByID(out)
      ensures forall g :: g in out <==> g in old(scopes).Values && HeldBy(g, workspace, principal)
    {
      assert forall id :: id in grants ==> grants[id].id == id;
      ValuesAreGrants(grants, scopes);
      RevokeHolds(grants, scopes, workspace, principal);
      ghost var before, ids := grants, HeldIDs(grants, workspace, principal);
      out := [];
      var rest := grants.Keys;
      assert ids - rest == {} && grants - {} == grants;
      hide Holds, Collected, HeldIDs, Perform;
      NoneCollected(grants);
      while rest != {}
        invariant rest <= before.Keys && scopes == old(scopes)
        invariant Collected(out, before, ids - rest)
        invariant grants == before - (ids - rest)
      {
        var id :| id in rest;
        TakeOut(ids, rest, id);
        HeldID(before, workspace, principal, id);
        ghost var done := ids - rest;
        StillHere(before, done, id);
        var g := grants[id];
        rest := rest - {id};
        if g.workspace == workspace && g.principal == principal {
          CollectOne(out, before, done, g);
          out := out + [g];
          grants := grants - {id};
        }
      }
      assert ids - {} == ids;
      SortCollected(out, before, ids);
      out := SortByID(out);
      scopes := Perform(scopes, Revoke(workspace, principal));
    }
  }

  lemma HeldID(m: GrantMap, workspace: string, principal: string, id: string)
    ensures id in HeldIDs(m, workspace, principal) <==> id in m && HeldBy(m[id], workspace, principal)
  {
  }

  lemma StillHere(m: GrantMap, done: set<string>, id: string)
    requires id in m && id !in done
    ensures id in m - done && (m - done)[id] == m[id]
    ensures m - done - {id} == m - (done + {id})
  {
  }

  lemma NoneCollected(m: GrantMap)
    ensures Collected([], m, {})
  {
  }

  lemma SortCollected(out: seq<Grant>, m: GrantMap, ids: set<string>)
    requires Collected(out, m, ids)
    ensures SortedByID(SortByID(out))
    ensures forall g: Grant :: g in SortByID(out) <==> g.id in ids && g.id in m && m[g.id] == g
  {
    SortSorted(out);
  }

  lemma ValuesAreGrants(m: GrantMap, a: ScopeMap)
    requires Holds(m, a)
    ensures forall g :: g in a.Values <==> g.id in m && m[g.id] == g
  {
    hide GrantOk;
    forall g: Grant | g.id in m && m[g.id] == g
      ensures g in a.Values
    {
      assert a[ScopeOf(g)] == g;
    }
  }

  lemma AddHolds(m: GrantMap, a: ScopeMap, g: Grant)
    requires Holds(m, a) && GrantOk(g) && g.id !in m
    requires forall id :: id in m ==> ScopeOf(m[id]) != ScopeOf(g)
    ensures Holds(m[g.id := g], a[ScopeOf(g) := g])
  {
    hide GrantOk;
  }

  lemma ReplaceHolds(m: GrantMap, a: ScopeMap, id: string, g: Grant)
    requires Holds(m, a) && GrantOk(g) && g.id !in m
    requires id in m && ScopeOf(m[id]) == ScopeOf(g)
    ensures Holds((m - {id})[g.id := g], a[ScopeOf(g) := g])
  {
    hide GrantOk;
  }

  lemma RemoveHolds(m: GrantMap, a: ScopeMap, workspace: string, id: string)
    requires Holds(m, a) && id in m && m[id].workspace == workspace
    ensures Holds(m - {id}, Perform(a, Remove(workspace, id)))
  {
    hide GrantOk;
  }

  lemma RevokeHolds(m: GrantMap, a: ScopeMap, workspace: string, principal: string)
    requires Holds(m, a)
    ensures Holds(m - HeldIDs(m, workspace, principal), Perform(a, Revoke(workspace, principal)))
  {
    hide GrantOk;
  }

  /** At most one grant per scope. */
  lemma OnePerScope(m: GrantMap, a: ScopeMap, id: string, id': string)
    requires Holds(m, a) && id in m && id' in m && ScopeOf(m[id]) == ScopeOf(m[id'])
    ensures id == id'
  {
    assert a[ScopeOf(m[id])] == m[id];
  }

  // ---- the service ----

  datatype CreateInput = CreateInput(principal: string, backendID: string, prefix: string, extensions: seq<string>, maxBytes: int)

  /** `id` is a fresh random identifier, `now` the clock. */
  method Create(store: MemoryStore, workspace: string, grantedBy: string, in_: CreateInput, id: string, now: int)
    returns (res: Result<Grant, GrantError>)
    requires store.Valid() && id !in store.grants
    modifies store
    ensures store.Valid()
    ensures res.Err? ==> store.scopes == old(store.scopes)
    ensures res.Ok? ==>
              var g := res.value;
              && GrantOk(g) && g.id == id && g.workspace == workspace && g.principal == in_.principal
              && g.backendID == in_.backendID && CleanPrefix(in_.prefix) == Ok(g.prefix) && g.maxBytes == in_.maxBytes
              && g.grantedBy == grantedBy && g.createdAt == now
              && (forall i, j :: 0 <= i < j < |g.extensions| ==> g.extensions[i] != g.extensions[j])
              && (forall e :: e in g.extensions <==> exists i :: 0 <= i < |in_.extensions| && Normalized(in_.extensions[i]) == e)
              && store.scopes == Perform(old(store.scopes), Save(g))
    ensures res.Ok? <==>
              && ValidPrincipal(in_.principal, workspace) && !Blank(in_.backendID) && CleanPrefix(in_.prefix).Ok?
              && in_.extensions != []
              && (forall i :: 0 <= i < |in_.extensions| ==> ExtensionText(Normalized(in_.extensions[i])))
              && in_.maxBytes > 0
  {
    hide CleanPrefix, ExtensionText, Normalized, Blank, ValidPrincipal;
    if !ValidPrincipal(in_.principal, workspace) {
      return Err(Invalid("principal"));
    }
    if Blank(in_.backendID) {
      return Err(Invalid("backendId"));
    }
    var prefix := CleanPrefix(in_.prefix);
    if prefix.Err? {
      return Err(Invalid("prefix"));
    }
    var exts := ValidateExtensions(in_.extensions);
    if exts.Err? {
      return Err(exts.error);
    }
    if in_.maxBytes <= 0 {
      return Err(Invalid("maxBytes"));
    }
    CleanPrefixIdempotent(in_.prefix);
    assert forall i :: 0 <= i < |exts.value| ==> exts.value[i] in exts.value;
    var g := Grant(id, workspace, in_.principal, in_.backendID, prefix.value, exts.value, in_.maxBytes, grantedBy, now);
    var stored := store.Upsert(g);
    return Ok(stored);
  }

  /** The admission lookup: for a caller with a subject, precisely the grant of the path's own
      directory, if there is one. (An empty subject would match any principal's.) */
  method MatchForUpload(store: MemoryStore, workspace: string, principal: string, backendID: string, path: string)
    returns (match_: Option<Grant>)
    requires store.Valid()
    ensures principal != "" ==>
              var s := Scope(workspace, principal, backendID, DirOf(path));
              match_ == if s in store.scopes then Some(store.scopes[s]) else None
    ensures principal == "" ==>
              (match_.Some? <==>
                 exists s :: s in store.scopes && s.workspace == workspace && s.backendID == backendID && s.prefix == DirOf(path))
  {
    hide GrantOk, DirOf, Compare;
    var grants := store.List(workspace, principal);
    var dir := DirOf(path);
    for i := 0 to |grants|
      invariant forall j :: 0 <= j < i ==> !(grants[j].backendID == backendID && grants[j].prefix == dir)
    {
      var g := grants[i];
      assert g in grants;
      if g.backendID == backendID && g.prefix == dir {
        ghost var s :| s in store.scopes && store.scopes[s] == g;
        assert ScopeOf(g) == s;
        return Some(g);
      }
    }
    forall s | s in store.scopes && s.workspace == workspace && (principal == "" || s.principal == principal)
      ensures !(s.backendID == backendID && s.prefix == dir)
    {
      assert store.scopes[s] in store.scopes.Values;
      assert ScopeOf(store.scopes[s]) == s;
      assert store.scopes[s] in grants;
    }
    return None;
  }

  /** After any operations the lookup answers the latest live grant of the path's directory, and
      that directory is always a prefix a grant can be created for. */
  lemma LookupIsLatestLive(ops: seq<Op>, workspace: string, principal: string, backendID: string, path: string)
    requires CleanPath(path).Ok?
    ensures
      var s := Scope(workspace, principal, backendID, DirOf(path));
      var scopes := PerformAll(ops);
      (if s in scopes then Some(scopes[s]) else None) == LatestLive(ops, s)
    ensures CleanPrefix(DirOf(path)) == Ok(DirOf(path))
  {
    MapHoldsLatest(ops, Scope(workspace, principal, backendID, DirOf(path)));
    DirOfIsClean(path);
  }
}
