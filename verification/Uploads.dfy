/** Object writes over HTTP: who may write what, from the verified token to the stored object. */
module Uploads {
  import opened Outcomes
  import opened Text
  import opened Paths
  import opened Grants
  import opened GrantStores
  import opened Auth
  import Registry

  datatype Address = Address(workspace: string, backendID: string)

  type Objects = map<Address, map<string, Bytes>>

  function At(objects: Objects, a: Address): map<string, Bytes> {
    if a in objects then objects[a] else map[]
  }

  /** A write request with an already verified token. */
  datatype Request = Request(
    claims: Claims, workspace: string, role: string, backendID: string, path: string, ifNoneMatch: string, body: Bytes)

  datatype Status =
    | Stored | BadPath | Refused | WrongType | Unsupported | NoBackend | TooLarge | Exists | Unavailable | NoIdentity

  /** A grant-admitted write: the caller's subject holds a live grant over exactly the path's
      directory, with an allowed extension and room for the body. */
  ghost predicate AdmittedByGrant(scopes: ScopeMap, workspace: string, subject: string, backendID: string,
                                  path: string, body: Bytes)
  {
    var s := Scope(workspace, subject, backendID, DirOf(path));
    && s in scopes
    && HasExtension(path, scopes[s].extensions)
    && |body| <= scopes[s].maxBytes
  }

  /** Who may attempt the write at all: an editor or owner, or a create-only write whose scope
      holds a live grant that allows the extension. */
  ghost predicate Permitted(scopes: ScopeMap, id: Identity, backendID: string, path: string, ifNoneMatch: string) {
    || CanWrite(id)
    || (var s := Scope(id.workspace, id.subject, backendID, DirOf(path));
        ifNoneMatch == "*" && s in scopes && HasExtension(path, scopes[s].extensions))
  }

  /** Nothing stands against this write: the path, the caller, the backend, the caps, the object. */
  ghost predicate Storable(objects: Objects, backends: map<Address, Registry.Record>, scopes: ScopeMap, cap: int,
                           r: Request, id: Identity)
  {
    var a, s := Address(r.workspace, r.backendID), Scope(id.workspace, id.subject, r.backendID, DirOf(r.path));
    && CleanPath(r.path).Ok? && Permitted(scopes, id, r.backendID, r.path, r.ifNoneMatch)
    && a in backends && (cap > 0 ==> |r.body| <= cap) && (!CanWrite(id) ==> |r.body| <= scopes[s].maxBytes)
    && (r.ifNoneMatch == "*" ==>
          r.path !in At(objects, a) && (backends[a].kind.S3? ==> backends[a].createOnlyVerified))
  }

  class Server {
    const grants: MemoryStore
    /** 0 or less means no limit. */
    const maxUploadBytes: int
    var backends: map<Address, Registry.Record>
    var objects: Objects
    /** Backend calls that failed, without effect. */
    ghost var faults: nat

    constructor (grants: MemoryStore, maxUploadBytes: int)
      ensures this.grants == grants && this.maxUploadBytes == maxUploadBytes
      ensures backends == map[] && objects == map[] && faults == 0
    {
      this.grants, this.maxUploadBytes := grants, maxUploadBytes;
      backends, objects, faults := map[], map[], 0;
    }

    /** The backend's own write: all of the body or nothing, create-only enforced by the store. */
    method Write(a: Address, path: string, body: Bytes, limit: int, createOnly: bool) returns (status: Status)
      modifies this`objects, this`faults
      ensures status in {Stored, TooLarge, Exists, Unavailable}
      ensures faults == old(faults) + if status == Unavailable then 1 else 0
      ensures status == Stored ==>
                && (limit > 0 ==> |body| <= limit)
                && (createOnly ==> path !in At(old(objects), a))
                && objects == old(objects)[a := At(old(objects), a)[path := body]]
      ensures status != Stored ==> objects == old(objects)
      ensures status == TooLarge ==> limit > 0 && |body| > limit
      ensures status == Exists ==> !(limit > 0 && |body| > limit) && createOnly && path in At(old(objects), a)
    {
      var fails: bool := *;
      if fails {
        faults := faults + 1;
        return Unavailable;
      }
      if limit > 0 && |body| > limit {
        return TooLarge;
      }
      if createOnly && path in At(objects, a) {
        return Exists;
      }
      objects := objects[a := At(objects, a)[path := body]];
      return Stored;
    }

    /** Who may attempt the write, and by which grant: the only place where grants are read. */
    method Admit(id: Identity, backendID: string, path: string, ifNoneMatch: string) returns (res: Result<Option<Grant>, Status>)
      requires grants.Valid() && id.subject != ""
      ensures res.Ok? <==> Permitted(grants.scopes, id, backendID, path, ifNoneMatch)
      ensures res.Ok? && CanWrite(id) ==> res.value.None?
      ensures var s := Scope(id.workspace, id.subject, backendID, DirOf(path));
              && (res.Ok? && !CanWrite(id) ==>
                    s in grants.scopes && res.value == Some(grants.scopes[s]) && grants.scopes[s].maxBytes > 0)
              && (res.Err? ==> res == Err(if ifNoneMatch == "*" && s in grants.scopes then WrongType else Refused))
    {
      hide DirOf, HasExtension, GrantOk, Holds;
      if CanWrite(id) {
        return Ok(None);
      }
      if ifNoneMatch != "*" {
        return Err(Refused);
      }
      var grant := MatchForUpload(grants, id.workspace, id.subject, backendID, path);
      if grant.None? {
        return Err(Refused);
      }
      if !HasExtension(path, grant.value.extensions) {
        return Err(WrongType);
      }
      StoresHoldOkGrants(grants.grants, grants.scopes);
      assert GrantOk(grant.value);
      CapIsPositive(grant.value);
      return Ok(grant);
    }

    /** The write of an admitted request, with the grant that admitted it, if one had to: whatever
        has become of that grant since. */
    method Land(a: Address, path: string, createOnly: bool, grant: Option<Grant>, body: Bytes) returns (status: Status)
      requires grant.Some? ==> grant.value.maxBytes > 0
      modifies this`objects, this`faults
      ensures status in {Unsupported, NoBackend, Stored, TooLarge, Exists, Unavailable}
      ensures status == NoBackend <==> a !in backends
      ensures status == Unsupported <==>
                a in backends && createOnly && backends[a].kind.S3? && !backends[a].createOnlyVerified
      ensures status == Exists ==> createOnly && path in At(old(objects), a)
      ensures status == TooLarge ==>
                || (maxUploadBytes > 0 && |body| > maxUploadBytes)
                || (grant.Some? && |body| > grant.value.maxBytes)
      ensures faults == old(faults) + if status == Unavailable then 1 else 0
      ensures status != Stored ==> objects == old(objects)
      ensures status == Stored ==>
                && a in backends && objects == old(objects)[a := At(old(objects), a)[path := body]]
                && (maxUploadBytes > 0 ==> |body| <= maxUploadBytes)
                && (grant.Some? ==> |body| <= grant.value.maxBytes)
                && (createOnly ==>
                      path !in At(old(objects), a) && (backends[a].kind.S3? ==> backends[a].createOnlyVerified))
      // With the backend answering it is stored unless one of these reasons stands.
      ensures faults == old(faults) && status !in {NoBackend, Unsupported} ==>
                var tooLarge := (maxUploadBytes > 0 && |body| > maxUploadBytes) || (grant.Some? && |body| > grant.value.maxBytes);
                && (status == TooLarge <==> tooLarge)
                && (status == Exists <==> !tooLarge && createOnly && path in At(old(objects), a))
                && (status == Stored <==> !tooLarge && !(createOnly && path in At(old(objects), a)))
    {
      hide At;
      if createOnly {
        if a !in backends {
          return NoBackend;
        }
        if !Registry.SupportsCreateOnly(backends[a]) {
          return Unsupported;
        }
      }
      var opens: bool := *;
      if a !in backends {
        return NoBackend;
      } else if !opens {
        faults := faults + 1;
        return Unavailable;
      }
      var limit := maxUploadBytes;
      if grant.Some? && (limit <= 0 || grant.value.maxBytes < limit) {
        limit := grant.value.maxBytes;
      }
      status := Write(a, path, body, limit, createOnly);
    }

    method HandleWrite(id: Identity, backendID: string, rawPath: string, ifNoneMatch: string, body: Bytes)
      returns (status: Status)
      requires grants.Valid() && id.subject != ""
      modifies this`objects, this`faults
      ensures status == BadPath <==> CleanPath(rawPath).Err?
      ensures status in {Refused, WrongType} <==>
                CleanPath(rawPath).Ok? && !Permitted(grants.scopes, id, backendID, rawPath, ifNoneMatch)
      ensures status == WrongType ==>
                ifNoneMatch == "*" && Scope(id.workspace, id.subject, backendID, DirOf(rawPath)) in grants.scopes
      ensures status == Refused ==>
                ifNoneMatch != "*" || Scope(id.workspace, id.subject, backendID, DirOf(rawPath)) !in grants.scopes
      ensures CleanPath(rawPath).Ok? && Permitted(grants.scopes, id, backendID, rawPath, ifNoneMatch) ==>
                var a := Address(id.workspace, backendID);
                && (status == NoBackend <==> a !in backends)
                && (status == Unsupported <==>
                      a in backends && ifNoneMatch == "*" && backends[a].kind.S3? && !backends[a].createOnlyVerified)
      ensures status == Exists ==> ifNoneMatch == "*" && rawPath in At(old(objects), Address(id.workspace, backendID))
      ensures status == TooLarge ==>
                || (maxUploadBytes > 0 && |body| > maxUploadBytes)
                || (!CanWrite(id) && Permitted(grants.scopes, id, backendID, rawPath, ifNoneMatch)
                    && |body| > grants.scopes[Scope(id.workspace, id.subject, backendID, DirOf(rawPath))].maxBytes)
      ensures faults == old(faults) + if status == Unavailable then 1 else 0
      ensures status != NoIdentity
      // With the backend answering, an acceptable request is stored unless it is too large or, being
      // create-only, meets an object.
      ensures faults == old(faults) && status !in {BadPath, Refused, WrongType, NoBackend, Unsupported} ==>
                var a := Address(id.workspace, backendID);
                var tooLarge := (maxUploadBytes > 0 && |body| > maxUploadBytes)
                                || (!CanWrite(id) && |body| > grants.scopes[Scope(id.workspace, id.subject, backendID, DirOf(rawPath))].maxBytes);
                && (status == TooLarge <==> tooLarge)
                && (status == Exists <==> !tooLarge && ifNoneMatch == "*" && rawPath in At(old(objects), a))
                && (status == Stored <==> !tooLarge && !(ifNoneMatch == "*" && rawPath in At(old(objects), a)))
      ensures status != Stored ==> objects == old(objects)
      ensures status == Stored ==>
                var a := Address(id.workspace, backendID);
                && CleanPath(rawPath) == Ok(rawPath) && a in backends
                && objects == old(objects)[a := At(old(objects), a)[rawPath := body]]
                && (maxUploadBytes > 0 ==> |body| <= maxUploadBytes)
                && (ifNoneMatch == "*" ==>
                      rawPath !in At(old(objects), a) && (backends[a].kind.S3? ==> backends[a].createOnlyVerified))
                && (!CanWrite(id) ==>
                      && ifNoneMatch == "*"
                      && AdmittedByGrant(grants.scopes, id.workspace, id.subject, backendID, rawPath, body))
    {
      hide At, CleanPath, DirOf, HasExtension, Holds;
      var clean := CleanPath(rawPath);
      if clean.Err? {
        return BadPath;
      }
      CleanPathKeepsText(rawPath);
      var grant := Admit(id, backendID, clean.value, ifNoneMatch);
      if grant.Err? {
        return grant.error;
      }
      status := Land(Address(id.workspace, backendID), clean.value, ifNoneMatch == "*", grant.value, body);
    }

    /** The whole request: identify the caller, then write. */
    method Put(r: Request) returns (status: Status)
      requires grants.Valid() && r.claims.subject != ""
      modifies this`objects, this`faults
      ensures status != Stored ==> objects == old(objects)
      ensures status == Stored ==> Wrote(old(objects), objects, grants.scopes, maxUploadBytes, r)
      // Who is let in, and, with the backend answering, exactly which requests are stored.
      ensures status == NoIdentity <==> !exists id: Identity :: IdentifiedBy(r.claims, r.workspace, r.role, id)
      ensures forall id: Identity :: faults == old(faults) && IdentifiedBy(r.claims, r.workspace, r.role, id) ==>
                (status == Stored <==> Storable(old(objects), backends, grants.scopes, maxUploadBytes, r, id))
    {
      hide At, AdmittedByGrant, IdentifiedBy, CleanPath, Holds, Permitted;
      var id := Authenticate(r.claims, r.workspace, r.role);
      if id.Err? {
        return NoIdentity;
      }
      IdentityIsTheRequests(r, id.value);
      status := HandleWrite(id.value, r.backendID, r.path, r.ifNoneMatch, r.body);
    }
  }

  lemma IdentityIsTheRequests(r: Request, id: Identity)
    requires IdentifiedBy(r.claims, r.workspace, r.role, id)
    ensures id.subject == r.claims.subject && id.workspace == r.workspace
    ensures CanWrite(id) ==> ByEditor(r)
  {
  }

  // ---- runs of requests and grant operations ----

  /** The caller is let through as an editor or owner: by the token, and not narrowed by the
      forwarded role. */
  ghost predicate ByEditor(r: Request) {
    exists id: Identity :: IdentifiedBy(r.claims, r.workspace, r.role, id) && CanWrite(id)
  }

  ghost predicate EditorBy(r: Request, granted: string) {
    && IsHighestRole(r.claims.groups, r.workspace, granted)
    && Rank(granted) >= Rank(EDITOR) && Rank(r.role) <= Rank(granted)
    && (r.role == "" || Rank(r.role) >= Rank(EDITOR))
  }

  /** Which requests those are: the token's groups give at least editor in that workspace, and the
      forwarded role, when there is one, is known, at least editor, and no stronger than the groups. */
  lemma ByEditorMeaning(r: Request)
    ensures ByEditor(r) <==>
              && r.workspace != "" && GrantsServiceWorkspace(r.claims).None?
              && exists granted: string :: EditorBy(r, granted)
  {
    hide IsHighestRole, GrantsServiceWorkspace;
    if ByEditor(r) {
      var id: Identity :| IdentifiedBy(r.claims, r.workspace, r.role, id) && CanWrite(id);
      var granted: string :| IsHighestRole(r.claims.groups, r.workspace, granted) && granted != NO_ROLE
        && Rank(r.role) <= Rank(granted) && id.role == EffectiveRole(r.role, granted);
      assert EditorBy(r, granted);
    }
    if granted: string :| EditorBy(r, granted) {
      if r.workspace != "" && GrantsServiceWorkspace(r.claims).None? {
        var id := Identity(r.claims.subject, r.workspace, EffectiveRole(r.role, granted));
        assert IdentifiedBy(r.claims, r.workspace, r.role, id) && CanWrite(id);
      }
    }
  }

  /** A stored write: the whole body at the path, nothing else changed, within the module's cap if
      there is one, and either an editor's or a create-only one of an absent object that a grant
      admits. */
  ghost predicate Wrote(before: Objects, after: Objects, scopes: ScopeMap, cap: int, r: Request) {
    var a := Address(r.workspace, r.backendID);
    && after == before[a := At(before, a)[r.path := r.body]]
    && (cap > 0 ==> |r.body| <= cap)
    && (ByEditor(r)
        || (r.path !in At(before, a) && r.ifNoneMatch == "*"
            && AdmittedByGrant(scopes, r.workspace, r.claims.subject, r.backendID, r.path, r.body)))
  }

  /** What `Put` does to the objects: nothing, or one such write. */
  ghost predicate Served(before: Objects, after: Objects, scopes: ScopeMap, cap: int, r: Request) {
    after == before || Wrote(before, after, scopes, cap, r)
  }

  /** A request reads the grants when it is looked up, after the first `seen` actions, and its write
      lands later; other actions may come between. */
  datatype Action = GrantChange(op: Op) | Writes(r: Request, seen: nat)

  /** The grant operations among some actions. */
  function OpsOf(actions: seq<Action>): seq<Op> {
    if actions == [] then []
    else
      var before := OpsOf(actions[..|actions| - 1]);
      match actions[|actions| - 1]
      case GrantChange(op) => before + [op]
      case Writes(_, _) => before
  }

  /** The grants as they stood after the first `seen` actions. */
  ghost function GrantsSeen(earlier: seq<Action>, seen: nat): ScopeMap
    requires seen <= |earlier|
  {
    PerformAll(OpsOf(earlier[..seen]))
  }

  /** One action: a grant operation, saving only what the service creates, leaves the objects; a
      request's write is served under the grants of its own lookup, on the objects of this moment. */
  ghost predicate Acts(before: Objects, after: Objects, earlier: seq<Action>, cap: int, action: Action) {
    match action
    case GrantChange(op) => after == before && (op.Save? ==> GrantOk(op.grant))
    case Writes(r, seen) => seen <= |earlier| && Served(before, after, GrantsSeen(earlier, seen), cap, r)
  }

  /** `states` are the stored objects between the actions, which come in any order. */
  ghost predicate IsRun(states: seq<Objects>, actions: seq<Action>, cap: int) {
    && |states| == |actions| + 1
    && forall i :: 0 <= i < |actions| ==> Acts(states[i], states[i + 1], actions[..i], cap, actions[i])
  }

  /** What a write by a caller who is no editor amounts to: the path is absent when it lands, the
      request create-only, and the latest unrevoked grant, at its lookup, for exactly this workspace,
      subject, backend and the path's directory allows its extension and its size. */
  ghost predicate Admitted(before: Objects, ops: seq<Op>, cap: int, r: Request, g: Grant, name: string, stem: string, ext: string) {
    && LatestLive(ops, Scope(r.workspace, r.claims.subject, r.backendID, DirOf(r.path))) == Some(g)
    && g.workspace == r.workspace && g.principal == r.claims.subject && g.backendID == r.backendID
    && r.path !in At(before, Address(r.workspace, r.backendID)) && r.ifNoneMatch == "*"
    && r.path == g.prefix + name && '/' !in name && name == stem + "." + ext && ToLower(ext) in g.extensions
    && |r.body| <= g.maxBytes && (cap > 0 ==> |r.body| <= cap)
    && !HasSuffix(r.claims.subject, ":" + RESERVED_APP_ID)
  }

  /** In every run of requests and grant operations, lookups and writes interleaved, every object
      stored for a caller who is neither editor nor owner was absent at the write, sits one segment
      below the prefix of a grant live at the lookup, ends in an allowed extension, and fits the
      grant's cap and the module's; the reserved service subject never stores one. */
  lemma AdmittedWritesAreGranted(states: seq<Objects>, actions: seq<Action>, cap: int, i: nat)
    returns (g: Grant, name: string, stem: string, ext: string)
    requires IsRun(states, actions, cap) && i < |actions| && actions[i].Writes?
    requires states[i + 1] != states[i] && !ByEditor(actions[i].r)
    ensures actions[i].seen <= i
    ensures Admitted(states[i], OpsOf(actions[..actions[i].seen]), cap, actions[i].r, g, name, stem, ext)
  {
    hide ByEditor, AdmittedByGrant, HasSuffix, ToLower, DirOf, LatestLive, PerformAll, OpsOf, ValidPrincipal;
    var r, seen := actions[i].r, actions[i].seen;
    assert Acts(states[i], states[i + 1], actions[..i], cap, actions[i]);
    assert actions[..i][..seen] == actions[..seen];
    var ops := OpsOf(actions[..seen]);
    SavedGrantsAreOk(states, actions, cap, seen);
    PerformedGrantsAreOk(ops);
    g, name, stem, ext := AdmittedWriteShape(PerformAll(ops), r.workspace, r.claims.subject, r.backendID, r.path, r.body);
    MapHoldsLatest(ops, Scope(r.workspace, r.claims.subject, r.backendID, DirOf(r.path)));
  }

  /** Live at the lookup is all there is: a grant removed before the write lands still admits it. */
  lemma RemovedGrantStillAdmits(objects: Objects, g: Grant, r: Request, cap: int) returns (states: seq<Objects>, actions: seq<Action>)
    requires GrantOk(g) && ScopeOf(g) == Scope(r.workspace, r.claims.subject, r.backendID, DirOf(r.path))
    requires HasExtension(r.path, g.extensions) && |r.body| <= g.maxBytes && (cap > 0 ==> |r.body| <= cap)
    requires r.ifNoneMatch == "*" && r.path !in At(objects, Address(r.workspace, r.backendID))
    ensures IsRun(states, actions, cap) && states[0] == objects && |actions| == 3 && actions[2] == Writes(r, 1)
    ensures LatestLive(OpsOf(actions), ScopeOf(g)) == None
    ensures var a := Address(r.workspace, r.backendID); r.path in At(states[3], a) && At(states[3], a)[r.path] == r.body
  {
    hide GrantOk, DirOf, HasExtension, ByEditor, OpsOf, LatestLive, GrantsSeen, Served, AdmittedByGrant;
    var a := Address(r.workspace, r.backendID);
    var stored := objects[a := At(objects, a)[r.path := r.body]];
    actions := SavedAndRemoved(g) + [Writes(r, 1)];
    states := [objects, objects, objects, stored];
    assert actions[..2] == SavedAndRemoved(g);
    RemovedGrants(g, Writes(r, 1));
    AdmittedByThis(g, r);
    assert Served(objects, stored, map[ScopeOf(g) := g], cap, r) by {
      WriteIsServed(objects, map[ScopeOf(g) := g], cap, r);
    }
    forall i | 0 <= i < 3
      ensures Acts(states[i], states[i + 1], actions[..i], cap, actions[i])
    {
    }
  }

  function SavedAndRemoved(g: Grant): seq<Action> {
    [GrantChange(Save(g)), GrantChange(Remove(g.workspace, g.id))]
  }

  lemma AdmittedByThis(g: Grant, r: Request)
    requires ScopeOf(g) == Scope(r.workspace, r.claims.subject, r.backendID, DirOf(r.path))
    requires HasExtension(r.path, g.extensions) && |r.body| <= g.maxBytes
    ensures AdmittedByGrant(map[ScopeOf(g) := g], r.workspace, r.claims.subject, r.backendID, r.path, r.body)
  {
    hide DirOf, HasExtension;
  }

  lemma WriteIsServed(objects: Objects, scopes: ScopeMap, cap: int, r: Request)
    requires AdmittedByGrant(scopes, r.workspace, r.claims.subject, r.backendID, r.path, r.body)
    requires r.ifNoneMatch == "*" && r.path !in At(objects, Address(r.workspace, r.backendID)) && (cap > 0 ==> |r.body| <= cap)
    ensures var a := Address(r.workspace, r.backendID); Served(objects, objects[a := At(objects, a)[r.path := r.body]], scopes, cap, r)
  {
    hide AdmittedByGrant, ByEditor;
  }

  lemma RemovedGrants(g: Grant, write: Action)
    requires write.Writes?
    ensures GrantsSeen(SavedAndRemoved(g), 1) == map[ScopeOf(g) := g]
    ensures LatestLive(OpsOf(SavedAndRemoved(g) + [write]), ScopeOf(g)) == None
  {
    hide ScopeOf;
    var save, both := [GrantChange(Save(g))], SavedAndRemoved(g);
    assert both[..1] == save && (both + [write])[..2] == both;
    OpsOfOne(save[0]);
    OneSave(g);
    LatestOfTwo(g);
    assert OpsOf(both) == [Save(g), Remove(g.workspace, g.id)];
    assert OpsOf(both + [write]) == OpsOf(both);
  }

  lemma OpsOfOne(action: Action)
    ensures OpsOf([action]) == if action.GrantChange? then [action.op] else []
  {
    assert [action][..0] == [];
  }

  lemma OneSave(g: Grant)
    ensures PerformAll([Save(g)]) == map[ScopeOf(g) := g]
  {
    assert [Save(g)][..0] == [];
  }

  lemma LatestOfTwo(g: Grant)
    ensures LatestLive([Save(g), Remove(g.workspace, g.id)], ScopeOf(g)) == None
  {
    assert [Save(g), Remove(g.workspace, g.id)][..1] == [Save(g)] && [Save(g)][..0] == [];
  }

  ghost predicate SavesOk(ops: seq<Op>) {
    forall i :: 0 <= i < |ops| && ops[i].Save? ==> GrantOk(ops[i].grant)
  }

  lemma {:induction false} SavedGrantsAreOk(states: seq<Objects>, actions: seq<Action>, cap: int, i: nat)
    requires IsRun(states, actions, cap) && i <= |actions|
    ensures SavesOk(OpsOf(actions[..i]))
  {
    hide GrantOk, Served;
    if i > 0 {
      SavedGrantsAreOk(states, actions, cap, i - 1);
      assert actions[..i][..i - 1] == actions[..i - 1];
      assert Acts(states[i - 1], states[i], actions[..i - 1], cap, actions[i - 1]);
    }
  }

  lemma {:induction false} PerformedGrantsAreOk(ops: seq<Op>)
    requires SavesOk(ops)
    ensures GrantsOk(PerformAll(ops))
  {
    hide GrantOk;
    if ops != [] {
      PerformedGrantsAreOk(ops[..|ops| - 1]);
    }
  }

  lemma StepTouchesOnePath(before: Objects, after: Objects, earlier: seq<Action>, cap: int, action: Action, a: Address, p: string)
    requires Acts(before, after, earlier, cap, action)
    ensures p in At(before, a) ==> p in At(after, a)
    ensures || ((p in At(after, a) <==> p in At(before, a)) && (p in At(after, a) ==> At(after, a)[p] == At(before, a)[p]))
            || (action.Writes? && action.seen <= |earlier|
                && StoresAt(before, after, GrantsSeen(earlier, action.seen), cap, action.r, a, p)
                && p in At(after, a) && At(after, a)[p] == action.r.body)
  {
    hide ByEditor, AdmittedByGrant, GrantsSeen, OpsOf, GrantOk;
  }

  /** The request stored its body at `p` of `a`. */
  ghost predicate StoresAt(before: Objects, after: Objects, scopes: ScopeMap, cap: int, r: Request, a: Address, p: string) {
    Wrote(before, after, scopes, cap, r) && Address(r.workspace, r.backendID) == a && r.path == p
  }

  /** In every run an object that is not as it was at the start is the body of one stored request for
      its path. */
  lemma {:induction false} EveryObjectHasAWriter(states: seq<Objects>, actions: seq<Action>, cap: int, a: Address, p: string)
    requires IsRun(states, actions, cap) && p in At(states[|actions|], a)
    ensures || (p in At(states[0], a) && At(states[0], a)[p] == At(states[|actions|], a)[p])
            || exists i :: 0 <= i < |actions| && actions[i].Writes?
                           && actions[i].seen <= i
                           && StoresAt(states[i], states[i + 1], GrantsSeen(actions[..i], actions[i].seen), cap, actions[i].r, a, p)
                           && actions[i].r.body == At(states[|actions|], a)[p]
  {
    hide StoresAt, GrantsSeen, OpsOf, At, Acts;
    var n := |actions|;
    if n > 0 {
      assert Acts(states[n - 1], states[n], actions[..n - 1], cap, actions[n - 1]);
      StepTouchesOnePath(states[n - 1], states[n], actions[..n - 1], cap, actions[n - 1], a, p);
      if p in At(states[n - 1], a) && At(states[n - 1], a)[p] == At(states[n], a)[p] {
        EarlierRun(states, actions, cap);
        EveryObjectHasAWriter(states[..n], actions[..n - 1], cap, a, p);
        if !(p in At(states[0], a) && At(states[0], a)[p] == At(states[n], a)[p]) {
          var i :| 0 <= i < n - 1 && actions[..n - 1][i].Writes?
            && actions[..n - 1][i].seen <= i
            && StoresAt(states[..n][i], states[..n][i + 1], GrantsSeen(actions[..n - 1][..i], actions[..n - 1][i].seen), cap, actions[..n - 1][i].r, a, p)
            && actions[..n - 1][i].r.body == At(states[n - 1], a)[p];
          assert actions[..n - 1][..i] == actions[..i];
        }
      }
    }
  }

  lemma EarlierRun(states: seq<Objects>, actions: seq<Action>, cap: int)
    requires IsRun(states, actions, cap) && actions != []
    ensures IsRun(states[..|actions|], actions[..|actions| - 1], cap)
  {
    hide Acts;
    var n := |actions|;
    forall i | 0 <= i < n - 1
      ensures Acts(states[..n][i], states[..n][i + 1], actions[..n - 1][..i], cap, actions[..n - 1][i])
    {
      assert actions[..n - 1][..i] == actions[..i];
      assert Acts(states[i], states[i + 1], actions[..i], cap, actions[i]);
    }
  }

  /** In every run without a stored editor's request, narrowed editor tokens included, an object that
      is present stays exactly as it is. */
  lemma {:induction false} OnlyEditorsReplace(states: seq<Objects>, actions: seq<Action>, cap: int, a: Address, p: string)
    requires IsRun(states, actions, cap) && p in At(states[0], a)
    requires forall i :: 0 <= i < |actions| && actions[i].Writes? ==> !ByEditor(actions[i].r)
    ensures p in At(states[|actions|], a) && At(states[|actions|], a)[p] == At(states[0], a)[p]
  {
    hide ByEditor, AdmittedByGrant, GrantsSeen, OpsOf, GrantOk, Acts;
    var n := |actions|;
    if n > 0 {
      EarlierRun(states, actions, cap);
      OnlyEditorsReplace(states[..n], actions[..n - 1], cap, a, p);
      assert Acts(states[n - 1], states[n], actions[..n - 1], cap, actions[n - 1]);
      NonEditorKeeps(states[n - 1], states[n], actions[..n - 1], cap, actions[n - 1], a, p);
    }
  }

  lemma NonEditorKeeps(before: Objects, after: Objects, earlier: seq<Action>, cap: int, action: Action, a: Address, p: string)
    requires Acts(before, after, earlier, cap, action) && p in At(before, a)
    requires action.Writes? ==> !ByEditor(action.r)
    ensures p in At(after, a) && At(after, a)[p] == At(before, a)[p]
  {
    hide ByEditor, AdmittedByGrant, GrantsSeen, OpsOf, GrantOk;
  }

  lemma CleanPathKeepsText(p: string)
    requires CleanPath(p).Ok?
    ensures CleanPath(p) == Ok(p)
  {
  }

  lemma CapIsPositive(g: Grant)
    requires GrantOk(g)
    ensures g.maxBytes > 0
  {
  }

  /** Every grant sits at its own scope and is one the service creates: so in every store that holds
      such a map. */
  ghost predicate GrantsOk(scopes: ScopeMap) {
    forall s :: s in scopes ==> ScopeOf(scopes[s]) == s && GrantOk(scopes[s])
  }

  lemma StoresHoldOkGrants(m: GrantMap, scopes: ScopeMap)
    requires Holds(m, scopes)
    ensures GrantsOk(scopes)
  {
    hide GrantOk;
  }

  /** What admission by a grant means for the object: it sits exactly one segment below the
      grant's prefix, its name ends in a dot and an allowed extension, letter case aside, and it
      fits the grant's cap. The reserved service subject is never admitted. */
  lemma AdmittedWriteShape(scopes: ScopeMap, workspace: string, subject: string,
                           backendID: string, path: string, body: Bytes)
    returns (g: Grant, name: string, stem: string, ext: string)
    requires GrantsOk(scopes)
    requires AdmittedByGrant(scopes, workspace, subject, backendID, path, body)
    ensures var s := Scope(workspace, subject, backendID, DirOf(path)); s in scopes && scopes[s] == g
    ensures g.workspace == workspace && g.principal == subject && g.backendID == backendID
    ensures path == g.prefix + name && '/' !in name && name == stem + "." + ext
    ensures ToLower(ext) in g.extensions && |body| <= g.maxBytes
    ensures ValidPrincipal(subject, workspace) && !HasSuffix(subject, ":" + RESERVED_APP_ID)
  {
    hide CleanPrefix, Blank, PrincipalWorkspace, ExtensionText, HasExtension, HasSuffix, DirOf, LastSegment, ToLower;
    var s := Scope(workspace, subject, backendID, DirOf(path));
    g := scopes[s];
    assert ScopeOf(g) == s && GrantOk(g);
    stem, ext := HasExtensionMeaning(path, g.extensions);
    name := LastSegment(path);
    PathParts(path);
  }
}
