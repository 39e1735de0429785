/** From verified token claims and the gateway's headers to the caller's identity. */
module Auth {
  import opened Outcomes
  import opened Text
  import opened Grants

  /** Roles are text, as forwarded; "" is no role. */
  const OWNER := "owner"
  const EDITOR := "editor"
  const VIEWER := "viewer"
  const GRANTS_SERVICE := "grants-service"
  const NO_ROLE := ""

  datatype Claims = Claims(subject: string, groups: seq<string>, boothModule: string)

  datatype Identity = Identity(subject: string, workspace: string, role: string)

  datatype AuthError = BadRequest | Forbidden

  function Rank(role: string): nat {
    if role == OWNER then 3 else if role == EDITOR then 2 else if role == VIEWER then 1 else 0
  }

  predicate CanRead(id: Identity) {
    id.role == OWNER || id.role == EDITOR || id.role == VIEWER
  }

  predicate CanWrite(id: Identity) {
    id.role == OWNER || id.role == EDITOR
  }

  predicate IsAdmin(id: Identity) {
    id.role == OWNER
  }

  predicate IsGrantsService(id: Identity) {
    id.role == GRANTS_SERVICE
  }

  // ---- groups ----

  const GROUP_PREFIX := "/workspaces/"

  function GroupText(workspace: string, role: string): string {
    GROUP_PREFIX + workspace + "/" + role
  }

  datatype Membership = Membership(workspace: string, role: string)

  function ParseGroup(group: string): Option<Membership> {
    if !(GROUP_PREFIX <= group) then None
    else
      var rest := group[|GROUP_PREFIX|..];
      var slash := IndexOf(rest, '/');
      if slash < 0 || !Slug(rest[..slash]) || Rank(rest[slash + 1..]) == 0 then None
      else Some(Membership(rest[..slash], rest[slash + 1..]))
  }

  lemma ParseGroupMeaning(group: string, workspace: string, role: string)
    ensures ParseGroup(group) == Some(Membership(workspace, role))
       <==> group == GroupText(workspace, role) && Slug(workspace) && Rank(role) > 0
  {
    hide ParseGroup, Rank, Slug;
    if ParseGroup(group) == Some(Membership(workspace, role)) {
      ParsedParts(group, workspace, role);
    }
    if group == GroupText(workspace, role) && Slug(workspace) && Rank(role) > 0 {
      GroupParts(workspace, role);
    }
  }

  lemma ParsedParts(group: string, workspace: string, role: string)
    requires ParseGroup(group) == Some(Membership(workspace, role))
    ensures group == GroupText(workspace, role) && Slug(workspace) && Rank(role) > 0
  {
    hide Rank, Slug;
    PrefixRest(GROUP_PREFIX, group);
    var rest := group[|GROUP_PREFIX|..];
    assert rest == workspace + "/" + role;
    assert GROUP_PREFIX + rest == GROUP_PREFIX + workspace + "/" + role;
  }

  lemma GroupParts(workspace: string, role: string)
    requires Slug(workspace) && Rank(role) > 0
    ensures ParseGroup(GroupText(workspace, role)) == Some(Membership(workspace, role))
  {
    hide Rank, Slug, IndexOf;
    SlugHasNoSlash(workspace);
    IndexOfFirst(workspace, '/', role);
    var rest := workspace + "/" + role;
    assert GroupText(workspace, role) == GROUP_PREFIX + rest;
    assert (GROUP_PREFIX + rest)[|GROUP_PREFIX|..] == rest;
  }

  /** The strongest role the groups grant in the workspace, or none. */
  ghost predicate IsHighestRole(groups: seq<string>, workspace: string, role: string) {
    && (role != NO_ROLE ==> Rank(role) > 0 && Slug(workspace) && GroupText(workspace, role) in groups)
    && forall r: string :: Rank(r) > 0 && Slug(workspace) && GroupText(workspace, r) in groups ==> Rank(r) <= Rank(role)
  }

  method RoleInWorkspace(groups: seq<string>, workspace: string) returns (best: string)
    ensures IsHighestRole(groups, workspace, best)
  {
    hide GroupText, ParseGroup, Slug;
    best := NO_ROLE;
    for i := 0 to |groups|
      invariant best != NO_ROLE ==> Rank(best) > 0 && Slug(workspace) && GroupText(workspace, best) in groups
      invariant forall j, r: string :: 0 <= j < i && Rank(r) > 0 && Slug(workspace) && GroupText(workspace, r) == groups[j] ==>
                  Rank(r) <= Rank(best)
    {
      forall r: string | Rank(r) > 0 && Slug(workspace) && GroupText(workspace, r) == groups[i]
        ensures ParseGroup(groups[i]) == Some(Membership(workspace, r))
      {
        ParseGroupMeaning(groups[i], workspace, r);
      }
      var member := ParseGroup(groups[i]);
      if member.None? || member.value.workspace != workspace {
        continue;
      }
      if Rank(member.value.role) > Rank(best) {
        best := member.value.role;
        ParseGroupMeaning(groups[i], workspace, best);
      }
    }
  }

  // ---- combining with the forwarded role ----

  function EffectiveRole(forwarded: string, granted: string): string {
    if forwarded == "" then granted
    else if Rank(forwarded) == 0 then NO_ROLE
    else if Rank(forwarded) < Rank(granted) then forwarded
    else granted
  }

  /** The two roles' meet: never stronger than either, and as strong as the weaker one when the
      forwarded role is recognized; an absent one changes nothing, an unknown one leaves none. */
  lemma EffectiveRoleIsTheWeaker(forwarded: string, granted: string)
    requires granted == NO_ROLE || Rank(granted) > 0
    ensures Rank(EffectiveRole(forwarded, granted)) <= Rank(granted)
    ensures forwarded != "" ==> Rank(EffectiveRole(forwarded, granted)) <= Rank(forwarded)
    ensures Rank(forwarded) > 0 ==>
              Rank(EffectiveRole(forwarded, granted)) == if Rank(forwarded) < Rank(granted) then Rank(forwarded) else Rank(granted)
    ensures EffectiveRole(forwarded, granted) == NO_ROLE <==> granted == NO_ROLE || (forwarded != "" && Rank(forwarded) == 0)
  {
  }

  /** The workspace of the reserved revoke-only service identity: module and subject must match. */
  function GrantsServiceWorkspace(claims: Claims): Option<string> {
    var tail := ":" + RESERVED_APP_ID;
    if claims.boothModule != "streamlit" || !(SUBJECT_PREFIX <= claims.subject) || !HasSuffix(claims.subject, tail)
       || |claims.subject| < |SUBJECT_PREFIX| + |tail| then None
    else
      var ws := claims.subject[|SUBJECT_PREFIX|..|claims.subject| - |tail|];
      if Slug(ws) then Some(ws) else None
  }

  lemma GrantsServiceMeaning(claims: Claims, workspace: string)
    ensures GrantsServiceWorkspace(claims) == Some(workspace)
       <==> claims.boothModule == "streamlit" && Slug(workspace) && claims.subject == AppSubject(workspace, RESERVED_APP_ID)
  {
    var tail := ":" + RESERVED_APP_ID;
    if GrantsServiceWorkspace(claims) == Some(workspace) {
      var s := claims.subject;
      assert s == s[..|s| - |tail|] + tail;
      assert s[..|s| - |tail|] == SUBJECT_PREFIX + workspace;
      assert SUBJECT_PREFIX + workspace + tail == SUBJECT_PREFIX + workspace + ":" + RESERVED_APP_ID;
    }
    if Slug(workspace) && claims.subject == AppSubject(workspace, RESERVED_APP_ID) {
      var s := SUBJECT_PREFIX + workspace + tail;
      assert claims.subject == s;
      assert s[|s| - |tail|..] == tail;
      assert s[|SUBJECT_PREFIX|..|s| - |tail|] == workspace;
    }
  }

  /** What the middleware attaches to a request it lets through. */
  ghost predicate IdentifiedBy(claims: Claims, workspaceHeader: string, roleHeader: string, id: Identity) {
    && id.subject == claims.subject && id.workspace == workspaceHeader && workspaceHeader != ""
    && if GrantsServiceWorkspace(claims).Some? then
         GrantsServiceWorkspace(claims).value == workspaceHeader && id.role == GRANTS_SERVICE
       else
         exists granted: string ::
           && IsHighestRole(claims.groups, workspaceHeader, granted) && granted != NO_ROLE
           && Rank(roleHeader) <= Rank(granted)
           && id.role == EffectiveRole(roleHeader, granted)
  }

  method Authenticate(claims: Claims, workspaceHeader: string, roleHeader: string) returns (res: Result<Identity, AuthError>)
    ensures res.Ok? ==> IdentifiedBy(claims, workspaceHeader, roleHeader, res.value)
    ensures res == Err(BadRequest) <==> workspaceHeader == ""
    ensures GrantsServiceWorkspace(claims).Some? && workspaceHeader != "" ==>
              (res.Err? <==> GrantsServiceWorkspace(claims).value != workspaceHeader)
    ensures GrantsServiceWorkspace(claims).None? && workspaceHeader != "" ==>
              (res.Err? <==>
                 exists granted: string :: IsHighestRole(claims.groups, workspaceHeader, granted)
                   && (granted == NO_ROLE || Rank(roleHeader) > Rank(granted)))
    // The identity is the only one the token and headers allow.
    ensures forall id: Identity :: IdentifiedBy(claims, workspaceHeader, roleHeader, id) <==> res == Ok(id)
  {
    hide Rank, IsHighestRole, EffectiveRole;
    if workspaceHeader == "" {
      return Err(BadRequest);
    }
    var service := GrantsServiceWorkspace(claims);
    if service.Some? {
      if workspaceHeader != service.value {
        return Err(Forbidden);
      }
      return Ok(Identity(claims.subject, workspaceHeader, GRANTS_SERVICE));
    }
    var granted := RoleInWorkspace(claims.groups, workspaceHeader);
    HighestRoleIsUnique(claims.groups, workspaceHeader, granted);
    if granted == NO_ROLE {
      return Err(Forbidden);
    }
    if Rank(roleHeader) > Rank(granted) {
      return Err(Forbidden);
    }
    return Ok(Identity(claims.subject, workspaceHeader, EffectiveRole(roleHeader, granted)));
  }

  lemma HighestRoleIsUnique(groups: seq<string>, workspace: string, role: string)
    requires IsHighestRole(groups, workspace, role)
    ensures forall r: string :: IsHighestRole(groups, workspace, r) ==> r == role
  {
    forall r: string | IsHighestRole(groups, workspace, r)
      ensures r == role
    {
      assert Rank(r) == Rank(role);
    }
  }

  /** Write access always rests on an owner or editor group of the token itself; the service
      identity can neither read, write nor administer. */
  lemma RolesRestOnTheToken(claims: Claims, workspaceHeader: string, roleHeader: string, id: Identity)
    requires IdentifiedBy(claims, workspaceHeader, roleHeader, id)
    ensures CanWrite(id) ==> GroupText(id.workspace, OWNER) in claims.groups || GroupText(id.workspace, EDITOR) in claims.groups
    ensures IsAdmin(id) ==> GroupText(id.workspace, OWNER) in claims.groups
    ensures IsGrantsService(id) ==> !CanRead(id) && !CanWrite(id) && !IsAdmin(id)
    ensures IsGrantsService(id) <==> GrantsServiceWorkspace(claims).Some?
  {
    if GrantsServiceWorkspace(claims).None? {
      var granted: string :| IsHighestRole(claims.groups, workspaceHeader, granted) && granted != NO_ROLE
        && Rank(roleHeader) <= Rank(granted) && id.role == EffectiveRole(roleHeader, granted);
      assert GroupText(workspaceHeader, granted) in claims.groups;
      hide GroupText;
    }
  }

  /** A caller who is let through without write access is a viewer, the service identity, or one
      whose forwarded role is unknown: that one has no role at all. */
  lemma RolesWithoutWriteAccess(claims: Claims, workspaceHeader: string, roleHeader: string, id: Identity)
    requires IdentifiedBy(claims, workspaceHeader, roleHeader, id) && !CanWrite(id)
    ensures id.role in {VIEWER, GRANTS_SERVICE, NO_ROLE}
    ensures GrantsServiceWorkspace(claims).None? ==>
              (id.role == NO_ROLE <==> roleHeader != "" && Rank(roleHeader) == 0)
  {
    if GrantsServiceWorkspace(claims).None? {
      var granted: string :| IsHighestRole(claims.groups, workspaceHeader, granted) && granted != NO_ROLE
        && Rank(roleHeader) <= Rank(granted) && id.role == EffectiveRole(roleHeader, granted);
      assert Rank(granted) > 0;
      hide GroupText;
    }
  }

  ghost predicate OneGroupOnly(claims: Claims, workspace: string, role: string) {
    claims.boothModule == "" && claims.groups == ["/workspaces/" + workspace + "/" + role]
  }

  lemma OnlyRole(claims: Claims, workspace: string, role: string)
    requires Slug(workspace) && OneGroupOnly(claims, workspace, role)
    ensures GrantsServiceWorkspace(claims).None?
    ensures forall r: string :: IsHighestRole(claims.groups, workspace, r) <==> r == if Rank(role) > 0 then role else NO_ROLE
  {
    assert GrantsServiceWorkspace(claims).None?;
    assert claims.groups[0] == GroupText(workspace, role);
    forall r: string | GroupText(workspace, r) in claims.groups
      ensures r == role
    {
      SameGroupSameRole(workspace, r, role);
    }
    hide GroupText, GrantsServiceWorkspace;
    assert IsHighestRole(claims.groups, workspace, if Rank(role) > 0 then role else NO_ROLE);
    HighestRoleIsUnique(claims.groups, workspace, if Rank(role) > 0 then role else NO_ROLE);
  }

  lemma SameGroupSameRole(workspace: string, r: string, role: string)
    requires GroupText(workspace, r) == GroupText(workspace, role)
    ensures r == role
  {
    var k := |GROUP_PREFIX + workspace + "/"|;
    assert GroupText(workspace, r)[k..] == r && GroupText(workspace, role)[k..] == role;
  }

  /** A token with one group, in the texts themselves: the three role names let it in, as that role,
      and no other text does; a viewer reads, an editor also writes, an owner also administers. */
  lemma OneGroup(claims: Claims, workspace: string, role: string, id: Identity)
    requires Slug(workspace) && OneGroupOnly(claims, workspace, role)
    ensures IdentifiedBy(claims, workspace, "", id) <==>
              role in {"owner", "editor", "viewer"} && id == Identity(claims.subject, workspace, role)
    ensures IdentifiedBy(claims, workspace, "", id) ==>
              CanRead(id) && (CanWrite(id) <==> role != "viewer") && (IsAdmin(id) <==> role == "owner")
  {
    OnlyRole(claims, workspace, role);
    assert Rank(role) > 0 ==> IsHighestRole(claims.groups, workspace, role);
    hide GrantsServiceWorkspace, IsHighestRole;
  }

  /** A forwarded role narrows such a token and never widens it: one no stronger than the group's is
      taken, a stronger one is refused, an unknown one leaves no role. */
  lemma ForwardedRoleNarrows(claims: Claims, workspace: string, role: string, forwarded: string, id: Identity)
    requires Slug(workspace) && OneGroupOnly(claims, workspace, role) && role in {"owner", "editor", "viewer"}
    ensures forwarded in {"owner", "editor", "viewer"} ==>
              (IdentifiedBy(claims, workspace, forwarded, id) <==>
                 && id == Identity(claims.subject, workspace, forwarded)
                 && (role == "owner" || forwarded == "viewer" || forwarded == role))
    ensures forwarded !in {"", "owner", "editor", "viewer"} && IdentifiedBy(claims, workspace, forwarded, id) ==> id.role == ""
  {
    OnlyRole(claims, workspace, role);
    assert Rank(role) > 0 ==> IsHighestRole(claims.groups, workspace, role);
    hide GrantsServiceWorkspace, IsHighestRole;
  }

  /** The revoke-only service, in the texts themselves: exactly the subject "streamlit:<workspace>:grants"
      of the module "streamlit", in its own workspace, whatever groups the token has. */
  lemma ServiceTexts(claims: Claims, workspace: string, forwarded: string, id: Identity)
    requires Slug(workspace) && claims.subject == "streamlit:" + workspace + ":grants" && claims.boothModule == "streamlit"
    ensures IdentifiedBy(claims, workspace, forwarded, id) <==> id == Identity(claims.subject, workspace, "grants-service")
    ensures IdentifiedBy(claims, workspace, forwarded, id) ==>
              IsGrantsService(id) && !CanRead(id) && !CanWrite(id) && !IsAdmin(id)
  {
    hide GrantsServiceWorkspace, IsHighestRole, EffectiveRole;
    var front := "streamlit:" + workspace;
    assert front + (":" + "grants") == front + ":" + "grants" == AppSubject(workspace, RESERVED_APP_ID);
    assert ":" + "grants" == ":grants";
    GrantsServiceMeaning(claims, workspace);
  }
}
