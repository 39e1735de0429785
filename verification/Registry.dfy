/** The registry of storage backends: a record store and a credential store that can fail
    separately, and one replica's cache of opened clients. */
module Registry {
  import opened Outcomes
  import opened Text

  datatype Kind = S3 | Azure | Gcs | Filesystem | Unsupported

  type Creds = map<string, string>

  datatype Record = Record(
    workspace: string, id: string, displayName: string, kind: Kind, config: string,
    hasCredentials: bool, createOnlyVerified: bool, createdBy: string, createdAt: int, updatedAt: int)

  /** What a constructed client was built from. */
  datatype Client = Client(workspace: string, kind: Kind, config: string, creds: Creds)

  datatype CreateInput = CreateInput(id: string, displayName: string, kind: Kind, config: string, creds: Creds)

  /** Absent parts mean "leave unchanged". */
  datatype UpdateInput = UpdateInput(displayName: Option<string>, config: Option<string>, creds: Option<Creds>)

  datatype Error = Invalid | Absent | Taken | NoCredentials | Unavailable

  /** The per-kind checks: config normal form, acceptable credential sets, buildable clients. */
  datatype Rules = Rules(
    normalize: (Kind, string, string) -> Option<string>, accepts: (Kind, Creds) -> bool, builds: Client -> bool)

  predicate SupportsCreateOnly(r: Record) {
    !r.kind.S3? || r.createOnlyVerified
  }

  // ---- names and keys ----

  /** A blank name falls back to the ID. */
  function DisplayName(raw: string, id: string): Option<string> {
    var name := if TrimSpace(raw) == "" then id else TrimSpace(raw);
    if |name| > 100 then None else Some(name)
  }

  predicate ValidWorkspace(ws: string) {
    |ws| <= 63 && Slug(ws)
  }

  predicate ValidID(id: string) {
    1 <= |id| <= 63 && Slug(id) && id[0] != '-' && id[|id| - 1] != '-'
  }

  /** On the texts: up to 63 small letters, digits and dashes; an ID also begins and ends with a letter
      or a digit. */
  lemma NameTexts(s: string)
    ensures ValidWorkspace(s) <==>
              1 <= |s| <= 63 && forall i :: 0 <= i < |s| ==> s[i] in "abcdefghijklmnopqrstuvwxyz0123456789-"
    ensures ValidID(s) <==> ValidWorkspace(s) && s[0] != '-' && s[|s| - 1] != '-'
  {
    SlugTexts(s);
    hide Slug;
  }

  function Key(workspace: string, id: string): string {
    workspace + "/" + id
  }

  /** Two backends never share a key: a valid workspace has no slash. */
  lemma KeyInjective(ws: string, id: string, ws': string, id': string)
    requires ValidWorkspace(ws) && ValidWorkspace(ws')
    ensures Key(ws, id) == Key(ws', id') <==> ws == ws' && id == id'
  {
    if Key(ws, id) == Key(ws', id') {
      var k := Key(ws, id);
      assert k[|ws|] == '/' && k[|ws'|] == '/';
      SlugHasNoSlash(ws);
      SlugHasNoSlash(ws');
      assert forall i :: 0 <= i < |ws| ==> k[i] == ws[i] && k[i] != '/';
      assert forall i :: 0 <= i < |ws'| ==> k[i] == ws'[i] && k[i] != '/';
      assert |ws| == |ws'|;
      assert k[..|ws|] == ws && k[..|ws'|] == ws';
      assert k[|ws| + 1..] == id && k[|ws'| + 1..] == id';
    }
  }

  // ---- what a record becomes ----

  /** Later than the previous stamp whatever the clock reads. */
  function NextStamp(now: int, previous: int): int {
    if now > previous then now else previous + 1
  }

  function NewRecord(ws: string, actor: string, input: CreateInput, name: string, config: string, now: int): Record {
    Record(ws, input.id, name, input.kind, config, input.creds != map[], false, actor, now, now)
  }

  /** The record an edit asks for, before it gets its stamp; `None` when the edit is refused. */
  function Edited(rules: Rules, rec: Record, input: UpdateInput): Option<Record> {
    var name := if input.displayName.None? then Some(rec.displayName) else DisplayName(input.displayName.value, rec.id);
    var config := if input.config.None? then Some(rec.config)
                  else rules.normalize(rec.kind, input.config.value, rec.workspace);
    if name.None? || config.None? || (input.creds.Some? && !rules.accepts(rec.kind, input.creds.value)) then None
    else
      Some(rec.(displayName := name.value, config := config.value,
                createOnlyVerified := rec.createOnlyVerified && input.config.None?,
                hasCredentials := if input.creds.Some? then input.creds.value != map[] else rec.hasCredentials))
  }

  /** The update rule for the record store: of `to` only the mutable fields are taken. */
  function Overwritten(cur: Record, to: Record): Record {
    cur.(displayName := to.displayName, config := to.config, hasCredentials := to.hasCredentials,
         createOnlyVerified := to.createOnlyVerified, updatedAt := to.updatedAt)
  }

  /** One edit's stored result: a strictly later stamp; identity, kind and origin never change; a
      probe result survives only an edit that leaves the config alone. */
  lemma EditKeeps(rules: Rules, rec: Record, input: UpdateInput, now: int)
    requires Edited(rules, rec, input).Some?
    ensures var to := Edited(rules, rec, input).value.(updatedAt := NextStamp(now, rec.updatedAt));
            && Overwritten(rec, to) == to && to.updatedAt > rec.updatedAt
            && to.workspace == rec.workspace && to.id == rec.id && to.kind == rec.kind
            && to.createdBy == rec.createdBy && to.createdAt == rec.createdAt
            && (to.createOnlyVerified ==> rec.createOnlyVerified && to.config == rec.config)
  {
  }

  /** The name an edit or a creation asks for. */
  function NameFor(raw: string, id: string): string {
    if Blank(raw) then id else TrimSpace(raw)
  }

  /** What an accepted edit makes of a record, part by part: what is given is taken, the rest stays. */
  ghost predicate Applied(rules: Rules, rec: Record, input: UpdateInput, to: Record) {
    && to.workspace == rec.workspace && to.id == rec.id && to.kind == rec.kind
    && to.createdBy == rec.createdBy && to.createdAt == rec.createdAt
    && (match input.displayName
        case None => to.displayName == rec.displayName
        case Some(name) => to.displayName == NameFor(name, rec.id) && |to.displayName| <= 100)
    && (match input.config
        case None => to.config == rec.config && to.createOnlyVerified == rec.createOnlyVerified
        case Some(given) => rules.normalize(rec.kind, given, rec.workspace) == Some(to.config) && !to.createOnlyVerified)
    && (match input.creds
        case None => to.hasCredentials == rec.hasCredentials
        case Some(given) => rules.accepts(rec.kind, given) && to.hasCredentials == (given != map[]))
  }

  /** The edits that are refused: a name over 100, a config with no normal form, credentials its kind
      does not take, or a backend that could not be built from what would be stored. */
  ghost predicate EditRefused(rules: Rules, rec: Record, secret: Option<Creds>, input: UpdateInput) {
    || (input.displayName.Some? && |NameFor(input.displayName.value, rec.id)| > 100)
    || (input.config.Some? && rules.normalize(rec.kind, input.config.value, rec.workspace).None?)
    || (input.creds.Some? && !rules.accepts(rec.kind, input.creds.value))
    || !rules.builds(Client(rec.workspace, rec.kind,
                            if input.config.None? then rec.config
                            else rules.normalize(rec.kind, input.config.value, rec.workspace).value,
                            if input.creds.Some? then input.creds.value
                            else if rec.hasCredentials && secret.Some? then secret.value
                            else map[]))
  }

  lemma EditedMeaning(rules: Rules, rec: Record, secret: Option<Creds>, input: UpdateInput)
    ensures Edited(rules, rec, input).Some? ==> Applied(rules, rec, input, Edited(rules, rec, input).value)
    ensures Edited(rules, rec, input).Some? && rules.builds(ClientOf(Edited(rules, rec, input).value, Supplied(rec, secret, input)))
            <==> !EditRefused(rules, rec, secret, input)
  {
    NameMeaning(input.displayName, rec.id);
    hide DisplayName, NameFor;
  }

  lemma NameMeaning(raw: Option<string>, id: string)
    ensures raw.Some? ==> DisplayName(raw.value, id) == if |NameFor(raw.value, id)| > 100 then None else Some(NameFor(raw.value, id))
  {
    hide TrimSpace;
  }

  /** The name rule on the texts themselves. */
  lemma NamesTaken()
    ensures DisplayName(" my disk\t", "d") == Some("my disk") && DisplayName(" \n", "d") == Some("d")
  {
    var name, t := " my disk\t", "my disk\t";
    assert name[1..] == t && t[..7] == "my disk";
    assert " \n"[1..] == "\n" && "\n"[1..] == "";
  }

  lemma AppliedAtTime(rules: Rules, rec: Record, input: UpdateInput, to: Record, stamp: int)
    requires Applied(rules, rec, input, to)
    ensures Applied(rules, rec, input, to.(updatedAt := stamp))
  {
    hide NameFor;
  }

  // ---- the two stores ----

  /** A failed call has no effect; `faults` counts them. */
  class MetadataStore {
    var recs: map<string, Record>
    ghost var faults: nat

    constructor ()
      ensures recs == map[] && faults == 0
    {
      recs, faults := map[], 0;
    }

    ghost predicate Valid()
      reads this
    {
      forall k :: k in recs ==> k == Key(recs[k].workspace, recs[k].id)
    }

    method Create(r: Record) returns (err: Option<Error>)
      requires Valid()
      modifies this
      ensures Valid() && old(faults) <= faults <= old(faults) + 1
      ensures err == Some(Unavailable) <==> faults != old(faults)
      ensures err.None? || err in {Some(Taken), Some(Unavailable)}
      ensures var k := Key(r.workspace, r.id);
              && (err.None? ==> k !in old(recs) && recs == old(recs)[k := r])
              && (err == Some(Taken) ==> k in old(recs))
      ensures err.Some? ==> recs == old(recs)
    {
      var k := Key(r.workspace, r.id);
      var down: bool := *;
      if down {
        faults := faults + 1;
        return Some(Unavailable);
      }
      if k in recs {
        return Some(Taken);
      }
      recs := recs[k := r];
      return None;
    }

    method Get(workspace: string, id: string) returns (res: Result<Record, Error>)
      requires Valid()
      modifies `faults
      ensures old(faults) <= faults <= old(faults) + 1
      ensures res == Err(Unavailable) <==> faults != old(faults)
      ensures res.Ok? || res in {Err(Absent), Err(Unavailable)}
      ensures var k := Key(workspace, id);
              && (res.Ok? ==> k in recs && recs[k] == res.value)
              && (res == Err(Absent) ==> k !in recs)
    {
      var down: bool := *;
      if down {
        faults := faults + 1;
        return Err(Unavailable);
      }
      if Key(workspace, id) !in recs {
        return Err(Absent);
      }
      return Ok(recs[Key(workspace, id)]);
    }

    method Update(r: Record) returns (err: Option<Error>)
      requires Valid()
      modifies this
      ensures Valid() && old(faults) <= faults <= old(faults) + 1
      ensures err == Some(Unavailable) <==> faults != old(faults)
      ensures err.None? || err in {Some(Absent), Some(Unavailable)}
      ensures var k := Key(r.workspace, r.id);
              && (err.None? ==> k in old(recs) && recs == old(recs)[k := Overwritten(old(recs)[k], r)])
              && (err == Some(Absent) ==> k !in old(recs))
      ensures err.Some? ==> recs == old(recs)
    {
      var k := Key(r.workspace, r.id);
      var down: bool := *;
      if down {
        faults := faults + 1;
        return Some(Unavailable);
      }
      if k !in recs {
        return Some(Absent);
      }
      recs := recs[k := recs[k].(displayName := r.displayName, config := r.config, hasCredentials := r.hasCredentials,
                                 createOnlyVerified := r.createOnlyVerified, updatedAt := r.updatedAt)];
      return None;
    }

    method SetCreateOnlyVerified(workspace: string, id: string, verified: bool) returns (err: Option<Error>)
      requires Valid()
      modifies this
      ensures Valid() && old(faults) <= faults <= old(faults) + 1
      ensures err == Some(Unavailable) <==> faults != old(faults)
      ensures err.None? || err in {Some(Absent), Some(Unavailable)}
      ensures var k := Key(workspace, id);
              && (err.None? ==> k in old(recs) && recs == old(recs)[k := old(recs)[k].(createOnlyVerified := verified)])
              && (err == Some(Absent) ==> k !in old(recs))
      ensures err.Some? ==> recs == old(recs)
    {
      var k := Key(workspace, id);
      var down: bool := *;
      if down {
        faults := faults + 1;
        return Some(Unavailable);
      }
      if k !in recs {
        return Some(Absent);
      }
      recs := recs[k := recs[k].(createOnlyVerified := verified)];
      return None;
    }

    method Delete(workspace: string, id: string) returns (err: Option<Error>)
      requires Valid()
      modifies this
      ensures Valid() && old(faults) <= faults <= old(faults) + 1
      ensures err == Some(Unavailable) <==> faults != old(faults)
      ensures err.None? || err in {Some(Absent), Some(Unavailable)}
      ensures var k := Key(workspace, id);
              && (err.None? ==> k in old(recs) && recs == old(recs) - {k})
              && (err == Some(Absent) ==> k !in old(recs))
      ensures err.Some? ==> recs == old(recs)
    {
      var k := Key(workspace, id);
      var down: bool := *;
      if down {
        faults := faults + 1;
        return Some(Unavailable);
      }
      if k !in recs {
        return Some(Absent);
      }
      recs := recs - {k};
      return None;
    }
  }

  class CredentialStore {
    var secrets: map<string, Creds>
    ghost var faults: nat

    constructor ()
      ensures secrets == map[] && faults == 0
    {
      secrets, faults := map[], 0;
    }

    method Put(workspace: string, id: string, creds: Creds) returns (ok: bool)
      modifies this
      ensures faults == old(faults) + if ok then 0 else 1
      ensures secrets == if ok then old(secrets)[Key(workspace, id) := creds] else old(secrets)
    {
      ok := *;
      if ok {
        secrets := secrets[Key(workspace, id) := creds];
      } else {
        faults := faults + 1;
      }
    }

    method Get(workspace: string, id: string) returns (res: Result<Creds, Error>)
      modifies `faults
      ensures old(faults) <= faults <= old(faults) + 1
      ensures res == Err(Unavailable) <==> faults != old(faults)
      ensures res.Ok? || res in {Err(NoCredentials), Err(Unavailable)}
      ensures var k := Key(workspace, id);
              && (res.Ok? ==> k in secrets && secrets[k] == res.value)
              && (res == Err(NoCredentials) ==> k !in secrets)
    {
      var down: bool := *;
      if down {
        faults := faults + 1;
        return Err(Unavailable);
      }
      if Key(workspace, id) !in secrets {
        return Err(NoCredentials);
      }
      return Ok(secrets[Key(workspace, id)]);
    }

    /** Removing what is not there is no error. */
    method Delete(workspace: string, id: string) returns (ok: bool)
      modifies this
      ensures faults == old(faults) + if ok then 0 else 1
      ensures secrets == if ok then old(secrets) - {Key(workspace, id)} else old(secrets)
    {
      ok := *;
      if ok {
        secrets := secrets - {Key(workspace, id)};
      } else {
        faults := faults + 1;
      }
    }
  }

  // ---- one replica's service ----

  datatype Cached = Cached(stamp: int, loadedAt: int, client: Client)

  /** Ten minutes, in microseconds. */
  const CACHE_TTL := 600_000_000

  predicate Hit(c: Cached, rec: Record, now: int) {
    c.stamp == rec.updatedAt && now - c.loadedAt < CACHE_TTL
  }

  /** A validated edit with the credentials its backend would use. */
  datatype Prepared = Prepared(rec: Record, creds: Creds)

  /** Credentials are stored exactly for the records that say so. */
  ghost predicate Matching(recs: map<string, Record>, secrets: map<string, Creds>) {
    && (forall k :: k in recs ==> (recs[k].hasCredentials <==> k in secrets))
    && (forall k :: k in secrets ==> k in recs)
  }

  lemma EditMatches(rules: Rules, recs: map<string, Record>, secrets: map<string, Creds>, k: string,
                    input: UpdateInput, to: Record)
    requires Matching(recs, secrets) && k in recs
    requires Edited(rules, recs[k], input).Some?
    requires to.hasCredentials == Edited(rules, recs[k], input).value.hasCredentials
    ensures Matching(recs[k := to], Replaced(secrets, k, input.creds))
  {
    hide DisplayName;
  }

  lemma NewRecordMatches(recs: map<string, Record>, secrets: map<string, Creds>, k: string, r: Record, creds: Creds)
    requires Matching(recs, secrets) && k !in recs && r.hasCredentials == (creds != map[])
    ensures Matching(recs[k := r], if creds == map[] then secrets else secrets[k := creds])
  {
  }

  /** What the checks before a creation accept, an existing ID and a filesystem root aside. */
  predicate Creatable(rules: Rules, workspace: string, input: CreateInput) {
    && ValidWorkspace(workspace) && ValidID(input.id) && !input.kind.Unsupported?
    && DisplayName(input.displayName, input.id).Some?
    && rules.accepts(input.kind, input.creds)
    && var config := rules.normalize(input.kind, input.config, workspace);
    && config.Some?
    && rules.builds(Client(workspace, input.kind, config.value, input.creds))
  }

  /** The creations that are refused: a bad workspace, ID, kind or name, a config with no normal form,
      credentials its kind does not take, or a backend that could not be built. */
  ghost predicate CreationRefused(rules: Rules, workspace: string, input: CreateInput) {
    || !ValidWorkspace(workspace) || !ValidID(input.id) || input.kind == Unsupported
    || |NameFor(input.displayName, input.id)| > 100
    || rules.normalize(input.kind, input.config, workspace).None?
    || !rules.accepts(input.kind, input.creds)
    || !rules.builds(Client(workspace, input.kind, rules.normalize(input.kind, input.config, workspace).value, input.creds))
  }

  lemma CreatableMeaning(rules: Rules, workspace: string, input: CreateInput)
    ensures Creatable(rules, workspace, input) <==> !CreationRefused(rules, workspace, input)
  {
    NameMeaning(Some(input.displayName), input.id);
    hide DisplayName, NameFor, ValidWorkspace, ValidID;
  }

  /** The credentials an edited backend will use: the replacement, or what is stored. */
  function Supplied(rec: Record, secret: Option<Creds>, input: UpdateInput): Creds {
    match input.creds
    case Some(c) => c
    case None => if rec.hasCredentials && secret.Some? then secret.value else map[]
  }

  function Find<T>(m: map<string, T>, k: string): Option<T> {
    if k in m then Some(m[k]) else None
  }

  /** The client a record and the stored credentials make, if they make one. */
  function Build(rules: Rules, rec: Record, secret: Option<Creds>): Option<Client> {
    if rec.hasCredentials && secret.None? then None
    else
      var client := ClientOf(rec, if rec.hasCredentials then secret.value else map[]);
      if rules.builds(client) then Some(client) else None
  }

  predicate Editable(rules: Rules, workspace: string, id: string, input: UpdateInput,
                     recs: map<string, Record>, secrets: map<string, Creds>)
  {
    var k := Key(workspace, id);
    && ValidWorkspace(workspace) && k in recs
    && Edited(rules, recs[k], input).Some?
    && rules.builds(ClientOf(Edited(rules, recs[k], input).value, Supplied(recs[k], Find(secrets, k), input)))
  }

  class Service {
    const meta: MetadataStore
    const creds: CredentialStore
    const rules: Rules
    var cache: map<string, Cached>

    constructor (meta: MetadataStore, creds: CredentialStore, rules: Rules)
      ensures this.meta == meta && this.creds == creds && this.rules == rules && cache == map[]
    {
      this.meta, this.creds, this.rules, cache := meta, creds, rules, map[];
    }

    ghost predicate Valid()
      reads this, meta
    {
      meta.Valid() && forall k :: k in meta.recs ==> ValidWorkspace(meta.recs[k].workspace)
    }

    ghost predicate Consistent()
      reads this, meta, creds
    {
      Matching(meta.recs, creds.secrets)
    }

    ghost function Faults(): nat
      reads this, meta, creds
    {
      meta.faults + creds.faults
    }

    method Create(workspace: string, actor: string, input: CreateInput, now: int) returns (res: Result<Record, Error>)
      requires Valid()
      modifies meta, creds
      ensures Valid()
      ensures res.Ok? ==>
                && Faults() == old(Faults())
                && Creatable(rules, workspace, input)
                && res.value == NewRecord(workspace, actor, input, DisplayName(input.displayName, input.id).value,
                                          rules.normalize(input.kind, input.config, workspace).value, now)
                && Key(workspace, input.id) !in old(meta.recs)
                && meta.recs == old(meta.recs)[Key(workspace, input.id) := res.value]
                && creds.secrets == if input.creds == map[] then old(creds.secrets)
                                    else old(creds.secrets)[Key(workspace, input.id) := input.creds]
      // Part by part: a new record says who made it and when, and is never verified.
      ensures res.Ok? ==>
                var r := res.value;
                && r.workspace == workspace && r.id == input.id && r.kind == input.kind && r.createdBy == actor
                && r.createdAt == r.updatedAt == now && !r.createOnlyVerified && r.hasCredentials == (input.creds != map[])
                && r.displayName == NameFor(input.displayName, input.id) && |r.displayName| <= 100
                && rules.normalize(input.kind, input.config, workspace) == Some(r.config)
      // With every call working it is done exactly when it is not refused and the ID is free, a
      // filesystem root aside.
      ensures Faults() == old(Faults()) ==>
                && (res.Ok? ==> !CreationRefused(rules, workspace, input) && Key(workspace, input.id) !in old(meta.recs))
                && (res.Err? ==>
                      || CreationRefused(rules, workspace, input) || Key(workspace, input.id) in old(meta.recs)
                      || input.kind == Filesystem)
      // A refused or failed request leaves both stores as they were, unless two calls failed:
      // then the reserved record stays behind.
      ensures res.Err? ==>
                && creds.secrets == old(creds.secrets)
                && (|| meta.recs == old(meta.recs)
                    || (&& Faults() == old(Faults()) + 2
                        && Key(workspace, input.id) !in old(meta.recs)
                        && exists r: Record ::
                             r.hasCredentials && meta.recs == old(meta.recs)[Key(workspace, input.id) := r]))
      ensures res == Err(Taken) ==> Key(workspace, input.id) in old(meta.recs)
      ensures Faults() == old(Faults()) && Creatable(rules, workspace, input) && !input.kind.Filesystem? ==>
                (res.Ok? <==> Key(workspace, input.id) !in old(meta.recs))
      ensures old(Consistent()) && Faults() == old(Faults()) ==> Consistent()
    {
      NameMeaning(Some(input.displayName), input.id);
      CreatableMeaning(rules, workspace, input);
      hide ValidWorkspace, ValidID, DisplayName, Key, Matching, NameFor, CreationRefused;
      if !ValidWorkspace(workspace) || !ValidID(input.id) {
        return Err(Invalid);
      }
      var name := DisplayName(input.displayName, input.id);
      if name.None? || input.kind.Unsupported? {
        return Err(Invalid);
      }
      var config := rules.normalize(input.kind, input.config, workspace);
      if config.None? || !rules.accepts(input.kind, input.creds) {
        return Err(Invalid);
      }
      var rootUsable: bool := *;
      if input.kind.Filesystem? && !rootUsable {
        return Err(Invalid);
      }
      if !rules.builds(Client(workspace, input.kind, config.value, input.creds)) {
        return Err(Invalid);
      }
      var rec := NewRecord(workspace, actor, input, name.value, config.value, now);
      if Consistent() && Key(workspace, input.id) !in meta.recs {
        NewRecordMatches(meta.recs, creds.secrets, Key(workspace, input.id), rec, input.creds);
      }
      var err := meta.Create(rec);
      if err.Some? {
        return Err(err.value);
      }
      if input.creds != map[] {
        var ok := creds.Put(workspace, input.id, input.creds);
        if !ok {
          var undo := meta.Delete(workspace, input.id);
          return Err(Unavailable);
        }
      }
      return Ok(rec);
    }

    /** Validate an edit against the stored record; nothing is persisted. */
    method PrepareUpdate(workspace: string, id: string, input: UpdateInput, now: int) returns (res: Result<Prepared, Error>)
      requires Valid()
      modifies meta`faults, creds`faults
      ensures Faults() >= old(Faults())
      ensures res.Ok? ==>
                && Faults() == old(Faults())
                && ValidWorkspace(workspace) && Key(workspace, id) in meta.recs
                && var rec := meta.recs[Key(workspace, id)];
                && Edited(rules, rec, input).Some?
                && res.value.rec == Edited(rules, rec, input).value.(updatedAt := NextStamp(now, rec.updatedAt))
                && res.value.creds == Supplied(rec, Find(creds.secrets, Key(workspace, id)), input)
                && rules.builds(ClientOf(res.value.rec, res.value.creds))
      // What the edit asks for and nothing else, with a later stamp, the clock's if that is later.
      ensures res.Ok? ==>
                var rec := meta.recs[Key(workspace, id)];
                && Applied(rules, rec, input, res.value.rec)
                && res.value.rec.updatedAt == (if now > rec.updatedAt then now else rec.updatedAt + 1)
      ensures res == Err(Absent) ==> Key(workspace, id) !in meta.recs
      ensures Faults() == old(Faults()) && ValidWorkspace(workspace) && Key(workspace, id) in meta.recs ==>
                var k := Key(workspace, id);
                (res.Ok? <==> !EditRefused(rules, meta.recs[k], Find(creds.secrets, k), input))
      ensures Faults() == old(Faults()) && Editable(rules, workspace, id, input, meta.recs, creds.secrets) ==> res.Ok?
    {
      hide ValidWorkspace, Key, Edited, Applied, EditRefused;
      var got := Get(workspace, id);
      if got.Err? {
        return Err(got.error);
      }
      KeyInjective(got.value.workspace, got.value.id, workspace, id);
      EditedMeaning(rules, got.value, Find(creds.secrets, Key(workspace, id)), input);
      var edit := Edit(got.value, input);
      if edit.None? {
        return Err(Invalid);
      }
      var rec := edit.value;
      var used: Creds := map[];
      if input.creds.Some? {
        used := input.creds.value;
      } else if got.value.hasCredentials {
        var stored := creds.Get(workspace, id);
        if stored == Err(Unavailable) {
          return Err(Unavailable);
        }
        used := if stored.Ok? then stored.value else map[];
      }
      if !rules.builds(ClientOf(rec, used)) {
        return Err(Invalid);
      }
      AppliedAtTime(rules, got.value, input, rec, NextStamp(now, got.value.updatedAt));
      rec := rec.(updatedAt := now);
      if rec.updatedAt <= got.value.updatedAt {
        rec := rec.(updatedAt := got.value.updatedAt + 1);
      }
      return Ok(Prepared(rec, used));
    }

    method Edit(stored: Record, input: UpdateInput) returns (edit: Option<Record>)
      ensures edit == Edited(rules, stored, input)
      ensures edit.Some? ==>
                && edit.value.kind == stored.kind && edit.value.workspace == stored.workspace && edit.value.id == stored.id
                && edit.value.updatedAt == stored.updatedAt
                && (input.creds.None? ==> edit.value.hasCredentials == stored.hasCredentials)
    {
      hide DisplayName;
      var rec := stored;
      if input.displayName.Some? {
        var name := DisplayName(input.displayName.value, rec.id);
        if name.None? {
          return None;
        }
        rec := rec.(displayName := name.value);
      }
      if input.config.Some? {
        var config := rules.normalize(rec.kind, input.config.value, rec.workspace);
        if config.None? {
          return None;
        }
        rec := rec.(config := config.value, createOnlyVerified := false);
      }
      if input.creds.Some? {
        if !rules.accepts(rec.kind, input.creds.value) {
          return None;
        }
        rec := rec.(hasCredentials := input.creds.value != map[]);
      }
      return Some(rec);
    }

    method Get(workspace: string, id: string) returns (res: Result<Record, Error>)
      requires Valid()
      modifies meta`faults
      ensures old(meta.faults) <= meta.faults
      ensures res == Err(Unavailable) <==> meta.faults != old(meta.faults)
      ensures res.Ok? ==> ValidWorkspace(workspace) && Key(workspace, id) in meta.recs && meta.recs[Key(workspace, id)] == res.value
      ensures res == Err(Absent) ==> Key(workspace, id) !in meta.recs
      ensures res == Err(Invalid) <==> !ValidWorkspace(workspace)
      ensures res.Ok? || res.error in {Invalid, Absent, Unavailable}
    {
      if !ValidWorkspace(workspace) {
        return Err(Invalid);
      }
      res := meta.Get(workspace, id);
    }

    method ReplaceCredentials(workspace: string, id: string, c: Creds) returns (ok: bool)
      modifies creds
      ensures creds.faults == old(creds.faults) + if ok then 0 else 1
      ensures creds.secrets == if ok then Replaced(old(creds.secrets), Key(workspace, id), Some(c)) else old(creds.secrets)
    {
      if c == map[] {
        ok := creds.Delete(workspace, id);
      } else {
        ok := creds.Put(workspace, id, c);
      }
    }

    /** Change a backend: credentials first, then the record. */
    method Update(workspace: string, id: string, input: UpdateInput, now: int) returns (res: Result<Record, Error>)
      requires Valid()
      modifies this`cache, meta, creds
      ensures Valid()
      ensures res.Ok? ==>
                && Faults() == old(Faults())
                && Key(workspace, id) in old(meta.recs)
                && var k := Key(workspace, id);
                && var rec := old(meta.recs)[k];
                && Edited(rules, rec, input).Some?
                && res.value == Edited(rules, rec, input).value.(updatedAt := NextStamp(now, rec.updatedAt))
                && meta.recs == old(meta.recs)[k := res.value]
                && creds.secrets == Replaced(old(creds.secrets), k, input.creds)
                && cache == old(cache) - {k}
                && rules.builds(ClientOf(res.value, Supplied(rec, Find(old(creds.secrets), k), input)))
      ensures res.Ok? ==>
                var rec := old(meta.recs)[Key(workspace, id)];
                && Applied(rules, rec, input, res.value)
                && res.value.updatedAt == (if now > rec.updatedAt then now else rec.updatedAt + 1)
      // With every call working it is done exactly when it is not refused, a filesystem root aside.
      ensures Faults() == old(Faults()) && ValidWorkspace(workspace) && Key(workspace, id) in old(meta.recs) ==>
                var k := Key(workspace, id);
                && (res.Ok? ==> !EditRefused(rules, old(meta.recs)[k], Find(old(creds.secrets), k), input))
                && (res.Err? ==>
                      || EditRefused(rules, old(meta.recs)[k], Find(old(creds.secrets), k), input)
                      || (old(meta.recs)[k].kind.Filesystem? && input.config.Some?))
      // At worst the stored credentials are newer than the record.
      ensures res.Err? ==>
                && meta.recs == old(meta.recs) && cache == old(cache)
                && (|| creds.secrets == old(creds.secrets)
                    || (&& Faults() == old(Faults()) + 1
                        && creds.secrets == Replaced(old(creds.secrets), Key(workspace, id), input.creds)))
      ensures old(Editable(rules, workspace, id, input, meta.recs, creds.secrets)) && Faults() == old(Faults()) ==>
                res.Ok? || old(meta.recs)[Key(workspace, id)].kind.Filesystem?
      ensures old(Consistent()) && Faults() == old(Faults()) ==> Consistent()
    {
      hide ValidWorkspace, Key, NextStamp, Edited, Matching, ClientOf, Replaced, Applied, EditRefused;
      var prepared := PrepareUpdate(workspace, id, input, now);
      if prepared.Err? {
        return Err(prepared.error);
      }
      var p := prepared.value;
      EditKeeps(rules, meta.recs[Key(workspace, id)], input, now);
      if Consistent() {
        EditMatches(rules, meta.recs, creds.secrets, Key(workspace, id), input, p.rec);
      }
      KeyInjective(p.rec.workspace, p.rec.id, workspace, id);
      var rootUsable: bool := *;
      if p.rec.kind.Filesystem? && input.config.Some? && !rootUsable {
        return Err(Invalid);
      }
      if input.creds.Some? {
        var ok := ReplaceCredentials(workspace, id, input.creds.value);
        if !ok {
          return Err(Unavailable);
        }
      }
      assert input.creds.None? ==> creds.secrets == Replaced(old(creds.secrets), Key(workspace, id), input.creds) by {
        NothingReplaced(old(creds.secrets), Key(workspace, id));
      }
      var err := meta.Update(p.rec);
      if err.Some? {
        return Err(err.value);
      }
      cache := cache - {Key(workspace, id)};
      return Ok(p.rec);
    }

    /** Unregister a backend. Failing to remove its credentials is only logged. */
    method Delete(workspace: string, id: string) returns (err: Option<Error>)
      requires Valid()
      modifies this`cache, meta, creds
      ensures Valid()
      ensures err.None? ==>
                && ValidWorkspace(workspace) && Key(workspace, id) in old(meta.recs)
                && meta.recs == old(meta.recs) - {Key(workspace, id)}
                && cache == old(cache) - {Key(workspace, id)}
                && creds.secrets == if Faults() == old(Faults()) then old(creds.secrets) - {Key(workspace, id)}
                                    else old(creds.secrets)
      ensures err.Some? ==> meta.recs == old(meta.recs) && creds.secrets == old(creds.secrets) && cache == old(cache)
      ensures err == Some(Absent) ==> Key(workspace, id) !in old(meta.recs)
      ensures Faults() == old(Faults()) && ValidWorkspace(workspace) && Key(workspace, id) in old(meta.recs) ==> err.None?
      ensures old(Consistent()) && Faults() == old(Faults()) ==> Consistent()
    {
      if !ValidWorkspace(workspace) {
        return Some(Invalid);
      }
      err := meta.Delete(workspace, id);
      if err.Some? {
        return;
      }
      cache := cache - {Key(workspace, id)};
      var ok := creds.Delete(workspace, id);
    }

    /** A ready client: the cached one while the record's stamp is unchanged and it is young
        enough, else one built from the record and the stored credentials. */
    method Open(workspace: string, id: string, now: int, stored: int) returns (res: Result<Client, Error>)
      requires Valid()
      modifies this`cache, meta`faults, creds`faults
      ensures meta.faults >= old(meta.faults) && creds.faults >= old(creds.faults)
      ensures res.Ok? ==>
                && Key(workspace, id) in meta.recs
                && var k := Key(workspace, id);
                && var rec := meta.recs[k];
                && if k in old(cache) && Hit(old(cache)[k], rec, now) then
                     res.value == old(cache)[k].client && cache == old(cache)
                   else
                     && Build(rules, rec, Find(creds.secrets, k)) == Some(res.value)
                     && cache == old(cache)[k := Cached(rec.updatedAt, stored, res.value)]
      // A client cached ten minutes ago or under another stamp is not served: one is built anew, from
      // the record and, if the record says there are some, the stored credentials.
      ensures res.Ok? ==>
                var k := Key(workspace, id);
                var rec := meta.recs[k];
                if k in old(cache) && old(cache)[k].stamp == rec.updatedAt && now < old(cache)[k].loadedAt + 600_000_000 then
                  res.value == old(cache)[k].client
                else
                  && res.value == Client(rec.workspace, rec.kind, rec.config, res.value.creds)
                  && (rec.hasCredentials ==> k in creds.secrets && res.value.creds == creds.secrets[k])
                  && (!rec.hasCredentials ==> res.value.creds == map[])
      ensures res.Err? ==> cache == old(cache)
      ensures res == Err(NoCredentials) ==>
                var k := Key(workspace, id);
                k in meta.recs && meta.recs[k].hasCredentials && k !in creds.secrets
      ensures res == Err(Absent) ==> Key(workspace, id) !in meta.recs
      ensures Faults() == old(Faults()) && ValidWorkspace(workspace) && Key(workspace, id) in meta.recs ==>
                var k := Key(workspace, id);
                res.Ok? || (Build(rules, meta.recs[k], Find(creds.secrets, k)).None?
                            && (k in cache ==> !Hit(cache[k], meta.recs[k], now)))
    {
      var got := Get(workspace, id);
      if got.Err? {
        return Err(got.error);
      }
      var rec := got.value;
      KeyInjective(rec.workspace, rec.id, workspace, id);
      var k := Key(workspace, id);
      if k in cache && Hit(cache[k], rec, now) {
        return Ok(cache[k].client);
      }
      var used: Creds := map[];
      if rec.hasCredentials {
        var secret := creds.Get(workspace, id);
        if secret.Err? {
          return Err(secret.error);
        }
        used := secret.value;
      }
      var client := ClientOf(rec, used);
      if !rules.builds(client) {
        return Err(Invalid);
      }
      cache := cache[k := Cached(rec.updatedAt, stored, client)];
      return Ok(client);
    }

    /** The record with the credentials actually stored for it. */
    method RawCredentials(workspace: string, id: string) returns (res: Result<(Record, Creds), Error>)
      requires Valid()
      modifies meta`faults, creds`faults
      ensures res.Ok? ==>
                var k := Key(workspace, id);
                k in meta.recs && k in creds.secrets && res.value == (meta.recs[k], creds.secrets[k]) && res.value.0.hasCredentials
      ensures Consistent() && Faults() == old(Faults()) && ValidWorkspace(workspace) ==>
                (res.Ok? <==> Key(workspace, id) in creds.secrets)
    {
      var rec := Get(workspace, id);
      if rec.Err? {
        return Err(rec.error);
      }
      if !rec.value.hasCredentials {
        return Err(NoCredentials);
      }
      var secret := creds.Get(workspace, id);
      if secret.Err? {
        return Err(secret.error);
      }
      return Ok((rec.value, secret.value));
    }

    /** Check a registered backend; for S3 also probe create-only writes and record what the probe
        of the opened client says. `reaches` and `passes` are what a client's server would answer. */
    method TestSaved(workspace: string, id: string, now: int, stored: int, reaches: Client -> bool, passes: Client -> bool)
      returns (res: Result<Client, Error>)
      requires Valid()
      modifies this`cache, meta, creds`faults
      ensures Valid()
      ensures res.Ok? ==>
                && Key(workspace, id) in old(meta.recs) && reaches(res.value)
                && var k := Key(workspace, id);
                && var rec := old(meta.recs)[k];
                && (|| (k in old(cache) && Hit(old(cache)[k], rec, now) && res.value == old(cache)[k].client)
                    || Build(rules, rec, Find(creds.secrets, k)) == Some(res.value))
                && (|| (!rec.kind.S3? && meta.recs == old(meta.recs))
                    || (rec.kind.S3? && meta.recs == old(meta.recs)[k := rec.(createOnlyVerified := passes(res.value))])
                    || (rec.kind.S3? && meta.recs == old(meta.recs) && Faults() > old(Faults())))
      ensures res.Err? ==> meta.recs == old(meta.recs)
      ensures creds.secrets == old(creds.secrets)
      // With every call working it succeeds exactly when a client can be had and its server answers.
      ensures Faults() == old(Faults()) && ValidWorkspace(workspace) && Key(workspace, id) in old(meta.recs) ==>
                var k := Key(workspace, id);
                var rec := old(meta.recs)[k];
                && (res.Ok? <==>
                      exists c :: reaches(c) && (if k in old(cache) && Hit(old(cache)[k], rec, now) then c == old(cache)[k].client
                                                 else Build(rules, rec, Find(creds.secrets, k)) == Some(c)))
                && (res.Ok? && rec.kind.S3? ==>
                      meta.recs == old(meta.recs)[k := rec.(createOnlyVerified := passes(res.value))])
    {
      hide ValidWorkspace, Key, ClientOf, Hit;
      res := Open(workspace, id, now, stored);
      if res.Err? {
        return;
      }
      if !reaches(res.value) {
        return Err(Unavailable);
      }
      var rec := Get(workspace, id);
      if rec.Err? {
        return Err(rec.error);
      }
      if rec.value.kind.S3? {
        var err := meta.SetCreateOnlyVerified(workspace, id, passes(res.value));
      }
    }
  }

  lemma NothingReplaced(secrets: map<string, Creds>, k: string)
    ensures Replaced(secrets, k, None) == secrets
  {
  }

  function ClientOf(rec: Record, creds: Creds): Client {
    Client(rec.workspace, rec.kind, rec.config, creds)
  }

  /** The credential store after an edit at `k`: untouched unless it replaces them; an empty set
      removes them. */
  function Replaced(secrets: map<string, Creds>, k: string, input: Option<Creds>): map<string, Creds> {
    match input
    case None => secrets
    case Some(c) => if c == map[] then secrets - {k} else secrets[k := c]
  }
}
