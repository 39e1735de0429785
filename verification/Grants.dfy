/** Upload grants: which app may create objects under which backend prefix. The store is keyed
    by grant ID and must act like a map keyed by scope. */
module Grants {
  import opened Outcomes
  import opened Text
  import opened Paths

  datatype Grant = Grant(
    id: string, workspace: string, principal: string, backendID: string, prefix: string,
    extensions: seq<string>, maxBytes: int, grantedBy: string, createdAt: int)

  datatype Scope = Scope(workspace: string, principal: string, backendID: string, prefix: string)

  datatype GrantError = Invalid(field: string) | NoSuchGrant

  function ScopeOf(g: Grant): Scope {
    Scope(g.workspace, g.principal, g.backendID, g.prefix)
  }

  // ---- validation ----

  predicate AppIDChar(c: char) {
    'a' <= c <= 'z' || 'A' <= c <= 'Z' || '0' <= c <= '9' || c == '.' || c == '_' || c == '-'
  }

  predicate AppID(s: string) {
    1 <= |s| <= 128 && forall i :: 0 <= i < |s| ==> AppIDChar(s[i])
  }

  const SUBJECT_PREFIX := "streamlit:"
  const RESERVED_APP_ID := "grants"

  /** The workspace an app subject names; `None` when it is not "streamlit:<workspace>:<app>". */
  function PrincipalWorkspace(principal: string): Option<string> {
    if !(SUBJECT_PREFIX <= principal) then None
    else
      var rest := principal[|SUBJECT_PREFIX|..];
      var colon := IndexOf(rest, ':');
      if colon < 0 || !Slug(rest[..colon]) || !AppID(rest[colon + 1..]) then None else Some(rest[..colon])
  }

  predicate ValidPrincipal(principal: string, workspace: string) {
    && PrincipalWorkspace(principal).Some?
    && !HasSuffix(principal, ":" + RESERVED_APP_ID)
    && PrincipalWorkspace(principal).value == workspace
  }

  /** The subject an app of a workspace carries. */
  function AppSubject(workspace: string, app: string): string {
    SUBJECT_PREFIX + workspace + ":" + app
  }

  /** An accepted principal is exactly an app subject of that workspace, the reserved one
      excepted. */
  lemma ValidPrincipalMeaning(principal: string, workspace: string)
    ensures ValidPrincipal(principal, workspace) <==>
              exists app :: principal == AppSubject(workspace, app) && Slug(workspace) && AppID(app) && app != RESERVED_APP_ID
  {
    if ValidPrincipal(principal, workspace) {
      var rest := principal[|SUBJECT_PREFIX|..];
      var app := rest[|workspace| + 1..];
      assert rest == workspace + ":" + app;
      assert principal == AppSubject(workspace, app);
      ReservedSuffix(SUBJECT_PREFIX + workspace, app);
    }
    forall app | principal == AppSubject(workspace, app) && Slug(workspace) && AppID(app) && app != RESERVED_APP_ID
      ensures ValidPrincipal(principal, workspace)
    {
      SubjectParts(workspace, app);
      ReservedSuffix(SUBJECT_PREFIX + workspace, app);
    }
  }

  /** On the texts: "streamlit:", a workspace, ":", and 1 to 128 of these characters, but not "grants". */
  lemma PrincipalTexts(workspace: string, app: string)
    requires Slug(workspace)
    ensures ValidPrincipal("streamlit:" + workspace + ":" + app, workspace) <==>
              && 1 <= |app| <= 128 && app != "grants"
              && forall i :: 0 <= i < |app| ==>
                   || app[i] in "abcdefghijklmnopqrstuvwxyz" || app[i] in "ABCDEFGHIJKLMNOPQRSTUVWXYZ"
                   || app[i] in "0123456789" || app[i] == '.' || app[i] == '_' || app[i] == '-'
  {
    hide AppID;
    var principal := "streamlit:" + workspace + ":" + app;
    AppTexts(app);
    ValidPrincipalMeaning(principal, workspace);
    forall other: string | principal == AppSubject(workspace, other)
      ensures other == app
    {
      assert principal[|SUBJECT_PREFIX + workspace + ":"|..] == app;
      assert AppSubject(workspace, other)[|SUBJECT_PREFIX + workspace + ":"|..] == other;
    }
    assert principal == AppSubject(workspace, app);
    hide ValidPrincipal, AppSubject, AppID;
  }

  lemma AppTexts(app: string)
    ensures AppID(app) <==>
              && 1 <= |app| <= 128
              && forall i :: 0 <= i < |app| ==>
                   || app[i] in "abcdefghijklmnopqrstuvwxyz" || app[i] in "ABCDEFGHIJKLMNOPQRSTUVWXYZ"
                   || app[i] in "0123456789" || app[i] == '.' || app[i] == '_' || app[i] == '-'
  {
    forall i | 0 <= i < |app|
      ensures 'a' <= app[i] <= 'z' <==> app[i] in "abcdefghijklmnopqrstuvwxyz"
      ensures 'A' <= app[i] <= 'Z' <==> app[i] in "ABCDEFGHIJKLMNOPQRSTUVWXYZ"
      ensures '0' <= app[i] <= '9' <==> app[i] in "0123456789"
    {
      SmallLetters(app[i]);
      CapitalLetters(app[i]);
      Digits(app[i]);
    }
  }

  lemma SubjectParts(workspace: string, app: string)
    requires Slug(workspace) && AppID(app)
    ensures PrincipalWorkspace(AppSubject(workspace, app)) == Some(workspace)
  {
    var principal := AppSubject(workspace, app);
    var rest := workspace + ":" + app;
    assert principal == SUBJECT_PREFIX + rest;
    assert principal[|SUBJECT_PREFIX|..] == rest;
    assert rest[|workspace|] == ':';
    assert forall j :: 0 <= j < |workspace| ==> rest[j] == workspace[j] && SlugChar(workspace[j]);
    assert IndexOf(rest, ':') == |workspace|;
    assert rest[..|workspace|] == workspace && rest[|workspace| + 1..] == app;
  }

  lemma ReservedSuffix(front: string, app: string)
    requires forall i :: 0 <= i < |app| ==> app[i] != ':'
    ensures HasSuffix(front + ":" + app, ":" + RESERVED_APP_ID) <==> app == RESERVED_APP_ID
  {
    var s, t := front + ":" + app, ":" + RESERVED_APP_ID;
    if app == RESERVED_APP_ID {
      assert s == front + t;
      assert s[|front|..] == t;
    }
    if HasSuffix(s, t) {
      var tail := s[|s| - |t|..];
      assert tail[0] == ':' && s[|s| - |t|] == ':';
      assert forall j :: |front| < j < |s| ==> s[j] == app[j - |front| - 1];
      assert forall j :: 0 < j < |t| ==> tail[j] == RESERVED_APP_ID[j - 1] && s[|s| - |t| + j] == tail[j];
      assert forall j :: 0 <= j < |RESERVED_APP_ID| ==> RESERVED_APP_ID[j] != ':';
      assert s[|front|] == ':';
      assert |app| == |RESERVED_APP_ID|;
      assert tail[1..] == RESERVED_APP_ID;
      assert tail[1..] == app;
    }
  }

  // ---- file extensions ----

  function Lower(c: char): char {
    if 'A' <= c <= 'Z' then (c as int - 'A' as int + 'a' as int) as char else c
  }

  function ToLower(s: string): string {
    seq(|s|, i requires 0 <= i < |s| => Lower(s[i]))
  }

  /** Letter by letter: the capitals become the small letters, every other byte stays. */
  lemma LettersLowered(k: nat, c: char)
    requires k < 26
    ensures Lower("ABCDEFGHIJKLMNOPQRSTUVWXYZ"[k]) == "abcdefghijklmnopqrstuvwxyz"[k]
    ensures c !in "ABCDEFGHIJKLMNOPQRSTUVWXYZ" ==> Lower(c) == c
  {
    var capitals := "ABCDEFGHIJKLMNOPQRSTUVWXYZ";
    assert forall j :: 0 <= j < 26 ==> capitals[j] as int == 'A' as int + j;
    assert "abcdefghijklmnopqrstuvwxyz"[k] as int == 'a' as int + k;
    if 'A' <= c <= 'Z' {
      assert capitals[c as int - 'A' as int] == c;
    }
  }

  predicate ExtensionText(e: string) {
    1 <= |e| <= 15 && forall i :: 0 <= i < |e| ==> 'a' <= e[i] <= 'z' || '0' <= e[i] <= '9'
  }

  /** On the texts: 1 to 15 small letters and digits. */
  lemma ExtensionTexts(e: string)
    ensures ExtensionText(e) <==>
              1 <= |e| <= 15 && forall i :: 0 <= i < |e| ==> e[i] in "abcdefghijklmnopqrstuvwxyz0123456789"
  {
    assert "abcdefghijklmnopqrstuvwxyz" + "0123456789" == "abcdefghijklmnopqrstuvwxyz0123456789";
    forall c: char
      ensures 'a' <= c <= 'z' || '0' <= c <= '9' <==> c in "abcdefghijklmnopqrstuvwxyz0123456789"
    {
      SmallLetters(c);
      Digits(c);
    }
  }

  function Normalized(e: string): string {
    ToLower(if "." <= e then e[1..] else e)
  }

  predicate NoRepeats(exts: seq<string>) {
    forall i, j :: 0 <= i < j < |exts| ==> exts[i] != exts[j]
  }

  /** Accepted exactly when there is at least one extension and each is bare lower-case text once
      normalized; the result holds the normalized ones, each once. */
  method ValidateExtensions(exts: seq<string>) returns (res: Result<seq<string>, GrantError>)
    ensures res.Ok? <==> exts != [] && forall i :: 0 <= i < |exts| ==> ExtensionText(Normalized(exts[i]))
    ensures res.Err? ==> res.error == Invalid("extensions")
    ensures res.Ok? ==>
              && res.value != [] && (forall i, j :: 0 <= i < j < |res.value| ==> res.value[i] != res.value[j])
              && forall e :: e in res.value <==> exists i :: 0 <= i < |exts| && Normalized(exts[i]) == e
  {
    if |exts| == 0 {
      return Err(Invalid("extensions"));
    }
    var seen: set<string> := {};
    var out: seq<string> := [];
    for i := 0 to |exts|
      invariant forall j :: 0 <= j < i ==> ExtensionText(Normalized(exts[j])) && Normalized(exts[j]) in out
      invariant forall e :: e in seen <==> e in out
      invariant forall e :: e in out ==> exists j :: 0 <= j < i && Normalized(exts[j]) == e
      invariant NoRepeats(out)
    {
      var e := Normalized(exts[i]);
      if !ExtensionText(e) {
        return Err(Invalid("extensions"));
      }
      if e in seen {
        continue;
      }
      seen := seen + {e};
      out := out + [e];
    }
    assert Normalized(exts[0]) in out;
    return Ok(out);
  }

  predicate HasExtension(name: string, exts: seq<string>) {
    var dot := LastIndex(name, '.');
    dot >= 0 && dot != |name| - 1 && ToLower(name[dot + 1..]) in exts
  }

  /** One leading dot and letter case do not matter to a grant. */
  lemma ExtensionsNormalized()
    ensures Normalized(".PnG") == "png" && Normalized("png") == "png" && Normalized("..png") == ".png"
  {
    assert ".PnG"[1..] == "PnG" && "..png"[1..] == ".png";
    assert "png"[0] != '.' && !("." <= "png");
    assert ToLower("PnG") == "png" && ToLower("png") == "png" && ToLower(".png") == ".png";
  }

  /** On the texts: letter case does not matter; a name without the extension, or with nothing behind
      its dot, does not pass. */
  lemma ExtensionsTaken(stem: string)
    ensures HasExtension(stem + ".PNG", ["png"]) && HasExtension(stem + ".png", ["gif", "png"])
    ensures !HasExtension(stem + ".gif", ["png"]) && !HasExtension(stem + ".", ["png"]) && !HasExtension("png", ["png"])
  {
    assert ToLower("PNG") == "png" && ToLower("png") == "png" && ToLower("gif") == "gif";
    assert ["gif", "png"][1] == "png" && ["png"][0] == "png";
    hide ToLower, HasExtension, LastIndex;
    Ends(stem, "PNG", stem + ".PNG", ["png"]);
    Ends(stem, "png", stem + ".png", ["gif", "png"]);
    Ends(stem, "gif", stem + ".gif", ["png"]);
    Ends(stem, "", stem + ".", ["png"]);
    NoDot("png", ["png"]);
  }

  lemma Ends(stem: string, ext: string, name: string, exts: seq<string>)
    requires '.' !in ext && name == stem + "." + ext
    ensures HasExtension(name, exts) <==> ext != "" && ToLower(ext) in exts
  {
    hide LastIndex, ToLower;
    LastDot(stem, ext);
  }

  lemma NoDot(name: string, exts: seq<string>)
    requires '.' !in name
    ensures !HasExtension(name, exts)
  {
    hide ToLower;
    assert forall j :: 0 <= j < |name| ==> name[j] != '.';
  }

  /** For bare extensions the check on a whole path is a check on its last segment: that segment
      ends in a dot and an allowed extension, letter case aside. */
  lemma HasExtensionMeaning(path: string, exts: seq<string>) returns (stem: string, ext: string)
    requires forall i :: 0 <= i < |exts| ==> ExtensionText(exts[i])
    requires HasExtension(path, exts)
    ensures LastSegment(path) == stem + "." + ext && ToLower(ext) in exts
  {
    hide HasExtension, ExtensionText, ToLower, LastIndex;
    var dot := DotOfName(path, exts);
    var slash := LastIndex(path, '/');
    stem, ext := path[slash + 1..dot], path[dot + 1..];
    CutAtDot(path, slash + 1, dot);
  }

  lemma DotOfName(path: string, exts: seq<string>) returns (dot: int)
    requires forall i :: 0 <= i < |exts| ==> ExtensionText(exts[i])
    requires HasExtension(path, exts)
    ensures LastIndex(path, '/') < dot < |path| && path[dot] == '.' && ToLower(path[dot + 1..]) in exts
  {
    hide ExtensionText, ToLower, LastIndex;
    dot := LastIndex(path, '.');
    SlashFreeExtension(path[dot + 1..], exts);
    DotAfterSlash(path, LastIndex(path, '/'), dot);
  }

  /** And such a last segment passes. */
  lemma AllowedNamePasses(path: string, exts: seq<string>, stem: string, ext: string)
    requires forall i :: 0 <= i < |exts| ==> ExtensionText(exts[i])
    requires LastSegment(path) == stem + "." + ext && ToLower(ext) in exts
    ensures HasExtension(path, exts)
  {
    hide ToLower, ExtensionText, DirOf, LastSegment, LastIndex;
    PathParts(path);
    BareExtension(ext, exts);
    var front := DirOf(path) + stem;
    assert path == front + "." + ext;
    LastDot(front, ext);
  }

  lemma LastDot(front: string, ext: string)
    requires '.' !in ext
    ensures var s := front + "." + ext; LastIndex(s, '.') == |front| && s[|front| + 1..] == ext
  {
    hide LastIndex;
    var s := front + "." + ext;
    assert s[|front|] == '.';
    assert forall j :: |front| < j < |s| ==> s[j] == ext[j - |front| - 1];
    LastIndexAt(s, '.', |front|);
  }

  lemma BareExtension(ext: string, exts: seq<string>)
    requires forall i :: 0 <= i < |exts| ==> ExtensionText(exts[i])
    requires ToLower(ext) in exts
    ensures ext != "" && '.' !in ext
  {
    var low := ToLower(ext);
    forall i | 0 <= i < |ext|
      ensures ext[i] != '.'
    {
      assert low[i] == Lower(ext[i]);
    }
  }

  lemma CutAtDot(s: string, i: nat, j: nat)
    requires i <= j < |s| && s[j] == '.'
    ensures s[i..] == s[i..j] + "." + s[j + 1..]
  {
  }

  lemma DotAfterSlash(path: string, slash: int, dot: int)
    requires -1 <= slash < |path| && 0 <= dot < |path| && (slash >= 0 ==> path[slash] == '/') && path[dot] == '.'
    requires '/' !in path[dot + 1..]
    ensures slash < dot
  {
    forall j | dot < j < |path|
      ensures path[j] != '/'
    {
      assert path[j] == path[dot + 1..][j - dot - 1];
    }
  }

  lemma SlashFreeExtension(ext: string, exts: seq<string>)
    requires forall i :: 0 <= i < |exts| ==> ExtensionText(exts[i])
    requires ToLower(ext) in exts
    ensures '/' !in ext
  {
    var low := ToLower(ext);
    forall i | 0 <= i < |ext|
      ensures ext[i] != '/'
    {
      assert low[i] == Lower(ext[i]);
    }
  }

  // ---- grants that can exist ----

  /** What `Create` accepts. */
  predicate GrantOk(g: Grant) {
    && ValidPrincipal(g.principal, g.workspace)
    && !Blank(g.backendID)
    && CleanPrefix(g.prefix) == Ok(g.prefix)
    && g.extensions != [] && (forall i :: 0 <= i < |g.extensions| ==> ExtensionText(g.extensions[i]))
    && g.maxBytes > 0
  }

  function ScopeKey(s: Scope): string {
    s.workspace + "\0" + s.principal + "\0" + s.backendID + "\0" + s.prefix
  }

  predicate NulFree(s: string) {
    forall i :: 0 <= i < |s| ==> s[i] != '\0'
  }

  lemma GrantTextIsNulFree(g: Grant)
    requires GrantOk(g)
    ensures NulFree(g.workspace) && NulFree(g.principal) && NulFree(g.prefix)
  {
    CleanPrefixIsNulFree(g.prefix);
    ValidPrincipalMeaning(g.principal, g.workspace);
    var app :| g.principal == AppSubject(g.workspace, app) && Slug(g.workspace) && AppID(app);
    hide GrantOk, ValidPrincipal;
    assert forall i :: 0 <= i < |g.workspace| ==> SlugChar(g.workspace[i]);
    assert forall i :: 0 <= i < |app| ==> AppIDChar(app[i]);
    assert NulFree(SUBJECT_PREFIX) && NulFree(":") && NulFree(app);
    NulFreeAppend(SUBJECT_PREFIX, g.workspace);
    NulFreeAppend(SUBJECT_PREFIX + g.workspace, ":");
    NulFreeAppend(SUBJECT_PREFIX + g.workspace + ":", app);
  }

  lemma NulFreeAppend(a: string, b: string)
    requires NulFree(a) && NulFree(b)
    ensures NulFree(a + b)
  {
  }

  lemma CleanPrefixIsNulFree(prefix: string)
    requires CleanPrefix(prefix) == Ok(prefix)
    ensures NulFree(prefix)
  {
    var q := TrimSuffix(prefix, "/");
    forall i | 0 <= i < |prefix|
      ensures prefix[i] != '\0'
    {
      assert prefix == q + "/";
      assert i < |q| ==> prefix[i] == q[i] && !ForbiddenByte(q[i]);
    }
  }

  lemma CutAtFirst(a: string, x: string, b: string, y: string)
    requires NulFree(a) && NulFree(b) && a + "\0" + x == b + "\0" + y
    ensures a == b && x == y
  {
    var s := a + "\0" + x;
    assert s[|a|] == '\0' && s[|b|] == '\0';
    assert forall i :: 0 <= i < |a| ==> s[i] == a[i];
    assert forall i :: 0 <= i < |b| ==> s[i] == b[i];
    assert |a| == |b|;
    assert a == s[..|a|] == b;
    assert x == s[|a| + 1..] == y;
  }

  lemma CutAtLast(x: string, a: string, y: string, b: string)
    requires NulFree(a) && NulFree(b) && x + "\0" + a == y + "\0" + b
    ensures a == b && x == y
  {
    var s := x + "\0" + a;
    assert s[|x|] == '\0' && s[|y|] == '\0';
    assert forall i :: |x| < i < |s| ==> s[i] == a[i - |x| - 1];
    assert forall i :: |y| < i < |s| ==> s[i] == b[i - |y| - 1];
    assert |x| == |y|;
    assert a == s[|x| + 1..] == b;
    assert x == s[..|x|] == y;
  }

  lemma ScopeKeyParts(s: Scope)
    ensures ScopeKey(s) == s.workspace + "\0" + (s.principal + "\0" + (s.backendID + "\0" + s.prefix))
  {
    var tail := s.backendID + "\0" + s.prefix;
    assert s.principal + "\0" + s.backendID + "\0" + s.prefix == s.principal + "\0" + tail;
    assert ScopeKey(s) == s.workspace + "\0" + (s.principal + "\0" + s.backendID + "\0" + s.prefix);
  }

  /** The key text tells scopes apart, even when a backend ID holds the separator. */
  lemma ScopeKeyInjective(g: Grant, h: Grant)
    requires GrantOk(g) && GrantOk(h)
    ensures ScopeKey(ScopeOf(g)) == ScopeKey(ScopeOf(h)) <==> ScopeOf(g) == ScopeOf(h)
  {
    if ScopeKey(ScopeOf(g)) == ScopeKey(ScopeOf(h)) {
      GrantTextIsNulFree(g);
      GrantTextIsNulFree(h);
      ScopeKeyParts(ScopeOf(g));
      ScopeKeyParts(ScopeOf(h));
      hide GrantOk, NulFree, ScopeKey;
      CutAtFirst(g.workspace, g.principal + "\0" + (g.backendID + "\0" + g.prefix),
                 h.workspace, h.principal + "\0" + (h.backendID + "\0" + h.prefix));
      CutAtFirst(g.principal, g.backendID + "\0" + g.prefix, h.principal, h.backendID + "\0" + h.prefix);
      CutAtLast(g.backendID, g.prefix, h.backendID, h.prefix);
    }
  }

  lemma SomethingAdmitted(prefix: string) returns (path: string)
    requires CleanPrefix(prefix) == Ok(prefix) && !HasSuffix(prefix, "//") && |prefix| < MAX_PATH_LEN
    ensures CleanPath(path).Ok? && DirOf(path) == prefix
  {
    path := prefix + "x";
    SplitSlashFree("x");
    if prefix != "" {
      CleanPrefixShape(prefix);
      var base :| CleanObjectPath(base) && prefix in {base + "/", base + "//"};
      NoDoubledSlash(prefix, base);
      hide CleanPrefix;
      assert path == base + "/" + "x";
      SplitAppend(base, "x");
      assert forall i :: 0 <= i < |path| ==> path[i] == 'x' || path[i] == '/' || (i < |base| && path[i] == base[i]);
      assert CleanObjectPath(path);
    } else {
      assert path == "x" && CleanObjectPath(path);
    }
    CleanPathMeaning(path);
    DirOfChild(prefix, "x");
  }

  lemma NoDoubledSlash(prefix: string, base: string)
    requires prefix in {base + "/", base + "//"} && !HasSuffix(prefix, "//")
    ensures prefix == base + "/" && HasSuffix(prefix, "/")
  {
    assert (base + "//")[|base|..] == "//" && (base + "/")[|base|..] == "/";
  }

  lemma DoubledSlashSegment(d: string, rest: string)
    ensures exists i :: 0 <= i < |Split(d + "//" + rest)| && Split(d + "//" + rest)[i] == ""
  {
    var s := d + "//" + rest;
    assert s == d + "/" + ("/" + rest);
    SplitAppend(d, "/" + rest);
    assert Split("/" + rest)[0] == "";
    assert Split(s)[|Split(d)|] == "";
  }

  lemma AdmittedPrefixIsPlain(prefix: string, path: string)
    requires CleanPath(path).Ok? && DirOf(path) == prefix
    ensures !HasSuffix(prefix, "//") && |prefix| < MAX_PATH_LEN
  {
    CleanPathMeaning(path);
    var name := LastSegment(path);
    assert path == prefix + name;
    assert |path| <= MAX_PATH_LEN;
    NameNotEmpty(path);
    hide CleanPath, DirOf, LastSegment, CheckSegments, CleanObjectPath;
    if HasSuffix(prefix, "//") {
      var d := prefix[..|prefix| - 2];
      assert prefix == d + "//";
      assert path == d + "//" + name;
      DoubledSlashSegment(d, name);
    }
  }

  lemma NameNotEmpty(path: string)
    requires CleanPath(path).Ok?
    ensures LastSegment(path) != ""
  {
    assert path != "" && path[|path| - 1..] == [path[|path| - 1]];
    assert path[|path| - 1] != '/';
  }

  /** Which stored prefixes can admit anything: those with a single trailing slash that leave
      room for a name. A doubled slash, which prefix cleaning lets through, admits nothing. */
  lemma PrefixesThatAdmit(prefix: string)
    requires CleanPrefix(prefix) == Ok(prefix)
    ensures (exists path :: CleanPath(path).Ok? && DirOf(path) == prefix)
       <==> !HasSuffix(prefix, "//") && |prefix| < MAX_PATH_LEN
  {
    hide CleanPath, DirOf, CleanPrefix;
    if !HasSuffix(prefix, "//") && |prefix| < MAX_PATH_LEN {
      var path := SomethingAdmitted(prefix);
    }
    forall path | CleanPath(path).Ok? && DirOf(path) == prefix
      ensures !HasSuffix(prefix, "//") && |prefix| < MAX_PATH_LEN
    {
      AdmittedPrefixIsPlain(prefix, path);
    }
  }
}
