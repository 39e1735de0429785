/** Path rules every storage kind shares: cleaning of object paths, listing prefixes and
    folders, and the clamp on a listing's limit. */
module Paths {
  import opened Outcomes
  import opened Text

  const MAX_PATH_LEN := 1024
  const DEFAULT_LIST_LIMIT := 200
  const MAX_LIST_LIMIT := 1000

  predicate ForbiddenByte(c: char) {
    c == '\0' || c == '\\'
  }

  predicate PlainSegment(seg: string) {
    seg != "" && seg != "." && seg != ".."
  }

  predicate CheckSegments(p: string) {
    && |p| <= MAX_PATH_LEN
    && (forall i :: 0 <= i < |p| ==> !ForbiddenByte(p[i]))
    && var segs := Split(TrimSuffix(p, "/"));
       forall i :: 0 <= i < |segs| ==> PlainSegment(segs[i])
  }

  function CleanPath(p: string): Result<string, BackendError> {
    if p == "" then Err(InvalidPath)
    else if !CheckSegments(p) then Err(InvalidPath)
    else if HasSuffix(p, "/") then Err(InvalidPath)
    else Ok(p)
  }

  function CleanPrefix(p: string): Result<string, BackendError> {
    var q := TrimSuffix(p, "/");
    if q == "" then Ok("")
    else if !CheckSegments(q) then Err(InvalidPath)
    else Ok(q + "/")
  }

  function CleanFolder(p: string): Result<string, BackendError> {
    var prefix := CleanPrefix(p);
    if prefix.Err? then prefix
    else if prefix.value == "" then Err(InvalidPath)
    else prefix
  }

  function EffectiveLimit(limit: int): (n: int)
    ensures limit <= 0 ==> n == 200
    ensures 1 <= limit <= 1000 ==> n == limit
    ensures limit > 1000 ==> n == 1000
  {
    if limit <= 0 then DEFAULT_LIST_LIMIT
    else if limit > MAX_LIST_LIMIT then MAX_LIST_LIMIT
    else limit
  }

  /** What an accepted object path is, without reference to trimming. */
  predicate CleanObjectPath(p: string) {
    && |p| <= MAX_PATH_LEN
    && (forall i :: 0 <= i < |p| ==> !ForbiddenByte(p[i]))
    && forall i :: 0 <= i < |Split(p)| ==> PlainSegment(Split(p)[i])
  }

  /** The rules on the texts: a segment "." or ".." or an empty one anywhere refuses a path, and so
      does a NUL or a backslash anywhere. */
  lemma RefusedPaths(a: string, b: string)
    ensures CleanPath(a + "/../" + b).Err? && CleanPath(a + "/./" + b).Err? && CleanPath(a + "//" + b).Err?
    ensures CleanPath("../" + b).Err? && CleanPath("./" + b).Err? && CleanPath("/" + b).Err?
    ensures CleanPath(a + "/..").Err? && CleanPath(a + "/.").Err? && CleanPath(a + "/").Err?
    ensures CleanPath("..").Err? && CleanPath(".").Err? && CleanPath("").Err?
    ensures CleanPath(a + "\\" + b).Err? && CleanPath(a + "\0" + b).Err?
  {
    hide CleanPath;
    Dotted(a, "..", b);
    Dotted(a, ".", b);
    Dotted(a, "", b);
    assert a + "/" + "" + "/" + b == a + "//" + b && a + "/" + "" == a + "/" && "" + "/" + b == "/" + b;
    assert a + "/" + ".." + "/" + b == a + "/../" + b && a + "/" + ".." == a + "/..";
    assert a + "/" + "." + "/" + b == a + "/./" + b && a + "/" + "." == a + "/.";
    assert ".." + "/" + b == "../" + b && "." + "/" + b == "./" + b;
    Forbidden(a, '\\', b);
    Forbidden(a, '\0', b);
    assert a + ['\\'] + b == a + "\\" + b && a + ['\0'] + b == a + "\0" + b;
  }

  lemma Dotted(a: string, seg: string, b: string)
    requires seg == ".." || seg == "." || seg == ""
    ensures CleanPath(a + "/" + seg + "/" + b).Err? && CleanPath(a + "/" + seg).Err?
    ensures CleanPath(seg + "/" + b).Err? && CleanPath(seg).Err?
  {
    CleanPathMeaning(a + "/" + seg + "/" + b);
    CleanPathMeaning(a + "/" + seg);
    CleanPathMeaning(seg + "/" + b);
    CleanPathMeaning(seg);
    SplitSlashFree(seg);
    SplitAppend(a, seg);
    SplitAppend(seg, b);
    SplitAppend(a + "/" + seg, b);
    hide Split, CleanPath;
    assert Split(a + "/" + seg)[|Split(a)|] == seg;
    assert Split(seg + "/" + b)[0] == seg;
    assert Split(a + "/" + seg + "/" + b)[|Split(a)|] == seg;
    assert Split(seg)[0] == seg;
  }

  lemma Forbidden(a: string, c: char, b: string)
    requires c == '\\' || c == '\0'
    ensures CleanPath(a + [c] + b).Err?
  {
    assert (a + [c] + b)[|a|] == c;
  }

  /** And a plain name of any other bytes, up to 1024, is accepted. */
  lemma PlainNamesAreAccepted(name: string)
    requires 1 <= |name| && name != "." && name != ".."
    requires forall i :: 0 <= i < |name| ==> name[i] != '/' && name[i] != '\\' && name[i] != '\0'
    ensures CleanPath(name) == if |name| <= 1024 then Ok(name) else Err(InvalidPath)
  {
    SplitSlashFree(name);
    assert Split(name)[0] == name;
    TrimNoSlash(name);
    assert name[|name| - 1..] == [name[|name| - 1]];
  }

  lemma SplitTrailingSlash(e: string)
    requires HasSuffix(e, "/")
    ensures Split(e) == Split(TrimSuffix(e, "/")) + [""]
  {
    var t := TrimSuffix(e, "/");
    assert e == t + "/" + "" by {
      assert e == e[..|e| - 1] + e[|e| - 1..];
    }
    SplitAppend(t, "");
  }

  lemma CleanPathMeaning(p: string)
    ensures CleanPath(p).Ok? <==> CleanObjectPath(p)
    ensures CleanPath(p).Ok? ==> CleanPath(p).value == p
  {
    if HasSuffix(p, "/") {
      SplitTrailingSlash(p);
      assert Split(p)[|Split(p)| - 1] == "";
    } else if p == "" {
      assert Split(p)[0] == "";
    }
  }

  /** Every accepted prefix is the root, a clean path and one slash, or (because the segment
      check trims one more slash) a clean path and two. */
  lemma CleanPrefixShape(p: string)
    requires CleanPrefix(p).Ok? && CleanPrefix(p).value != ""
    ensures exists base :: CleanObjectPath(base)
              && CleanPrefix(p).value in {base + "/", base + "//"}
  {
    var q := TrimSuffix(p, "/");
    var base := TrimSuffix(q, "/");
    assert CleanObjectPath(base) by {
      assert base <= q;
    }
    if HasSuffix(q, "/") {
      assert q == base + "/" by {
        assert q == q[..|q| - 1] + q[|q| - 1..];
      }
      assert q + "/" == base + "//";
    }
  }

  /** Which prefixes are accepted, on the text as given: the root, and a clean path with no, one or two
      slashes behind it, the first of two counting towards the length. */
  lemma CleanPrefixAccepts(p: string)
    ensures CleanPrefix(p).Ok? <==>
              p == "" || p == "/" || exists base :: CleanObjectPath(base) && GivenAs(p, base)
  {
    var q := TrimSuffix(p, "/");
    var base := TrimSuffix(q, "/");
    if q != "" && CheckSegments(q) {
      assert p == q || p == q + "/" by {
        assert HasSuffix(p, "/") ==> p == p[..|p| - 1] + p[|p| - 1..];
      }
      assert q == base || q == base + "/" by {
        assert HasSuffix(q, "/") ==> q == q[..|q| - 1] + q[|q| - 1..];
      }
      CleanBase(q);
      assert GivenAs(p, base) by {
        assert q == base + "/" && p == q + "/" ==> p == base + "//";
        assert q == base + "/" && p == q ==> !HasSuffix(p, "/") && HasSuffix(q, "/") by {
          assert (base + "/")[|base|..] == "/";
        }
      }
    }
    forall b: string | CleanObjectPath(b) && GivenAs(p, b)
      ensures CleanPrefix(p).Ok?
    {
      GivenIsAccepted(p, b);
    }
    if p == "/" {
      assert p[..0] == "" && p[0..] == "/";
    }
  }

  predicate GivenAs(p: string, base: string) {
    p == base || p == base + "/" || (p == base + "//" && |base| < 1024)
  }

  lemma CleanBase(q: string)
    requires q != "" && CheckSegments(q)
    ensures CleanObjectPath(TrimSuffix(q, "/"))
    ensures HasSuffix(q, "/") ==> |TrimSuffix(q, "/")| < 1024
  {
    assert TrimSuffix(q, "/") <= q;
  }

  lemma GivenIsAccepted(p: string, base: string)
    requires CleanObjectPath(base) && GivenAs(p, base)
    ensures CleanPrefix(p) == Ok(if p == base + "//" then p else base + "/")
  {
    CleanSlashed(base);
    if p == base + "//" {
      TrimSlash(base + "/");
      TrimSlash(base);
      assert p == base + "/" + "/" && p[..|p| - 1] == base + "/" && p[|p| - 1..] == "/";
      assert CheckSegments(base + "/");
    } else {
      assert |p| <= |base| + 1;
    }
  }

  /** How the result comes from the text: the root for "" and "/", else the text with one slash
      added if it has none at its end. So a doubled slash at the end of the result is one the text
      had, as in "a//". */
  lemma CleanPrefixText(p: string)
    requires CleanPrefix(p).Ok?
    ensures CleanPrefix(p).value == if p in {"", "/"} then "" else if HasSuffix(p, "/") then p else p + "/"
    ensures HasSuffix(CleanPrefix(p).value, "//") <==> HasSuffix(p, "//")
  {
    var q := TrimSuffix(p, "/");
    if HasSuffix(p, "/") {
      assert p == q + "/";
    } else {
      assert q == p;
      assert p != "" ==> (p + "/")[|p + "/"| - 2..] == [p[|p| - 1], '/'] && p[|p| - 1..] == [p[|p| - 1]];
    }
    assert HasSuffix(p, "//") && |p| == 2 ==> p == "//" && q == "/";
    assert TrimSuffix("/", "/") == "" && Split("")[0] == "";
  }

  /** The doubled slash is accepted, and kept. */
  lemma DoubledSlashIsKept()
    ensures CleanPrefix("a//") == Ok("a//")
  {
    var p, q := "a//", "a/";
    assert p[2..] == "/" && TrimSuffix(p, "/") == q;
    assert q[1..] == "/" && TrimSuffix(q, "/") == "a";
    SplitSlashFree("a");
    assert Split("a")[0] == "a";
    assert CheckSegments(q) && q + "/" == p;
  }

  /** An accepted folder is a path and a slash, and a key has that text as a prefix exactly when it
      lies below the folder segment by segment. */
  lemma CleanFolderIsABoundary(p: string, key: string) returns (folder: string)
    requires CleanFolder(p).Ok?
    ensures folder != "" && CleanFolder(p).value == folder + "/"
    ensures CleanFolder(p).value <= key <==> Split(folder) <= Split(key) && |Split(folder)| < |Split(key)|
  {
    folder := TrimSuffix(p, "/");
    SegmentBoundary(folder, key);
  }

  /** Which folders are accepted, on the text as given, and as what: any prefix but the root. */
  lemma CleanFolderAccepts(p: string)
    ensures CleanFolder(p).Ok? <==> exists base :: CleanObjectPath(base) && GivenAs(p, base)
    ensures CleanFolder(p).Ok? ==> CleanFolder(p) == Ok(if HasSuffix(p, "/") then p else p + "/")
  {
    hide CleanPrefix, CleanObjectPath, GivenAs;
    CleanPrefixAccepts(p);
    if p == "" || p == "/" {
      RootIsNoFolder(p);
    } else if CleanPrefix(p).Ok? {
      CleanPrefixText(p);
    }
  }

  lemma RootIsNoFolder(p: string)
    requires p == "" || p == "/"
    ensures CleanPrefix(p) == Ok("") && !exists base :: CleanObjectPath(base) && GivenAs(p, base)
  {
    assert p == "/" ==> p[..0] == "" && p[0..] == "/";
    assert Split("")[0] == "" && Split("/")[0] == "";
    assert !CleanObjectPath("") && !CleanObjectPath("/");
    forall base: string | GivenAs(p, base)
      ensures base == "" || base == "/"
    {
      assert p == base + "/" ==> base == "";
      assert p == base + "//" ==> |p| == |base| + 2;
    }
  }

  /** For text ending in a slash, prefix matching is matching at a segment boundary. */
  lemma SegmentBoundary(folder: string, key: string)
    ensures folder + "/" <= key <==> Split(folder) <= Split(key) && |Split(folder)| < |Split(key)|
  {
    if folder + "/" <= key {
      var rest := key[|folder| + 1..];
      assert key == folder + "/" + rest;
      SplitAppend(folder, rest);
    }
    if Split(folder) <= Split(key) && |Split(folder)| < |Split(key)| {
      SplitPrefix(folder, key);
    }
  }

  lemma CleanPrefixIdempotent(p: string)
    requires CleanPrefix(p).Ok?
    ensures CleanPrefix(CleanPrefix(p).value) == CleanPrefix(p)
  {
    TrimSlash(TrimSuffix(p, "/"));
  }

  lemma CleanSlashed(base: string)
    requires CleanObjectPath(base)
    ensures CleanPrefix(base + "/") == Ok(base + "/")
    ensures CleanPrefix(base) == Ok(base + "/")
  {
    CleanPathMeaning(base);
    assert Split("")[0] == "";
    TrimSlash(base);
  }

  /** An ancestor of a clean path is clean. */
  lemma CleanAncestor(d: string, rest: string)
    requires CleanObjectPath(d + "/" + rest)
    ensures CleanObjectPath(d)
  {
    var p := d + "/" + rest;
    SplitAppend(d, rest);
    forall i | 0 <= i < |Split(d)|
      ensures PlainSegment(Split(d)[i])
    {
      assert Split(p)[i] == Split(d)[i];
    }
    forall i | 0 <= i < |d|
      ensures !ForbiddenByte(d[i])
    {
      assert p[i] == d[i];
    }
  }

  /** The directory of an accepted object path is a fixed point of `CleanPrefix`. */
  lemma DirOfIsClean(p: string)
    requires CleanPath(p).Ok?
    ensures CleanPrefix(DirOf(p)) == Ok(DirOf(p))
  {
    hide DirOf, LastSegment, CleanObjectPath, CheckSegments;
    CleanPathMeaning(p);
    PathParts(p);
    var d, name := DirOf(p), LastSegment(p);
    if d != "" {
      var e := d[..|d| - 1];
      assert d == e + "/" && d + name == e + "/" + name;
      CleanAncestor(e, name);
      CleanSlashed(e);
    }
  }
}
