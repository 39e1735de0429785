/** The filesystem kind's listing: a cursor-paged pre-order walk with subtree pruning
    (recursive mode) and a cursor-paged directory read (non-recursive mode). */
module Listing {
  import opened Outcomes
  import opened Text
  import opened Paths

  /** A directory tree. Anything that is neither a regular file nor a directory is `Special`. */
  datatype Node = File(size: nat) | Dir(entries: seq<DirEntry>) | Special

  datatype DirEntry = DirEntry(name: string, node: Node)

  datatype Entry = Entry(path: string, isDir: bool, size: nat)

  datatype ListOptions = ListOptions(prefix: string, recursive: bool, limit: int, cursor: string)

  datatype ListResult = ListResult(entries: seq<Entry>, nextCursor: string)

  const TEMP_PREFIX := ".booth-tmp-"

  predicate IsTemp(name: string) {
    TEMP_PREFIX <= name
  }

  predicate EntryName(name: string) {
    PlainSegment(name) && '/' !in name
  }

  /** Entries are in the order a sorted directory read yields: strictly ascending names. */
  predicate WellFormed(node: Node)
    decreases node, 0
  {
    node.Dir? ==> WellFormedEntries(node.entries)
  }

  predicate WellFormedEntries(es: seq<DirEntry>)
    decreases es, 1
  {
    && (forall i :: 0 <= i < |es| ==> EntryName(es[i].name) && WellFormed(es[i].node))
    && forall i, j :: 0 <= i < j < |es| ==> Compare(es[i].name, es[j].name) < 0
  }

  // ---- path order ----

  function Parts(p: string): (parts: seq<string>)
    ensures |parts| >= 1
  {
    Split(TrimSuffix(p, "/"))
  }

  /** Segment by segment; a proper ancestor comes first. */
  function CompareParts(a: seq<string>, b: seq<string>): int {
    if a == [] || b == [] then |a| - |b|
    else if Compare(a[0], b[0]) != 0 then Compare(a[0], b[0])
    else CompareParts(a[1..], b[1..])
  }

  function PathOrder(a: string, b: string): int {
    CompareParts(Parts(a), Parts(b))
  }

  method ComparePaths(a: string, b: string) returns (c: int)
    ensures c == PathOrder(a, b)
  {
    var xs, ys := Split(TrimSuffix(a, "/")), Split(TrimSuffix(b, "/"));
    var i := 0;
    while i < |xs| && i < |ys|
      invariant 0 <= i <= |xs| && i <= |ys|
      invariant CompareParts(xs, ys) == CompareParts(xs[i..], ys[i..])
    {
      c := Compare(xs[i], ys[i]);
      if c != 0 {
        return;
      }
      assert xs[i..][1..] == xs[i + 1..] && ys[i..][1..] == ys[i + 1..];
      i := i + 1;
    }
    return |xs| - |ys|;
  }

  predicate IsAfter(path: string, cursor: string) {
    cursor == "" || PathOrder(path, cursor) > 0
  }

  method AfterCursor(path: string, cursor: string) returns (after: bool)
    ensures after == IsAfter(path, cursor)
  {
    if cursor == "" {
      return true;
    }
    var c := ComparePaths(path, cursor);
    after := c > 0;
  }

  // ---- what a listing means ----

  function Child(dir: string, name: string): string {
    if dir == "." then name else dir + "/" + name
  }

  /** The unpruned, unpaged recursive listing of `node`, which sits at `p` and is called `name`. */
  function Flatten(name: string, p: string, node: Node): seq<Entry>
    decreases node, 0
  {
    if IsTemp(name) then []
    else
      match node
      case File(size) => [Entry(p, false, size)]
      case Special => []
      case Dir(es) => FlattenAll(p, es)
  }

  function FlattenAll(dir: string, es: seq<DirEntry>): seq<Entry>
    decreases es, 1
  {
    if es == [] then []
    else
      Flatten(es[0].name, Child(dir, es[0].name), es[0].node) + FlattenAll(dir, es[1..])
  }

  /** One entry of a directory, as a non-recursive listing reports it. */
  function Shown(prefix: string, e: DirEntry): seq<Entry> {
    if IsTemp(e.name) then []
    else
      match e.node
      case Dir(_) => [Entry(prefix + e.name + "/", true, 0)]
      case File(size) => [Entry(prefix + e.name, false, size)]
      case Special => []
  }

  /** The unpaged non-recursive listing of one directory. */
  function Level(prefix: string, es: seq<DirEntry>): seq<Entry> {
    if es == [] then [] else Shown(prefix, es[0]) + Level(prefix, es[1..])
  }

  function After(es: seq<Entry>, cursor: string): seq<Entry> {
    if es == [] then []
    else (if IsAfter(es[0].path, cursor) then [es[0]] else []) + After(es[1..], cursor)
  }

  function Take(es: seq<Entry>, n: nat): (t: seq<Entry>)
    ensures |t| == if |es| <= n then |es| else n
  {
    if |es| <= n then es else es[..n]
  }

  function Page(all: seq<Entry>, limit: nat, cursor: string): ListResult
    requires limit >= 1
  {
    var rest := After(all, cursor);
    if |rest| <= limit then ListResult(rest, "")
    else ListResult(rest[..limit], rest[limit - 1].path)
  }

  function Lookup(node: Node, segments: seq<string>): Option<Node>
    decreases |segments|, 1, 0
  {
    if segments == [] then Some(node)
    else if node.Dir? then LookupIn(node.entries, segments)
    else None
  }

  function LookupIn(es: seq<DirEntry>, segments: seq<string>): Option<Node>
    requires segments != []
    decreases |segments|, 0, |es|
  {
    if es == [] then None
    else if es[0].name == segments[0] then Lookup(es[0].node, segments[1..])
    else LookupIn(es[1..], segments)
  }

  function StartDir(prefix: string): string {
    if TrimSuffix(prefix, "/") == "" then "." else TrimSuffix(prefix, "/")
  }

  function Resolve(root: Node, startDir: string): Option<Node> {
    if startDir == "." then Some(root) else Lookup(root, Parts(startDir))
  }

  /** A doubled trailing slash survives prefix cleaning; the walk then starts at a path the
      io/fs rules reject, while a plain directory read still works. */
  predicate RefusedByWalk(startDir: string) {
    HasSuffix(startDir, "/")
  }

  /** Everything under an accepted prefix, unpaged. */
  function FullListing(root: Node, prefix: string, recursive: bool): seq<Entry> {
    var start := StartDir(prefix);
    match Resolve(root, start)
    case Some(Dir(es)) =>
      if recursive then Flatten(LastSegment(start), start, Dir(es)) else Level(prefix, es)
    case _ => []
  }

  function ListOutcome(root: Node, opts: ListOptions): Result<ListResult, BackendError> {
    match CleanPrefix(opts.prefix)
    case Err(e) => Err(e)
    case Ok(prefix) =>
      var found := Resolve(root, StartDir(prefix));
      if found.None? || !found.value.Dir? then Ok(ListResult([], ""))
      else if opts.recursive && RefusedByWalk(StartDir(prefix)) then Err(OtherFailure)
      else Ok(Page(FullListing(root, prefix, opts.recursive), EffectiveLimit(opts.limit), opts.cursor))
  }

  // ---- facts the loops use ----

  lemma {:induction false} AfterAppend(a: seq<Entry>, b: seq<Entry>, cursor: string)
    ensures After(a + b, cursor) == After(a, cursor) + After(b, cursor)
    decreases |a|
  {
    hide After;
    if a == [] {
      NoneToList(cursor);
      assert a + b == b;
    } else {
      var first, rest := [a[0]], a[1..];
      assert a == first + rest && a + b == first + (rest + b);
      AfterFirst(a[0], rest, cursor);
      AfterFirst(a[0], rest + b, cursor);
      AfterAppend(rest, b, cursor);
      assert After(first, cursor) + (After(rest, cursor) + After(b, cursor))
          == (After(first, cursor) + After(rest, cursor)) + After(b, cursor);
    }
  }

  lemma NoneToList(cursor: string)
    ensures After([], cursor) == []
  {
  }

  lemma AfterFirst(e: Entry, rest: seq<Entry>, cursor: string)
    ensures After([e] + rest, cursor) == After([e], cursor) + After(rest, cursor)
  {
    hide IsAfter;
    assert ([e] + rest)[1..] == rest && [e][1..] == [];
  }

  /** Appending one child's entries and cutting, then the rest and cutting, is the same as
      cutting once at the end. */
  lemma CutAsYouGo(out: seq<Entry>, here: seq<Entry>, later: seq<Entry>, cursor: string, n: nat)
    ensures Take(Take(out + After(here, cursor), n) + After(later, cursor), n)
         == Take(out + After(here + later, cursor), n)
  {
    hide Take, After;
    AfterAppend(here, later, cursor);
    CutTwice(out + After(here, cursor), After(later, cursor), n);
    assert out + (After(here, cursor) + After(later, cursor))
        == (out + After(here, cursor)) + After(later, cursor);
  }

  lemma CutTwice(a: seq<Entry>, b: seq<Entry>, n: nat)
    ensures Take(Take(a, n) + b, n) == Take(a + b, n)
  {
    if |a| > n {
      assert (a[..n] + b)[..n] == a[..n] == (a + b)[..n];
    }
  }

  /** A full page takes nothing more. */
  lemma CutFull(out: seq<Entry>, rest: seq<Entry>, n: nat)
    requires |out| == n
    ensures Take(out + rest, n) == out
  {
  }

  lemma CutEntry(out: seq<Entry>, dir: string, es: seq<DirEntry>, i: nat, cursor: string, n: nat)
    requires i < |es|
    ensures
      var here := Flatten(es[i].name, Child(dir, es[i].name), es[i].node);
      Take(Take(out + After(here, cursor), n) + After(FlattenAll(dir, es[i + 1..]), cursor), n)
      == Take(out + After(FlattenAll(dir, es[i..]), cursor), n)
  {
    assert es[i..][0] == es[i] && es[i..][1..] == es[i + 1..];
    CutAsYouGo(out, Flatten(es[i].name, Child(dir, es[i].name), es[i].node), FlattenAll(dir, es[i + 1..]), cursor, n);
  }

  function ShownPath(prefix: string, e: DirEntry): string {
    if e.node.Dir? then prefix + e.name + "/" else prefix + e.name
  }

  predicate ShownAfter(prefix: string, e: DirEntry, cursor: string) {
    !IsTemp(e.name) && !e.node.Special? && IsAfter(ShownPath(prefix, e), cursor)
  }

  function ShownEntry(prefix: string, e: DirEntry): Entry {
    Entry(ShownPath(prefix, e), e.node.Dir?, if e.node.File? then e.node.size else 0)
  }

  /** One turn of the directory read, on the entries still to come. */
  lemma CutShown(out: seq<Entry>, prefix: string, es: seq<DirEntry>, i: nat, cursor: string, n: nat)
    requires i < |es| && |out| < n
    ensures
      Take((if ShownAfter(prefix, es[i], cursor) then out + [ShownEntry(prefix, es[i])] else out)
           + After(Level(prefix, es[i + 1..]), cursor), n)
      == Take(out + After(Level(prefix, es[i..]), cursor), n)
  {
    assert es[i..][0] == es[i] && es[i..][1..] == es[i + 1..];
    AfterShown(prefix, es[i], cursor);
    hide After, Shown, ShownEntry, ShownAfter;
    CutAsYouGo(out, Shown(prefix, es[i]), Level(prefix, es[i + 1..]), cursor, n);
    hide Level;
    var here := After(Shown(prefix, es[i]), cursor);
    assert |here| <= 1 && Take(out + here, n) == out + here;
    assert here == [] ==> out + here == out;
  }

  lemma AfterShown(prefix: string, e: DirEntry, cursor: string)
    ensures After(Shown(prefix, e), cursor)
         == if ShownAfter(prefix, e, cursor) then [ShownEntry(prefix, e)] else []
  {
    hide IsAfter, After;
    AfterAtMostOne(ShownEntry(prefix, e), cursor);
  }

  lemma AfterAtMostOne(e: Entry, cursor: string)
    ensures After([], cursor) == []
    ensures After([e], cursor) == if IsAfter(e.path, cursor) then [e] else []
  {
    hide IsAfter;
  }

  lemma TakeAll(out: seq<Entry>, n: nat)
    requires |out| <= n
    ensures Take(out + [], n) == out
  {
  }

  lemma DirIsItsEntries(name: string, p: string, node: Node)
    requires WellFormed(node) && node.Dir?
    ensures !IsTemp(name) ==> Flatten(name, p, node) == FlattenAll(p, node.entries)
    ensures forall i :: 0 <= i < |node.entries| ==> EntryName(node.entries[i].name) && WellFormed(node.entries[i].node)
  {
  }

  lemma CutNothing(out: seq<Entry>, dir: string, cursor: string, n: nat)
    requires |out| <= n
    ensures Take(out + After(FlattenAll(dir, []), cursor), n) == out
    ensures Take(out + After(Level(dir, []), cursor), n) == out
  {
    assert out + After([], cursor) == out;
  }

  lemma PageFromCut(all: seq<Entry>, limit: nat, cursor: string)
    requires limit >= 1
    ensures
      var cut := Take(After(all, cursor), limit + 1);
      Page(all, limit, cursor)
      == if |cut| > limit then ListResult(cut[..limit], cut[limit - 1].path) else ListResult(cut, "")
  {
  }

  /** The segments of a directory the walk visits; the root has none. */
  function Base(p: string): seq<string> {
    if p == "." then [] else Split(p)
  }

  predicate WalkPath(p: string) {
    p != "" && p[|p| - 1] != '/'
  }

  lemma ChildParts(dir: string, name: string)
    requires WalkPath(dir) && EntryName(name)
    ensures WalkPath(Child(dir, name)) && Child(dir, name) != "."
    ensures Base(Child(dir, name)) == Base(dir) + [name]
    ensures Parts(Child(dir, name)) == Base(dir) + [name]
  {
    SplitSlashFree(name);
    SplitAppend(dir, name);
    TrimNoSlash(Child(dir, name));
    if dir != "." {
      assert Child(dir, name)[|dir|] == '/';
    }
  }

  /** Every entry of a subtree lies at or below the subtree's own path. */
  lemma {:induction false} FlattenUnder(name: string, p: string, node: Node)
    requires WellFormed(node) && WalkPath(p)
    requires p == "." ==> node.Dir?
    ensures forall i :: 0 <= i < |Flatten(name, p, node)| ==>
              && WalkPath(Flatten(name, p, node)[i].path)
              && Base(p) <= Parts(Flatten(name, p, node)[i].path)
    decreases node, 0
  {
    match node {
      case File(_) => TrimNoSlash(p);
      case Special =>
      case Dir(es) => FlattenAllUnder(p, es);
    }
  }

  lemma {:induction false} FlattenAllUnder(dir: string, es: seq<DirEntry>)
    requires WellFormedEntries(es) && WalkPath(dir)
    ensures forall i :: 0 <= i < |FlattenAll(dir, es)| ==>
              && WalkPath(FlattenAll(dir, es)[i].path)
              && Base(dir) <= Parts(FlattenAll(dir, es)[i].path)
    decreases es, 1
  {
    if es != [] {
      ChildParts(dir, es[0].name);
      FlattenUnder(es[0].name, Child(dir, es[0].name), es[0].node);
      FlattenAllUnder(dir, es[1..]);
    }
  }

  lemma PrefixTail(p: seq<string>, c: seq<string>)
    requires p != [] && c != [] && p[0] == c[0]
    ensures p[1..] <= c[1..] ==> p <= c
  {
    assert p == [p[0]] + p[1..];
    assert c == [c[0]] + c[1..];
  }

  lemma {:induction false} BelowBefore(p: seq<string>, q: seq<string>, c: seq<string>)
    requires p <= q && !(p <= c) && CompareParts(p, c) < 0
    ensures CompareParts(q, c) < 0
  {
    if p != [] && c != [] && Compare(p[0], c[0]) == 0 {
      CompareAntisymmetric(p[0], c[0]);
      PrefixTail(p, c);
      BelowBefore(p[1..], q[1..], c[1..]);
    }
  }

  /** The resume optimization is sound for every cursor text: a directory that compares
      before the cursor and is not an ancestor of it holds nothing after the cursor. */
  lemma PruneIsSafe(name: string, p: string, node: Node, cursor: string)
    requires WellFormed(node) && WalkPath(p) && p != "."
    requires cursor != "" && PathOrder(p, cursor) < 0 && !(p + "/" <= cursor)
    ensures After(Flatten(name, p, node), cursor) == []
  {
    TrimNoSlash(p);
    var c := TrimSuffix(cursor, "/");
    if Split(p) <= Split(c) {
      if |Split(p)| == |Split(c)| {
        SplitInjective(p, c);
        CompareSelf(Parts(p));
        assert false;
      } else {
        SplitPrefix(p, c);
        assert false;
      }
    }
    FlattenUnder(name, p, node);
    var all := Flatten(name, p, node);
    forall i | 0 <= i < |all|
      ensures !IsAfter(all[i].path, cursor)
    {
      BelowBefore(Parts(p), Parts(all[i].path), Parts(cursor));
    }
    NoneAfter(all, cursor);
  }

  lemma {:induction false} CompareSelf(a: seq<string>)
    ensures CompareParts(a, a) == 0
  {
    if a != [] {
      CompareSelf(a[1..]);
    }
  }

  lemma {:induction false} NoneAfter(all: seq<Entry>, cursor: string)
    requires forall i :: 0 <= i < |all| ==> !IsAfter(all[i].path, cursor)
    ensures After(all, cursor) == []
  {
    if all != [] {
      NoneAfter(all[1..], cursor);
    }
  }

  // ---- the walk ----

  datatype Action = Continue | SkipDir | PageFull

  /** One listing in progress. `out` collects at most `limit + 1` entries: the extra one only
      tells whether another page exists. */
  class Walk {
    const limit: nat
    const cursor: string
    var out: seq<Entry>

    constructor (limit: nat, cursor: string)
      ensures this.limit == limit && this.cursor == cursor && out == []
    {
      this.limit, this.cursor, this.out := limit, cursor, [];
    }

    predicate Full()
      reads this
    {
      |out| > limit
    }

    /** What the walk does on one node. Descending is left to `WalkDir`. */
    method Visit(p: string, name: string, node: Node) returns (action: Action)
      requires WellFormed(node) && WalkPath(p) && (p == "." ==> node.Dir?)
      requires |out| <= limit
      modifies this
      ensures action == PageFull <==> Full()
      ensures node.Dir? ==> out == old(out) && action != PageFull
      ensures !node.Dir? ==>
                && action != SkipDir
                && out == Take(old(out) + After(Flatten(name, p, node), cursor), limit + 1)
      ensures node.Dir? && action == SkipDir ==> After(Flatten(name, p, node), cursor) == []
      ensures node.Dir? && action == Continue ==> !IsTemp(name)
    {
      if TEMP_PREFIX <= name {
        return if node.Dir? then SkipDir else Continue;
      }
      if node.Dir? {
        if cursor != "" && p != "." {
          var c := ComparePaths(p, cursor);
          if c < 0 && !(p + "/" <= cursor) {
            PruneIsSafe(name, p, node, cursor);
            return SkipDir;
          }
        }
        return Continue;
      }
      if !node.File? {
        return Continue;
      }
      var after := AfterCursor(p, cursor);
      if !after {
        return Continue;
      }
      out := out + [Entry(p, false, node.size)];
      return if |out| > limit then PageFull else Continue;
    }

    /** The walk over `node`: the unpruned listing, cut at the cursor and at the page size. */
    method WalkDir(p: string, name: string, node: Node) returns (done: bool)
      requires WellFormed(node) && WalkPath(p) && (p == "." ==> node.Dir?)
      requires |out| <= limit
      modifies this
      ensures out == Take(old(out) + After(Flatten(name, p, node), cursor), limit + 1)
      ensures done <==> Full()
      decreases node
    {
      hide After, CompareParts, IsAfter, PathOrder, Parts, Split, Compare, FlattenAll, Level, Base, Join;
      hide Take, Flatten, WellFormed, WellFormedEntries, EntryName, IsTemp, Child, WalkPath;
      TakeAll(out, limit + 1);
      var action := Visit(p, name, node);
      if action == PageFull {
        return true;
      }
      if action == SkipDir || !node.Dir? {
        return false;
      }
      DirIsItsEntries(name, p, node);
      var es := node.entries;
      ghost var goal := Take(out + After(FlattenAll(p, es), cursor), limit + 1);
      assert es[0..] == es;
      var i := 0;
      while i < |es|
        invariant 0 <= i <= |es|
        invariant |out| <= limit
        invariant Take(out + After(FlattenAll(p, es[i..]), cursor), limit + 1) == goal
      {
        DirIsItsEntries(name, p, node);
        ChildParts(p, es[i].name);
        CutEntry(out, p, es, i, cursor, limit + 1);
        done := WalkDir(Child(p, es[i].name), es[i].name, es[i].node);
        if done {
          CutFull(out, After(FlattenAll(p, es[i + 1..]), cursor), limit + 1);
          return true;
        }
        i := i + 1;
      }
      assert es[i..] == [];
      CutNothing(out, p, cursor, limit + 1);
      return false;
    }

    /** The non-recursive counterpart: one directory's own entries. */
    method ListDir(prefix: string, es: seq<DirEntry>)
      requires out == []
      modifies this
      ensures out == Take(After(Level(prefix, es), cursor), limit + 1)
    {
      hide After, CompareParts, IsAfter, PathOrder, Parts, Split, Compare, FlattenAll, Level, Base, Join;
      ghost var goal := Take(After(Level(prefix, es), cursor), limit + 1);
      assert es[0..] == es && out + After(Level(prefix, es), cursor) == After(Level(prefix, es), cursor);
      var i := 0;
      while i < |es|
        invariant 0 <= i <= |es|
        invariant |out| <= limit
        invariant Take(out + After(Level(prefix, es[i..]), cursor), limit + 1) == goal
      {
        CutShown(out, prefix, es, i, cursor, limit + 1);
        var e := es[i];
        i := i + 1;
        if TEMP_PREFIX <= e.name {
          continue;
        }
        var path := prefix + e.name;
        match e.node {
          case Dir(_) =>
            path := path + "/";
            var after := AfterCursor(path, cursor);
            if !after {
              continue;
            }
            out := out + [Entry(path, true, 0)];
          case File(size) =>
            var after := AfterCursor(path, cursor);
            if !after {
              continue;
            }
            out := out + [Entry(path, false, size)];
          case Special =>
            continue;
        }
        if |out| > limit {
          return;
        }
      }
      assert es[i..] == [];
      CutNothing(out, prefix, cursor, limit + 1);
    }
  }

  method List(root: Node, opts: ListOptions) returns (res: Result<ListResult, BackendError>)
    requires WellFormed(root) && root.Dir?
    ensures res == ListOutcome(root, opts)
  {
    hide CleanPrefix, Lookup, WellFormed, Parts, TrimSuffix, RefusedByWalk, Page, Flatten, Level, LastSegment, EffectiveLimit;
    var cleaned := CleanPrefix(opts.prefix);
    if cleaned.Err? {
      return Err(cleaned.error);
    }
    var prefix := cleaned.value;
    var startDir := TrimSuffix(prefix, "/");
    if startDir == "" {
      startDir := ".";
    }
    var node := root;
    if startDir != "." {
      var st := Lookup(root, Parts(startDir));
      if st.None? || !st.value.Dir? {
        return Ok(ListResult([], ""));
      }
      node := st.value;
      LookupWellFormed(root, Parts(startDir));
    }
    res := ListFrom(prefix, startDir, node, opts);
  }

  /** The part of `List` past the prefix checks: collect one page and cut it. */
  method ListFrom(prefix: string, startDir: string, node: Node, opts: ListOptions)
    returns (res: Result<ListResult, BackendError>)
    requires WellFormed(node) && node.Dir? && startDir != ""
    ensures res ==
      if opts.recursive && RefusedByWalk(startDir) then Err(OtherFailure)
      else
        var all := if opts.recursive then Flatten(LastSegment(startDir), startDir, node) else Level(prefix, node.entries);
        Ok(Page(all, EffectiveLimit(opts.limit), opts.cursor))
  {
    hide After, Flatten, Level, WellFormed;
    var limit := EffectiveLimit(opts.limit);
    ghost var all := if opts.recursive then Flatten(LastSegment(startDir), startDir, node) else Level(prefix, node.entries);
    var walk := new Walk(limit, opts.cursor);
    if opts.recursive {
      if HasSuffix(startDir, "/") {
        return Err(OtherFailure);
      }
      assert WalkPath(startDir) by {
        assert startDir[|startDir| - 1..] == [startDir[|startDir| - 1]];
      }
      var _ := walk.WalkDir(startDir, LastSegment(startDir), node);
    } else {
      walk.ListDir(prefix, node.entries);
    }
    var entries := walk.out;
    assert entries == Take(After(all, opts.cursor), limit + 1);
    PageFromCut(all, limit, opts.cursor);
    hide Page, Take;
    if |entries| > limit {
      return Ok(ListResult(entries[..limit], entries[limit - 1].path));
    }
    return Ok(ListResult(entries, ""));
  }

  lemma {:induction false} LookupWellFormed(node: Node, segments: seq<string>)
    requires WellFormed(node) && Lookup(node, segments).Some?
    ensures WellFormed(Lookup(node, segments).value)
    decreases |segments|, 1, 0
  {
    if segments != [] {
      LookupInWellFormed(node.entries, segments);
    }
  }

  lemma {:induction false} LookupInWellFormed(es: seq<DirEntry>, segments: seq<string>)
    requires segments != [] && WellFormedEntries(es) && LookupIn(es, segments).Some?
    ensures WellFormed(LookupIn(es, segments).value)
    decreases |segments|, 0, |es|
  {
    if es[0].name == segments[0] {
      LookupWellFormed(es[0].node, segments[1..]);
    } else {
      LookupInWellFormed(es[1..], segments);
    }
  }
}
