/** What clients rely on when they page through, resume, or browse a filesystem listing. */
module ListingTheorems {
  import opened Outcomes
  import opened Text
  import opened Paths
  import opened Listing

  // ---- the path order ----

  lemma {:induction false} ComparePartsSign(a: seq<string>, b: seq<string>)
    ensures CompareParts(a, b) < 0 <==> CompareParts(b, a) > 0
    ensures CompareParts(a, b) == 0 <==> a == b
  {
    if a != [] && b != [] {
      CompareAntisymmetric(a[0], b[0]);
      CompareAntisymmetric(b[0], a[0]);
      ComparePartsSign(a[1..], b[1..]);
      assert a == [a[0]] + a[1..] && b == [b[0]] + b[1..];
    }
  }

  lemma {:induction false} ComparePartsTransitive(a: seq<string>, b: seq<string>, c: seq<string>)
    requires CompareParts(a, b) < 0 && CompareParts(b, c) < 0
    ensures CompareParts(a, c) < 0
  {
    if a != [] && b != [] && c != [] {
      CompareAntisymmetric(a[0], b[0]);
      CompareAntisymmetric(b[0], c[0]);
      CompareAntisymmetric(a[0], c[0]);
      if a[0] == b[0] == c[0] {
        ComparePartsTransitive(a[1..], b[1..], c[1..]);
      } else if a[0] != b[0] && b[0] != c[0] {
        CompareTransitive(a[0], b[0], c[0]);
      }
    }
  }

  /** `PathOrder` is a total order on paths, up to one trailing slash. */
  lemma PathOrderIsTotal(a: string, b: string, c: string)
    ensures PathOrder(a, b) < 0 <==> PathOrder(b, a) > 0
    ensures PathOrder(a, b) == 0 <==> TrimSuffix(a, "/") == TrimSuffix(b, "/")
    ensures PathOrder(a, b) < 0 && PathOrder(b, c) < 0 ==> PathOrder(a, c) < 0
  {
    ComparePartsSign(Parts(a), Parts(b));
    if Parts(a) == Parts(b) {
      SplitInjective(TrimSuffix(a, "/"), TrimSuffix(b, "/"));
    }
    if PathOrder(a, b) < 0 && PathOrder(b, c) < 0 {
      ComparePartsTransitive(Parts(a), Parts(b), Parts(c));
    }
  }

  /** Two paths that part ways inside `d` are ordered by the names where they part. */
  lemma {:induction false} BranchOrder(d: seq<string>, x: string, y: string, a: seq<string>, b: seq<string>)
    requires d + [x] <= a && d + [y] <= b
    requires Compare(x, y) < 0
    ensures CompareParts(a, b) < 0
  {
    assert a[|d|] == (d + [x])[|d|] && b[|d|] == (d + [y])[|d|];
    if d != [] {
      assert a[0] == (d + [x])[0] == d[0] && b[0] == (d + [y])[0] == d[0];
      assert (d + [x])[1..] == d[1..] + [x] && (d + [y])[1..] == d[1..] + [y];
      BranchOrder(d[1..], x, y, a[1..], b[1..]);
    }
  }

  // ---- listings are strictly ascending ----

  ghost predicate Ascending(all: seq<Entry>) {
    && (forall i :: 0 <= i < |all| ==> all[i].path != "")
    && forall i, j :: 0 <= i < j < |all| ==> PathOrder(all[i].path, all[j].path) < 0
  }

  predicate AllBefore(a: seq<Entry>, b: seq<Entry>) {
    forall i, j :: 0 <= i < |a| && 0 <= j < |b| ==> PathOrder(a[i].path, b[j].path) < 0
  }

  lemma AscendingJoin(a: seq<Entry>, b: seq<Entry>)
    requires Ascending(a) && Ascending(b)
    requires AllBefore(a, b)
    ensures Ascending(a + b)
  {
    hide PathOrder;
    var ab := a + b;
    forall i, j | 0 <= i < j < |ab|
      ensures PathOrder(ab[i].path, ab[j].path) < 0
    {
      if j < |a| {
      } else if i < |a| {
        assert ab[j] == b[j - |a|];
      } else {
        assert ab[i] == b[i - |a|] && ab[j] == b[j - |a|];
      }
    }
  }

  /** Which directory entry a listed path came from. */
  lemma {:induction false} FlattenAllNames(dir: string, es: seq<DirEntry>, i: nat) returns (k: nat)
    requires WellFormedEntries(es) && WalkPath(dir)
    requires i < |FlattenAll(dir, es)|
    ensures k < |es| && !IsTemp(es[k].name)
    ensures Base(dir) + [es[k].name] <= Parts(FlattenAll(dir, es)[i].path)
  {
    hide Compare, Split, Parts, Base, IsTemp, WalkPath, WellFormed, EntryName, Child, Flatten;
    EntriesSplit(es);
    var child := Child(dir, es[0].name);
    var here := Flatten(es[0].name, child, es[0].node);
    assert FlattenAll(dir, es) == here + FlattenAll(dir, es[1..]);
    if i < |here| {
      k := 0;
      ChildParts(dir, es[0].name);
      FlattenUnder(es[0].name, child, es[0].node);
      TempsListNothing(es[0].name, child, es[0].node);
    } else {
      k := FlattenAllNames(dir, es[1..], i - |here|);
      k := k + 1;
    }
  }

  lemma TempsListNothing(name: string, p: string, node: Node)
    ensures IsTemp(name) ==> Flatten(name, p, node) == []
  {
  }

  lemma EntriesSplit(es: seq<DirEntry>)
    requires WellFormedEntries(es) && es != []
    ensures EntryName(es[0].name) && WellFormed(es[0].node) && WellFormedEntries(es[1..])
    ensures forall k :: 0 < k < |es| ==> Compare(es[0].name, es[k].name) < 0
  {
    hide EntryName;
  }

  lemma {:induction false} FlattenAscending(name: string, p: string, node: Node)
    requires WellFormed(node) && WalkPath(p)
    requires p == "." ==> node.Dir?
    ensures Ascending(Flatten(name, p, node))
    decreases node, 0
  {
    if node.Dir? {
      FlattenAllAscending(p, node.entries);
    }
  }

  lemma {:induction false} FlattenAllAscending(dir: string, es: seq<DirEntry>)
    requires WellFormedEntries(es) && WalkPath(dir)
    ensures Ascending(FlattenAll(dir, es))
    decreases es, 1
  {
    hide Ascending, AllBefore, WalkPath, EntryName, Compare, Child, PathOrder;
    if es != [] {
      var name, child := es[0].name, Child(dir, es[0].name);
      EntriesSplit(es);
      ChildParts(dir, name);
      FlattenAscending(name, child, es[0].node);
      FlattenAllAscending(dir, es[1..]);
      HereBeforeLater(dir, es);
      AscendingJoin(Flatten(name, child, es[0].node), FlattenAll(dir, es[1..]));
    } else {
      EmptyAscends();
    }
  }

  lemma EmptyAscends()
    ensures Ascending([])
  {
  }

  /** What the first entry lists comes before what the others list. */
  lemma HereBeforeLater(dir: string, es: seq<DirEntry>)
    requires WellFormedEntries(es) && WalkPath(dir) && es != []
    ensures AllBefore(Flatten(es[0].name, Child(dir, es[0].name), es[0].node), FlattenAll(dir, es[1..]))
  {
    hide WalkPath, EntryName, WellFormed, Compare, Child, Flatten, FlattenAll, Base, Parts;
    var name, child := es[0].name, Child(dir, es[0].name);
    var here, later := Flatten(name, child, es[0].node), FlattenAll(dir, es[1..]);
    EntriesSplit(es);
    ChildParts(dir, name);
    FlattenUnder(name, child, es[0].node);
    forall i, j | 0 <= i < |here| && 0 <= j < |later|
      ensures PathOrder(here[i].path, later[j].path) < 0
    {
      var k := FlattenAllNames(dir, es[1..], j);
      BranchOrder(Base(dir), name, es[1..][k].name, Parts(here[i].path), Parts(later[j].path));
    }
  }

  /** A listing prefix: the root, or text ending in a slash. */
  predicate PrefixText(prefix: string) {
    prefix == "" || HasSuffix(prefix, "/")
  }

  function PrefixParts(prefix: string): seq<string> {
    if prefix == "" then [] else Split(prefix[..|prefix| - 1])
  }

  lemma ShownParts(prefix: string, e: DirEntry)
    requires PrefixText(prefix) && EntryName(e.name)
    ensures Parts(ShownPath(prefix, e)) == PrefixParts(prefix) + [e.name]
    ensures ShownPath(prefix, e) != ""
  {
    var path := prefix + e.name;
    assert Split(path) == PrefixParts(prefix) + [e.name] by {
      SplitSlashFree(e.name);
      if prefix == "" {
        assert path == e.name;
      } else {
        var q := prefix[..|prefix| - 1];
        assert prefix == q + prefix[|prefix| - 1..];
        SplitAppend(q, e.name);
        assert path == q + "/" + e.name;
      }
    }
    TrimSlash(path);
    TrimNoSlash(path);
  }

  /** Which directory entry a shown path came from. */
  lemma {:induction false} LevelNames(prefix: string, es: seq<DirEntry>, j: nat) returns (k: nat)
    requires PrefixText(prefix) && WellFormedEntries(es)
    requires j < |Level(prefix, es)|
    ensures k < |es| && !IsTemp(es[k].name)
    ensures Level(prefix, es)[j] == ShownEntry(prefix, es[k])
    ensures Parts(Level(prefix, es)[j].path) == PrefixParts(prefix) + [es[k].name]
    ensures Level(prefix, es)[j].path != ""
  {
    hide Compare, Parts, PrefixText, PrefixParts, IsTemp;
    ShownParts(prefix, es[0]);
    if j < |Shown(prefix, es[0])| {
      k := 0;
    } else {
      k := LevelNames(prefix, es[1..], j - |Shown(prefix, es[0])|);
      k := k + 1;
    }
  }

  lemma {:induction false} LevelAscending(prefix: string, es: seq<DirEntry>)
    requires PrefixText(prefix) && WellFormedEntries(es)
    ensures Ascending(Level(prefix, es))
  {
    hide Compare, CompareParts, Parts, PrefixText, PrefixParts, IsTemp;
    if es != [] {
      var here, later := Shown(prefix, es[0]), Level(prefix, es[1..]);
      ShownParts(prefix, es[0]);
      LevelAscending(prefix, es[1..]);
      forall i, j | 0 <= i < |here| && 0 <= j < |later|
        ensures PathOrder(here[i].path, later[j].path) < 0
      {
        var k := LevelNames(prefix, es[1..], j);
        BranchOrder(PrefixParts(prefix), es[0].name, es[1..][k].name, Parts(here[i].path), Parts(later[j].path));
      }
      AscendingJoin(here, later);
    }
  }

  lemma StartIsWalkPath(prefix: string)
    requires CleanPrefix(prefix) == Ok(prefix) && !RefusedByWalk(StartDir(prefix))
    ensures WalkPath(StartDir(prefix))
  {
    var start := StartDir(prefix);
    assert start[|start| - 1..] == [start[|start| - 1]];
  }

  lemma FullListingAscending(root: Node, prefix: string, recursive: bool)
    requires WellFormed(root) && root.Dir?
    requires CleanPrefix(prefix) == Ok(prefix)
    requires recursive ==> !RefusedByWalk(StartDir(prefix))
    ensures Ascending(FullListing(root, prefix, recursive))
  {
    hide Flatten, Level, PathOrder, CheckSegments, Lookup, WellFormedEntries, Split;
    var start := StartDir(prefix);
    var found := Resolve(root, start);
    if found.Some? && found.value.Dir? {
      if start != "." {
        LookupWellFormed(root, Parts(start));
      }
      if recursive {
        StartIsWalkPath(prefix);
        FlattenAscending(LastSegment(start), start, found.value);
      } else {
        assert PrefixText(prefix) by {
          if prefix != "" {
            assert prefix == TrimSuffix(prefix, "/") + "/";
          }
        }
        LevelAscending(prefix, found.value.entries);
      }
    }
  }

  // ---- resuming and paging ----

  lemma {:induction false} AllAfter(all: seq<Entry>, cursor: string)
    requires forall i :: 0 <= i < |all| ==> IsAfter(all[i].path, cursor)
    ensures After(all, cursor) == all
  {
    hide IsAfter;
    if all != [] {
      AllAfter(all[1..], cursor);
    }
  }

  lemma AfterSplit(all: seq<Entry>, k: nat, cursor: string)
    requires k <= |all|
    requires forall i :: 0 <= i < k ==> !IsAfter(all[i].path, cursor)
    requires forall i :: k <= i < |all| ==> IsAfter(all[i].path, cursor)
    ensures After(all, cursor) == all[k..]
  {
    hide IsAfter, After;
    assert all == all[..k] + all[k..];
    AfterAppend(all[..k], all[k..], cursor);
    NoneAfter(all[..k], cursor);
    AllAfter(all[k..], cursor);
  }

  /** Resuming at an entry yields exactly the entries that follow it. */
  lemma ResumeAtEntry(all: seq<Entry>, k: nat)
    requires Ascending(all) && k < |all|
    ensures After(all, all[k].path) == all[k + 1..]
  {
    hide After, PathOrder;
    var cursor := all[k].path;
    forall i | 0 <= i < |all|
      ensures IsAfter(all[i].path, cursor) <==> i > k
    {
      PathOrderIsTotal(all[i].path, cursor, cursor);
      PathOrderIsTotal(cursor, all[i].path, cursor);
    }
    AfterSplit(all, k + 1, cursor);
  }

  /** Whatever the cursor text, what comes after it is a tail of the listing. */
  lemma {:induction false} AfterIsTail(all: seq<Entry>, cursor: string) returns (k: nat)
    requires Ascending(all)
    ensures k <= |all| && After(all, cursor) == all[k..]
  {
    if all == [] {
      k := 0;
    } else if IsAfter(all[0].path, cursor) {
      forall i | 0 < i < |all|
        ensures IsAfter(all[i].path, cursor)
      {
        PathOrderIsTotal(cursor, all[0].path, all[i].path);
        PathOrderIsTotal(all[i].path, cursor, cursor);
      }
      k := 0;
      AllAfter(all, cursor);
    } else {
      k := AfterIsTail(all[1..], cursor);
      k := k + 1;
    }
  }

  lemma NextPageIsShorter(all: seq<Entry>, limit: nat, cursor: string)
    requires Ascending(all) && limit >= 1
    ensures
      var page := Page(all, limit, cursor);
      if page.nextCursor == "" then
        page.entries == After(all, cursor) && |page.entries| <= limit
      else
        && |page.entries| == limit
        && page.entries + After(all, page.nextCursor) == After(all, cursor)
  {
    hide After, PathOrder;
    var k := AfterIsTail(all, cursor);
    var rest := After(all, cursor);
    if |rest| > limit {
      assert rest[limit - 1] == all[k + limit - 1];
      ResumeAtEntry(all, k + limit - 1);
      assert rest[..limit] + all[k + limit..] == rest;
    }
  }

  /** The pages a client gets by following `nextCursor` until it is empty. */
  ghost function FollowPages(root: Node, opts: ListOptions): (pages: seq<ListResult>)
    requires WellFormed(root) && root.Dir?
    requires ListOutcome(root, opts).Ok?
    ensures |pages| >= 1
    decreases |After(FullListing(root, CleanPrefix(opts.prefix).value, opts.recursive), opts.cursor)|
  {
    var page := ListOutcome(root, opts).value;
    if page.nextCursor == "" then [page]
    else
      PageOfFullListing(root, opts);
      [page] + FollowPages(root, opts.(cursor := page.nextCursor))
  }

  lemma PageOfFullListing(root: Node, opts: ListOptions)
    requires WellFormed(root) && root.Dir?
    requires ListOutcome(root, opts).Ok?
    ensures
      var all := FullListing(root, CleanPrefix(opts.prefix).value, opts.recursive);
      var page := ListOutcome(root, opts).value;
      && (page.nextCursor == "" ==>
            page.entries == After(all, opts.cursor) && |page.entries| <= EffectiveLimit(opts.limit))
      && (page.nextCursor != "" ==>
            && ListOutcome(root, opts.(cursor := page.nextCursor)).Ok?
            && |page.entries| == EffectiveLimit(opts.limit)
            && page.entries + After(all, page.nextCursor) == After(all, opts.cursor))
  {
    var prefix := CleanPrefix(opts.prefix).value;
    CleanPrefixIdempotent(opts.prefix);
    var found := Resolve(root, StartDir(prefix));
    if found.Some? && found.value.Dir? {
      FullListingAscending(root, prefix, opts.recursive);
      NextPageIsShorter(FullListing(root, prefix, opts.recursive), EffectiveLimit(opts.limit), opts.cursor);
    }
  }

  function EntriesOf(pages: seq<ListResult>): seq<Entry> {
    if pages == [] then [] else pages[0].entries + EntriesOf(pages[1..])
  }

  /** Following `nextCursor` terminates (it is a function), and the pages together are exactly
      what comes after the starting cursor. */
  lemma {:induction false} PagesAreTheListing(root: Node, opts: ListOptions)
    requires WellFormed(root) && root.Dir?
    requires ListOutcome(root, opts).Ok?
    ensures EntriesOf(FollowPages(root, opts))
         == After(FullListing(root, CleanPrefix(opts.prefix).value, opts.recursive), opts.cursor)
    decreases |After(FullListing(root, CleanPrefix(opts.prefix).value, opts.recursive), opts.cursor)|
  {
    hide FullListing, After, ListOutcome, CleanPrefix, WellFormed;
    PageOfFullListing(root, opts);
    var page := ListOutcome(root, opts).value;
    if page.nextCursor == "" {
      assert EntriesOf([page]) == page.entries + [];
    } else {
      var next := opts.(cursor := page.nextCursor);
      PagesAreTheListing(root, next);
      assert ([page] + FollowPages(root, next))[1..] == FollowPages(root, next);
    }
  }

  /** Every page but the last is full. */
  lemma {:induction false} PagesAreFull(root: Node, opts: ListOptions)
    requires WellFormed(root) && root.Dir?
    requires ListOutcome(root, opts).Ok?
    ensures
      var pages := FollowPages(root, opts);
      && (forall i :: 0 <= i < |pages| - 1 ==> |pages[i].entries| == EffectiveLimit(opts.limit))
      && |pages[|pages| - 1].entries| <= EffectiveLimit(opts.limit)
    decreases |After(FullListing(root, CleanPrefix(opts.prefix).value, opts.recursive), opts.cursor)|
  {
    hide FullListing, After, ListOutcome, CleanPrefix, WellFormed, EffectiveLimit;
    PageOfFullListing(root, opts);
    var page := ListOutcome(root, opts).value;
    if page.nextCursor != "" {
      PagesAreFull(root, opts.(cursor := page.nextCursor));
    }
  }

  /** From the empty cursor: the whole listing, in order, and no path twice. */
  lemma PagingFromTheStart(root: Node, opts: ListOptions)
    requires WellFormed(root) && root.Dir?
    requires opts.cursor == "" && ListOutcome(root, opts).Ok?
    ensures
      var all := FullListing(root, CleanPrefix(opts.prefix).value, opts.recursive);
      && EntriesOf(FollowPages(root, opts)) == all
      && forall i, j :: 0 <= i < j < |all| ==> all[i].path != all[j].path
  {
    var prefix := CleanPrefix(opts.prefix).value;
    var all := FullListing(root, prefix, opts.recursive);
    PagesAreTheListing(root, opts);
    AllAfter(all, "");
    CleanPrefixIdempotent(opts.prefix);
    var found := Resolve(root, StartDir(prefix));
    if found.Some? && found.value.Dir? {
      FullListingAscending(root, prefix, opts.recursive);
      forall i, j | 0 <= i < j < |all|
        ensures all[i].path != all[j].path
      {
        PathOrderIsTotal(all[i].path, all[j].path, "");
      }
    }
  }
}
