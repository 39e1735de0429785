/** Recursive listing against browsing: listing one folder at a time and descending into
    every directory entry that can be named in a request. */
module Browsing {
  import opened Outcomes
  import opened Text
  import opened Paths
  import opened Listing
  import opened ListingTheorems

  /** The files a client reaches from one directory's non-recursive listing by listing each
      directory entry in turn. A directory whose path the path rules refuse is a dead end. */
  function Browse(prefix: string, es: seq<DirEntry>): seq<Entry>
    decreases es, 1
  {
    if es == [] then [] else BrowseEntry(prefix, es[0]) + Browse(prefix, es[1..])
  }

  function BrowseEntry(prefix: string, e: DirEntry): seq<Entry>
    decreases e, 0
  {
    if !IsTemp(e.name) && e.node.Dir? then
      if CleanPrefix(ShownPath(prefix, e)).Ok? then Browse(ShownPath(prefix, e), e.node.entries) else []
    else
      Shown(prefix, e)
  }

  /** The folder holding the file can itself be listed. */
  predicate Browsable(e: Entry) {
    CleanPrefix(DirOf(e.path)).Ok?
  }

  function BrowsableOnly(all: seq<Entry>): seq<Entry> {
    if all == [] then []
    else (if Browsable(all[0]) then [all[0]] else []) + BrowsableOnly(all[1..])
  }

  predicate CleanStart(prefix: string) {
    CleanPrefix(prefix) == Ok(prefix) && !RefusedByWalk(StartDir(prefix))
  }

  lemma {:induction false} BrowsableAppend(a: seq<Entry>, b: seq<Entry>)
    ensures BrowsableOnly(a + b) == BrowsableOnly(a) + BrowsableOnly(b)
  {
    hide Browsable;
    if a == [] {
      assert a + b == b;
    } else {
      assert (a + b)[0] == a[0] && (a + b)[1..] == a[1..] + b;
      BrowsableAppend(a[1..], b);
      var head := if Browsable(a[0]) then [a[0]] else [];
      assert head + (BrowsableOnly(a[1..]) + BrowsableOnly(b)) == head + BrowsableOnly(a[1..]) + BrowsableOnly(b);
    }
  }

  lemma {:induction false} BrowsableFixpoint(all: seq<Entry>)
    ensures BrowsableOnly(all) == all <==> forall i :: 0 <= i < |all| ==> Browsable(all[i])
    ensures |BrowsableOnly(all)| <= |all|
  {
    hide Browsable;
    if all != [] {
      BrowsableFixpoint(all[1..]);
      if Browsable(all[0]) {
        assert BrowsableOnly(all)[1..] == BrowsableOnly(all[1..]);
      }
    }
  }

  lemma CleanStartShape(prefix: string)
    requires CleanStart(prefix)
    ensures WalkPath(StartDir(prefix)) && PrefixText(prefix)
    ensures prefix != "" ==> StartDir(prefix) != "." && prefix == StartDir(prefix) + "/"
    ensures forall name :: Child(StartDir(prefix), name) == prefix + name
  {
    StartIsWalkPath(prefix);
    var q := TrimSuffix(prefix, "/");
    if prefix != "" {
      assert prefix == q + "/" == q + prefix[|q|..];
      TrimNoSlash(".");
      SplitSlashFree(".");
      assert Split(TrimSuffix(".", "/"))[0] == ".";
    }
  }

  /** A directory below a clean start: its own listing prefix, when accepted, is a clean start. */
  lemma ChildStart(prefix: string, name: string)
    requires CleanStart(prefix) && EntryName(name)
    ensures
      var d := prefix + name + "/";
      CleanPrefix(d).Ok? ==> CleanStart(d) && StartDir(d) == prefix + name
  {
    var c := prefix + name;
    TrimSlash(c);
    assert c[|c| - 1..] == [c[|c| - 1]];
  }

  /** Nothing below a directory with a refused path is browsable. */
  lemma RefusedBelow(c: string, path: string)
    requires c != "" && c[|c| - 1] != '/' && c + "/" <= path
    requires CleanPrefix(c + "/").Err?
    ensures CleanPrefix(DirOf(path)).Err?
  {
    hide CleanPrefix, CleanObjectPath, DirOf, HasSuffix;
    FolderAbove(c, path);
    var d := DirOf(path);
    if CleanPrefix(d).Ok? {
      var base := RefusedBelowBase(d);
      BaseIsBelow(c, d, base);
      if base != c {
        PrefixRest(c + "/", base);
        CleanAncestor(c, base[|c| + 1..]);
      }
      CleanSlashed(c);
      assert false;
    }
  }

  lemma FolderAbove(c: string, path: string)
    requires c != "" && c + "/" <= path
    ensures c + "/" <= DirOf(path) && |DirOf(path)| >= 2 && HasSuffix(DirOf(path), "/")
  {
    hide LastIndex;
    assert path[|c|] == (c + "/")[|c|] == '/';
    var d := DirOf(path);
    assert d[|d| - 1..] == [d[|d| - 1]];
  }

  lemma BaseIsBelow(c: string, d: string, base: string)
    requires c != "" && c[|c| - 1] != '/' && c + "/" <= d
    requires d == base + "/" || d == base + "//"
    ensures base == c || c + "/" <= base
  {
    assert d[|c| - 1] == c[|c| - 1] && (base + "//")[|base|] == '/';
    if |base| == |c| {
      assert base == d[..|c|] == c;
    } else {
      assert base[..|c| + 1] == d[..|c| + 1] == c + "/";
    }
  }

  lemma RefusedBelowBase(d: string) returns (base: string)
    requires HasSuffix(d, "/") && |d| >= 2
    requires CleanPrefix(d).Ok?
    ensures CleanObjectPath(base) && d in {base + "/", base + "//"}
  {
    assert d == d[..|d| - 1] + d[|d| - 1..];
    CleanPrefixShape(d);
    base :| CleanObjectPath(base) && CleanPrefix(d).value in {base + "/", base + "//"};
  }

  lemma {:induction false} NothingBrowsable(all: seq<Entry>)
    requires forall i :: 0 <= i < |all| ==> !Browsable(all[i])
    ensures BrowsableOnly(all) == []
  {
    hide Browsable;
    if all != [] {
      NothingBrowsable(all[1..]);
    }
  }

  lemma BelowRefused(c: string, es: seq<DirEntry>)
    requires WalkPath(c) && c != "." && WellFormedEntries(es)
    requires CleanPrefix(c + "/").Err?
    ensures BrowsableOnly(FlattenAll(c, es)) == []
  {
    hide CleanPrefix, FlattenAll;
    var all := FlattenAll(c, es);
    forall i | 0 <= i < |all|
      ensures !Browsable(all[i])
    {
      var k := FlattenAllNames(c, es, i);
      FlattenAllUnder(c, es);
      TrimNoSlash(all[i].path);
      SplitPrefix(c, all[i].path);
      RefusedBelow(c, all[i].path);
    }
    NothingBrowsable(all);
  }

  lemma BrowseLeaf(prefix: string, e: DirEntry)
    requires CleanStart(prefix) && EntryName(e.name)
    requires IsTemp(e.name) || !e.node.Dir?
    ensures BrowseEntry(prefix, e) == BrowsableOnly(Flatten(e.name, prefix + e.name, e.node))
  {
    hide *;
    if e.node.File? && !IsTemp(e.name) {
      LeafIsBrowsable(prefix, e.name, e.node.size);
      LeafShown(prefix, e);
      OnlyOne(Entry(prefix + e.name, false, e.node.size));
    } else {
      LeafHidden(prefix, e);
    }
  }

  lemma LeafIsBrowsable(prefix: string, name: string, size: nat)
    requires CleanStart(prefix) && EntryName(name)
    ensures Browsable(Entry(prefix + name, false, size))
  {
    hide DirOf, LastIndex, Split, CheckSegments;
    CleanStartShape(prefix);
    assert prefix != "" ==> prefix[|prefix| - 1..] == "/";
    DirOfChild(prefix, name);
  }

  lemma LeafShown(prefix: string, e: DirEntry)
    requires e.node.File? && !IsTemp(e.name)
    ensures BrowseEntry(prefix, e) == [Entry(prefix + e.name, false, e.node.size)] == Flatten(e.name, prefix + e.name, e.node)
  {
    hide IsTemp, CleanPrefix;
  }

  lemma LeafHidden(prefix: string, e: DirEntry)
    requires IsTemp(e.name) || e.node.Special?
    ensures BrowseEntry(prefix, e) == [] == BrowsableOnly(Flatten(e.name, prefix + e.name, e.node))
  {
    hide IsTemp, CleanPrefix;
  }

  lemma OnlyOne(e: Entry)
    requires Browsable(e)
    ensures BrowsableOnly([e]) == [e]
  {
    hide Browsable;
    assert [e][1..] == [];
  }

  lemma {:induction false} BrowseEntryFinds(prefix: string, e: DirEntry)
    requires CleanStart(prefix) && EntryName(e.name) && WellFormed(e.node)
    ensures BrowseEntry(prefix, e) == BrowsableOnly(Flatten(e.name, prefix + e.name, e.node))
    decreases e, 0
  {
    hide CleanPrefix, CleanStart, StartDir, FlattenAll, Browse, Base, Split, Parts, WalkPath, IsTemp, PrefixText, BrowsableOnly;
    if IsTemp(e.name) || !e.node.Dir? {
      BrowseLeaf(prefix, e);
    } else {
      CleanStartShape(prefix);
      ChildParts(StartDir(prefix), e.name);
      if CleanPrefix(prefix + e.name + "/").Ok? {
        ChildStart(prefix, e.name);
        BrowseFinds(prefix + e.name + "/", e.node.entries);
      } else {
        BelowRefused(prefix + e.name, e.node.entries);
      }
    }
  }

  /** Browsing finds exactly the recursive listing's files whose folder can be named in a
      request, in the same order. */
  lemma {:induction false} BrowseFinds(prefix: string, es: seq<DirEntry>)
    requires CleanStart(prefix) && WellFormedEntries(es)
    ensures Browse(prefix, es) == BrowsableOnly(FlattenAll(StartDir(prefix), es))
    decreases es, 1
  {
    hide CleanStart, BrowsableOnly, BrowseEntry, Flatten;
    if es == [] {
      BrowsableFixpoint([]);
    } else {
      CleanStartShape(prefix);
      BrowseEntryFinds(prefix, es[0]);
      BrowseFinds(prefix, es[1..]);
      BrowsableAppend(Flatten(es[0].name, prefix + es[0].name, es[0].node), FlattenAll(StartDir(prefix), es[1..]));
    }
  }

  /** When the recursive listing and browsing agree, and what each holds when they do not.
      A start folder that itself carries the temp prefix lists nothing recursively. */
  lemma RecursiveAgainstBrowsing(root: Node, prefix: string)
    requires WellFormed(root) && root.Dir? && CleanStart(prefix)
    requires Resolve(root, StartDir(prefix)).Some? && Resolve(root, StartDir(prefix)).value.Dir?
    ensures
      var es := Resolve(root, StartDir(prefix)).value.entries;
      var recursive := FullListing(root, prefix, true);
      if IsTemp(LastSegment(StartDir(prefix))) then recursive == []
      else
        && Browse(prefix, es) == BrowsableOnly(recursive)
        && (Browse(prefix, es) == recursive <==>
              forall i :: 0 <= i < |recursive| ==> CleanPrefix(DirOf(recursive[i].path)).Ok?)
  {
    hide Browse, FlattenAll, CleanPrefix, IsTemp, Lookup, BrowsableOnly;
    var start := StartDir(prefix);
    if start != "." {
      LookupWellFormed(root, Parts(start));
    }
    var es := Resolve(root, start).value.entries;
    var recursive := FullListing(root, prefix, true);
    assert recursive == if IsTemp(LastSegment(start)) then [] else FlattenAll(start, es);
    BrowseFinds(prefix, es);
    hide FullListing, Resolve, StartDir, Parts, LastSegment, DirOf, WellFormed, WellFormedEntries;
    BrowsableFixpoint(recursive);
  }

  function OneFileFolder(folder: string, file: string, size: nat): Node {
    Dir([DirEntry(folder, Dir([DirEntry(file, File(size))]))])
  }

  /** A folder name with a backslash, say `a\b`: its file is listed recursively and is out of
      reach when browsing. */
  lemma BackslashFolderIsADeadEnd(folder: string, file: string, size: nat)
    requires EntryName(folder) && !IsTemp(folder) && '\\' in folder
    requires EntryName(file) && !IsTemp(file)
    ensures
      var root := OneFileFolder(folder, file, size);
      && FullListing(root, "", true) == [Entry(folder + "/" + file, false, size)]
      && Browse("", root.entries) == []
  {
    hide *;
    var leaf := DirEntry(file, File(size));
    var top := DirEntry(folder, Dir([leaf]));
    BackslashIsRefused(folder);
    RootListsAll([top]);
    SingleEntry(".", "", top);
    SingleEntry(folder, folder + "/", leaf);
    FileAndFolder(folder, file, size);
  }

  lemma FileAndFolder(folder: string, file: string, size: nat)
    requires EntryName(folder) && !IsTemp(folder)
    requires EntryName(file) && !IsTemp(file)
    requires CleanPrefix(folder + "/").Err?
    ensures var root := OneFileFolder(folder, file, size); root.Dir? && root.entries == [DirEntry(folder, Dir([DirEntry(file, File(size))]))]
    ensures Flatten(file, Child(folder, file), File(size)) == [Entry(folder + "/" + file, false, size)]
    ensures Flatten(folder, Child(".", folder), Dir([DirEntry(file, File(size))])) == FlattenAll(folder, [DirEntry(file, File(size))])
    ensures BrowseEntry("", DirEntry(folder, Dir([DirEntry(file, File(size))]))) == []
  {
    hide IsTemp, CleanPrefix, FlattenAll, Browse;
    assert "" + folder + "/" == folder + "/";
  }

  lemma SingleEntry(dir: string, prefix: string, e: DirEntry)
    ensures FlattenAll(dir, [e]) == Flatten(e.name, Child(dir, e.name), e.node)
    ensures Browse(prefix, [e]) == BrowseEntry(prefix, e)
  {
    hide Flatten, BrowseEntry;
    assert [e][1..] == [];
    assert FlattenAll(dir, [e]) == Flatten(e.name, Child(dir, e.name), e.node) + FlattenAll(dir, []);
    assert Browse(prefix, [e]) == BrowseEntry(prefix, e) + Browse(prefix, []);
  }

  lemma BackslashIsRefused(folder: string)
    requires '\\' in folder
    ensures CleanPrefix(folder + "/").Err?
  {
    TrimSlash(folder);
    hide Split;
  }

  lemma RootListsAll(es: seq<DirEntry>)
    ensures FullListing(Dir(es), "", true) == FlattenAll(".", es)
  {
    hide FlattenAll;
    LastIndexAt(".", '/', -1);
    assert LastSegment(".") == ".";
  }

  /** A start folder carrying the temp prefix: nothing recursively, its files otherwise. */
  lemma TempStartListsNothingRecursively(folder: string, file: string, size: nat)
    requires EntryName(folder) && IsTemp(folder)
    requires EntryName(file) && !IsTemp(file)
    ensures
      var root := OneFileFolder(folder, file, size);
      && FullListing(root, folder + "/", true) == []
      && FullListing(root, folder + "/", false) == [Entry(folder + "/" + file, false, size)]
  {
    var inner := [DirEntry(file, File(size))];
    var es := [DirEntry(folder, Dir(inner))];
    hide IsTemp, CheckSegments;
    TrimSlash(folder);
    TrimNoSlash(folder);
    SplitSlashFree(folder);
    LastIndexAt(folder, '/', -1);
    assert [folder][1..] == [];
    assert Lookup(Dir(es), [folder]) == LookupIn(es, [folder]) == Lookup(Dir(inner), []);
    hide Lookup, Split, LastIndex;
    assert inner[1..] == [];
    assert Level(folder + "/", inner) == Shown(folder + "/", inner[0]) + Level(folder + "/", []);
  }

  // ---- browsing is what `List` answers ----

  lemma {:induction false} LookupStep(node: Node, segments: seq<string>, name: string)
    requires Lookup(node, segments).Some? && Lookup(node, segments).value.Dir?
    ensures Lookup(node, segments + [name]) == LookupIn(Lookup(node, segments).value.entries, [name])
    decreases |segments|, 1, 0
  {
    if segments == [] {
      assert [] + [name] == [name];
    } else {
      LookupInStep(node.entries, segments, name);
    }
  }

  lemma {:induction false} LookupInStep(es: seq<DirEntry>, segments: seq<string>, name: string)
    requires segments != []
    requires LookupIn(es, segments).Some? && LookupIn(es, segments).value.Dir?
    ensures LookupIn(es, segments + [name]) == LookupIn(LookupIn(es, segments).value.entries, [name])
    decreases |segments|, 0, |es|
  {
    if es[0].name == segments[0] {
      assert (segments + [name])[1..] == segments[1..] + [name];
      LookupStep(es[0].node, segments[1..], name);
    } else {
      LookupInStep(es[1..], segments, name);
    }
  }

  lemma {:induction false} LookupName(es: seq<DirEntry>, k: nat)
    requires WellFormedEntries(es) && k < |es|
    ensures LookupIn(es, [es[k].name]) == Some(es[k].node)
  {
    if k == 0 {
      assert [es[0].name][1..] == [];
    } else {
      CompareAntisymmetric(es[0].name, es[k].name);
      assert es[k] == es[1..][k - 1];
      LookupName(es[1..], k - 1);
    }
  }

  lemma ChildResolves(root: Node, prefix: string, k: nat)
    requires WellFormed(root) && root.Dir? && CleanStart(prefix)
    requires Resolve(root, StartDir(prefix)).Some? && Resolve(root, StartDir(prefix)).value.Dir?
    requires k < |Resolve(root, StartDir(prefix)).value.entries|
    ensures
      var e := Resolve(root, StartDir(prefix)).value.entries[k];
      EntryName(e.name) && Resolve(root, prefix + e.name) == Some(e.node)
  {
    hide Lookup, LookupIn, CheckSegments;
    var start := StartDir(prefix);
    var es := Resolve(root, start).value.entries;
    CleanStartShape(prefix);
    if start != "." {
      LookupWellFormed(root, Parts(start));
      TrimNoSlash(start);
    }
    EntryIsNamed(es, k);
    hide StartDir, WellFormedEntries;
    ChildParts(start, es[k].name);
    LookupNothing(root);
    LookupStep(root, Base(start), es[k].name);
    LookupName(es, k);
  }

  /** Listing the path a directory entry was shown under answers that directory's own level,
      or the path is refused: the step `Browse` takes is the request a client makes. */
  lemma DescendingIsListing(root: Node, prefix: string, k: nat, limit: int, cursor: string)
    requires WellFormed(root) && root.Dir? && CleanStart(prefix)
    requires Resolve(root, StartDir(prefix)).Some? && Resolve(root, StartDir(prefix)).value.Dir?
    requires k < |Resolve(root, StartDir(prefix)).value.entries|
    requires Resolve(root, StartDir(prefix)).value.entries[k].node.Dir?
    ensures
      var e := Resolve(root, StartDir(prefix)).value.entries[k];
      var d := ShownPath(prefix, e);
      ListOutcome(root, ListOptions(d, false, limit, cursor))
      == if CleanPrefix(d).Err? then Err(InvalidPath)
         else Ok(Page(Level(d, e.node.entries), EffectiveLimit(limit), cursor))
  {
    ChildResolves(root, prefix, k);
    var e := Resolve(root, StartDir(prefix)).value.entries[k];
    ChildStart(prefix, e.name);
    hide Page, Level, EffectiveLimit, Resolve, StartDir, CheckSegments;
  }

  lemma EntryIsNamed(es: seq<DirEntry>, k: nat)
    requires WellFormedEntries(es) && k < |es|
    ensures EntryName(es[k].name)
  {
  }

  lemma LookupNothing(root: Node)
    ensures Lookup(root, []) == Some(root)
  {
  }

  // ---- temp names ----

  /** No path of a recursive listing passes through, or ends in, a temp name below its start. */
  lemma {:induction false} NoTempFlattened(name: string, p: string, node: Node, i: nat, k: nat)
    requires WellFormed(node) && WalkPath(p)
    requires p == "." ==> node.Dir?
    requires i < |Flatten(name, p, node)|
    requires |Base(p)| <= k < |Parts(Flatten(name, p, node)[i].path)|
    ensures !IsTemp(Parts(Flatten(name, p, node)[i].path)[k])
    decreases node, 0
  {
    if node.File? {
      TrimNoSlash(p);
    } else {
      NoTempFlattenedAll(p, node.entries, i, k);
    }
  }

  lemma {:induction false} NoTempFlattenedAll(dir: string, es: seq<DirEntry>, i: nat, k: nat)
    requires WellFormedEntries(es) && WalkPath(dir)
    requires i < |FlattenAll(dir, es)|
    requires |Base(dir)| <= k < |Parts(FlattenAll(dir, es)[i].path)|
    ensures !IsTemp(Parts(FlattenAll(dir, es)[i].path)[k])
    decreases es, 1
  {
    hide IsTemp, Compare, Split, Parts, Base;
    var child := Child(dir, es[0].name);
    var here := Flatten(es[0].name, child, es[0].node);
    ChildParts(dir, es[0].name);
    if i < |here| {
      FlattenUnder(es[0].name, child, es[0].node);
      if k == |Base(dir)| {
        assert Parts(here[i].path)[k] == Base(child)[k] == es[0].name;
      } else {
        NoTempFlattened(es[0].name, child, es[0].node, i, k);
      }
    } else {
      NoTempFlattenedAll(dir, es[1..], i - |here|, k);
    }
  }

  /** Neither does a non-recursive listing show one. */
  lemma NoTempShown(prefix: string, es: seq<DirEntry>, i: nat)
    requires PrefixText(prefix) && WellFormedEntries(es)
    requires i < |Level(prefix, es)|
    ensures var parts := Parts(Level(prefix, es)[i].path); !IsTemp(parts[|parts| - 1])
  {
    var k := LevelNames(prefix, es, i);
    assert (PrefixParts(prefix) + [es[k].name])[|PrefixParts(prefix)|] == es[k].name;
  }
}
