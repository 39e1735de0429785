/** What a listing holds, entry by entry, and when a list request fails: said by walking names down
    the tree, without the recursion the listing itself is defined by. */
module ListingContents {
  import opened Outcomes
  import opened Text
  import opened Paths
  import opened Listing

  /** Following `names` down from `node`, one entry at a time, leads to `to`. */
  ghost predicate Leads(node: Node, names: seq<string>, to: Node)
    decreases |names|
  {
    if names == [] then node == to
    else
      node.Dir? && exists i :: 0 <= i < |node.entries| && node.entries[i].name == names[0] && Leads(node.entries[i].node, names[1..], to)
  }

  ghost predicate LeadsToDir(node: Node, names: seq<string>) {
    exists es: seq<DirEntry> :: Leads(node, names, Dir(es))
  }

  ghost predicate NoneTemp(names: seq<string>) {
    forall i :: 0 <= i < |names| ==> !IsTemp(names[i])
  }

  // ---- following names ----

  lemma {:induction false} LookupLeads(node: Node, names: seq<string>, to: Node)
    requires WellFormed(node)
    ensures Leads(node, names, to) <==> Lookup(node, names) == Some(to)
    decreases |names|, 1, 0
  {
    hide EntryName, Compare;
    if names != [] && node.Dir? {
      LookupInLeads(node.entries, names, to);
    }
  }

  lemma {:induction false} LookupInLeads(es: seq<DirEntry>, names: seq<string>, to: Node)
    requires names != [] && WellFormedEntries(es)
    ensures (exists i :: 0 <= i < |es| && es[i].name == names[0] && Leads(es[i].node, names[1..], to)) <==> LookupIn(es, names) == Some(to)
    decreases |names|, 0, |es|
  {
    hide EntryName, Compare, Leads;
    if es != [] {
      var rest := es[1..];
      if es[0].name == names[0] {
        LookupLeads(es[0].node, names[1..], to);
        forall i | 0 < i < |es|
          ensures es[i].name != names[0]
        {
          CompareAntisymmetric(es[0].name, es[i].name);
        }
      } else {
        LookupInLeads(rest, names, to);
        forall i | 0 < i < |es|
          ensures es[i] == rest[i - 1]
        {
        }
        if i :| 0 <= i < |rest| && rest[i].name == names[0] && Leads(rest[i].node, names[1..], to) {
          assert es[i + 1] == rest[i];
        }
      }
    }
  }

  lemma {:induction false} LeadsFurther(node: Node, a: seq<string>, b: seq<string>, mid: Node, to: Node)
    requires WellFormed(node) && Leads(node, a, mid)
    ensures Leads(node, a + b, to) <==> Leads(mid, b, to)
    decreases |a|
  {
    if a == [] {
      assert a + b == b;
    } else {
      assert (a + b)[1..] == a[1..] + b;
      var i :| 0 <= i < |node.entries| && node.entries[i].name == a[0] && Leads(node.entries[i].node, a[1..], mid);
      LeadsFurther(node.entries[i].node, a[1..], b, mid, to);
      forall j | 0 <= j < |node.entries| && node.entries[j].name == a[0]
        ensures j == i
      {
        CompareAntisymmetric(node.entries[i].name, node.entries[j].name);
      }
      hide WellFormed;
    }
  }

  // ---- recursive listings ----

  function Under(dir: string, names: seq<string>): string
    decreases |names|
  {
    if names == [] then dir else Under(Child(dir, names[0]), names[1..])
  }

  /** `e` is the file that `names` lead to below `dir`. */
  ghost predicate FileAt(dir: string, es: seq<DirEntry>, names: seq<string>, e: Entry) {
    && names != [] && NoneTemp(names) && !e.isDir
    && Leads(Dir(es), names, File(e.size)) && e.path == Under(dir, names)
  }

  lemma {:induction false} FlattenAllFinds(dir: string, es: seq<DirEntry>, e: Entry)
    ensures e in FlattenAll(dir, es) <==> exists names: seq<string> :: FileAt(dir, es, names, e)
    decreases es, 1
  {
    hide IsTemp;
    if es == [] {
      assert forall names: seq<string> :: names != [] ==> !Leads(Dir(es), names, File(e.size));
    } else {
      var first, rest := es[0], es[1..];
      FlattenFinds(first.name, Child(dir, first.name), first.node, e);
      FlattenAllFinds(dir, rest, e);
      if e in Flatten(first.name, Child(dir, first.name), first.node) {
        var below: seq<string> :| FileUnder(first.name, Child(dir, first.name), first.node, below, e);
        FirstChild(dir, es, below, e);
      }
      if names: seq<string> :| FileAt(dir, rest, names, e) {
        LaterChild(dir, es, names, e);
      }
      if names: seq<string> :| FileAt(dir, es, names, e) {
        SomeChild(dir, es, names, e);
      }
    }
  }

  /** `e` is the file that `below` lead to from `node`, called `name`, at `p`. */
  ghost predicate FileUnder(name: string, p: string, node: Node, below: seq<string>, e: Entry) {
    && !IsTemp(name) && NoneTemp(below) && !e.isDir
    && Leads(node, below, File(e.size)) && e.path == Under(p, below)
  }

  lemma {:induction false} FlattenFinds(name: string, p: string, node: Node, e: Entry)
    ensures e in Flatten(name, p, node) <==> exists below: seq<string> :: FileUnder(name, p, node, below, e)
    decreases node, 0
  {
    hide IsTemp;
    match node {
      case File(size) =>
        assert e == Entry(p, false, size) && !IsTemp(name) ==> FileUnder(name, p, node, [], e);
      case Special =>
      case Dir(es) =>
        FlattenAllFinds(p, es, e);
        if names: seq<string> :| FileAt(p, es, names, e) && !IsTemp(name) {
          assert FileUnder(name, p, node, names, e);
        }
        if below: seq<string> :| FileUnder(name, p, node, below, e) {
          assert FileAt(p, es, below, e);
        }
    }
  }

  lemma FirstChild(dir: string, es: seq<DirEntry>, below: seq<string>, e: Entry)
    requires es != [] && FileUnder(es[0].name, Child(dir, es[0].name), es[0].node, below, e)
    ensures FileAt(dir, es, [es[0].name] + below, e)
  {
    var names := [es[0].name] + below;
    assert names[1..] == below;
    assert Leads(Dir(es), names, File(e.size)) by {
      assert es[0].name == names[0] && Leads(es[0].node, names[1..], File(e.size));
    }
    hide IsTemp, Leads;
  }

  lemma LaterChild(dir: string, es: seq<DirEntry>, names: seq<string>, e: Entry)
    requires es != [] && FileAt(dir, es[1..], names, e)
    ensures FileAt(dir, es, names, e)
  {
    var rest := es[1..];
    var i :| 0 <= i < |rest| && rest[i].name == names[0] && Leads(rest[i].node, names[1..], File(e.size));
    assert es[i + 1] == rest[i];
    hide IsTemp;
  }

  lemma SomeChild(dir: string, es: seq<DirEntry>, names: seq<string>, e: Entry)
    requires es != [] && FileAt(dir, es, names, e)
    ensures FileUnder(es[0].name, Child(dir, es[0].name), es[0].node, names[1..], e) || FileAt(dir, es[1..], names, e)
  {
    var i :| 0 <= i < |es| && es[i].name == names[0] && Leads(es[i].node, names[1..], File(e.size));
    if i > 0 {
      assert es[1..][i - 1] == es[i];
    }
    hide IsTemp;
  }

  lemma {:induction false} UnderParts(dir: string, names: seq<string>)
    requires WalkPath(dir) && forall i :: 0 <= i < |names| ==> EntryName(names[i])
    ensures WalkPath(Under(dir, names)) && Base(Under(dir, names)) == Base(dir) + names
    ensures names != [] ==> Under(dir, names) != "."
    decreases |names|
  {
    hide EntryName, WalkPath, Base;
    if names == [] {
      assert Base(dir) + names == Base(dir);
    } else {
      ChildParts(dir, names[0]);
      UnderParts(Child(dir, names[0]), names[1..]);
      assert Base(dir) + [names[0]] + names[1..] == Base(dir) + names by {
        assert [names[0]] + names[1..] == names;
      }
    }
  }

  lemma {:induction false} LedNames(node: Node, names: seq<string>, to: Node)
    requires WellFormed(node) && Leads(node, names, to)
    ensures forall i :: 0 <= i < |names| ==> EntryName(names[i])
    decreases |names|
  {
    hide EntryName, Compare;
    if names != [] {
      var i :| 0 <= i < |node.entries| && node.entries[i].name == names[0] && Leads(node.entries[i].node, names[1..], to);
      LedNames(node.entries[i].node, names[1..], to);
    }
  }

  /** The segments of a start folder: none for the root. */
  function Segments(folder: string): seq<string> {
    if folder == "" then [] else Split(folder)
  }

  /** A folder's text as a list request gives it: the root, or a path and a slash. */
  predicate Folder(prefix: string, folder: string) {
    (prefix == "" && folder == "") || (prefix == folder + "/" && CleanObjectPath(folder))
  }

  /** In recursive mode, of any tree: exactly the files below the folder, by their own paths and with
      their sizes, that no temp name leads to. */
  lemma RecursiveListingHolds(root: Node, prefix: string, folder: string, es: seq<DirEntry>, e: Entry)
    requires WellFormed(root) && Folder(prefix, folder) && Leads(root, Segments(folder), Dir(es))
    requires folder != "" ==> !IsTemp(LastSegment(folder))
    ensures e in FullListing(root, prefix, true) <==>
              && !e.isDir && Segments(folder) < Split(e.path) && NoneTemp(Split(e.path)[|Segments(folder)|..])
              && Leads(root, Split(e.path), File(e.size))
  {
    hide IsTemp, Leads, WellFormed, NoneTemp, CleanObjectPath, FileAt, Segments, Under, Resolve, LastSegment, FlattenAll;
    var start := if folder == "" then "." else folder;
    StartOf(root, prefix, folder, es);
    FlattenAllFinds(start, es, e);
    StartName(folder);
    assert e in FullListing(root, prefix, true) <==> e in FlattenAll(start, es);
    var names := Split(e.path)[if |Segments(folder)| <= |Split(e.path)| then |Segments(folder)| else 0..];
    forall other: seq<string> | FileAt(start, es, other, e)
      ensures other == names && Segments(folder) < Split(e.path)
    {
      FoundPath(root, folder, es, other, e);
    }
    if Segments(folder) < Split(e.path) {
      FileAtPath(root, folder, es, names, e);
    }
  }

  /** The path of a file found below a folder is the folder's names and the file's own. */
  lemma FoundPath(root: Node, folder: string, es: seq<DirEntry>, names: seq<string>, e: Entry)
    requires WellFormed(root) && Leads(root, Segments(folder), Dir(es)) && (folder == "" || CleanObjectPath(folder))
    requires FileAt(if folder == "" then "." else folder, es, names, e)
    ensures Split(e.path) == Segments(folder) + names && names != []
  {
    hide *;
    FileAtMeans(if folder == "" then "." else folder, es, names, e);
    SplitBelow(root, folder, es, names, File(e.size));
  }

  lemma FileAtMeans(dir: string, es: seq<DirEntry>, names: seq<string>, e: Entry)
    ensures FileAt(dir, es, names, e) <==>
              && names != [] && NoneTemp(names) && !e.isDir
              && Leads(Dir(es), names, File(e.size)) && e.path == Under(dir, names)
  {
    hide NoneTemp, Leads, Under;
  }

  lemma SplitBelow(root: Node, folder: string, es: seq<DirEntry>, names: seq<string>, to: Node)
    requires WellFormed(root) && Leads(root, Segments(folder), Dir(es)) && (folder == "" || CleanObjectPath(folder))
    requires names != [] && Leads(Dir(es), names, to)
    ensures Split(Under(if folder == "" then "." else folder, names)) == Segments(folder) + names
  {
    hide *;
    var start := if folder == "" then "." else folder;
    StartName(folder);
    DirWellFormed(root, Segments(folder), Dir(es));
    LedNames(Dir(es), names, to);
    UnderParts(start, names);
    BaseOfStart(folder);
    BaseOfOther(Under(start, names));
  }

  lemma BaseOfStart(folder: string)
    requires folder != "."
    ensures Base(if folder == "" then "." else folder) == Segments(folder)
  {
  }

  lemma BaseOfOther(p: string)
    requires p != "."
    ensures Base(p) == Split(p)
  {
  }

  lemma FileAtPath(root: Node, folder: string, es: seq<DirEntry>, names: seq<string>, e: Entry)
    requires WellFormed(root) && Leads(root, Segments(folder), Dir(es)) && (folder == "" || CleanObjectPath(folder))
    requires Split(e.path) == Segments(folder) + names && names != []
    ensures FileAt(if folder == "" then "." else folder, es, names, e) <==>
              !e.isDir && NoneTemp(names) && Leads(root, Split(e.path), File(e.size))
  {
    hide *;
    var start := if folder == "" then "." else folder;
    FileAtMeans(start, es, names, e);
    LeadsFurther(root, Segments(folder), names, Dir(es), File(e.size));
    if Leads(Dir(es), names, File(e.size)) {
      SplitBelow(root, folder, es, names, File(e.size));
      SplitInjective(e.path, Under(start, names));
    }
  }

  lemma StartName(folder: string)
    requires folder == "" || CleanObjectPath(folder)
    ensures WalkPath(if folder == "" then "." else folder)
    ensures folder != "."
    ensures folder == "" ==> !IsTemp(LastSegment("."))
  {
    DotIsNoPath();
    if folder != "" {
      CleanPathMeaning(folder);
      assert folder[|folder| - 1..] == [folder[|folder| - 1]];
    }
  }

  lemma DotIsNoPath()
    ensures !CleanObjectPath(".")
  {
    SplitSlashFree(".");
    assert Split(".")[0] == ".";
  }

  lemma StartOf(root: Node, prefix: string, folder: string, es: seq<DirEntry>)
    requires WellFormed(root) && Folder(prefix, folder) && Leads(root, Segments(folder), Dir(es))
    ensures StartDir(prefix) == if folder == "" then "." else folder
    ensures Resolve(root, StartDir(prefix)) == Some(Dir(es))
  {
    hide Lookup, Leads, WellFormed;
    if folder == "" {
      assert TrimSuffix("", "/") == "";
      LookupLeads(root, [], Dir(es));
      LookupNothing(root);
    } else {
      TrimSlash(folder);
      StartName(folder);
      TrimNoSlash(folder);
      LookupLeads(root, Split(folder), Dir(es));
    }
  }

  lemma LookupNothing(root: Node)
    ensures Lookup(root, []) == Some(root)
  {
  }

  lemma DirWellFormed(root: Node, names: seq<string>, to: Node)
    requires WellFormed(root) && Leads(root, names, to)
    ensures WellFormed(to)
  {
    LookupLeads(root, names, to);
    LookupWellFormed(root, names);
  }

  // ---- listings of one level ----

  /** In the other mode: exactly the folder's own files and directories with no temp name. */
  lemma {:induction false} LevelHolds(prefix: string, es: seq<DirEntry>, e: Entry)
    ensures e in Level(prefix, es) <==>
              exists i :: 0 <= i < |es| && !IsTemp(es[i].name) && ShownAs(prefix, es[i], e)
  {
    hide IsTemp;
    if es != [] {
      LevelHolds(prefix, es[1..], e);
      assert forall i :: 0 < i < |es| ==> es[i] == es[1..][i - 1];
      if i :| 0 <= i < |es[1..]| && !IsTemp(es[1..][i].name) && ShownAs(prefix, es[1..][i], e) {
        assert es[i + 1] == es[1..][i];
      }
    }
  }

  predicate ShownAs(prefix: string, entry: DirEntry, e: Entry) {
    || (entry.node == File(e.size) && !e.isDir && e.path == prefix + entry.name)
    || (entry.node.Dir? && e.isDir && e.size == 0 && e.path == prefix + entry.name + "/")
  }

  lemma LevelListingHolds(root: Node, prefix: string, folder: string, es: seq<DirEntry>, e: Entry)
    requires WellFormed(root) && Folder(prefix, folder) && Leads(root, Segments(folder), Dir(es))
    ensures e in FullListing(root, prefix, false) <==>
              exists i :: 0 <= i < |es| && !IsTemp(es[i].name) && ShownAs(prefix, es[i], e)
  {
    hide IsTemp, Leads, WellFormed, ShownAs;
    StartOf(root, prefix, folder, es);
    LevelHolds(prefix, es, e);
  }

  // ---- which requests fail ----

  /** The folder a request names. */
  predicate Asks(opts: ListOptions, folder: string) {
    if folder == "" then opts.prefix == "" || opts.prefix == "/"
    else CleanObjectPath(folder) && GivenAs(opts.prefix, folder)
  }

  lemma AskedStart(opts: ListOptions, folder: string)
    requires Asks(opts, folder)
    ensures CleanPrefix(opts.prefix).Ok?
    ensures var start := StartDir(CleanPrefix(opts.prefix).value);
            && (forall root :: Resolve(root, start) == Lookup(root, Segments(folder)))
            && (RefusedByWalk(start) <==> folder != "" && opts.prefix == folder + "//")
  {
    hide CleanObjectPath, Split, CheckSegments, CleanPrefix, Lookup;
    if folder == "" {
      RootPrefix(opts.prefix);
      assert forall root :: Lookup(root, []) == Some(root) by {
        forall root
          ensures Lookup(root, []) == Some(root)
        {
          LookupNothing(root);
        }
      }
      assert !HasSuffix(".", "/");
    } else {
      GivenIsAccepted(opts.prefix, folder);
      StartName(folder);
      TrimNoSlash(folder);
      TrimSlash(folder);
      TrimSlash(folder + "/");
      assert folder + "//" == folder + "/" + "/";
      assert (folder + "/")[|folder|..] == "/";
      assert folder[|folder| - 1..] == [folder[|folder| - 1]];
    }
  }

  lemma RootPrefix(p: string)
    requires p == "" || p == "/"
    ensures CleanPrefix(p) == Ok("") && StartDir("") == "."
  {
    assert p == "/" ==> p[..0] == "" && p[0..] == "/";
  }

  /** A folder that no names lead to, whether nothing or a file is there, is empty and no error. */
  lemma MissingFolderIsEmpty(root: Node, opts: ListOptions, folder: string)
    requires WellFormed(root) && Asks(opts, folder) && !LeadsToDir(root, Segments(folder))
    ensures ListOutcome(root, opts) == Ok(ListResult([], ""))
  {
    hide Asks, CleanPrefix, StartDir, Resolve, RefusedByWalk, Lookup, Leads, WellFormed, Segments;
    AskedStart(opts, folder);
    DirsLookedUp(root, Segments(folder));
  }

  /** A request fails if and only if it names no folder, or names one that is there, with a doubled
      slash, in recursive mode. */
  lemma ListErrors(root: Node, opts: ListOptions)
    requires WellFormed(root)
    ensures ListOutcome(root, opts).Err? <==>
              || (forall folder: string :: !Asks(opts, folder))
              || (opts.recursive && exists folder: string ::
                    Asks(opts, folder) && folder != "" && opts.prefix == folder + "//" && LeadsToDir(root, Segments(folder)))
  {
    hide CleanPrefix, StartDir, Resolve, RefusedByWalk, Lookup, Leads, WellFormed, Segments, Page, FullListing, CleanObjectPath, GivenAs;
    CleanPrefixAccepts(opts.prefix);
    if folder: string :| Asks(opts, folder) {
      forall f: string | Asks(opts, f)
        ensures ListOutcome(root, opts).Err? <==> opts.recursive && f != "" && opts.prefix == f + "//" && LeadsToDir(root, Segments(f))
      {
        AskedOutcome(root, opts, f);
      }
    } else {
      assert opts.prefix == "" || opts.prefix == "/" ==> Asks(opts, "");
      assert forall base: string :: CleanObjectPath(base) && GivenAs(opts.prefix, base) ==> Asks(opts, base) by {
        EmptyIsNoPath();
      }
    }
  }

  lemma EmptyIsNoPath()
    ensures !CleanObjectPath("")
  {
    assert Split("")[0] == "";
  }

  lemma AskedOutcome(root: Node, opts: ListOptions, folder: string)
    requires WellFormed(root) && Asks(opts, folder)
    ensures ListOutcome(root, opts).Err? <==>
              opts.recursive && folder != "" && opts.prefix == folder + "//" && LeadsToDir(root, Segments(folder))
  {
    hide Asks, CleanPrefix, StartDir, Resolve, RefusedByWalk, Lookup, Leads, WellFormed, Segments, Page, FullListing;
    AskedStart(opts, folder);
    DirsLookedUp(root, Segments(folder));
  }

  lemma DirsLookedUp(root: Node, names: seq<string>)
    requires WellFormed(root)
    ensures LeadsToDir(root, names) <==> Lookup(root, names).Some? && Lookup(root, names).value.Dir?
  {
    hide Lookup, Leads, WellFormed;
    var found := Lookup(root, names);
    forall es: seq<DirEntry>
      ensures Leads(root, names, Dir(es)) <==> found == Some(Dir(es))
    {
      LookupLeads(root, names, Dir(es));
    }
    assert found.Some? && found.value.Dir? ==> found == Some(Dir(found.value.entries));
  }
}
