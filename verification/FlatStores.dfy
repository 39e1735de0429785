/** Folder delete and move on the flat-key stores: page through the keys, then act on them one
    by one, over a store whose every call may fail. */
module FlatStores {
  import opened Outcomes
  import opened Text
  import opened Paths

  type Content = string

  const MAX_FOLDER_OBJECTS := 100_000

  /** The store's own continuation token: how many matching keys were already returned, and how
      many more empty pages the store may still answer. Callers only pass it back. */
  datatype Cursor = Cursor(done: nat, idle: nat)

  datatype KeyPage = KeyPage(keys: seq<string>, next: Option<Cursor>)

  datatype FlatError =
    | CallFailed
    | TooLarge
    | Missing
    | IntoItself
    | Occupied
    | CopyFailed(key: string)
    | DeleteFailed(key: string, remaining: nat, total: nat)

  /** The keys of `order` under a prefix, in order. */
  function Matching(order: seq<string>, prefix: string): (ks: seq<string>)
    ensures forall k :: k in ks <==> k in order && prefix <= k
    ensures |ks| <= |order|
  {
    if order == [] then []
    else (if prefix <= order[0] then [order[0]] else []) + Matching(order[1..], prefix)
  }

  function ToSet(ks: seq<string>): set<string> {
    set k | k in ks
  }

  predicate NoDuplicates(ks: seq<string>) {
    forall i, j :: 0 <= i < j < |ks| ==> ks[i] != ks[j]
  }

  lemma {:induction false} MatchingDistinct(order: seq<string>, prefix: string)
    requires NoDuplicates(order)
    ensures NoDuplicates(Matching(order, prefix))
  {
    if order != [] {
      MatchingDistinct(order[1..], prefix);
      var rest := Matching(order[1..], prefix);
      forall i | 0 <= i < |rest|
        ensures rest[i] != order[0]
      {
        assert rest[i] in rest;
      }
    }
  }

  /** The keys at or below a folder. */
  function Under(m: map<string, Content>, folder: string): set<string> {
    set k | k in m && folder <= k
  }

  /** A flat-key object store that nobody else changes meanwhile. `order` is the order in which
      it happens to list its keys. A call that fails changes nothing; `faults` counts them. */
  class FlatStore {
    var objects: map<string, Content>
    var order: seq<string>
    ghost var faults: nat

    ghost predicate Valid()
      reads this
    {
      && NoDuplicates(order)
      && forall k :: k in order <==> k in objects
    }

    constructor ()
      ensures Valid() && objects == map[]
    {
      objects, order, faults := map[], [], 0;
    }

    /** One page, split wherever the store likes; possibly empty with more to come, except that
        a one-entry listing finds a key if there is one. */
    method List(prefix: string, cursor: Option<Cursor>, limit: nat) returns (res: Result<KeyPage, FlatError>)
      requires Valid() && limit >= 1
      requires cursor.Some? ==> cursor.value.done <= |Matching(order, prefix)|
      modifies `faults
      ensures res.Err? ==> res.error == CallFailed
      ensures faults == old(faults) + if res.Err? then 1 else 0
      ensures res.Ok? ==>
                var all := Matching(order, prefix);
                var start := if cursor.Some? then cursor.value.done else 0;
                var page := res.value;
                && |page.keys| <= limit && start + |page.keys| <= |all|
                && page.keys == all[start..start + |page.keys|]
                && (limit == 1 && page.keys == [] ==> start == |all|)
                && (page.next.None? ==> start + |page.keys| == |all|)
                && (page.next.Some? ==>
                      && page.next.value.done == start + |page.keys|
                      && (cursor.Some? && page.keys == [] ==> page.next.value.idle < cursor.value.idle))
    {
      var fails: bool := *;
      if fails {
        faults := faults + 1;
        return Err(CallFailed);
      }
      var all := Matching(order, prefix);
      var start := 0;
      var idle: nat :| true;
      if cursor.Some? {
        start, idle := cursor.value.done, cursor.value.idle;
      }
      var n: nat :| true;
      if n > limit || start + n > |all| || (n == 0 && (limit == 1 || idle == 0)) {
        n := if start < |all| then 1 else 0;
      }
      var page := all[start..start + n];
      var last: bool := *;
      if start + n == |all| && (last || idle == 0) {
        return Ok(KeyPage(page, None));
      }
      return Ok(KeyPage(page, Some(Cursor(start + n, if n == 0 then idle - 1 else idle))));
    }

    method CopyKey(from: string, to: string) returns (ok: bool)
      requires Valid()
      modifies this
      ensures Valid()
      ensures ok ==> from in old(objects) && objects == old(objects)[to := old(objects)[from]]
      ensures !ok ==> objects == old(objects)
      ensures faults == old(faults) + if ok || from !in old(objects) then 0 else 1
    {
      var fails: bool := *;
      if from !in objects {
        return false;
      }
      if fails {
        faults := faults + 1;
        return false;
      }
      objects := objects[to := objects[from]];
      if to !in order {
        order := order + [to];
      }
      return true;
    }

    method DeleteKey(key: string) returns (ok: bool)
      requires Valid()
      modifies this
      ensures Valid()
      ensures objects == if ok then old(objects) - {key} else old(objects)
      ensures faults == old(faults) + if ok then 0 else 1
    {
      var fails: bool := *;
      if fails {
        faults := faults + 1;
        return false;
      }
      objects := objects - {key};
      WithoutKey(order, key);
      order := Without(order, key);
      return true;
    }

    method KeyExists(key: string) returns (res: Result<bool, FlatError>)
      modifies `faults
      ensures res.Ok? ==> res.value == (key in objects)
      ensures res.Err? ==> res.error == CallFailed
      ensures faults == old(faults) + if res.Err? then 1 else 0
    {
      var fails: bool := *;
      if fails {
        faults := faults + 1;
      }
      res := if fails then Err(CallFailed) else Ok(key in objects);
    }
  }

  function Without(ks: seq<string>, key: string): seq<string> {
    if ks == [] then []
    else (if ks[0] == key then [] else [ks[0]]) + Without(ks[1..], key)
  }

  lemma {:induction false} WithoutKey(ks: seq<string>, key: string)
    requires NoDuplicates(ks)
    ensures NoDuplicates(Without(ks, key))
    ensures forall k :: k in Without(ks, key) <==> k in ks && k != key
  {
    if ks != [] {
      WithoutKey(ks[1..], key);
      var rest := Without(ks[1..], key);
      forall i | 0 <= i < |rest|
        ensures rest[i] != ks[0]
      {
        assert rest[i] in rest;
      }
    }
  }

  // ---- listing everything under a folder ----

  /** However the store splits its pages: exactly the keys under the prefix, each once, or a
      refusal when there are more than the limit. Nothing is changed. */
  method KeysUnder(s: FlatStore, prefix: string, limit: nat) returns (res: Result<seq<string>, FlatError>)
    requires s.Valid()
    modifies s`faults
    ensures s.faults == old(s.faults) + if res == Err(CallFailed) then 1 else 0
    ensures res.Ok? ==> res.value == Matching(s.order, prefix)
    ensures res.Ok? ==>
              && NoDuplicates(res.value)
              && ToSet(res.value) == Under(s.objects, prefix)
              && |res.value| == |Under(s.objects, prefix)| <= limit
    ensures res.Err? ==> res.error == CallFailed || (res.error == TooLarge && |Under(s.objects, prefix)| > limit)
  {
    hide Matching, NoDuplicates, ToSet, Under;
    ghost var all := Matching(s.order, prefix);
    MatchingDistinct(s.order, prefix);
    MatchingIsUnder(s.order, s.objects, prefix);
    var keys: seq<string> := [];
    var cursor: Option<Cursor> := None;
    while true
      invariant s.faults == old(s.faults)
      invariant |keys| <= |all| && keys == all[..|keys|]
      invariant if cursor.Some? then cursor.value.done == |keys| else keys == []
      decreases if cursor.None? then |all| + 1 else |all| - |keys|, if cursor.Some? then cursor.value.idle else 0
    {
      var page := s.List(prefix, cursor, MAX_LIST_LIMIT);
      if page.Err? {
        return Err(page.error);
      }
      assert all[..|keys|] + all[|keys|..|keys| + |page.value.keys|] == all[..|keys| + |page.value.keys|];
      keys := keys + page.value.keys;
      if |keys| > limit {
        return Err(TooLarge);
      }
      if page.value.next.None? {
        assert keys == all;
        return Ok(keys);
      }
      cursor := page.value.next;
    }
  }

  lemma {:induction false} DistinctCount(ks: seq<string>)
    requires NoDuplicates(ks)
    ensures |ToSet(ks)| == |ks|
  {
    if ks != [] {
      DistinctCount(ks[1..]);
      assert ToSet(ks) == {ks[0]} + ToSet(ks[1..]);
      assert ks[0] !in ks[1..];
    }
  }

  lemma MatchingIsUnder(order: seq<string>, m: map<string, Content>, prefix: string)
    requires NoDuplicates(order) && forall k :: k in order <==> k in m
    ensures ToSet(Matching(order, prefix)) == Under(m, prefix)
    ensures |Matching(order, prefix)| == |Under(m, prefix)|
  {
    MatchingDistinct(order, prefix);
    DistinctCount(Matching(order, prefix));
  }

  /** For an accepted folder path, the keys acted on are exactly those below it segment by segment. */
  lemma UnderIsBelow(m: map<string, Content>, p: string, key: string) returns (folder: string)
    requires CleanFolder(p).Ok?
    ensures folder != "" && CleanFolder(p).value == folder + "/"
    ensures key in Under(m, CleanFolder(p).value) <==>
              key in m && Split(folder) <= Split(key) && |Split(folder)| < |Split(key)|
  {
    folder := CleanFolderIsABoundary(p, key);
  }

  // ---- delete ----

  /** Placeholders ("a/b/") are bookkeeping, not objects a user knows about. */
  function Visible(keys: set<string>): set<string> {
    set k | k in keys && !HasSuffix(k, "/")
  }

  /** From `before` to `now` only keys under `folder` went, `removed` counts the objects among
      them, and what is left is as it was. */
  ghost predicate DeletedUnder(before: map<string, Content>, now: map<string, Content>, folder: string, removed: nat) {
    var gone := before.Keys - now.Keys;
    gone <= Under(before, folder) && now == before - gone && removed == |Visible(gone)|
  }

  method DeleteFolderFlat(s: FlatStore, folder: string) returns (removed: nat, err: Option<FlatError>)
    requires s.Valid()
    modifies s
    ensures s.Valid()
    ensures DeletedUnder(old(s.objects), s.objects, folder, removed)
    ensures err.None? ==> Under(old(s.objects), folder) != {} && s.objects == old(s.objects) - Under(old(s.objects), folder)
    ensures err == Some(Missing) ==> Under(old(s.objects), folder) == {}
    ensures err.Some? && !err.value.DeleteFailed? ==> s.objects == old(s.objects)
    // a delete failed: exactly the keys listed before it are gone
    ensures err.Some? && err.value.DeleteFailed? ==>
              var keys := Matching(old(s.order), folder);
              && 0 < err.value.remaining <= err.value.total == |keys|
              && err.value.key == keys[|keys| - err.value.remaining]
              && s.objects == old(s.objects) - ToSet(keys[..|keys| - err.value.remaining])
    ensures |Under(old(s.objects), folder)| > 100_000 ==> err in {Some(TooLarge), Some(CallFailed)}
    // with every call working
    ensures s.faults == old(s.faults) ==>
              err == if Under(old(s.objects), folder) == {} then Some(Missing)
                     else if |Under(old(s.objects), folder)| > 100_000 then Some(TooLarge)
                     else None
  {
    hide DeletedUnder, ToSet, NoDuplicates, Under, Matching;
    ghost var before := s.objects;
    NothingDeleted(before, folder);
    var keys := KeysUnder(s, folder, MAX_FOLDER_OBJECTS);
    if keys.Err? {
      return 0, Some(keys.error);
    }
    EmptyIff(keys.value);
    if |keys.value| == 0 {
      return 0, Some(Missing);
    }
    UnderIsStored(before, folder);
    removed := 0;
    var i := 0;
    AfterDeletes(before, keys.value, 0);
    while i < |keys.value|
      invariant 0 <= i <= |keys.value|
      invariant s.Valid()
      invariant s.faults == old(s.faults)
      invariant s.objects == before - ToSet(keys.value[..i])
      invariant DeletedUnder(before, s.objects, folder, removed)
    {
      var k := keys.value[i];
      AfterDeletes(before, keys.value, i);
      OneMoreDeleted(before, s.objects, folder, removed, k);
      var ok := s.DeleteKey(k);
      if !ok {
        return removed, Some(DeleteFailed(k, |keys.value| - i, |keys.value|));
      }
      if !HasSuffix(k, "/") {
        removed := removed + 1;
      }
      i := i + 1;
    }
    assert keys.value[..i] == keys.value;
    return removed, None;
  }

  lemma EmptyIff(ks: seq<string>)
    ensures ToSet(ks) == {} <==> ks == []
  {
    if ks != [] {
      assert ks[0] in ToSet(ks);
    }
  }

  lemma UnderIsStored(m: map<string, Content>, folder: string)
    ensures Under(m, folder) <= m.Keys
  {
  }

  lemma NothingDeleted(m: map<string, Content>, folder: string)
    ensures DeletedUnder(m, m, folder, 0)
  {
    assert m.Keys - m.Keys == {} && m - {} == m && Visible({}) == {};
  }

  lemma OneMoreDeleted(before: map<string, Content>, now: map<string, Content>, folder: string, removed: nat, k: string)
    requires DeletedUnder(before, now, folder, removed)
    requires k in Under(before, folder) && k in now
    ensures k in Under(now, folder)
    ensures DeletedUnder(before, now - {k}, folder, removed + if HasSuffix(k, "/") then 0 else 1)
  {
    var gone := before.Keys - now.Keys;
    assert before.Keys - (now - {k}).Keys == gone + {k};
    VisibleGrows(gone, k);
  }

  /** After `i` deletes the next key is still there. */
  lemma AfterDeletes(m: map<string, Content>, ks: seq<string>, i: nat)
    requires NoDuplicates(ks) && i < |ks| && ToSet(ks) <= m.Keys
    ensures ks[i] in ToSet(ks) && ks[i] in m - ToSet(ks[..i])
    ensures m - ToSet(ks[..i]) - {ks[i]} == m - ToSet(ks[..i + 1])
    ensures m - ToSet(ks[..0]) == m
  {
    GoneGrows(ks, i);
  }

  lemma ToSetGrows(ks: seq<string>, k: string)
    ensures ToSet(ks + [k]) == ToSet(ks) + {k}
  {
  }

  lemma GoneGrows(ks: seq<string>, i: nat)
    requires NoDuplicates(ks) && i < |ks|
    ensures ToSet(ks[..i + 1]) == ToSet(ks[..i]) + {ks[i]}
    ensures ks[i] !in ToSet(ks[..i]) && ks[i] in ToSet(ks)
  {
    assert ks[..i + 1] == ks[..i] + [ks[i]];
  }

  lemma VisibleGrows(gone: set<string>, k: string)
    requires k !in gone
    ensures |Visible(gone + {k})| == |Visible(gone)| + if HasSuffix(k, "/") then 0 else 1
  {
    if HasSuffix(k, "/") {
      assert Visible(gone + {k}) == Visible(gone);
    } else {
      assert Visible(gone + {k}) == Visible(gone) + {k};
    }
  }

  // ---- move one object ----

  method MoveObjectFlat(s: FlatStore, from: string, to: string) returns (err: Option<FlatError>)
    requires s.Valid()
    modifies s
    ensures s.Valid()
    ensures from == to ==> err.None? && s.objects == old(s.objects)
    ensures from != to && err.None? ==>
              && from in old(s.objects) && to !in old(s.objects)
              && s.objects == old(s.objects)[to := old(s.objects)[from]] - {from}
    ensures err == Some(Missing) ==> from !in old(s.objects)
    ensures err == Some(Occupied) ==> to in old(s.objects)
    ensures err.Some? ==>
              || s.objects == old(s.objects)
              || (from in old(s.objects) && to !in old(s.objects)
                  && s.objects == old(s.objects)[to := old(s.objects)[from]])
    ensures s.faults == old(s.faults) ==>
              err == if from == to then None
                     else if from !in old(s.objects) then Some(Missing)
                     else if to in old(s.objects) then Some(Occupied)
                     else None
  {
    if from == to {
      return None;
    }
    var source := s.KeyExists(from);
    if source.Err? {
      return Some(source.error);
    } else if !source.value {
      return Some(Missing);
    }
    var taken := s.KeyExists(to);
    if taken.Err? {
      return Some(taken.error);
    } else if taken.value {
      return Some(Occupied);
    }
    var copied := s.CopyKey(from, to);
    if !copied {
      return Some(CallFailed);
    }
    var deleted := s.DeleteKey(from);
    return if deleted then None else Some(CallFailed);
  }

  // ---- move a folder ----

  function Destination(k: string, from: string, to: string): string
    requires from <= k
  {
    to + k[|from|..]
  }

  function Origin(k: string, from: string, to: string): string
    requires to <= k
  {
    from + k[|to|..]
  }

  lemma OriginOfDestination(k: string, from: string, to: string)
    requires from <= k
    ensures to <= Destination(k, from, to)
    ensures Origin(Destination(k, from, to), from, to) == k
  {
  }

  function Destinations(ks: set<string>, from: string, to: string): set<string>
    requires forall k :: k in ks ==> from <= k
  {
    set k | k in ks :: Destination(k, from, to)
  }

  /** The keys under `from` in `m` that are in `ks`, copied to the same suffix under `to`. */
  function Copies(m: map<string, Content>, ks: set<string>, from: string, to: string): map<string, Content>
    requires forall k :: k in ks ==> k in m && from <= k
  {
    map d | d in Destinations(ks, from, to) && to <= d && Origin(d, from, to) in m :: m[Origin(d, from, to)]
  }

  /** `m` with the folder `from` renamed to `to`. */
  function Renamed(m: map<string, Content>, from: string, to: string): map<string, Content> {
    (m + Copies(m, Under(m, from), from, to)) - Under(m, from)
  }

  lemma CopiesMeaning(m: map<string, Content>, ks: set<string>, from: string, to: string)
    requires forall k :: k in ks ==> k in m && from <= k
    ensures forall d :: d in Copies(m, ks, from, to) <==> to <= d && Origin(d, from, to) in ks
    ensures forall d :: d in Copies(m, ks, from, to) ==> Copies(m, ks, from, to)[d] == m[Origin(d, from, to)]
    ensures forall k :: k in ks ==> Destination(k, from, to) in Copies(m, ks, from, to)
  {
    forall d | to <= d && Origin(d, from, to) in ks
      ensures d in Destinations(ks, from, to)
    {
      OriginOfDestination(Origin(d, from, to), from, to);
      assert Destination(Origin(d, from, to), from, to) == d;
    }
    forall k | k in ks
      ensures to <= Destination(k, from, to) && Origin(Destination(k, from, to), from, to) == k
    {
      OriginOfDestination(k, from, to);
    }
  }

  /** One more key copied. */
  lemma CopiesGrow(m: map<string, Content>, ks: set<string>, k: string, from: string, to: string)
    requires forall x :: x in ks + {k} ==> x in m && from <= x
    ensures Copies(m, ks + {k}, from, to) == Copies(m, ks, from, to)[Destination(k, from, to) := m[k]]
  {
    CopiesMeaning(m, ks, from, to);
    CopiesMeaning(m, ks + {k}, from, to);
    OriginOfDestination(k, from, to);
    forall d | d in Copies(m, ks + {k}, from, to) && d != Destination(k, from, to)
      ensures Origin(d, from, to) != k
    {
      OriginOfDestination(k, from, to);
      assert Destination(Origin(d, from, to), from, to) == d;
    }
  }

  lemma PrefixesNest(a: string, b: string, k: string)
    requires a <= k && b <= k
    ensures a <= b || b <= a
  {
    if |a| <= |b| {
      assert a == k[..|a|] == b[..|a|];
    } else {
      assert b == k[..|b|] == a[..|b|];
    }
  }

  /** Nothing under `to`, something under `from`, and `from` not a prefix of `to`: the two
      folders share no key, present or possible. */
  lemma FoldersAreDisjoint(m: map<string, Content>, from: string, to: string, k: string)
    requires !(from <= to) && Under(m, to) == {} && Under(m, from) != {}
    ensures !(to <= from)
    ensures !(from <= k && to <= k)
  {
    var x :| x in Under(m, from);
    assert to <= from ==> x in Under(m, to);
    if from <= k && to <= k {
      PrefixesNest(from, to, k);
    }
  }

  /** Copies land on keys the store did not have. */
  lemma CopiesAreNew(m: map<string, Content>, ks: set<string>, from: string, to: string)
    requires ks <= Under(m, from) && Under(m, to) == {}
    ensures Copies(m, ks, from, to).Keys !! m.Keys
    ensures forall k :: k in m ==> (m + Copies(m, ks, from, to))[k] == m[k]
    ensures forall d :: d in Copies(m, ks, from, to) ==> to <= d
  {
    forall d | d in Copies(m, ks, from, to)
      ensures d !in m
    {
      assert d in m ==> d in Under(m, to);
    }
  }

  /** Delete the copies already made, ignoring failures. */
  method Rollback(s: FlatStore, copied: seq<string>)
    requires s.Valid() && NoDuplicates(copied) && ToSet(copied) <= s.objects.Keys
    modifies s
    ensures s.Valid()
    ensures forall k :: k in s.objects ==> k in old(s.objects) && s.objects[k] == old(s.objects)[k]
    ensures forall k :: k in old(s.objects) && k !in copied ==> k in s.objects
    ensures s.faults >= old(s.faults)
    ensures s.faults == old(s.faults) ==> s.objects == old(s.objects) - ToSet(copied)
    ensures s.faults > old(s.faults) ==> exists k :: k in copied && k in s.objects
  {
    var i := 0;
    ghost var left := "";
    assert s.objects == s.objects - ToSet(copied[..0]);
    while i < |copied|
      invariant 0 <= i <= |copied|
      invariant s.Valid()
      invariant forall k :: k in s.objects ==> k in old(s.objects) && s.objects[k] == old(s.objects)[k]
      invariant forall k :: k in old(s.objects) && k !in copied ==> k in s.objects
      invariant s.faults >= old(s.faults)
      invariant s.faults == old(s.faults) ==> s.objects == old(s.objects) - ToSet(copied[..i])
      invariant forall j :: i <= j < |copied| ==> copied[j] in s.objects
      invariant s.faults > old(s.faults) ==> left in copied[..i] && left in s.objects
    {
      var ok := s.DeleteKey(copied[i]);
      if !ok {
        left := copied[i];
      }
      assert copied[..i + 1] == copied[..i] + [copied[i]];
      assert ToSet(copied[..i + 1]) == ToSet(copied[..i]) + {copied[i]};
      i := i + 1;
    }
    assert copied[..i] == copied;
  }

  /** After a rollback the starting store is intact, and is all there is when every delete
      went through. */
  lemma RolledBack(before: map<string, Content>, ks: set<string>, copied: seq<string>, all: map<string, Content>,
                   left: map<string, Content>, from: string, to: string, clean: bool)
    requires Under(before, to) == {} && Copied(before, all, ks, copied, from, to)
    requires forall k :: k in left ==> k in all && left[k] == all[k]
    requires forall k :: k in all && k !in copied ==> k in left
    requires clean ==> left == all - ToSet(copied)
    requires !clean ==> exists k :: k in copied && k in left
    ensures NothingLost(before, left, to)
    ensures left == before <==> clean
  {
    CopiesAreNew(before, ks, from, to);
    hide Copies;
    forall k | k in before
      ensures k in left && left[k] == before[k]
    {
      assert k !in ToSet(copied);
    }
  }

  method MoveFolderFlat(s: FlatStore, from: string, to: string) returns (err: Option<FlatError>)
    requires s.Valid()
    modifies s
    ensures s.Valid()
    ensures err.None? && from == to ==> s.objects == old(s.objects)
    ensures err.None? && from != to ==>
              && Under(old(s.objects), from) != {} && Under(old(s.objects), to) == {} && !(from <= to)
              && s.objects == Renamed(old(s.objects), from, to)
    ensures err.Some? && !err.value.CopyFailed? && !err.value.DeleteFailed? ==> s.objects == old(s.objects)
    ensures err == Some(IntoItself) <==> from != to && from <= to
    ensures err == Some(Missing) ==> Under(old(s.objects), from) == {}
    ensures err == Some(Occupied) ==> Under(old(s.objects), to) != {}
    // a copy failed: every object that was there is still there, and what may be left over is
    // only copies under the destination: none exactly when that was the only failing call
    ensures err.Some? && err.value.CopyFailed? ==>
              && NothingLost(old(s.objects), s.objects, to)
              && (s.objects == old(s.objects) <==> s.faults == old(s.faults) + 1)
    // a delete failed: all copies are in place and exactly the keys listed before it are gone
    ensures err.Some? && err.value.DeleteFailed? ==>
              PartlyMoved(old(s.objects), Matching(old(s.order), from), s.objects, from, to, err.value)
    // with every call working
    ensures s.faults == old(s.faults) ==>
              err == if from == to then None
                     else if from <= to then Some(IntoItself)
                     else if Under(old(s.objects), from) == {} then Some(Missing)
                     else if |Under(old(s.objects), from)| > 100_000 then Some(TooLarge)
                     else if Under(old(s.objects), to) != {} then Some(Occupied)
                     else None
  {
    if from == to {
      return None;
    }
    if from <= to {
      return Some(IntoItself);
    }
    ghost var before := s.objects;
    var listed := KeysUnder(s, from, MAX_FOLDER_OBJECTS);
    if listed.Err? {
      return Some(listed.error);
    }
    var keys := listed.value;
    if |keys| == 0 {
      return Some(Missing);
    }
    var probe := s.List(to, None, 1);
    if probe.Err? {
      return Some(probe.error);
    }
    MatchingIsUnder(s.order, s.objects, to);
    if |probe.value.keys| > 0 {
      return Some(Occupied);
    }
    err := CopyThenDelete(s, from, to, keys);
  }

  /** Every object that was there is still there; what is new lies under the destination. */
  ghost predicate NothingLost(before: map<string, Content>, now: map<string, Content>, to: string) {
    && (forall k :: k in before ==> k in now && now[k] == before[k])
    && (forall k :: k in now && k !in before ==> to <= k)
  }

  /** The copying loop of `MoveFolderFlat`. On success every key under `from` is also under
      `to`; on failure the copies made so far are rolled back. */
  method CopyAll(s: FlatStore, from: string, to: string, keys: seq<string>) returns (failed: Option<string>)
    requires s.Valid()
    requires Under(s.objects, to) == {}
    requires NoDuplicates(keys) && ToSet(keys) == Under(s.objects, from)
    modifies s
    ensures s.Valid()
    ensures failed.None? ==>
              s.objects == old(s.objects) + Copies(old(s.objects), Under(old(s.objects), from), from, to)
    ensures failed.None? ==> s.faults == old(s.faults)
    ensures failed.Some? ==>
              && NothingLost(old(s.objects), s.objects, to)
              && s.faults > old(s.faults)
              && (s.objects == old(s.objects) <==> s.faults == old(s.faults) + 1)
  {
    hide Copied, Copies, ToSet, Under, NoDuplicates, NothingLost;
    ghost var before := s.objects;
    var copied: seq<string> := [];
    var i := 0;
    NoCopies(before, keys, from, to);
    while i < |keys|
      invariant 0 <= i <= |keys|
      invariant s.Valid()
      invariant s.faults == old(s.faults)
      invariant Copied(before, s.objects, ToSet(keys[..i]), copied, from, to)
    {
      var k := keys[i];
      CopyTurn(before, s.objects, keys, i, copied, from, to);
      var dst := to + k[|from|..];
      var ok := s.CopyKey(k, dst);
      if !ok {
        ghost var here := s.objects;
        CopiedIsThere(before, here, ToSet(keys[..i]), copied, from, to);
        Rollback(s, copied);
        RolledBack(before, ToSet(keys[..i]), copied, here, s.objects, from, to, s.faults == old(s.faults) + 1);
        return Some(k);
      }
      copied := copied + [dst];
      i := i + 1;
    }
    assert keys[..i] == keys;
    AllCopied(before, s.objects, keys, copied, from, to);
    return None;
  }

  /** The store part-way through the copying loop, the keys in `ks` copied so far. */
  ghost predicate Copied(before: map<string, Content>, now: map<string, Content>, ks: set<string>, copied: seq<string>,
                         from: string, to: string) {
    && ks <= Under(before, from)
    && NoDuplicates(copied) && ToSet(copied) == Copies(before, ks, from, to).Keys
    && now == before + Copies(before, ks, from, to)
  }

  lemma CopyTurn(before: map<string, Content>, now: map<string, Content>, keys: seq<string>, i: nat, copied: seq<string>,
                 from: string, to: string)
    requires Under(before, to) == {} && NoDuplicates(keys) && ToSet(keys) == Under(before, from)
    requires i < |keys| && Copied(before, now, ToSet(keys[..i]), copied, from, to)
    ensures from <= keys[i] && keys[i] in now
    ensures Copied(before, now[Destination(keys[i], from, to) := now[keys[i]]], ToSet(keys[..i + 1]),
                   copied + [Destination(keys[i], from, to)], from, to)
  {
    var ks, k := ToSet(keys[..i]), keys[i];
    GoneGrows(keys, i);
    assert k in Under(before, from);
    CopiesAreNew(before, ks, from, to);
    CopiesGrow(before, ks, k, from, to);
    ToSetGrows(copied, Destination(k, from, to));
    DestinationIsNew(before, ks, k, copied, from, to);
    hide Copies, ToSet, NoDuplicates, Destination;
    PlusUpdate(before, Copies(before, ks, from, to), Destination(k, from, to), before[k]);
  }

  lemma DestinationIsNew(m: map<string, Content>, ks: set<string>, k: string, copied: seq<string>, from: string, to: string)
    requires forall x :: x in ks + {k} ==> x in m && from <= x
    requires k !in ks && NoDuplicates(copied) && ToSet(copied) == Copies(m, ks, from, to).Keys
    ensures NoDuplicates(copied + [Destination(k, from, to)])
  {
    CopiesMeaning(m, ks, from, to);
    assert k in ks + {k};
    OriginOfDestination(k, from, to);
    hide Copies, Destination, Origin;
    assert Destination(k, from, to) !in ToSet(copied);
  }

  lemma PlusUpdate(m: map<string, Content>, c: map<string, Content>, d: string, v: Content)
    ensures (m + c)[d := v] == m + c[d := v] && c[d := v].Keys == c.Keys + {d}
  {
  }

  lemma CopiedIsThere(before: map<string, Content>, now: map<string, Content>, ks: set<string>, copied: seq<string>,
                      from: string, to: string)
    requires Copied(before, now, ks, copied, from, to)
    ensures NoDuplicates(copied) && ToSet(copied) <= now.Keys
  {
    hide Copies, NoDuplicates;
  }

  lemma AllCopied(before: map<string, Content>, now: map<string, Content>, keys: seq<string>, copied: seq<string>,
                  from: string, to: string)
    requires ToSet(keys) == Under(before, from) && Copied(before, now, ToSet(keys), copied, from, to)
    ensures now == before + Copies(before, Under(before, from), from, to)
  {
    hide Copies;
  }

  lemma NoCopies(m: map<string, Content>, ks: seq<string>, from: string, to: string)
    ensures Copied(m, m, ToSet(ks[..0]), [], from, to)
  {
    assert ToSet(ks[..0]) == {} == ToSet([]);
    assert Copies(m, {}, from, to) == map[] && m + map[] == m;
  }

  lemma NoneDeleted(m: map<string, Content>, ks: seq<string>)
    ensures m - ToSet(ks[..0]) == m
  {
  }

  /** The loop of `MoveFolderFlat` that removes the originals. */
  method DeleteOriginals(s: FlatStore, keys: seq<string>) returns (done: nat)
    requires s.Valid() && NoDuplicates(keys) && ToSet(keys) <= s.objects.Keys
    modifies s
    ensures s.Valid() && done <= |keys|
    ensures s.faults == old(s.faults) + if done < |keys| then 1 else 0
    ensures s.objects == old(s.objects) - ToSet(keys[..done])
  {
    hide ToSet, NoDuplicates;
    done := 0;
    NoneDeleted(s.objects, keys);
    while done < |keys|
      invariant done <= |keys| && s.faults == old(s.faults)
      invariant s.Valid()
      invariant s.objects == old(s.objects) - ToSet(keys[..done])
    {
      AfterDeletes(old(s.objects), keys, done);
      var ok := s.DeleteKey(keys[done]);
      if !ok {
        return;
      }
      done := done + 1;
    }
  }

  lemma SourceStays(m: map<string, Content>, from: string, to: string)
    ensures var all := m + Copies(m, Under(m, from), from, to);
            Under(m, from) <= all.Keys && all - Under(m, from) == Renamed(m, from, to)
  {
    hide Copies;
  }

  /** The part of `MoveFolderFlat` past its checks. */
  method CopyThenDelete(s: FlatStore, from: string, to: string, keys: seq<string>) returns (err: Option<FlatError>)
    requires s.Valid()
    requires Under(s.objects, to) == {}
    requires NoDuplicates(keys) && ToSet(keys) == Under(s.objects, from) && |keys| == |Under(s.objects, from)|
    modifies s
    ensures s.Valid()
    ensures err.None? || err.value.CopyFailed? || err.value.DeleteFailed?
    ensures err.None? <==> s.faults == old(s.faults)
    ensures err.None? ==> s.objects == Renamed(old(s.objects), from, to)
    ensures err.Some? && err.value.CopyFailed? ==>
              && NothingLost(old(s.objects), s.objects, to)
              && (s.objects == old(s.objects) <==> s.faults == old(s.faults) + 1)
    ensures err.Some? && err.value.DeleteFailed? ==> PartlyMoved(old(s.objects), keys, s.objects, from, to, err.value)
  {
    hide Copies, ToSet, Under, NoDuplicates, Renamed, NothingLost;
    ghost var before := s.objects;
    SourceStays(before, from, to);
    var failed := CopyAll(s, from, to, keys);
    if failed.Some? {
      return Some(CopyFailed(failed.value));
    }
    var done := DeleteOriginals(s, keys);
    if done < |keys| {
      return Some(DeleteFailed(keys[done], |keys| - done, |keys|));
    }
    assert keys[..done] == keys;
    return None;
  }

  /** A delete of an original failed: all copies are in place, exactly the originals listed before it
      are gone, and the reported key and counts are right. No object is lost. */
  ghost predicate PartlyMoved(before: map<string, Content>, keys: seq<string>, now: map<string, Content>,
                              from: string, to: string, err: FlatError)
    requires err.DeleteFailed?
  {
    && 0 < err.remaining <= err.total == |keys|
    && err.key == keys[|keys| - err.remaining]
    && now == (before + Copies(before, Under(before, from), from, to)) - ToSet(keys[..|keys| - err.remaining])
  }

  // ---- what a rename is ----

  /** A successful move between distinct folders: each key keeps its suffix and content,
      nothing stays behind, and all other keys are as they were. */
  lemma RenameIsExact(m: map<string, Content>, from: string, to: string, suffix: string, other: string)
    requires !(from <= to) && Under(m, to) == {} && Under(m, from) != {}
    ensures to + suffix in Renamed(m, from, to) <==> from + suffix in m
    ensures from + suffix in m ==> Renamed(m, from, to)[to + suffix] == m[from + suffix]
    ensures from + suffix !in Renamed(m, from, to)
    ensures !(from <= other) && !(to <= other) ==> (other in Renamed(m, from, to) <==> other in m)
    ensures !(from <= other) && other in m ==> other in Renamed(m, from, to) && Renamed(m, from, to)[other] == m[other]
  {
    CopiesMeaning(m, Under(m, from), from, to);
    CopiesAreNew(m, Under(m, from), from, to);
    FoldersAreDisjoint(m, from, to, to + suffix);
    FoldersAreDisjoint(m, from, to, from + suffix);
    assert to <= to + suffix && from <= from + suffix;
    assert Origin(to + suffix, from, to) == from + suffix;
    assert from + suffix in m <==> from + suffix in Under(m, from);
    assert to + suffix !in Under(m, from) && to + suffix !in m by {
      assert to + suffix in m ==> to + suffix in Under(m, to);
    }
    hide Copies;
  }

  lemma RenameRoundTripAt(m: map<string, Content>, from: string, to: string, k: string)
    requires !(from <= to) && Under(m, to) == {} && Under(m, from) != {}
    requires !(to <= from) && Under(Renamed(m, from, to), from) == {} && Under(Renamed(m, from, to), to) != {}
    ensures
      var back := Renamed(Renamed(m, from, to), to, from);
      (k in back <==> k in m) && (k in m ==> back[k] == m[k])
  {
    hide Renamed;
    var s := if from <= k then k[|from|..] else if to <= k then k[|to|..] else "";
    assert from <= k ==> k == from + s;
    assert !(from <= k) && to <= k ==> k == to + s;
    assert to <= k && k in m ==> k in Under(m, to);
    FoldersAreDisjoint(m, from, to, k);
    RenameIsExact(m, from, to, s, k);
    RenameIsExact(Renamed(m, from, to), to, from, s, k);
  }

  lemma RenameMovesOut(m: map<string, Content>, from: string, to: string)
    requires !(from <= to) && Under(m, to) == {} && Under(m, from) != {}
    ensures Under(Renamed(m, from, to), from) == {} && Under(Renamed(m, from, to), to) != {}
  {
    hide Renamed;
    var r := Renamed(m, from, to);
    forall k | from <= k
      ensures k !in r
    {
      RenameIsExact(m, from, to, k[|from|..], k);
      assert k == from + k[|from|..];
    }
    var x :| x in Under(m, from);
    RenameIsExact(m, from, to, x[|from|..], x);
    assert x == from + x[|from|..];
    assert to + x[|from|..] in Under(r, to);
  }

  /** Renaming back restores the store. */
  lemma RenameRoundTrip(m: map<string, Content>, from: string, to: string)
    requires !(from <= to) && Under(m, to) == {} && Under(m, from) != {}
    ensures Renamed(Renamed(m, from, to), to, from) == m
  {
    hide Renamed;
    RenameMovesOut(m, from, to);
    FoldersAreDisjoint(m, from, to, from);
    var back := Renamed(Renamed(m, from, to), to, from);
    forall k
      ensures (k in back <==> k in m) && (k in m ==> back[k] == m[k])
    {
      RenameRoundTripAt(m, from, to, k);
    }
  }
}
