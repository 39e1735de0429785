/** The filesystem kind's write protocol (temp file, sync, close, then hard link or rename),
    run by any number of interleaved writers over names, inodes and bytes, with a failure,
    a killed writer or a power loss possible at every step. */
module AtomicWrite {
  import opened Text
  import Listing

  type Inode = nat

  datatype Outcome = Stored | Refused | Failed

  /** Where a writer is; each phase names the next call it makes. */
  datatype Phase =
    | Preparing
    | Opening
    | Copying
    | Closing
    | Committing
    | Linked
    | Stating
    | CleaningUp(cause: Outcome)
    | Finished(outcome: Outcome)
    | Killed

  datatype Writer = Writer(
    path: string, body: Bytes, createOnly: bool,
    phase: Phase, tmp: string, inode: Inode, copied: nat, committed: bool)

  /** `names` are the files and `dirs` the directories as running processes see them, `durable` and
      `durableDirs` the last version that reached the disk, `synced` the inodes whose bytes did.
      `owner` is bookkeeping: the writer that created an inode. */
  datatype Disk = Disk(
    names: map<string, Inode>, dirs: set<string>, data: map<Inode, Bytes>,
    synced: set<Inode>, durable: map<string, Inode>, durableDirs: set<string>,
    writers: map<nat, Writer>, owner: map<Inode, nat>)

  datatype Event =
    | Start(w: nat, path: string, body: Bytes, createOnly: bool)
    | MakeDir(w: nat, slash: nat, ok: bool)
    | DirsMade(w: nat)
    | OpenTemp(w: nat, tmp: string, inode: Inode, ok: bool)
    | CopyChunk(w: nat, n: nat)
    | CopyFails(w: nat)
    | SyncFile(w: nat, ok: bool)
    | CloseFile(w: nat, ok: bool)
    | Commit(w: nat, ok: bool)
    | RemoveTemp(w: nat, ok: bool)
    | StatObject(w: nat, ok: bool)
    | Kill(w: nat)
    | FlushNames
    | PowerLoss(junk: map<Inode, Bytes>)

  /** Names a listing hides; object paths are assumed never to be among them. */
  predicate TempName(p: string) {
    Listing.IsTemp(LastSegment(p))
  }

  predicate At(d: Disk, w: nat, phase: Phase) {
    w in d.writers && d.writers[w].phase == phase
  }

  function Move(d: Disk, w: nat, phase: Phase): Disk
    requires w in d.writers
  {
    d.(writers := d.writers[w := d.writers[w].(phase := phase)])
  }

  // ---- the calls of one write ----

  function StartStep(d: Disk, w: nat, path: string, body: Bytes, createOnly: bool): (d': Disk)
    ensures d'.durable == d.durable && d'.durableDirs == d.durableDirs
    ensures d'.dirs == d.dirs
    ensures d'.names == d.names
    ensures forall v: nat :: NothingDecided(d, d', v)
  {
    if w in d.writers || TempName(path) then d
    else d.(writers := d.writers[w := Writer(path, body, createOnly, Preparing, "", 0, 0, false)])
  }

  /** The directories above `path[..n]` are all there. */
  predicate Above(d: Disk, path: string, n: nat)
    requires n <= |path|
  {
    forall i :: 0 <= i < n && path[i] == '/' ==> path[..i] in d.dirs
  }

  /** The writer makes the directory that ends at a slash of its path, outermost first. One that is
      there already is fine, a file in its place is not. */
  function MakeDirStep(d: Disk, w: nat, slash: nat, ok: bool): (d': Disk)
    ensures d'.durable == d.durable && d'.durableDirs == d.durableDirs
    ensures d'.names == d.names
    ensures forall v: nat :: NothingDecided(d, d', v)
    ensures d.dirs <= d'.dirs
  {
    if !At(d, w, Preparing) || slash >= |d.writers[w].path| || d.writers[w].path[slash] != '/'
       || !Above(d, d.writers[w].path, slash) then d
    else
      var dir := d.writers[w].path[..slash];
      if !ok || dir in d.names then Move(d, w, Finished(Failed)) else d.(dirs := d.dirs + {dir})
  }

  function DirsMadeStep(d: Disk, w: nat): (d': Disk)
    ensures d'.durable == d.durable && d'.durableDirs == d.durableDirs
    ensures d'.dirs == d.dirs
    ensures d'.names == d.names
    ensures forall v: nat :: NothingDecided(d, d', v)
  {
    if At(d, w, Preparing) && Above(d, d.writers[w].path, |d.writers[w].path|) then Move(d, w, Opening) else d
  }

  function OpenTempStep(d: Disk, w: nat, tmp: string, inode: Inode, ok: bool): (d': Disk)
    ensures d'.durable == d.durable && d'.durableDirs == d.durableDirs
    ensures d'.dirs == d.dirs
  {
    if !At(d, w, Opening) || !TempName(tmp) || inode in d.data then d
    else if !ok || tmp in d.names || tmp in d.dirs then Move(d, w, Finished(Failed))
    else
      d.(names := d.names[tmp := inode], data := d.data[inode := ""], owner := d.owner[inode := w],
         writers := d.writers[w := d.writers[w].(phase := Copying, tmp := tmp, inode := inode, copied := 0)])
  }

  function CopyStep(d: Disk, w: nat, n: nat): (d': Disk)
    ensures d'.durable == d.durable && d'.durableDirs == d.durableDirs
    ensures d'.dirs == d.dirs
    ensures d'.names == d.names
    ensures forall v: nat :: NothingDecided(d, d', v)
  {
    if !At(d, w, Copying) || d.writers[w].copied + n > |d.writers[w].body| then d
    else
      var wr := d.writers[w];
      d.(data := d.data[wr.inode := wr.body[..wr.copied + n]],
         writers := d.writers[w := wr.(copied := wr.copied + n)])
  }

  function CopyFailsStep(d: Disk, w: nat): (d': Disk)
    ensures d'.durable == d.durable && d'.durableDirs == d.durableDirs
    ensures d'.dirs == d.dirs
    ensures d'.names == d.names
    ensures forall v: nat :: NothingDecided(d, d', v)
  {
    if At(d, w, Copying) then Move(d, w, CleaningUp(Failed)) else d
  }

  function SyncStep(d: Disk, w: nat, ok: bool): (d': Disk)
    ensures d'.durable == d.durable && d'.durableDirs == d.durableDirs
    ensures d'.dirs == d.dirs
    ensures d'.names == d.names
    ensures forall v: nat :: NothingDecided(d, d', v)
  {
    if !At(d, w, Copying) || d.writers[w].copied != |d.writers[w].body| then d
    else if !ok then Move(d, w, CleaningUp(Failed))
    else Move(d, w, Closing).(synced := d.synced + {d.writers[w].inode})
  }

  function CloseStep(d: Disk, w: nat, ok: bool): (d': Disk)
    ensures d'.durable == d.durable && d'.durableDirs == d.durableDirs
    ensures d'.dirs == d.dirs
    ensures d'.names == d.names
    ensures forall v: nat :: NothingDecided(d, d', v)
  {
    if !At(d, w, Closing) then d
    else Move(d, w, if ok then Committing else CleaningUp(Failed))
  }

  /** A link fails when the name is taken, by a file or a directory, and never replaces; a rename
      replaces a file, not a directory, and takes the temp name away in the same step. */
  function CommitStep(d: Disk, w: nat, ok: bool): (d': Disk)
    ensures d'.durable == d.durable && d'.durableDirs == d.durableDirs
    ensures d'.dirs == d.dirs
  {
    if !At(d, w, Committing) then d
    else
      var wr := d.writers[w];
      if !ok || wr.tmp !in d.names then Move(d, w, CleaningUp(Failed))
      else if wr.path in d.dirs then Move(d, w, CleaningUp(if wr.createOnly then Refused else Failed))
      else if !wr.createOnly then
        d.(names := (d.names - {wr.tmp})[wr.path := d.names[wr.tmp]],
           writers := d.writers[w := wr.(phase := Stating, committed := true)])
      else if wr.path in d.names then Move(d, w, CleaningUp(Refused))
      else
        d.(names := d.names[wr.path := d.names[wr.tmp]],
           writers := d.writers[w := wr.(phase := Linked, committed := true)])
  }

  function RemoveTempStep(d: Disk, w: nat, ok: bool): (d': Disk)
    ensures d'.durable == d.durable && d'.durableDirs == d.durableDirs
    ensures d'.dirs == d.dirs
    ensures forall v: nat :: NothingDecided(d, d', v)
  {
    if w !in d.writers then d
    else
      var wr := d.writers[w];
      var names := if ok then d.names - {wr.tmp} else d.names;
      if wr.phase.Linked? then Move(d, w, Stating).(names := names)
      else if wr.phase.CleaningUp? then Move(d, w, Finished(wr.phase.cause)).(names := names)
      else d
  }

  function StatStep(d: Disk, w: nat, ok: bool): (d': Disk)
    ensures d'.durable == d.durable && d'.durableDirs == d.durableDirs
    ensures d'.dirs == d.dirs
    ensures d'.names == d.names
    ensures forall v: nat :: NothingDecided(d, d', v)
  {
    if At(d, w, Stating) then Move(d, w, Finished(if ok then Stored else Failed)) else d
  }

  function KillStep(d: Disk, w: nat): (d': Disk)
    ensures d'.durable == d.durable && d'.durableDirs == d.durableDirs
    ensures d'.dirs == d.dirs
    ensures d'.names == d.names
    ensures forall v: nat :: NothingDecided(d, d', v)
  {
    if w in d.writers && !d.writers[w].phase.Finished? then Move(d, w, Killed) else d
  }

  function PowerLossStep(d: Disk, junk: map<Inode, Bytes>): (d': Disk)
    ensures d'.names == d'.durable == d.durable && d'.dirs == d'.durableDirs == d.durableDirs
    ensures forall v: nat :: NothingDecided(d, d', v)
  {
    Disk(
      d.durable, d.durableDirs,
      map i | i in d.data :: if i !in d.synced && i in junk then junk[i] else d.data[i],
      d.synced, d.durable, d.durableDirs,
      map w | w in d.writers ::
        if d.writers[w].phase.Finished? then d.writers[w] else d.writers[w].(phase := Killed),
      d.owner)
  }

  /** One step of the system. An event that cannot happen in `d` leaves it as it is. */
  function Apply(d: Disk, e: Event): Disk {
    match e
    case Start(w, path, body, createOnly) => StartStep(d, w, path, body, createOnly)
    case MakeDir(w, slash, ok) => MakeDirStep(d, w, slash, ok)
    case DirsMade(w) => DirsMadeStep(d, w)
    case OpenTemp(w, tmp, inode, ok) => OpenTempStep(d, w, tmp, inode, ok)
    case CopyChunk(w, n) => CopyStep(d, w, n)
    case CopyFails(w) => CopyFailsStep(d, w)
    case SyncFile(w, ok) => SyncStep(d, w, ok)
    case CloseFile(w, ok) => CloseStep(d, w, ok)
    case Commit(w, ok) => CommitStep(d, w, ok)
    case RemoveTemp(w, ok) => RemoveTempStep(d, w, ok)
    case StatObject(w, ok) => StatStep(d, w, ok)
    case Kill(w) => KillStep(d, w)
    case FlushNames => d.(durable := d.names, durableDirs := d.dirs)
    case PowerLoss(junk) => PowerLossStep(d, junk)
  }

  function Run(d: Disk, events: seq<Event>): Disk
    decreases |events|
  {
    if events == [] then d else Run(Apply(d, events[0]), events[1..])
  }

  /** A disk before any writer: every object on it has reached the disk. */
  ghost predicate Fresh(d: Disk) {
    && d.writers == map[] && d.owner == map[]
    && d.durable == d.names && d.durableDirs == d.dirs && d.dirs !! d.names.Keys
    && (forall p :: p in d.names ==> d.names[p] in d.data && d.names[p] in d.synced)
    && (forall i :: i in d.synced ==> i in d.data)
  }

  // ---- the invariant ----

  /** The writer still has its own temp name. */
  predicate Holding(wr: Writer) {
    wr.phase.Copying? || wr.phase.Closing? || wr.phase.Committing? || wr.phase.Linked? || wr.phase.CleaningUp?
  }

  ghost predicate WriterOk(d: Disk, w: nat)
    requires w in d.writers
  {
    var wr := d.writers[w];
    && !TempName(wr.path)
    && (Holding(wr) || wr.committed ==>
          && wr.inode in d.data && wr.inode in d.owner && d.owner[wr.inode] == w)
    && (Holding(wr) ==> TempName(wr.tmp) && wr.tmp in d.names && d.names[wr.tmp] == wr.inode)
    && (wr.phase.Preparing? || wr.phase.Opening? || wr.phase.Copying? || wr.phase.Closing? || wr.phase.Committing? || wr.phase.CleaningUp?
        ==> !wr.committed)
    && (wr.phase.Linked? || wr.phase.Stating? || wr.phase == Finished(Stored) ==> wr.committed)
    && (wr.phase == Finished(Refused) ==> !wr.committed)
    && (wr.phase.CleaningUp? ==> wr.phase.cause != Stored)
    && (wr.phase.Copying? ==>
          wr.copied <= |wr.body| && d.data[wr.inode] == wr.body[..wr.copied] && wr.inode !in d.synced)
    && (wr.phase.Closing? || wr.phase.Committing? || wr.committed ==>
          wr.inode in d.synced && d.data[wr.inode] == wr.body)
  }

  ghost predicate WritersOk(d: Disk) {
    && (forall w :: w in d.writers ==> WriterOk(d, w))
    && (forall i :: i in d.synced || i in d.owner ==> i in d.data)
  }

  /** No path is a file and a directory at once. */
  ghost predicate Apart(d: Disk) {
    d.dirs !! d.names.Keys && d.durableDirs !! d.durable.Keys
  }

  /** What an object path holds: the whole bytes of a writer of that path that committed, or
      the very bytes it held in `d0`. */
  ghost predicate Whole(d0: Disk, d: Disk, names: map<string, Inode>, p: string)
    requires p in names
  {
    var i := names[p];
    && i in d.data && i in d.synced
    && if i in d.owner then
         var w := d.owner[i];
         w in d.writers && d.writers[w].committed && d.writers[w].path == p && d.writers[w].inode == i
         && d.data[i] == d.writers[w].body
       else
         p in d0.names && d0.names[p] == i && i in d0.data && d.data[i] == d0.data[i]
  }

  ghost predicate AllWhole(d0: Disk, d: Disk, names: map<string, Inode>) {
    && (forall p :: p in names ==> names[p] in d.data)
    && forall p :: p in names && !TempName(p) ==> Whole(d0, d, names, p)
  }

  ghost predicate Inv(d0: Disk, d: Disk) {
    WritersOk(d) && Apart(d) && AllWhole(d0, d, d.names) && AllWhole(d0, d, d.durable)
  }

  lemma FreshInv(d: Disk)
    requires Fresh(d)
    ensures Inv(d, d)
  {
  }

  /** Bytes that reached the disk stay, and what a writer set out to do and has committed stays. */
  ghost predicate Keeps(d: Disk, e: Disk) {
    && d.data.Keys <= e.data.Keys
    && d.synced <= e.synced
    && (forall i :: i in d.synced && i in d.data ==> e.data[i] == d.data[i])
    && (forall i :: i in d.data && i in e.owner ==> i in d.owner)
    && (forall i :: i in d.owner ==> i in e.owner && e.owner[i] == d.owner[i])
    && forall w :: w in d.writers ==>
         && w in e.writers
         && e.writers[w].path == d.writers[w].path
         && e.writers[w].body == d.writers[w].body
         && e.writers[w].createOnly == d.writers[w].createOnly
         && (d.writers[w].committed ==> e.writers[w].committed && e.writers[w].inode == d.writers[w].inode)
  }

  /** From `d` to `e` only writer `w` moved, and only its own temp name and inode changed. */
  ghost predicate TouchesOnly(d: Disk, e: Disk, w: nat) {
    && (forall v :: v != w ==> (v in d.writers <==> v in e.writers))
    && (forall v :: v != w && v in d.writers ==> e.writers[v] == d.writers[v])
    && d.data.Keys <= e.data.Keys
    && (forall i :: i in d.data && (i in d.synced || !Owns(d, w, i)) ==> e.data[i] == d.data[i])
    && d.synced <= e.synced
    && (forall i :: i in e.synced && i !in d.synced ==> Owns(e, w, i) && i in e.data)
    && (forall i :: i in d.owner ==> i in e.owner && e.owner[i] == d.owner[i])
    && (forall i :: i in e.owner && i !in d.owner ==> Owns(e, w, i) && i !in d.data && i in e.data)
    && (forall t :: TempName(t) && t in d.names && !Owns(d, w, d.names[t]) ==> t in e.names && e.names[t] == d.names[t])
  }

  ghost predicate Owns(d: Disk, w: nat, i: Inode) {
    i in d.owner && d.owner[i] == w
  }

  ghost predicate SameJob(d: Disk, e: Disk, w: nat) {
    w in d.writers ==>
      && w in e.writers
      && e.writers[w].path == d.writers[w].path
      && e.writers[w].body == d.writers[w].body
      && e.writers[w].createOnly == d.writers[w].createOnly
      && (d.writers[w].committed ==> e.writers[w].committed && e.writers[w].inode == d.writers[w].inode)
  }

  lemma OthersUndisturbed(d: Disk, e: Disk, w: nat)
    requires WritersOk(d) && TouchesOnly(d, e, w) && SameJob(d, e, w)
    requires w in e.writers ==> WriterOk(e, w)
    ensures Keeps(d, e) && WritersOk(e)
  {
    hide TempName, WriterOk, TouchesOnly, SameJob, Keeps;
    forall v | v in e.writers
      ensures WriterOk(e, v)
    {
      if v != w {
        OtherWriterOk(d, e, w, v);
      }
    }
    TouchesKeeps(d, e, w);
  }

  lemma OtherWriterOk(d: Disk, e: Disk, w: nat, v: nat)
    requires WritersOk(d) && TouchesOnly(d, e, w) && v != w && v in e.writers
    ensures WriterOk(e, v)
  {
    hide TempName;
    assert WriterOk(d, v);
  }

  lemma TouchesKeeps(d: Disk, e: Disk, w: nat)
    requires WritersOk(d) && TouchesOnly(d, e, w) && SameJob(d, e, w)
    ensures Keeps(d, e) && forall i :: i in e.synced || i in e.owner ==> i in e.data
  {
    hide TempName, WriterOk;
  }

  /** What every call of writer `w` leaves true. */
  ghost predicate Safe(d: Disk, e: Disk, w: nat) {
    TouchesOnly(d, e, w) && SameJob(d, e, w) && (w in e.writers ==> WriterOk(e, w))
  }

  lemma UnmovedSafe(d: Disk, w: nat)
    requires WritersOk(d)
    ensures Safe(d, d, w)
  {
    hide TempName, WriterOk;
  }

  lemma PhaseSafe(d: Disk, w: nat, phase: Phase)
    requires WritersOk(d) && w in d.writers && WriterOk(Move(d, w, phase), w)
    ensures Safe(d, Move(d, w, phase), w)
  {
    hide TempName, WriterOk;
  }

  lemma StartSafe(d: Disk, w: nat, path: string, body: Bytes, createOnly: bool)
    requires WritersOk(d)
    ensures Safe(d, StartStep(d, w, path, body, createOnly), w)
  {
    hide TempName, NothingDecided;
    if StartStep(d, w, path, body, createOnly) == d {
      UnmovedSafe(d, w);
    }
  }

  lemma DirsSafe(d: Disk, w: nat, dirs: set<string>)
    requires WritersOk(d) && w in d.writers && WriterOk(d, w)
    ensures Safe(d, d.(dirs := dirs), w)
  {
    hide TempName;
  }

  lemma MakeDirSafe(d: Disk, w: nat, slash: nat, ok: bool)
    requires WritersOk(d)
    ensures Safe(d, MakeDirStep(d, w, slash, ok), w)
  {
    hide TempName, Safe, Above;
    var d' := MakeDirStep(d, w, slash, ok);
    if d' == d {
      UnmovedSafe(d, w);
    } else {
      assert WriterOk(d, w);
      DirsSafe(d, w, d'.dirs);
      if At(d', w, Finished(Failed)) {
        PhaseSafe(d, w, Finished(Failed));
      }
    }
  }

  lemma DirsMadeSafe(d: Disk, w: nat)
    requires WritersOk(d)
    ensures Safe(d, DirsMadeStep(d, w), w)
  {
    hide TempName, Safe, Above;
    if DirsMadeStep(d, w) != d {
      assert WriterOk(d, w);
      PhaseSafe(d, w, Opening);
    } else {
      UnmovedSafe(d, w);
    }
  }

  lemma OpenTempSafe(d: Disk, w: nat, tmp: string, inode: Inode, ok: bool)
    requires WritersOk(d)
    ensures Safe(d, OpenTempStep(d, w, tmp, inode, ok), w)
  {
    hide TempName, Safe;
    if !At(d, w, Opening) || !TempName(tmp) || inode in d.data {
      UnmovedSafe(d, w);
    } else if !ok || tmp in d.names || tmp in d.dirs {
      assert WriterOk(d, w);
      PhaseSafe(d, w, Finished(Failed));
    } else {
      OpenedSafe(d, w, tmp, inode);
    }
  }

  lemma OpenedSafe(d: Disk, w: nat, tmp: string, inode: Inode)
    requires WritersOk(d) && At(d, w, Opening) && TempName(tmp) && tmp !in d.names && tmp !in d.dirs && inode !in d.data
    ensures Safe(d, OpenTempStep(d, w, tmp, inode, true), w)
  {
    hide TempName, TouchesOnly, WriterOk;
    OpenedTouches(d, w, tmp, inode);
    OpenedWriter(d, w, tmp, inode);
  }

  lemma OpenedWriter(d: Disk, w: nat, tmp: string, inode: Inode)
    requires w in d.writers && WriterOk(d, w)
    requires At(d, w, Opening) && TempName(tmp) && tmp !in d.names && tmp !in d.dirs && inode !in d.data && inode !in d.synced
    ensures w in OpenTempStep(d, w, tmp, inode, true).writers && WriterOk(OpenTempStep(d, w, tmp, inode, true), w)
    ensures SameJob(d, OpenTempStep(d, w, tmp, inode, true), w)
  {
    hide TempName;
    assert d.writers[w].body[..0] == "";
  }

  lemma OpenedTouches(d: Disk, w: nat, tmp: string, inode: Inode)
    requires WritersOk(d) && At(d, w, Opening) && TempName(tmp) && tmp !in d.names && tmp !in d.dirs && inode !in d.data
    ensures TouchesOnly(d, OpenTempStep(d, w, tmp, inode, true), w)
  {
    hide TempName, WriterOk, NothingDecided, TouchesOnly;
    assert inode !in d.owner && inode !in d.synced;
    FreshFileTouches(d, w, tmp, inode, OpenTempStep(d, w, tmp, inode, true));
  }

  lemma FreshFileTouches(d: Disk, w: nat, tmp: string, inode: Inode, e: Disk)
    requires inode !in d.data && inode !in d.owner && inode !in d.synced && tmp !in d.names
    requires e.names == d.names[tmp := inode] && e.data == d.data[inode := ""] && e.owner == d.owner[inode := w]
    requires e.synced == d.synced && w in d.writers && w in e.writers && e.writers == d.writers[w := e.writers[w]]
    ensures TouchesOnly(d, e, w)
  {
    hide TempName;
  }

  lemma CopySafe(d: Disk, w: nat, n: nat)
    requires WritersOk(d)
    ensures Safe(d, CopyStep(d, w, n), w)
  {
    hide TempName, NothingDecided;
    KnownWriter(d, w);
  }

  lemma CopyFailsSafe(d: Disk, w: nat)
    requires WritersOk(d)
    ensures Safe(d, CopyFailsStep(d, w), w)
  {
    hide TempName, Safe;
    if At(d, w, Copying) {
      assert WriterOk(d, w);
      PhaseSafe(d, w, CleaningUp(Failed));
    } else {
      UnmovedSafe(d, w);
    }
  }

  lemma SyncSafe(d: Disk, w: nat, ok: bool)
    requires WritersOk(d)
    ensures Safe(d, SyncStep(d, w, ok), w)
  {
    hide TempName, NothingDecided;
    KnownWriter(d, w);
    hide WritersOk;
  }

  lemma CloseSafe(d: Disk, w: nat, ok: bool)
    requires WritersOk(d)
    ensures Safe(d, CloseStep(d, w, ok), w)
  {
    hide TempName, Safe;
    if At(d, w, Closing) {
      assert WriterOk(d, w);
      PhaseSafe(d, w, if ok then Committing else CleaningUp(Failed));
    } else {
      UnmovedSafe(d, w);
    }
  }

  lemma CommitTouches(d: Disk, w: nat, ok: bool)
    requires WritersOk(d)
    ensures TouchesOnly(d, CommitStep(d, w, ok), w)
  {
    hide TempName, WritersOk;
    assert w in d.writers ==> WriterOk(d, w) by { KnownWriter(d, w); }
  }

  lemma KnownWriter(d: Disk, w: nat)
    requires WritersOk(d)
    ensures w in d.writers ==> WriterOk(d, w)
  {
    hide WriterOk;
  }

  lemma CommitWriter(d: Disk, w: nat, ok: bool)
    requires w in d.writers && WriterOk(d, w)
    ensures var e := CommitStep(d, w, ok);
            w in e.writers && WriterOk(e, w) && SameJob(d, e, w)
  {
    hide TempName;
  }

  lemma CommitSafe(d: Disk, w: nat, ok: bool)
    requires WritersOk(d)
    ensures Safe(d, CommitStep(d, w, ok), w)
  {
    hide TempName, TouchesOnly, WriterOk;
    if w in d.writers {
      CommitTouches(d, w, ok);
      CommitWriter(d, w, ok);
    } else {
      UnmovedSafe(d, w);
    }
  }

  lemma RemoveTempTouches(d: Disk, w: nat, ok: bool)
    requires WritersOk(d)
    ensures TouchesOnly(d, RemoveTempStep(d, w, ok), w)
  {
    hide TempName, WritersOk, NothingDecided;
    assert w in d.writers ==> WriterOk(d, w) by { KnownWriter(d, w); }
  }

  lemma RemoveTempWriter(d: Disk, w: nat, ok: bool)
    requires w in d.writers && WriterOk(d, w)
    ensures var e := RemoveTempStep(d, w, ok);
            w in e.writers && WriterOk(e, w) && SameJob(d, e, w)
  {
    hide TempName, NothingDecided;
  }

  lemma RemoveTempSafe(d: Disk, w: nat, ok: bool)
    requires WritersOk(d)
    ensures Safe(d, RemoveTempStep(d, w, ok), w)
  {
    hide TempName, TouchesOnly, WriterOk, NothingDecided;
    if w in d.writers {
      RemoveTempTouches(d, w, ok);
      RemoveTempWriter(d, w, ok);
    } else {
      UnmovedSafe(d, w);
    }
  }

  lemma StatSafe(d: Disk, w: nat, ok: bool)
    requires WritersOk(d)
    ensures Safe(d, StatStep(d, w, ok), w)
  {
    hide TempName, Safe;
    if At(d, w, Stating) {
      assert WriterOk(d, w);
      PhaseSafe(d, w, Finished(if ok then Stored else Failed));
    } else {
      UnmovedSafe(d, w);
    }
  }

  lemma KillSafe(d: Disk, w: nat)
    requires WritersOk(d)
    ensures Safe(d, KillStep(d, w), w)
  {
    hide TempName, Safe;
    if w in d.writers && !d.writers[w].phase.Finished? {
      assert WriterOk(d, w);
      PhaseSafe(d, w, Killed);
    } else {
      UnmovedSafe(d, w);
    }
  }

  lemma PowerLossSafe(d: Disk, junk: map<Inode, Bytes>)
    requires WritersOk(d)
    ensures Keeps(d, PowerLossStep(d, junk)) && WritersOk(PowerLossStep(d, junk))
  {
    hide TempName, WriterOk;
    forall w | w in d.writers
      ensures WriterOk(PowerLossStep(d, junk), w)
    {
      PowerLossWriter(d, junk, w);
    }
  }

  lemma PowerLossWriter(d: Disk, junk: map<Inode, Bytes>, w: nat)
    requires w in d.writers && WriterOk(d, w)
    ensures WriterOk(PowerLossStep(d, junk), w)
  {
    hide TempName;
  }

  lemma StepKeeps(d: Disk, e: Event)
    requires WritersOk(d)
    ensures Keeps(d, Apply(d, e)) && WritersOk(Apply(d, e))
  {
    hide TempName, TouchesOnly, SameJob, WriterOk;
    hide StartStep, MakeDirStep, DirsMadeStep, OpenTempStep, CopyStep, CopyFailsStep, SyncStep, CloseStep, CommitStep, RemoveTempStep, StatStep, KillStep, PowerLossStep;
    match e {
      case Start(w, path, body, createOnly) => StartSafe(d, w, path, body, createOnly);
      case MakeDir(w, slash, ok) => MakeDirSafe(d, w, slash, ok);
      case DirsMade(w) => DirsMadeSafe(d, w);
      case OpenTemp(w, tmp, inode, ok) => OpenTempSafe(d, w, tmp, inode, ok);
      case CopyChunk(w, n) => CopySafe(d, w, n);
      case CopyFails(w) => CopyFailsSafe(d, w);
      case SyncFile(w, ok) => SyncSafe(d, w, ok);
      case CloseFile(w, ok) => CloseSafe(d, w, ok);
      case Commit(w, ok) => CommitSafe(d, w, ok);
      case RemoveTemp(w, ok) => RemoveTempSafe(d, w, ok);
      case StatObject(w, ok) => StatSafe(d, w, ok);
      case Kill(w) => KillSafe(d, w);
      case FlushNames => FlushSafe(d);
      case PowerLoss(junk) => PowerLossSafe(d, junk);
    }
    if !e.PowerLoss? && !e.FlushNames? {
      OthersUndisturbed(d, Apply(d, e), e.w);
    }
  }

  lemma FlushSafe(d: Disk)
    requires WritersOk(d)
    ensures Keeps(d, Apply(d, FlushNames)) && WritersOk(Apply(d, FlushNames))
  {
    hide TempName;
    forall w | w in d.writers
      ensures WriterOk(Apply(d, FlushNames), w)
    {
      assert WriterOk(d, w);
    }
  }

  lemma WholeKept(d0: Disk, d: Disk, e: Disk, names: map<string, Inode>)
    requires AllWhole(d0, d, names) && Keeps(d, e)
    ensures AllWhole(d0, e, names)
  {
    hide TempName;
  }

  /** Which object paths a step rebinds: only a commit does, and to the committed bytes. */
  lemma StepNames(d: Disk, e: Event)
    requires WritersOk(d) && !e.PowerLoss?
    ensures
      var d' := Apply(d, e);
      && (forall p :: p in d'.names && !TempName(p) ==>
            || (p in d.names && d'.names[p] == d.names[p])
            || (e.Commit? && Owns(d', e.w, d'.names[p]) && e.w in d'.writers && d'.writers[e.w].committed
                && d'.writers[e.w].path == p && d'.writers[e.w].inode == d'.names[p]))
      && forall p :: p in d'.names ==>
            (p in d.names && d'.names[p] == d.names[p]) || d'.names[p] in d'.data
  {
    hide TempName, NothingDecided, WriterOk, WritersOk;
    hide StartStep, MakeDirStep, DirsMadeStep, CopyStep, CopyFailsStep, SyncStep, CloseStep, StatStep, KillStep, PowerLossStep;
    if e.Commit? {
      KnownWriter(d, e.w);
      CommitNames(d, e.w, e.ok);
      hide CommitStep;
    }
  }

  lemma CommitNames(d: Disk, w: nat, ok: bool)
    requires w in d.writers ==> WriterOk(d, w)
    ensures var d' := CommitStep(d, w, ok);
            forall p :: p in d'.names ==>
              || (p in d.names && d'.names[p] == d.names[p])
              || (w in d'.writers && d'.writers[w].committed && d'.writers[w].path == p && d'.writers[w].inode == d'.names[p]
                  && Owns(d', w, d'.names[p]) && d'.names[p] in d'.data)
  {
    hide TempName;
  }

  /** A step never puts a file where a directory is, nor the other way round. */
  lemma StepApart(d: Disk, e: Event)
    requires Apart(d)
    ensures Apart(Apply(d, e))
  {
    hide TempName, Above, NothingDecided, StartStep, DirsMadeStep, CopyStep, CopyFailsStep, SyncStep, CloseStep, StatStep, KillStep;
  }

  lemma StepInv(d0: Disk, d: Disk, e: Event)
    requires Inv(d0, d)
    ensures Inv(d0, Apply(d, e)) && Keeps(d, Apply(d, e))
  {
    hide TempName, Apply, Keeps, Apart;
    var d' := Apply(d, e);
    StepApart(d, e);
    StepKeeps(d, e);
    WholeKept(d0, d, d', d.names);
    WholeKept(d0, d, d', d.durable);
    if !e.PowerLoss? {
      StepNames(d, e);
      assert e.Commit? && e.w in d'.writers ==> WriterOk(d', e.w);
    }
    StepDurable(d, e);
  }

  lemma {:induction false} RunInv(d0: Disk, d: Disk, events: seq<Event>)
    requires Inv(d0, d)
    ensures Inv(d0, Run(d, events)) && Keeps(d, Run(d, events))
    decreases |events|
  {
    hide Inv, Apply;
    if events != [] {
      StepInv(d0, d, events[0]);
      RunInv(d0, Apply(d, events[0]), events[1..]);
    }
  }

  // ---- what readers and writers may rely on ----

  /** The objects running processes see. */
  ghost function Objects(d: Disk): map<string, Bytes> {
    Contents(d.names, d.data)
  }

  ghost function Contents(names: map<string, Inode>, data: map<Inode, Bytes>): map<string, Bytes> {
    map p | p in names && !TempName(p) && names[p] in data :: data[names[p]]
  }

  /** The event that set writer `w` to work: its first start on an object path. */
  predicate Requests(events: seq<Event>, i: nat, w: nat, path: string, body: Bytes, createOnly: bool) {
    && i < |events| && events[i] == Start(w, path, body, createOnly) && !TempName(path)
    && forall j :: 0 <= j < i ==> !Begins(events[j], w)
  }

  predicate Begins(e: Event, w: nat) {
    e.Start? && e.w == w && !TempName(e.path)
  }

  lemma OnlyStartsBegin(d: Disk, e: Event, w: nat)
    requires w !in d.writers
    ensures w in Apply(d, e).writers <==> Begins(e, w)
    ensures Begins(e, w) ==>
              var wr := Apply(d, e).writers[w];
              wr.path == e.path && wr.body == e.body && wr.createOnly == e.createOnly
  {
    hide TempName, NothingDecided, MakeDirStep, DirsMadeStep, OpenTempStep, CopyStep, CopyFailsStep, SyncStep, CloseStep, CommitStep;
    hide RemoveTempStep, StatStep, KillStep, PowerLossStep;
    if !e.Start? {
      NoNewWriter(d, e, w);
    }
  }

  lemma NoNewWriter(d: Disk, e: Event, w: nat)
    requires w !in d.writers && !e.Start?
    ensures w !in Apply(d, e).writers
  {
    hide TempName, NothingDecided, Above;
  }

  /** Every writer works on the path, the bytes and the mode of the event that started it. */
  lemma {:induction false} WriterIsRequested(d0: Disk, d: Disk, events: seq<Event>, w: nat) returns (i: nat)
    requires Inv(d0, d) && w !in d.writers && w in Run(d, events).writers
    ensures var wr := Run(d, events).writers[w]; Requests(events, i, w, wr.path, wr.body, wr.createOnly)
    decreases |events|
  {
    hide Inv, Apply, TempName, Begins;
    var next := Apply(d, events[0]);
    StepInv(d0, d, events[0]);
    RunInv(d0, next, events[1..]);
    OnlyStartsBegin(d, events[0], w);
    if w in next.writers {
      assert Begins(events[0], w) ==> events[0].Start? && events[0].w == w && !TempName(events[0].path) by {
        BeginsMeaning(events[0], w);
      }
      i := 0;
    } else {
      i := WriterIsRequested(d0, next, events[1..], w);
      assert forall j :: 0 <= j < i ==> events[1..][j] == events[j + 1];
      i := i + 1;
      assert forall j :: 0 <= j < i ==> !Begins(events[j], w);
    }
  }

  lemma BeginsMeaning(e: Event, w: nat)
    requires Begins(e, w)
    ensures e.Start? && e.w == w && !TempName(e.path)
  {
    hide TempName;
  }

  /** In every interleaving, with failures, kills and power losses anywhere, a visible object holds
      its initial bytes or all the bytes that one writer of that path, which committed, was started
      with. */
  lemma VisibleObjectsAreWhole(d0: Disk, events: seq<Event>, p: string)
    requires Fresh(d0) && p in Objects(Run(d0, events))
    ensures
      var d := Run(d0, events);
      || (p in Objects(d0) && Objects(d)[p] == Objects(d0)[p])
      || exists w, i, createOnly ::
           Requests(events, i, w, p, Objects(d)[p], createOnly) && w in d.writers && d.writers[w].committed
  {
    hide TempName, Run, Requests;
    FreshInv(d0);
    RunInv(d0, d0, events);
    var d := Run(d0, events);
    assert Whole(d0, d, d.names, p);
    var inode := d.names[p];
    if inode in d.owner {
      var w := d.owner[inode];
      var i := WriterIsRequested(d0, d0, events, w);
      assert Requests(events, i, w, p, Objects(d)[p], d.writers[w].createOnly);
    }
  }

  /** A reader that opened an object keeps reading that one version, whatever happens later. */
  lemma OpenReadersSeeOneVersion(d0: Disk, before: seq<Event>, later: seq<Event>, p: string)
    requires Fresh(d0) && p in Objects(Run(d0, before))
    ensures
      var d := Run(d0, before);
      d.names[p] in Run(d, later).data && Run(d, later).data[d.names[p]] == Objects(d)[p]
  {
    hide TempName, Run;
    FreshInv(d0);
    RunInv(d0, d0, before);
    var d := Run(d0, before);
    RunInv(d0, d, later);
    assert Whole(d0, d, d.names, p);
  }

  // ---- refinement of an atomic store ----

  /** The simple form: whole objects, changed in one step. */
  datatype Store = Store(visible: map<string, Bytes>, durable: map<string, Bytes>)

  datatype Op = Put(path: string, body: Bytes) | PutIfAbsent(path: string, body: Bytes) | Flush | Loss | Nothing

  function Perform(st: Store, op: Op): Store {
    match op
    case Put(p, b) => st.(visible := st.visible[p := b])
    case PutIfAbsent(p, b) => if p in st.visible then st else st.(visible := st.visible[p := b])
    case Flush => st.(durable := st.visible)
    case Loss => st.(visible := st.durable)
    case Nothing => st
  }

  function PerformAll(st: Store, ops: seq<Op>): Store
    decreases |ops|
  {
    if ops == [] then st else PerformAll(Perform(st, ops[0]), ops[1..])
  }

  ghost function AsStore(d: Disk): Store {
    Store(Contents(d.names, d.data), Contents(d.durable, d.data))
  }

  /** What a step amounts to on the simple store: only a commit that goes through counts. */
  function OpOf(d: Disk, e: Event): Op {
    match e
    case Commit(w, ok) =>
      if !At(d, w, Committing) || !ok || d.writers[w].tmp !in d.names || d.writers[w].path in d.dirs then Nothing
      else if d.writers[w].createOnly then PutIfAbsent(d.writers[w].path, d.writers[w].body)
      else Put(d.writers[w].path, d.writers[w].body)
    case FlushNames => Flush
    case PowerLoss(_) => Loss
    case _ => Nothing
  }

  function OpsOf(d: Disk, events: seq<Event>): seq<Op>
    decreases |events|
  {
    if events == [] then [] else [OpOf(d, events[0])] + OpsOf(Apply(d, events[0]), events[1..])
  }

  /** Contents at names whose bytes are on the disk survive every step. */
  lemma ContentsKept(d0: Disk, d: Disk, e: Event, names: map<string, Inode>)
    requires Inv(d0, d) && (names == d.names || names == d.durable)
    ensures Contents(names, Apply(d, e).data) == Contents(names, d.data)
  {
    hide TempName, Apply;
    StepInv(d0, d, e);
    forall p | p in names && !TempName(p)
      ensures names[p] in d.data && names[p] in Apply(d, e).data
      ensures Apply(d, e).data[names[p]] == d.data[names[p]]
    {
      assert Whole(d0, d, names, p);
    }
  }

  lemma CommitContents(d0: Disk, d: Disk, w: nat, ok: bool)
    requires Inv(d0, d)
    ensures Apply(d, Commit(w, ok)).data == d.data
    ensures Contents(Apply(d, Commit(w, ok)).names, d.data) == Perform(AsStore(d), OpOf(d, Commit(w, ok))).visible
  {
    hide TempName, CommitStep, Contents, OpOf, Whole;
    InvWriters(d0, d);
    KnownWriter(d, w);
    assert forall p :: p in d.names ==> d.names[p] in d.data;
    hide Inv, WritersOk;
    CommittedContents(d, w, ok);
  }

  lemma CommittedContents(d: Disk, w: nat, ok: bool)
    requires w in d.writers ==> WriterOk(d, w)
    requires forall p :: p in d.names ==> d.names[p] in d.data
    ensures CommitStep(d, w, ok).data == d.data
    ensures Contents(CommitStep(d, w, ok).names, d.data) == Perform(AsStore(d), OpOf(d, Commit(w, ok))).visible
  {
    hide TempName;
  }

  /** Away from commits and power losses, object paths are bound as before. */
  lemma ObjectNamesStay(d: Disk, e: Event)
    requires WritersOk(d) && !e.Commit? && !e.PowerLoss?
    ensures forall p :: !TempName(p) ==>
              (p in Apply(d, e).names <==> p in d.names) && (p in d.names ==> Apply(d, e).names[p] == d.names[p])
  {
    hide TempName, NothingDecided, WritersOk;
    hide StartStep, MakeDirStep, DirsMadeStep, CopyStep, CopyFailsStep, SyncStep, CloseStep, CommitStep, StatStep, KillStep, PowerLossStep;
    if e.RemoveTemp? {
      KnownWriter(d, e.w);
    }
  }

  lemma SameObjectNames(names: map<string, Inode>, names': map<string, Inode>, data: map<Inode, Bytes>)
    requires forall p :: !TempName(p) ==>
               (p in names' <==> p in names) && (p in names ==> names'[p] == names[p])
    ensures Contents(names', data) == Contents(names, data)
  {
    hide TempName;
  }

  /** Each step of the protocol is one operation of the simple store, or nothing at all. */
  lemma StepRefines(d0: Disk, d: Disk, e: Event)
    requires Inv(d0, d)
    ensures AsStore(Apply(d, e)) == Perform(AsStore(d), OpOf(d, e))
  {
    hide TempName, Contents, Inv, Apply;
    ContentsKept(d0, d, e, d.names);
    ContentsKept(d0, d, e, d.durable);
    StepDurable(d, e);
    if e.Commit? {
      CommitContents(d0, d, e.w, e.ok);
    } else if !e.PowerLoss? {
      assert WritersOk(d) by {
        InvWriters(d0, d);
      }
      ObjectNamesStay(d, e);
      SameObjectNames(d.names, Apply(d, e).names, Apply(d, e).data);
    }
  }

  lemma InvWriters(d0: Disk, d: Disk)
    requires Inv(d0, d)
    ensures WritersOk(d)
  {
  }

  lemma StepDurable(d: Disk, e: Event)
    ensures Apply(d, e).durable == if e.FlushNames? then d.names else d.durable
    ensures e.PowerLoss? ==> Apply(d, e).names == d.durable
    ensures e.FlushNames? ==> Apply(d, e).names == d.names
  {
    hide TempName, NothingDecided, StartStep, MakeDirStep, DirsMadeStep, OpenTempStep, CopyStep, CopyFailsStep, SyncStep;
    hide CloseStep, CommitStep, RemoveTempStep, StatStep, KillStep, PowerLossStep;
  }

  /** A whole run, in any interleaving, behaves like its committed operations in commit order. */
  lemma {:induction false} RunRefines(d0: Disk, d: Disk, events: seq<Event>)
    requires Inv(d0, d)
    ensures AsStore(Run(d, events)) == PerformAll(AsStore(d), OpsOf(d, events))
    decreases |events|
  {
    hide Inv, Apply, AsStore, OpOf, Perform;
    if events != [] {
      StepRefines(d0, d, events[0]);
      StepInv(d0, d, events[0]);
      RunRefines(d0, Apply(d, events[0]), events[1..]);
      var ops := OpsOf(Apply(d, events[0]), events[1..]);
      assert ([OpOf(d, events[0])] + ops)[1..] == ops;
    }
  }

  /** The operations of a run are those its start events ask for. */
  lemma {:induction false} OpsAreRequests(d0: Disk, events: seq<Event>, k: nat) returns (w: nat, i: nat)
    requires Fresh(d0) && k < |events|
    ensures |OpsOf(d0, events)| == |events|
    ensures var op := OpsOf(d0, events)[k];
            op.Put? || op.PutIfAbsent? ==>
              events[k] == Commit(w, true) && i < k && Requests(events, i, w, op.path, op.body, op.PutIfAbsent?)
  {
    hide TempName, Apply, Begins;
    FreshInv(d0);
    OpAt(d0, events, k);
    var d := Run(d0, events[..k]);
    var op := OpOf(d, events[k]);
    w, i := 0, 0;
    if op.Put? || op.PutIfAbsent? {
      w := events[k].w;
      i := WriterIsRequested(d0, d0, events[..k], w);
    }
  }

  lemma {:induction false} OpAt(d: Disk, events: seq<Event>, k: nat)
    requires k < |events|
    ensures |OpsOf(d, events)| == |events| && OpsOf(d, events)[k] == OpOf(Run(d, events[..k]), events[k])
    decreases |events|
  {
    hide Apply, OpOf;
    var next := Apply(d, events[0]);
    if k > 0 {
      OpAt(next, events[1..], k - 1);
      assert events[..k][1..] == events[1..][..k - 1];
    } else if |events| > 1 {
      OpAt(next, events[1..], 0);
    }
  }

  // ---- create-only writers ----

  ghost predicate OnlyCreateOnly(d: Disk, p: string) {
    forall w :: w in d.writers && d.writers[w].path == p ==> d.writers[w].createOnly
  }

  lemma CreateOnlyOp(d: Disk, e: Event, last: Disk, p: string)
    requires Keeps(d, Apply(d, e)) && Keeps(Apply(d, e), last) && OnlyCreateOnly(last, p)
    ensures OpOf(d, e).Put? ==> OpOf(d, e).path != p
  {
    hide Apply, TempName;
  }

  /** The object is there with these bytes, now and after every event. */
  ghost predicate Stays(d: Disk, events: seq<Event>, p: string, body: Bytes)
    decreases |events|
  {
    && p in Objects(d) && Objects(d)[p] == body
    && (events != [] ==> Stays(Apply(d, events[0]), events[1..], p, body))
  }

  /** Every power loss finds the object with these bytes on the disk. */
  ghost predicate LossesSpare(d: Disk, events: seq<Event>, p: string, body: Bytes)
    decreases |events|
  {
    events == []
    || ((events[0].PowerLoss? ==> p in AsStore(d).durable && AsStore(d).durable[p] == body)
        && LossesSpare(Apply(d, events[0]), events[1..], p, body))
  }

  /** While only create-only writers aim at a path, an object present there stays exactly as it is
      throughout the run, if and only if it is on the disk at every power loss. */
  lemma {:induction false} CreateOnlyNeverReplaces(d0: Disk, d: Disk, events: seq<Event>, p: string)
    requires Inv(d0, d)
    requires OnlyCreateOnly(Run(d, events), p)
    requires p in Objects(d)
    ensures Stays(d, events, p, Objects(d)[p]) <==> LossesSpare(d, events, p, Objects(d)[p])
    decreases |events|
  {
    hide Inv, Apply, TempName, Objects, AsStore, Contents;
    if events != [] {
      var next := Apply(d, events[0]);
      StepInv(d0, d, events[0]);
      RunInv(d0, next, events[1..]);
      CreateOnlyOp(d, events[0], Run(d, events), p);
      hide Keeps, OnlyCreateOnly, OpOf;
      OneStepKeeps(d0, d, events[0], p);
      assert OnlyCreateOnly(Run(next, events[1..]), p);
      if !events[0].PowerLoss? || (p in Objects(next) && Objects(next)[p] == Objects(d)[p]) {
        CreateOnlyNeverReplaces(d0, next, events[1..], p);
      }
    }
  }

  lemma OneStepKeeps(d0: Disk, d: Disk, e: Event, p: string)
    requires Inv(d0, d) && p in Objects(d)
    requires OpOf(d, e).Put? ==> OpOf(d, e).path != p
    ensures !e.PowerLoss? ==> p in Objects(Apply(d, e)) && Objects(Apply(d, e))[p] == Objects(d)[p]
    ensures e.PowerLoss? ==> Objects(Apply(d, e)) == AsStore(d).durable
  {
    hide Inv, Apply, TempName, Contents, At;
    StepRefines(d0, d, e);
  }

  /** Once on the disk, an object only create-only writers aim at stays through everything. */
  lemma {:induction false} DurableObjectsStay(d0: Disk, d: Disk, events: seq<Event>, p: string)
    requires Inv(d0, d) && OnlyCreateOnly(Run(d, events), p)
    requires p in Objects(d) && p in AsStore(d).durable && AsStore(d).durable[p] == Objects(d)[p]
    ensures Stays(d, events, p, Objects(d)[p])
    decreases |events|
  {
    hide Inv, Apply, TempName, Objects, AsStore, Contents;
    if events != [] {
      var next := Apply(d, events[0]);
      StepInv(d0, d, events[0]);
      RunInv(d0, next, events[1..]);
      CreateOnlyOp(d, events[0], Run(d, events), p);
      hide Keeps, OnlyCreateOnly, OpOf;
      OneStepKeeps(d0, d, events[0], p);
      DurableNext(d0, d, events[0], p);
      DurableObjectsStay(d0, next, events[1..], p);
    }
  }

  lemma DurableNext(d0: Disk, d: Disk, e: Event, p: string)
    requires Inv(d0, d) && p in AsStore(d).durable && p in Objects(d) && AsStore(d).durable[p] == Objects(d)[p]
    ensures p in AsStore(Apply(d, e)).durable && AsStore(Apply(d, e)).durable[p] == Objects(d)[p]
  {
    hide Inv, Apply, TempName, Contents, At;
    StepRefines(d0, d, e);
    assert Objects(d) == AsStore(d).visible;
  }

  ghost predicate Refusal(phase: Phase) {
    phase == CleaningUp(Refused) || phase == Finished(Refused)
  }

  /** Whoever committed at `p` is what the path holds. */
  ghost predicate CommittedStand(d: Disk, p: string) {
    && (forall w :: w in d.writers && d.writers[w].path == p && d.writers[w].committed ==>
          p in d.names && d.names[p] == d.writers[w].inode)
    && (p in d.durable ==> p in d.names && d.names[p] == d.durable[p])
  }

  /** Whoever was refused found something standing at the path. */
  ghost predicate RefusedStand(d: Disk, p: string) {
    && (forall w :: w in d.writers && d.writers[w].path == p && Refusal(d.writers[w].phase) ==> p in d.names || p in d.dirs)
    && (p in d.durableDirs ==> p in d.dirs)
  }

  /** Writer `w` is committed, or refused, in `e` only if it already was in `d`. */
  ghost predicate NothingDecided(d: Disk, e: Disk, w: nat) {
    w in e.writers && (e.writers[w].committed || Refusal(e.writers[w].phase)) ==>
      && w in d.writers && e.writers[w].path == d.writers[w].path && e.writers[w].inode == d.writers[w].inode
      && (e.writers[w].committed ==> d.writers[w].committed)
      && (Refusal(e.writers[w].phase) ==> Refusal(d.writers[w].phase))
  }

  /** Only a commit step commits a writer or tells it that its path is taken. */
  lemma OnlyCommitsDecide(d: Disk, e: Event, w: nat)
    requires !e.Commit? && WritersOk(d)
    ensures NothingDecided(d, Apply(d, e), w)
  {
    hide TempName, NothingDecided, StartStep, MakeDirStep, DirsMadeStep, OpenTempStep, CopyStep, CopyFailsStep, SyncStep;
    hide CloseStep, CommitStep, RemoveTempStep, StatStep, KillStep, PowerLossStep, WritersOk;
    if e.OpenTemp? {
      OpenTempDecidesNothing(d, e.w, e.tmp, e.inode, e.ok, w);
    } else if e.FlushNames? {
      SameWriters(d, Apply(d, e), w);
    }
  }

  lemma OpenTempDecidesNothing(d: Disk, w: nat, tmp: string, inode: Inode, ok: bool, v: nat)
    requires WritersOk(d)
    ensures NothingDecided(d, OpenTempStep(d, w, tmp, inode, ok), v)
  {
    hide TempName, WritersOk;
    assert w in d.writers ==> WriterOk(d, w) by { KnownWriter(d, w); }
  }

  lemma SameWriters(d: Disk, e: Disk, w: nat)
    requires e.writers == d.writers
    ensures NothingDecided(d, e, w)
  {
  }

  lemma CommitStands(d: Disk, w: nat, ok: bool, p: string)
    requires WritersOk(d) && !TempName(p) && OnlyCreateOnly(d, p)
    ensures CommittedStand(d, p) ==> CommittedStand(CommitStep(d, w, ok), p)
    ensures RefusedStand(d, p) ==> RefusedStand(CommitStep(d, w, ok), p)
  {
    hide TempName;
    if w in d.writers {
      assert WriterOk(d, w);
    }
  }

  /** Other steps leave whatever stands at an object path. */
  lemma StandingStays(d: Disk, e: Event, p: string)
    requires WritersOk(d) && !e.PowerLoss? && !e.Commit? && !TempName(p)
    ensures var d' := Apply(d, e);
            && (p in d'.names <==> p in d.names) && (p in d.names ==> d'.names[p] == d.names[p])
            && (p in d.dirs ==> p in d'.dirs)
            && (|| (d'.durable == d.durable && d'.durableDirs == d.durableDirs)
                || (d'.durable == d'.names && d'.durableDirs == d'.dirs))
  {
    ObjectNamesStay(d, e);
    StepDurable(d, e);
    DirsGrow(d, e);
    hide TempName, Apply, WritersOk;
  }

  lemma DirsGrow(d: Disk, e: Event)
    ensures !e.PowerLoss? ==> d.dirs <= Apply(d, e).dirs
    ensures Apply(d, e).durableDirs == if e.FlushNames? then d.dirs else d.durableDirs
    ensures e.PowerLoss? ==> Apply(d, e).dirs == d.durableDirs
    ensures e.FlushNames? ==> Apply(d, e).dirs == d.dirs
  {
    hide TempName, NothingDecided, StartStep, MakeDirStep, DirsMadeStep, OpenTempStep, CopyStep, CopyFailsStep, SyncStep;
    hide CloseStep, CommitStep, RemoveTempStep, StatStep, KillStep, PowerLossStep;
  }

  /** A power loss finds on the disk the object that stands at `p`, if one does. */
  predicate SparesObject(d: Disk, e: Event, p: string) {
    e.PowerLoss? && p in d.names ==> p in d.durable
  }

  /** Likewise for a directory standing there. */
  predicate SparesDirectory(d: Disk, e: Event, p: string) {
    e.PowerLoss? && p in d.dirs ==> p in d.durableDirs
  }

  lemma StepCommittedStand(d: Disk, e: Event, p: string)
    requires WritersOk(d) && !TempName(p) && SparesObject(d, e, p)
    requires CommittedStand(d, p) && OnlyCreateOnly(d, p)
    ensures CommittedStand(Apply(d, e), p)
  {
    hide TempName, Apply, WritersOk;
    if e.Commit? {
      CommitStands(d, e.w, e.ok, p);
      assert Apply(d, e) == CommitStep(d, e.w, e.ok) by { ApplyCommit(d, e); }
    } else {
      StepDurable(d, e);
      if !e.PowerLoss? {
        StandingStays(d, e, p);
      }
      forall w: nat | w in Apply(d, e).writers && Apply(d, e).writers[w].path == p && Apply(d, e).writers[w].committed
        ensures p in Apply(d, e).names && Apply(d, e).names[p] == Apply(d, e).writers[w].inode
      {
        OnlyCommitsDecide(d, e, w);
      }
    }
  }

  lemma ApplyCommit(d: Disk, e: Event)
    requires e.Commit?
    ensures Apply(d, e) == CommitStep(d, e.w, e.ok)
  {
    hide CommitStep;
  }

  lemma StepRefusedStand(d: Disk, e: Event, p: string)
    requires WritersOk(d) && !TempName(p) && SparesObject(d, e, p) && SparesDirectory(d, e, p)
    requires RefusedStand(d, p) && OnlyCreateOnly(d, p)
    ensures RefusedStand(Apply(d, e), p)
  {
    hide TempName, Apply, WritersOk;
    if e.Commit? {
      CommitStands(d, e.w, e.ok, p);
      assert Apply(d, e) == CommitStep(d, e.w, e.ok) by { ApplyCommit(d, e); }
    } else {
      StepDurable(d, e);
      DirsGrow(d, e);
      if !e.PowerLoss? {
        StandingStays(d, e, p);
      }
      forall w: nat | w in Apply(d, e).writers && Apply(d, e).writers[w].path == p && Refusal(Apply(d, e).writers[w].phase)
        ensures p in Apply(d, e).names || p in Apply(d, e).dirs
      {
        OnlyCommitsDecide(d, e, w);
      }
    }
  }

  /** Every power loss of the run spares the object, or the directory, standing at `p`. */
  ghost predicate ObjectSpared(d: Disk, events: seq<Event>, p: string)
    decreases |events|
  {
    events == [] || (SparesObject(d, events[0], p) && ObjectSpared(Apply(d, events[0]), events[1..], p))
  }

  ghost predicate DirectorySpared(d: Disk, events: seq<Event>, p: string)
    decreases |events|
  {
    events == [] || (SparesDirectory(d, events[0], p) && DirectorySpared(Apply(d, events[0]), events[1..], p))
  }

  lemma {:induction false} RunCommittedStand(d0: Disk, d: Disk, events: seq<Event>, p: string)
    requires Inv(d0, d) && !TempName(p) && CommittedStand(d, p)
    requires ObjectSpared(d, events, p) && OnlyCreateOnly(Run(d, events), p)
    ensures CommittedStand(Run(d, events), p)
    decreases |events|
  {
    hide Inv, Apply, TempName, CommittedStand, SparesObject;
    RunInv(d0, d, events);
    InvWriters(d0, d);
    if events != [] {
      StepInv(d0, d, events[0]);
      StepCommittedStand(d, events[0], p);
      RunCommittedStand(d0, Apply(d, events[0]), events[1..], p);
    }
  }

  lemma {:induction false} RunRefusedStand(d0: Disk, d: Disk, events: seq<Event>, p: string)
    requires Inv(d0, d) && !TempName(p) && RefusedStand(d, p)
    requires ObjectSpared(d, events, p) && DirectorySpared(d, events, p) && OnlyCreateOnly(Run(d, events), p)
    requires CommittedStand(d, p)
    ensures RefusedStand(Run(d, events), p)
    decreases |events|
  {
    hide Inv, Apply, TempName, CommittedStand, RefusedStand, SparesObject, SparesDirectory;
    RunInv(d0, d, events);
    InvWriters(d0, d);
    if events != [] {
      StepInv(d0, d, events[0]);
      StepCommittedStand(d, events[0], p);
      StepRefusedStand(d, events[0], p);
      RunRefusedStand(d0, Apply(d, events[0]), events[1..], p);
    }
  }

  /** A committed write of `p` that is neither visible nor on the disk. */
  predicate Lost(d: Disk, p: string, w: nat) {
    && w in d.writers && d.writers[w].path == p && d.writers[w].committed
    && !(p in d.names && d.names[p] == d.writers[w].inode)
    && !(p in d.durable && d.durable[p] == d.writers[w].inode)
  }

  /** Nothing brings it back. */
  lemma StepLost(d: Disk, e: Event, p: string, w: nat)
    requires WritersOk(d) && !TempName(p) && Lost(d, p, w)
    ensures Lost(Apply(d, e), p, w)
  {
    hide TempName, Apply;
    StepKeeps(d, e);
    StepDurable(d, e);
    assert WriterOk(d, w);
    if !e.PowerLoss? {
      StepNames(d, e);
      if e.Commit? && e.w == w {
        ApplyCommit(d, e);
      }
    }
  }

  lemma {:induction false} RunLost(d0: Disk, d: Disk, events: seq<Event>, p: string, w: nat)
    requires Inv(d0, d) && !TempName(p) && Lost(d, p, w)
    ensures Lost(Run(d, events), p, w)
    decreases |events|
  {
    hide Inv, Apply, TempName, Lost;
    InvWriters(d0, d);
    if events != [] {
      StepInv(d0, d, events[0]);
      StepLost(d, events[0], p, w);
      RunLost(d0, Apply(d, events[0]), events[1..], p, w);
    }
  }

  /** A power loss that does not spare the object loses the write that made it. */
  lemma UnsparedIsLost(d0: Disk, d: Disk, e: Event, p: string) returns (w: nat)
    requires Inv(d0, d) && !TempName(p) && p !in d0.names && !SparesObject(d, e, p)
    ensures Lost(Apply(d, e), p, w)
  {
    hide TempName, Apply;
    assert Whole(d0, d, d.names, p);
    w := d.owner[d.names[p]];
    StepInv(d0, d, e);
    StepDurable(d, e);
  }

  lemma {:induction false} UnsparedRunLoses(d0: Disk, d: Disk, events: seq<Event>, p: string) returns (w: nat)
    requires Inv(d0, d) && !TempName(p) && p !in d0.names && !ObjectSpared(d, events, p)
    ensures Lost(Run(d, events), p, w)
    decreases |events|
  {
    hide Inv, Apply, TempName, SparesObject, Lost;
    StepInv(d0, d, events[0]);
    if !SparesObject(d, events[0], p) {
      w := UnsparedIsLost(d0, d, events[0], p);
      RunLost(d0, Apply(d, events[0]), events[1..], p, w);
    } else {
      w := UnsparedRunLoses(d0, Apply(d, events[0]), events[1..], p);
    }
  }

  /** `w` alone was told its object is stored, its bytes are what the path holds, and every other
      writer of the path was told that one exists. */
  ghost predicate Creator(d: Disk, p: string, w: nat) {
    && w in d.writers && d.writers[w].path == p && d.writers[w].phase == Finished(Stored)
    && p in Objects(d) && Objects(d)[p] == d.writers[w].body
    && forall v :: v in d.writers && d.writers[v].path == p && v != w ==> d.writers[v].phase == Finished(Refused)
  }

  ghost predicate Answered(d: Disk, p: string) {
    forall w :: w in d.writers && d.writers[w].path == p ==> d.writers[w].phase in {Finished(Stored), Finished(Refused)}
  }

  lemma OwnerIsCreator(d0: Disk, d: Disk, p: string)
    requires Inv(d0, d) && !TempName(p) && p !in d0.names && p in d.names
    requires Answered(d, p) && CommittedStand(d, p)
    ensures Creator(d, p, d.owner[d.names[p]])
  {
    hide TempName;
    assert Whole(d0, d, d.names, p);
    var w := d.owner[d.names[p]];
    forall v | v in d.writers && d.writers[v].path == p
      ensures d.writers[v].phase == if v == w then Finished(Stored) else Finished(Refused)
    {
      assert WriterOk(d, v) && WriterOk(d, w);
    }
  }

  lemma LostMeansNoCreator(d0: Disk, d: Disk, p: string, lost: nat, w: nat)
    requires Inv(d0, d) && !TempName(p) && p !in d0.names && Answered(d, p) && Lost(d, p, lost)
    ensures !Creator(d, p, w)
  {
    hide TempName;
    assert WriterOk(d, lost);
    if p in d.names {
      assert Whole(d0, d, d.names, p);
      assert WriterOk(d, d.owner[d.names[p]]);
    }
  }

  /** Competing create-only writers of a path that held no object, each told either that its object
      is stored or that one already exists: exactly one was told it is stored, and its bytes are
      there, if and only if an object stands at the path and every power loss found it on the disk. */
  lemma ExactlyOneCreates(d0: Disk, events: seq<Event>, p: string)
    requires Fresh(d0) && p !in d0.names && !TempName(p)
    requires OnlyCreateOnly(Run(d0, events), p) && Answered(Run(d0, events), p)
    ensures var d := Run(d0, events);
            (exists w :: Creator(d, p, w)) <==> ObjectSpared(d0, events, p) && p in d.names
  {
    hide Run, TempName, Inv, CommittedStand, Answered, Lost;
    FreshInv(d0);
    RunInv(d0, d0, events);
    var d := Run(d0, events);
    if ObjectSpared(d0, events, p) {
      NobodyYet(d0, p);
      RunCommittedStand(d0, d0, events, p);
      if p in d.names {
        OwnerIsCreator(d0, d, p);
      }
    } else {
      var lost := UnsparedRunLoses(d0, d0, events, p);
      forall w: nat
        ensures !Creator(d, p, w)
      {
        LostMeansNoCreator(d0, d, p, lost, w);
      }
    }
  }

  lemma NobodyYet(d: Disk, p: string)
    requires Fresh(d)
    ensures CommittedStand(d, p) && RefusedStand(d, p)
  {
  }

  /** When every power loss spares whatever stands at the path, in particular when there is none,
      exactly one of them creates if and only if no directory ends up at the path: a directory there
      is answered like an existing object, so then nobody creates. */
  lemma OneCreatesUnlessADirectory(d0: Disk, events: seq<Event>, p: string, someone: nat)
    requires Fresh(d0) && p !in d0.names && !TempName(p)
    requires OnlyCreateOnly(Run(d0, events), p) && Answered(Run(d0, events), p)
    requires someone in Run(d0, events).writers && Run(d0, events).writers[someone].path == p
    requires ObjectSpared(d0, events, p) && DirectorySpared(d0, events, p)
    ensures var d := Run(d0, events);
            (exists w :: Creator(d, p, w)) <==> p !in d.dirs
  {
    hide Run, TempName, Whole, ObjectSpared, DirectorySpared, Creator;
    FreshInv(d0);
    RunInv(d0, d0, events);
    NobodyYet(d0, p);
    RunCommittedStand(d0, d0, events, p);
    RunRefusedStand(d0, d0, events, p);
    ExactlyOneCreates(d0, events, p);
    assert WriterOk(Run(d0, events), someone);
  }

  /** The step in which a writer's commit goes through. */
  ghost predicate Commits(d: Disk, e: Event, w: nat) {
    && e == Commit(w, true) && w in d.writers
    && (OpOf(d, e) == Put(d.writers[w].path, d.writers[w].body)
        || (OpOf(d, e) == PutIfAbsent(d.writers[w].path, d.writers[w].body) && d.writers[w].path !in d.names))
  }

  lemma OnlyCommitsCommit(d: Disk, e: Event, w: nat)
    requires WritersOk(d)
    requires w in Apply(d, e).writers && Apply(d, e).writers[w].committed
    requires w in d.writers ==> !d.writers[w].committed
    ensures Commits(d, e, w)
  {
    hide TempName, StartStep, MakeDirStep, DirsMadeStep, OpenTempStep, CopyStep, CopyFailsStep, SyncStep, CloseStep, RemoveTempStep, StatStep, KillStep, PowerLossStep;
    if !e.Commit? {
      OnlyCommitsDecide(d, e, w);
    }
  }

  lemma {:induction false} CommittedSomewhere(d0: Disk, d: Disk, events: seq<Event>, w: nat) returns (i: nat)
    requires Inv(d0, d) && (w in d.writers ==> !d.writers[w].committed)
    requires w in Run(d, events).writers && Run(d, events).writers[w].committed
    ensures i < |events| && Commits(Run(d, events[..i]), events[i], w)
    decreases |events|
  {
    hide Inv, Apply, TempName, Commits;
    var next := Apply(d, events[0]);
    StepInv(d0, d, events[0]);
    if w in next.writers && next.writers[w].committed {
      i := 0;
      InvWriters(d0, d);
      OnlyCommitsCommit(d, events[0], w);
    } else {
      i := CommittedSomewhere(d0, next, events[1..], w);
      assert events[..i + 1][1..] == events[1..][..i];
      i := i + 1;
    }
  }

  /** Success is reported only to a writer that was started with some path and bytes, and whose
      commit then made the object at that path those bytes. */
  lemma StoredMeansCommitted(d0: Disk, events: seq<Event>, w: nat)
    returns (start: nat, i: nat, path: string, body: Bytes, createOnly: bool)
    requires Fresh(d0)
    requires w in Run(d0, events).writers && Run(d0, events).writers[w].phase == Finished(Stored)
    ensures Requests(events, start, w, path, body, createOnly) && i < |events| && events[i] == Commit(w, true)
    ensures var before, after := Objects(Run(d0, events[..i])), Objects(Run(d0, events[..i + 1]));
            && after == before[path := body]
            && (createOnly ==> path !in before)
  {
    hide TempName, Run, Commits, Requests, Objects;
    FreshInv(d0);
    RunInv(d0, d0, events);
    var wr := Run(d0, events).writers[w];
    path, body, createOnly := wr.path, wr.body, wr.createOnly;
    assert WriterOk(Run(d0, events), w);
    start := WriterIsRequested(d0, d0, events, w);
    i := CommittedSomewhere(d0, d0, events, w);
    RunInv(d0, d0, events[..i]);
    RunSplits(d0, events, i);
    CommitsPuts(d0, Run(d0, events[..i]), events[i], w);
    RunInv(d0, Run(d0, events[..i]), events[i..]);
  }

  lemma CommitsPuts(d0: Disk, d: Disk, e: Event, w: nat)
    requires Inv(d0, d) && Commits(d, e, w)
    ensures e == Commit(w, true) && w in d.writers
    ensures var wr := d.writers[w];
            && Objects(Apply(d, e)) == Objects(d)[wr.path := wr.body]
            && (wr.createOnly ==> wr.path !in Objects(d))
  {
    hide TempName, Inv, Apply, Contents;
    StepRefines(d0, d, e);
    NotNamedNotThere(d, d.writers[w].path);
  }

  lemma NotNamedNotThere(d: Disk, p: string)
    ensures p !in d.names ==> p !in Objects(d)
  {
    hide TempName;
  }

  lemma {:induction false} RunSplits(d: Disk, events: seq<Event>, i: nat)
    requires i < |events|
    ensures Run(d, events[..i + 1]) == Apply(Run(d, events[..i]), events[i])
    ensures Run(d, events) == Run(Run(d, events[..i]), events[i..])
    decreases i
  {
    hide Apply;
    assert events[..i + 1] == events[..i] + [events[i]];
    RunAppend(d, events[..i], events[i]);
    if i > 0 {
      RunSplits(Apply(d, events[0]), events[1..], i - 1);
      assert events[..i][1..] == events[1..][..i - 1] && events[i..] == events[1..][i - 1..];
    } else {
      assert events[..0] == [] && events[0..] == events;
    }
  }

  // ---- directories ----

  /** Whatever has a name stands in directories that are there. */
  ghost predicate Rooted(names: map<string, Inode>, dirs: set<string>) {
    && (forall p :: p in names && !TempName(p) ==> Ancestors(p, |p|) <= dirs)
    && (forall q :: q in dirs ==> Ancestors(q, |q|) <= dirs)
  }

  /** A writer past making its directories has them. */
  ghost predicate Housed(d: Disk, w: nat)
    requires w in d.writers
  {
    var wr := d.writers[w];
    wr.phase.Opening? || wr.phase.Copying? || wr.phase.Closing? || wr.phase.Committing? ==> Ancestors(wr.path, |wr.path|) <= d.dirs
  }

  /** And no directory was made that nobody needs. */
  ghost predicate Needed(d0: Disk, d: Disk, q: string) {
    q in d0.dirs || exists w :: w in d.writers && q in Ancestors(d.writers[w].path, |d.writers[w].path|)
  }

  ghost predicate Tree(d0: Disk, d: Disk) {
    && Rooted(d.names, d.dirs) && Rooted(d.durable, d.durableDirs)
    && (forall w :: w in d.writers ==> Housed(d, w))
    && (forall q :: q in d.dirs || q in d.durableDirs ==> Needed(d0, d, q))
  }

  lemma StepHoused(d: Disk, e: Event, w: nat)
    requires w in Apply(d, e).writers && (w in d.writers ==> Housed(d, w))
    ensures Housed(Apply(d, e), w)
  {
    hide TempName, NothingDecided, StartStep, OpenTempStep, CopyStep, CopyFailsStep, SyncStep, CloseStep, CommitStep, RemoveTempStep;
    hide StatStep, KillStep, PowerLossStep, Ancestors;
    if e.DirsMade? && e.w == w && w in d.writers {
      AboveMeaning(d, d.writers[w].path, |d.writers[w].path|);
    } else if !e.MakeDir? && !e.DirsMade? {
      hide Apply;
      OtherHoused(d, e, w);
    }
  }

  lemma OtherHoused(d: Disk, e: Event, w: nat)
    requires w in Apply(d, e).writers && (w in d.writers ==> Housed(d, w)) && !e.MakeDir? && !e.DirsMade?
    ensures Housed(Apply(d, e), w)
  {
    hide Apply, Housed;
    if FirstCalls(e) {
      FirstCallsHoused(d, e, w);
    } else {
      LastCallsHoused(d, e, w);
    }
  }

  predicate FirstCalls(e: Event) {
    e.Start? || e.OpenTemp? || e.CopyChunk? || e.CopyFails? || e.SyncFile? || e.CloseFile?
  }

  lemma FirstCallsHoused(d: Disk, e: Event, w: nat)
    requires w in Apply(d, e).writers && (w in d.writers ==> Housed(d, w)) && FirstCalls(e)
    ensures Housed(Apply(d, e), w)
  {
    hide TempName, NothingDecided, Ancestors, MakeDirStep, DirsMadeStep, CommitStep, RemoveTempStep, StatStep, KillStep, PowerLossStep;
  }

  lemma LastCallsHoused(d: Disk, e: Event, w: nat)
    requires w in Apply(d, e).writers && (w in d.writers ==> Housed(d, w)) && !FirstCalls(e) && !e.MakeDir? && !e.DirsMade?
    ensures Housed(Apply(d, e), w)
  {
    hide TempName, NothingDecided, Ancestors, StartStep, MakeDirStep, DirsMadeStep, OpenTempStep, CopyStep, CopyFailsStep, SyncStep, CloseStep, CommitStep;
    if e.Commit? {
      hide Housed, RemoveTempStep, StatStep, KillStep, PowerLossStep;
      CommitHoused(d, e.w, e.ok, w);
    }
  }

  lemma CommitHoused(d: Disk, v: nat, ok: bool, w: nat)
    requires w in CommitStep(d, v, ok).writers && (w in d.writers ==> Housed(d, w))
    ensures Housed(CommitStep(d, v, ok), w)
  {
    hide TempName, NothingDecided, Ancestors;
  }

  lemma AboveMeaning(d: Disk, path: string, n: nat)
    requires n <= |path|
    ensures Above(d, path, n) <==> Ancestors(path, n) <= d.dirs
  {
    if Ancestors(path, n) <= d.dirs {
      forall i | 0 <= i < n && path[i] == '/'
        ensures path[..i] in d.dirs
      {
        assert path[..i] in Ancestors(path, n);
      }
    }
  }

  /** What a step does to the directories: one made, or those on the disk. */
  lemma StepDirs(d: Disk, e: Event)
    ensures var d' := Apply(d, e);
            && (e.PowerLoss? ==> d'.dirs == d.durableDirs)
            && (e.FlushNames? ==> d'.dirs == d.dirs && d'.durableDirs == d.dirs)
            && (!e.FlushNames? ==> d'.durableDirs == d.durableDirs)
            && (!e.PowerLoss? && !e.FlushNames? && d'.dirs != d.dirs ==>
                  && e.MakeDir? && e.w in d.writers && e.slash < |d.writers[e.w].path| && d.writers[e.w].path[e.slash] == '/'
                  && d'.dirs == d.dirs + {d.writers[e.w].path[..e.slash]} && Above(d, d.writers[e.w].path, e.slash))
  {
    hide TempName, NothingDecided, Above;
  }

  /** What a step does to the names of objects: a commit may add its own path. */
  lemma StepPaths(d: Disk, e: Event, p: string)
    requires WritersOk(d) && !TempName(p) && p in Apply(d, e).names && p !in d.names && !e.PowerLoss?
    ensures e.Commit? && At(d, e.w, Committing) && d.writers[e.w].path == p
  {
    hide TempName, NothingDecided, WritersOk;
    hide StartStep, MakeDirStep, DirsMadeStep, CopyStep, CopyFailsStep, SyncStep, CloseStep, StatStep, KillStep, PowerLossStep;
  }

  lemma StepRooted(d0: Disk, d: Disk, e: Event)
    requires Inv(d0, d) && Tree(d0, d)
    ensures Rooted(Apply(d, e).names, Apply(d, e).dirs)
  {
    hide TempName, Apply, Inv, Needed, Ancestors, Above;
    var d' := Apply(d, e);
    StepDirs(d, e);
    StepDurable(d, e);
    InvWriters(d0, d);
    if e.PowerLoss? {
    } else {
      forall p | p in d'.names && !TempName(p)
        ensures Ancestors(p, |p|) <= d'.dirs
      {
        if p !in d.names {
          StepPaths(d, e, p);
          assert Housed(d, e.w);
        }
      }
      forall q | q in d'.dirs
        ensures Ancestors(q, |q|) <= d'.dirs
      {
        if q !in d.dirs {
          AboveMeaning(d, d.writers[e.w].path, e.slash);
          AncestorsOfPart(d.writers[e.w].path, e.slash);
        }
      }
    }
  }

  lemma AncestorsOfPart(path: string, n: nat)
    requires n <= |path|
    ensures Ancestors(path[..n], n) == Ancestors(path, n)
  {
    forall i | 0 <= i < n && path[i] == '/'
      ensures path[..n][..i] == path[..i]
    {
    }
    assert forall i :: 0 <= i < n ==> path[..n][i] == path[i];
  }

  lemma StepNeeded(d0: Disk, d: Disk, e: Event, q: string)
    requires Inv(d0, d) && Tree(d0, d) && (q in Apply(d, e).dirs || q in Apply(d, e).durableDirs)
    ensures Needed(d0, Apply(d, e), q)
  {
    hide TempName, Apply, Inv, Rooted, Ancestors, Above;
    var d' := Apply(d, e);
    StepDirs(d, e);
    StepInv(d0, d, e);
    if q in d.dirs || q in d.durableDirs {
      assert Needed(d0, d, q);
    } else {
      var path := d.writers[e.w].path;
      assert q in Ancestors(path, |path|) by {
        MadeIsAncestor(path, e.slash);
      }
    }
  }

  lemma MadeIsAncestor(path: string, slash: nat)
    requires slash < |path| && path[slash] == '/'
    ensures path[..slash] in Ancestors(path, |path|)
  {
  }

  lemma StepTree(d0: Disk, d: Disk, e: Event)
    requires Inv(d0, d) && Tree(d0, d)
    ensures Tree(d0, Apply(d, e))
  {
    hide TempName, Apply, Inv, Rooted, Needed, Housed;
    var d' := Apply(d, e);
    StepRooted(d0, d, e);
    StepDirs(d, e);
    StepDurable(d, e);
    forall w | w in d'.writers
      ensures Housed(d', w)
    {
      StepHoused(d, e, w);
    }
    forall q | q in d'.dirs || q in d'.durableDirs
      ensures Needed(d0, d', q)
    {
      StepNeeded(d0, d, e, q);
    }
  }

  /** In every run every object and every directory stands in directories that are there, also after
      a power loss, and every directory was there at the start or lies above some writer's path. */
  lemma {:induction false} RunTree(d0: Disk, d: Disk, events: seq<Event>)
    requires Inv(d0, d) && Tree(d0, d)
    ensures Tree(d0, Run(d, events))
    decreases |events|
  {
    hide Inv, Tree, Apply;
    if events != [] {
      StepInv(d0, d, events[0]);
      StepTree(d0, d, events[0]);
      RunTree(d0, Apply(d, events[0]), events[1..]);
    }
  }

  // ---- calls that fail ----

  /** A call of the writer fails before its bytes are at the path. */
  predicate CallFails(d: Disk, e: Event, w: nat) {
    || (e.OpenTemp? && e.w == w && !e.ok && At(d, w, Opening) && TempName(e.tmp) && e.inode !in d.data)
    || (e == CopyFails(w) && At(d, w, Copying))
    || (e == SyncFile(w, false) && At(d, w, Copying) && d.writers[w].copied == |d.writers[w].body|)
    || (e == CloseFile(w, false) && At(d, w, Closing))
    || (e == Commit(w, false) && At(d, w, Committing))
  }

  ghost predicate GivenUp(d: Disk, w: nat) {
    w in d.writers && !d.writers[w].committed && d.writers[w].phase in {CleaningUp(Failed), Finished(Failed), Killed}
  }

  lemma FailsAtOnce(d: Disk, e: Event, w: nat)
    requires WritersOk(d) && CallFails(d, e, w)
    ensures GivenUp(Apply(d, e), w)
  {
    hide TempName, NothingDecided, Above;
  }

  lemma GivenUpStays(d: Disk, e: Event, w: nat)
    requires GivenUp(d, w)
    ensures GivenUp(Apply(d, e), w)
  {
    hide Apply, GivenUp;
    if FirstCalls(e) {
      FirstCallsStay(d, e, w);
    } else {
      LastCallsStay(d, e, w);
    }
  }

  lemma FirstCallsStay(d: Disk, e: Event, w: nat)
    requires GivenUp(d, w) && FirstCalls(e)
    ensures GivenUp(Apply(d, e), w)
  {
    hide TempName, NothingDecided, Above, MakeDirStep, DirsMadeStep, CommitStep, RemoveTempStep, StatStep, KillStep, PowerLossStep;
  }

  lemma LastCallsStay(d: Disk, e: Event, w: nat)
    requires GivenUp(d, w) && !FirstCalls(e)
    ensures GivenUp(Apply(d, e), w)
  {
    hide TempName, NothingDecided, Above, StartStep, OpenTempStep, CopyStep, CopyFailsStep, SyncStep, CloseStep;
  }

  lemma {:induction false} RunGivenUp(d: Disk, events: seq<Event>, w: nat)
    requires GivenUp(d, w)
    ensures GivenUp(Run(d, events), w)
    decreases |events|
  {
    hide GivenUp, Apply;
    if events != [] {
      GivenUpStays(d, events[0], w);
      RunGivenUp(Apply(d, events[0]), events[1..], w);
    }
  }

  /** A write one of whose calls fails before the commit is never committed and never answered
      "stored", in no continuation of the run, and the failing call changes no object. */
  lemma FailedCallsAreAnswered(d0: Disk, d: Disk, e: Event, later: seq<Event>, w: nat)
    requires Inv(d0, d) && CallFails(d, e, w)
    ensures Objects(Apply(d, e)) == Objects(d)
    ensures var d' := Run(Apply(d, e), later);
            w in d'.writers && !d'.writers[w].committed && (d'.writers[w].phase.Finished? ==> d'.writers[w].phase == Finished(Failed))
  {
    InvWriters(d0, d);
    FailsAtOnce(d, e, w);
    StepRefines(d0, d, e);
    FailingIsNothing(d, e, w);
    hide Apply, Run, CallFails, Inv, Objects, WritersOk;
    RunGivenUp(Apply(d, e), later, w);
  }

  lemma FailingIsNothing(d: Disk, e: Event, w: nat)
    requires CallFails(d, e, w)
    ensures Perform(AsStore(d), OpOf(d, e)) == AsStore(d)
  {
    hide TempName, Contents;
  }

  /** A temp name whose removal fails stays behind; the answer is the same. */
  lemma LeftoverTempNames(d: Disk, w: nat)
    requires w in d.writers && (d.writers[w].phase.Linked? || d.writers[w].phase.CleaningUp?)
    ensures Apply(d, RemoveTemp(w, false)).names == d.names
    ensures Apply(d, RemoveTemp(w, true)).names == d.names - {d.writers[w].tmp}
    ensures Apply(d, RemoveTemp(w, true)).writers == Apply(d, RemoveTemp(w, false)).writers
  {
    hide TempName, NothingDecided;
  }

  /** A power loss keeps the bytes that were synced and may leave anything in the others. */
  lemma PowerLossBytes(d: Disk, junk: map<Inode, Bytes>, i: Inode)
    requires i in d.data
    ensures i in Apply(d, PowerLoss(junk)).data
    ensures i in d.synced ==> Apply(d, PowerLoss(junk)).data[i] == d.data[i]
    ensures i !in d.synced && i in junk ==> Apply(d, PowerLoss(junk)).data[i] == junk[i]
  {
    hide TempName, NothingDecided;
  }

  // ---- where the guarantees end ----

  const BARE := Disk(map[], {}, map[], {}, map[], {}, map[], map[])

  /** The run so far, one event longer. */
  lemma Then(d0: Disk, events: seq<Event>, d: Disk, e: Event) returns (events': seq<Event>, d': Disk)
    requires Run(d0, events) == d
    ensures events' == events + [e] && d' == Apply(d, e) && Run(d0, events') == d'
  {
    events', d' := events + [e], Apply(d, e);
    RunAppend(d0, events, e);
  }

  lemma {:induction false} RunAppend(d: Disk, events: seq<Event>, e: Event)
    ensures Run(d, events + [e]) == Apply(Run(d, events), e)
    decreases |events|
  {
    hide Apply;
    if events == [] {
      assert ([] + [e])[1..] == [];
    } else {
      assert (events + [e])[1..] == events[1..] + [e];
      RunAppend(Apply(d, events[0]), events[1..], e);
    }
  }

  /** The directories above `path[..n]`. */
  ghost function Ancestors(path: string, n: nat): set<string>
    requires n <= |path|
  {
    set i | 0 <= i < n && path[i] == '/' :: path[..i]
  }

  /** Room for one more writer: its number, temp name and inode are new, and no file is in the way of
      the directories it needs. */
  ghost predicate Unused(d: Disk, w: nat, path: string, tmp: string, inode: Inode) {
    && w !in d.writers && !TempName(path) && TempName(tmp) && tmp !in d.names && inode !in d.data
    && tmp !in d.dirs + Ancestors(path, |path|) && Ancestors(path, |path|) !! d.names.Keys
  }

  function DirEvents(w: nat, path: string, n: nat): seq<Event>
    requires n <= |path|
  {
    if n == 0 then []
    else DirEvents(w, path, n - 1) + (if path[n - 1] == '/' then [MakeDir(w, n - 1, true)] else [])
  }

  /** One write with every call working: its directories outermost first, the copy in one piece. */
  function WriteEvents(w: nat, path: string, body: Bytes, createOnly: bool, tmp: string, inode: Inode): seq<Event> {
    [Start(w, path, body, createOnly)] + DirEvents(w, path, |path|)
    + [DirsMade(w), OpenTemp(w, tmp, inode, true), CopyChunk(w, |body|), SyncFile(w, true), CloseFile(w, true),
       Commit(w, true), RemoveTemp(w, true), StatObject(w, true)]
  }

  /** `d` with one more writer, at `phase`, its directories and its temp file in place. */
  ghost function Underway(d: Disk, wr: Writer, w: nat, bytes: Bytes, phase: Phase): Disk {
    d.(names := d.names[wr.tmp := wr.inode], data := d.data[wr.inode := bytes], owner := d.owner[wr.inode := w],
       synced := if phase.Copying? then d.synced else d.synced + {wr.inode},
       writers := d.writers[w := wr.(phase := phase)])
  }

  function NewWriter(path: string, body: Bytes, createOnly: bool, tmp: string, inode: Inode): Writer {
    Writer(path, body, createOnly, Copying, tmp, inode, |body|, false)
  }

  function Started(path: string, body: Bytes, createOnly: bool): Writer {
    Writer(path, body, createOnly, Preparing, "", 0, 0, false)
  }

  lemma RunConcat(d: Disk, a: seq<Event>, b: seq<Event>)
    ensures Run(d, a + b) == Run(Run(d, a), b)
    decreases |a|
  {
    hide Apply;
    if a == [] {
      assert a + b == b;
    } else {
      assert (a + b)[1..] == a[1..] + b;
      RunConcat(Apply(d, a[0]), a[1..], b);
    }
  }

  lemma RunOne(d: Disk, e: Event)
    ensures Run(d, [e]) == Apply(d, e)
  {
    hide Apply;
    assert [e][1..] == [];
  }

  lemma {:induction false} DirsAreMade(d: Disk, w: nat, path: string, n: nat)
    requires At(d, w, Preparing) && d.writers[w].path == path && n <= |path| && Ancestors(path, n) !! d.names.Keys
    ensures Run(d, DirEvents(w, path, n)) == d.(dirs := d.dirs + Ancestors(path, n))
  {
    hide MakeDirStep, TempName;
    if n > 0 {
      assert Ancestors(path, n - 1) <= Ancestors(path, n);
      DirsAreMade(d, w, path, n - 1);
      var made := d.(dirs := d.dirs + Ancestors(path, n - 1));
      if path[n - 1] == '/' {
        assert Ancestors(path, n) == Ancestors(path, n - 1) + {path[..n - 1]};
        RunAppend(d, DirEvents(w, path, n - 1), MakeDir(w, n - 1, true));
        OneDirMade(made, w, path, n - 1);
        assert made.dirs + {path[..n - 1]} == d.dirs + Ancestors(path, n);
      } else {
        assert Ancestors(path, n) == Ancestors(path, n - 1);
        assert DirEvents(w, path, n) == DirEvents(w, path, n - 1);
      }
    } else {
      assert Ancestors(path, 0) == {};
      assert d.dirs + {} == d.dirs;
    }
  }

  lemma OneDirMade(d: Disk, w: nat, path: string, slash: nat)
    requires At(d, w, Preparing) && d.writers[w].path == path && slash < |path| && path[slash] == '/'
    requires path[..slash] !in d.names && Ancestors(path, slash) <= d.dirs
    ensures MakeDirStep(d, w, slash, true) == d.(dirs := d.dirs + {path[..slash]})
  {
    hide NothingDecided;
    assert forall i :: 0 <= i < slash && path[i] == '/' ==> path[..i] in Ancestors(path, slash);
  }

  /** The disk when the temp file is open. */
  ghost function Prepared(d: Disk, path: string): Disk {
    d.(dirs := d.dirs + Ancestors(path, |path|))
  }

  lemma StartedFresh(d: Disk, w: nat, path: string, body: Bytes, createOnly: bool)
    requires w !in d.writers && !TempName(path)
    ensures StartStep(d, w, path, body, createOnly) == d.(writers := d.writers[w := Started(path, body, createOnly)])
  {
    hide TempName, NothingDecided;
  }

  lemma OpenedFresh(d: Disk, w: nat, path: string, body: Bytes, createOnly: bool, tmp: string, inode: Inode)
    requires Unused(d, w, path, tmp, inode)
    ensures OpenTempStep(DirsMadeStep(Prepared(d, path).(writers := d.writers[w := Started(path, body, createOnly)]), w), w, tmp, inode, true)
         == Underway(Prepared(d, path), NewWriter(path, body, createOnly, tmp, inode).(copied := 0), w, "", Copying)
  {
    hide TempName, NothingDecided, Ancestors;
    var d1 := Prepared(d, path).(writers := d.writers[w := Started(path, body, createOnly)]);
    AboveIsThere(d1, path);
    hide Above;
    var d2 := DirsMadeStep(d1, w);
    assert d2 == d1.(writers := d.writers[w := Started(path, body, createOnly).(phase := Opening)]);
    hide DirsMadeStep;
  }

  lemma AboveIsThere(d: Disk, path: string)
    requires Ancestors(path, |path|) <= d.dirs
    ensures Above(d, path, |path|)
  {
    assert forall i :: 0 <= i < |path| && path[i] == '/' ==> path[..i] in Ancestors(path, |path|);
  }

  lemma CopiedWhole(d: Disk, w: nat, wr: Writer)
    requires wr.phase.Copying? && wr.copied == |wr.body|
    ensures CopyStep(Underway(d, wr.(copied := 0), w, "", Copying), w, |wr.body|) == Underway(d, wr, w, wr.body, Copying)
  {
    hide TempName, NothingDecided;
    assert wr.body[..0 + |wr.body|] == wr.body;
  }

  lemma SyncedAndClosed(d: Disk, w: nat, wr: Writer)
    requires wr.phase.Copying? && wr.copied == |wr.body|
    ensures CloseStep(SyncStep(Underway(d, wr, w, wr.body, Copying), w, true), w, true)
         == Underway(d, wr, w, wr.body, Committing)
  {
    hide TempName, NothingDecided;
    var d1 := SyncStep(Underway(d, wr, w, wr.body, Copying), w, true);
    assert d1 == Underway(d, wr, w, wr.body, Closing);
    hide SyncStep;
  }

  lemma WriteToCommit(d: Disk, w: nat, path: string, body: Bytes, createOnly: bool, tmp: string, inode: Inode)
    requires Unused(d, w, path, tmp, inode)
    ensures Run(d, WriteEvents(w, path, body, createOnly, tmp, inode))
         == Run(Underway(Prepared(d, path), NewWriter(path, body, createOnly, tmp, inode), w, body, Committing),
                [Commit(w, true), RemoveTemp(w, true), StatObject(w, true)])
  {
    hide Run, Underway, StartStep, DirsMadeStep, OpenTempStep, CopyStep, SyncStep, CloseStep, NothingDecided, TempName;
    hide MakeDirStep, DirEvents, Ancestors;
    var wr := NewWriter(path, body, createOnly, tmp, inode);
    var dirs, last := DirEvents(w, path, |path|), [Commit(w, true), RemoveTemp(w, true), StatObject(w, true)];
    var calls := [DirsMade(w), OpenTemp(w, tmp, inode, true), CopyChunk(w, |body|), SyncFile(w, true), CloseFile(w, true)];
    assert WriteEvents(w, path, body, createOnly, tmp, inode) == [Start(w, path, body, createOnly)] + dirs + calls + last;
    RunConcat(d, [Start(w, path, body, createOnly)] + dirs + calls, last);
    RunConcat(d, [Start(w, path, body, createOnly)] + dirs, calls);
    RunConcat(d, [Start(w, path, body, createOnly)], dirs);
    RunOne(d, Start(w, path, body, createOnly));
    StartedFresh(d, w, path, body, createOnly);
    var d1 := d.(writers := d.writers[w := Started(path, body, createOnly)]);
    DirsAreMade(d1, w, path, |path|);
    var d2 := Prepared(d, path).(writers := d1.writers);
    FiveCalls(d2, w, tmp, inode, |body|);
    OpenedFresh(d, w, path, body, createOnly, tmp, inode);
    CopiedWhole(Prepared(d, path), w, wr);
    SyncedAndClosed(Prepared(d, path), w, wr);
  }

  lemma FiveCalls(d: Disk, w: nat, tmp: string, inode: Inode, n: nat)
    ensures Run(d, [DirsMade(w), OpenTemp(w, tmp, inode, true), CopyChunk(w, n), SyncFile(w, true), CloseFile(w, true)])
         == CloseStep(SyncStep(CopyStep(OpenTempStep(DirsMadeStep(d, w), w, tmp, inode, true), w, n), w, true), w, true)
  {
    hide Run, DirsMadeStep, OpenTempStep, CopyStep, SyncStep, CloseStep, NothingDecided, TempName;
    var calls := [DirsMade(w), OpenTemp(w, tmp, inode, true), CopyChunk(w, n), SyncFile(w, true), CloseFile(w, true)];
    RunOne(d, calls[0]);
    var d1 := DirsMadeStep(d, w);
    RunTwo(d1, calls[1], calls[2]);
    var d3 := CopyStep(OpenTempStep(d1, w, tmp, inode, true), w, n);
    RunTwo(d3, calls[3], calls[4]);
    assert calls == [calls[0]] + [calls[1], calls[2]] + [calls[3], calls[4]];
    RunConcat(d, [calls[0]] + [calls[1], calls[2]], [calls[3], calls[4]]);
    RunConcat(d, [calls[0]], [calls[1], calls[2]]);
  }

  lemma RunTwo(d: Disk, a: Event, b: Event)
    ensures Run(d, [a, b]) == Apply(Apply(d, a), b)
  {
    hide Apply;
    assert [a, b][1..] == [b];
    RunOne(Apply(d, a), b);
  }

  /** The write has gone through. */
  ghost function Made(d: Disk, wr: Writer, w: nat): Disk {
    d.(names := d.names[wr.path := wr.inode], data := d.data[wr.inode := wr.body], synced := d.synced + {wr.inode},
       owner := d.owner[wr.inode := w], writers := d.writers[w := wr.(phase := Finished(Stored), committed := true)])
  }

  /** It has not: only its inode, unnamed, is left. */
  ghost function Unmade(d: Disk, wr: Writer, w: nat, outcome: Outcome): Disk {
    d.(data := d.data[wr.inode := wr.body], synced := d.synced + {wr.inode}, owner := d.owner[wr.inode := w],
       writers := d.writers[w := wr.(phase := Finished(outcome))])
  }

  /** Linked, the temp name still there. */
  ghost function Bound(d: Disk, wr: Writer, w: nat): Disk {
    Made(d, wr, w).(names := d.names[wr.tmp := wr.inode][wr.path := wr.inode],
                       writers := d.writers[w := wr.(phase := Linked, committed := true)])
  }

  /** What the commit leads to when its call works. */
  ghost function Answer(d: Disk, wr: Writer): Outcome {
    if wr.path in d.dirs then (if wr.createOnly then Refused else Failed)
    else if wr.createOnly && wr.path in d.names then Refused
    else Stored
  }

  lemma LinkMade(d: Disk, w: nat, wr: Writer)
    requires wr.phase.Copying? && !wr.committed && wr.tmp != wr.path && wr.createOnly && Answer(d, wr).Stored?
    ensures CommitStep(Underway(d, wr, w, wr.body, Committing), w, true) == Bound(d, wr, w)
  {
    hide TempName, NothingDecided;
  }

  lemma Unlinked(d: Disk, w: nat, wr: Writer)
    requires wr.tmp !in d.names && wr.tmp != wr.path
    ensures RemoveTempStep(Bound(d, wr, w), w, true) == Move(Made(d, wr, w), w, Stating)
  {
    hide TempName, NothingDecided;
    assert d.names[wr.tmp := wr.inode][wr.path := wr.inode] - {wr.tmp} == d.names[wr.path := wr.inode];
  }

  lemma Linking(d: Disk, w: nat, wr: Writer)
    requires wr.phase.Copying? && !wr.committed && wr.tmp !in d.names && wr.tmp != wr.path && wr.createOnly && Answer(d, wr).Stored?
    ensures StatStep(RemoveTempStep(CommitStep(Underway(d, wr, w, wr.body, Committing), w, true), w, true), w, true) == Made(d, wr, w)
  {
    hide TempName, NothingDecided, CommitStep, RemoveTempStep, Underway, Bound, Answer;
    LinkMade(d, w, wr);
    Unlinked(d, w, wr);
  }

  lemma Renaming(d: Disk, w: nat, wr: Writer)
    requires wr.phase.Copying? && !wr.committed && wr.tmp !in d.names && wr.tmp != wr.path && !wr.createOnly && Answer(d, wr).Stored?
    ensures StatStep(RemoveTempStep(CommitStep(Underway(d, wr, w, wr.body, Committing), w, true), w, true), w, true) == Made(d, wr, w)
  {
    hide TempName, NothingDecided;
    assert (d.names[wr.tmp := wr.inode] - {wr.tmp})[wr.path := wr.inode] == d.names[wr.path := wr.inode];
    var d1 := CommitStep(Underway(d, wr, w, wr.body, Committing), w, true);
    assert d1 == Move(Made(d, wr, w), w, Stating);
    hide CommitStep, Underway;
  }

  lemma LinkRefused(d: Disk, w: nat, wr: Writer)
    requires wr.tmp != wr.path && !Answer(d, wr).Stored?
    ensures CommitStep(Underway(d, wr, w, wr.body, Committing), w, true) == Underway(d, wr, w, wr.body, CleaningUp(Answer(d, wr)))
  {
    hide TempName, NothingDecided;
  }

  lemma TempRemoved(d: Disk, w: nat, wr: Writer, outcome: Outcome)
    requires wr.tmp !in d.names
    ensures RemoveTempStep(Underway(d, wr, w, wr.body, CleaningUp(outcome)), w, true) == Unmade(d, wr, w, outcome)
  {
    hide TempName, NothingDecided;
    assert d.names[wr.tmp := wr.inode] - {wr.tmp} == d.names;
  }

  lemma Refusing(d: Disk, w: nat, wr: Writer)
    requires wr.tmp !in d.names && wr.tmp != wr.path && !Answer(d, wr).Stored?
    ensures StatStep(RemoveTempStep(CommitStep(Underway(d, wr, w, wr.body, Committing), w, true), w, true), w, true)
         == Unmade(d, wr, w, Answer(d, wr))
  {
    hide TempName, NothingDecided, CommitStep, RemoveTempStep, Underway, Answer;
    LinkRefused(d, w, wr);
    TempRemoved(d, w, wr, Answer(d, wr));
  }

  /** A write nobody disturbs and whose calls all work: its directories are there, and it is stored,
      with exactly its bytes in place of what was there, unless a directory has the path or, for a
      create-only one, an object; then it is refused, or failed when a plain write meets a directory. */
  lemma LoneWrite(d: Disk, w: nat, path: string, body: Bytes, createOnly: bool, tmp: string, inode: Inode)
    requires Unused(d, w, path, tmp, inode)
    ensures var wr, prepared := NewWriter(path, body, createOnly, tmp, inode), Prepared(d, path);
            Run(d, WriteEvents(w, path, body, createOnly, tmp, inode)) ==
              if path in d.dirs then Unmade(prepared, wr, w, if createOnly then Refused else Failed)
              else if createOnly && path in d.names then Unmade(prepared, wr, w, Refused)
              else Made(prepared, wr, w)
  {
    hide Run, WriteEvents, Underway, Made, Unmade, CommitStep, RemoveTempStep, StatStep, NothingDecided, TempName, Ancestors;
    var wr, prepared := NewWriter(path, body, createOnly, tmp, inode), Prepared(d, path);
    assert tmp != path;
    NotAboveItself(path);
    WriteToCommit(d, w, path, body, createOnly, tmp, inode);
    ThreeCalls(Underway(prepared, wr, w, body, Committing), w);
    if !Answer(prepared, wr).Stored? {
      Refusing(prepared, w, wr);
    } else if createOnly {
      Linking(prepared, w, wr);
    } else {
      Renaming(prepared, w, wr);
    }
  }

  lemma NotAboveItself(path: string)
    ensures path !in Ancestors(path, |path|)
  {
  }

  lemma ThreeCalls(d: Disk, w: nat)
    ensures Run(d, [Commit(w, true), RemoveTemp(w, true), StatObject(w, true)])
         == StatStep(RemoveTempStep(CommitStep(d, w, true), w, true), w, true)
  {
    hide Run, CommitStep, RemoveTempStep, StatStep, NothingDecided, TempName;
    var a, b, c := Commit(w, true), RemoveTemp(w, true), StatObject(w, true);
    assert [a, b, c] == [a, b] + [c];
    RunConcat(d, [a, b], [c]);
    RunTwo(d, a, b);
    RunOne(RemoveTempStep(CommitStep(d, w, true), w, true), c);
  }

  /** As its caller sees it, in any reachable state: told "stored" with the objects changed at that
      path alone, or told otherwise with no object changed. */
  lemma LoneWriteObjects(d0: Disk, d: Disk, w: nat, path: string, body: Bytes, createOnly: bool, tmp: string, inode: Inode)
    requires Inv(d0, d) && Unused(d, w, path, tmp, inode)
    ensures var d' := Run(d, WriteEvents(w, path, body, createOnly, tmp, inode));
            && w in d'.writers
            && d'.writers[w].phase == Finished(if path in d.dirs then (if createOnly then Refused else Failed)
                                               else if createOnly && path in Objects(d) then Refused else Stored)
            && Objects(d') == (if d'.writers[w].phase == Finished(Stored) then Objects(d)[path := body] else Objects(d))
            && d'.dirs == d.dirs + Ancestors(path, |path|)
  {
    hide TempName, Ancestors, Run, WriteEvents, Made, Unmade, WritersOk, Apart, Whole, Contents;
    var wr, prepared := NewWriter(path, body, createOnly, tmp, inode), Prepared(d, path);
    LoneWrite(d, w, path, body, createOnly, tmp, inode);
    MadeObjects(prepared, wr, w);
    UnmadeObjects(prepared, wr, w, if path in d.dirs && !createOnly then Failed else Refused);
    NamedIsThere(d, path);
    SameNamesSameObjects(d, prepared);
  }

  lemma MadeObjects(d: Disk, wr: Writer, w: nat)
    requires wr.inode !in d.data && !TempName(wr.path) && forall p :: p in d.names ==> d.names[p] in d.data
    ensures Objects(Made(d, wr, w)) == Objects(d)[wr.path := wr.body]
    ensures Made(d, wr, w).dirs == d.dirs && Made(d, wr, w).writers == d.writers[w := wr.(phase := Finished(Stored), committed := true)]
  {
    hide TempName;
  }

  lemma UnmadeObjects(d: Disk, wr: Writer, w: nat, outcome: Outcome)
    requires wr.inode !in d.data && forall p :: p in d.names ==> d.names[p] in d.data
    ensures Objects(Unmade(d, wr, w, outcome)) == Objects(d)
    ensures Unmade(d, wr, w, outcome).dirs == d.dirs && Unmade(d, wr, w, outcome).writers == d.writers[w := wr.(phase := Finished(outcome))]
  {
    hide TempName;
  }

  lemma NamedIsThere(d: Disk, p: string)
    requires !TempName(p) && forall q :: q in d.names ==> d.names[q] in d.data
    ensures p in Objects(d) <==> p in d.names
  {
    hide TempName;
  }

  lemma SameNamesSameObjects(d: Disk, e: Disk)
    requires d.names == e.names && d.data == e.data
    ensures Objects(d) == Objects(e)
  {
  }

  lemma TempNames(n: string)
    requires '/' !in n
    ensures TempName(Listing.TEMP_PREFIX + n)
  {
    var t := Listing.TEMP_PREFIX + n;
    assert forall i :: 0 <= i < |t| ==> t[i] != '/';
    assert LastSegment(t) == t;
  }

  lemma ShortNames(p: string)
    requires |p| < |Listing.TEMP_PREFIX|
    ensures !TempName(p)
  {
    hide LastIndex;
  }

  lemma RunNothing(d: Disk)
    ensures Run(d, []) == d
  {
  }

  /** A power loss takes back an object whose name had not reached the disk: two create-only writers
      of one path are both told that theirs is stored. */
  lemma TwoAreToldStored() returns (events: seq<Event>)
    ensures var d := Run(BARE, events);
            && OnlyCreateOnly(d, "p") && Answered(d, "p")
            && 0 in d.writers && 1 in d.writers && d.writers[0].path == d.writers[1].path == "p"
            && d.writers[0].phase == d.writers[1].phase == Finished(Stored)
  {
    hide Run, TempName, NothingDecided, WriteEvents;
    var t0, t1 := Listing.TEMP_PREFIX + "0", Listing.TEMP_PREFIX + "1";
    TempNames("0");
    TempNames("1");
    ShortNames("p");
    assert Ancestors("p", 1) == {};
    LoneWrite(BARE, 0, "p", "x", true, t0, 0);
    var first, second := WriteEvents(0, "p", "x", true, t0, 0), WriteEvents(1, "p", "y", true, t1, 1);
    var d: Disk;
    events, d := Then(BARE, first, Run(BARE, first), PowerLoss(map[]));
    assert d.names == map[] && d.dirs == {} && d.data.Keys == {0} && d.writers == map[0 := d.writers[0]];
    LoneWrite(d, 1, "p", "y", true, t1, 1);
    RunConcat(BARE, events, second);
    events := events + second;
  }

  /** A directory that another writer made on its way to "a/b": the create-only writer of "a" is told
      that an object exists, and nobody creates one. */
  lemma DirectoryIsAnsweredAsAnObject() returns (events: seq<Event>)
    ensures var d := Run(BARE, events);
            && OnlyCreateOnly(d, "a") && Answered(d, "a") && 1 in d.writers && d.writers[1].path == "a"
            && "a" !in d.names && d.writers[1].phase == Finished(Refused)
  {
    hide Run, TempName, NothingDecided, WriteEvents;
    var t := Listing.TEMP_PREFIX + "1";
    TempNames("1");
    ShortNames("a");
    var d: Disk;
    events, d := MakerOfA();
    assert Ancestors("a", 1) == {};
    LoneWrite(d, 1, "a", "x", true, t, 0);
    RunConcat(BARE, events, WriteEvents(1, "a", "x", true, t, 0));
    events := events + WriteEvents(1, "a", "x", true, t, 0);
  }

  lemma MakerOfA() returns (events: seq<Event>, d: Disk)
    ensures Run(BARE, events) == d
    ensures d == BARE.(dirs := {"a"}, writers := map[0 := Writer("a/b", "z", false, Preparing, "", 0, 0, false)])
  {
    hide Run, TempName, NothingDecided;
    ShortNames("a/b");
    RunNothing(BARE);
    var maker := Writer("a/b", "z", false, Preparing, "", 0, 0, false);
    events, d := Then(BARE, [], BARE, Start(0, "a/b", "z", false));
    assert d == BARE.(writers := map[0 := maker]);
    hide StartStep;
    events, d := Then(BARE, events, d, MakeDir(0, 1, true));
    assert "a/b"[..1] == "a";
  }
}
