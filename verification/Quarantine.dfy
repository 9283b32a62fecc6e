/**
  Moving a duplicate into the quarantine folder (src-tauri/src/duplicates.rs).

  Every file operation and the database update may fail; a `Faults` value says which
  ones do, so the results hold whatever fails.  A failing operation changes nothing,
  except that a broken copy may leave anything at its destination.
*/
module Quarantine {
  import opened Wrappers
  import Decimal

  type ItemId = int
  type Bytes = seq<bv8>

  /** A path, with its final component split off; there is none in a path such as `..`. */
  datatype Path = Path(folder: string, name: Option<string>)

  datatype CopyFault = CopyWorks | CopyBreaks(left: Option<Bytes>)

  datatype MoveFaults = MoveFaults(rename: bool, copy: CopyFault, remove: bool, undo: bool)

  datatype Faults = Faults(
    makeFolder: bool, create: bool, move: MoveFaults, cleanup: bool, update: bool, restore: MoveFaults)

  datatype Error =
    | ItemNotFound
    | FileDoesNotExist(path: Path)
    | FolderNotCreated
    | MissingFileName
    | NameNotCreated(path: Path)
    | NoFreeName
    | NotMoved(source: Path)
    | UpdateFailed
    | UpdateAndRestoreFailed(whereItIs: Path)

  const CANDIDATES: nat := 10_000

  /** The names tried in the quarantine folder: plain, with the item's number, then counted from 2. */
  function Candidate(name: string, id: ItemId, k: nat): string {
    if k == 0 then name
    else if k == 1 then Decimal.OfInt(id) + "-" + name
    else Decimal.OfInt(id) + "-" + Decimal.OfNat(k) + "-" + name
  }

  type Files = map<Path, Bytes>

  function Renamed(files: Files, source: Path, dest: Path, fails: bool): (Files, bool) {
    if fails || source !in files then (files, false)
    else ((files - {source})[dest := files[source]], true)
  }

  function Copied(files: Files, source: Path, dest: Path, fault: CopyFault): (Files, bool) {
    if source !in files then
      (files, false)
    else match fault
      case CopyWorks => (files[dest := files[source]], true)
      case CopyBreaks(left) => (if left.Some? then files[dest := left.value] else files, false)
  }

  function Removed(files: Files, path: Path, fails: bool): (Files, bool) {
    if fails || path !in files then (files, false) else (files - {path}, true)
  }

  /** Rename, falling back to copy and delete. */
  function Moved(files: Files, source: Path, dest: Path, faults: MoveFaults): (Files, bool) {
    var (renamed, done) := Renamed(files, source, dest, faults.rename);
    if done then
      (renamed, true)
    else
      var (copied, wasCopied) := Copied(files, source, dest, faults.copy);
      if !wasCopied then
        (copied, false)
      else
        var (removed, wasRemoved) := Removed(copied, source, faults.remove);
        if wasRemoved then (removed, true) else (Removed(copied, dest, faults.undo).0, false)
  }

  predicate Taken(files: Files, folder: string, name: string, id: ItemId, k: nat) {
    Path(folder, Some(Candidate(name, id, k))) in files
  }

  /** The first free candidate from `k` on. */
  function FirstFree(files: Files, folder: string, name: string, id: ItemId, k: nat): (free: Option<nat>)
    requires k <= CANDIDATES
    ensures free.Some? ==> k <= free.value < CANDIDATES && !Taken(files, folder, name, id, free.value)
    ensures free.Some? ==> forall j :: k <= j < free.value ==> Taken(files, folder, name, id, j)
    ensures free.None? ==> forall j :: k <= j < CANDIDATES ==> Taken(files, folder, name, id, j)
    decreases CANDIDATES - k
  {
    if k == CANDIDATES then None
    else if Taken(files, folder, name, id, k) then FirstFree(files, folder, name, id, k + 1)
    else Some(k)
  }

  function Reserved(files: Files, folder: string, name: string, id: ItemId, createFails: bool)
    : (Files, Result<Path, Error>)
  {
    match FirstFree(files, folder, name, id, 0)
    case None => (files, Err(NoFreeName))
    case Some(k) =>
      var path := Path(folder, Some(Candidate(name, id, k)));
      if createFails then (files, Err(NameNotCreated(path))) else (files[path := []], Ok(path))
  }

  /** The files on disk and the library rows; no two rows may name the same path. */
  datatype Disk = Disk(files: Files, rows: map<ItemId, Path>) {
    predicate UpdateFails(id: ItemId, path: Path, fails: bool) {
      fails || exists other :: other in rows && other != id && rows[other] == path
    }

    function Quarantined(folder: string, id: ItemId, faults: Faults): (Disk, Result<Path, Error>) {
      if id !in rows then
        (this, Err(ItemNotFound))
      else if rows[id] !in files then
        (this, Err(FileDoesNotExist(rows[id])))
      else if faults.makeFolder then
        (this, Err(FolderNotCreated))
      else if rows[id].name.None? then
        (this, Err(MissingFileName))
      else
        var source := rows[id];
        var (reserved, claim) := Reserved(files, folder, source.name.value, id, faults.create);
        match claim
        case Err(error) => (this.(files := reserved), Err(error))
        case Ok(dest) => this.(files := reserved).Transferred(source, dest, id, faults)
    }

    /** The move to a reserved path, undone if the row cannot be updated. */
    function Transferred(source: Path, dest: Path, id: ItemId, faults: Faults): (Disk, Result<Path, Error>) {
      var (moved, wasMoved) := Moved(files, source, dest, faults.move);
      if !wasMoved then
        (this.(files := Removed(moved, dest, faults.cleanup).0), Err(NotMoved(source)))
      else if UpdateFails(id, dest, faults.update) then
        var (restored, wasRestored) := Moved(moved, dest, source, faults.restore);
        (this.(files := restored), Err(if wasRestored then UpdateFailed else UpdateAndRestoreFailed(dest)))
      else
        (Disk(moved, rows[id := dest]), Ok(dest))
    }
  }

  /** The disk and the database, changed operation by operation. */
  class Library {
    var files: Files
    var rows: map<ItemId, Path>

    ghost function State(): Disk
      reads this
    {
      Disk(files, rows)
    }

    method Rename(source: Path, dest: Path, fails: bool) returns (ok: bool)
      modifies this`files
      ensures (files, ok) == Renamed(old(files), source, dest, fails)
    {
      ok := !fails && source in files;
      if ok {
        files := (files - {source})[dest := files[source]];
      }
    }

    method Copy(source: Path, dest: Path, fault: CopyFault) returns (ok: bool)
      modifies this`files
      ensures (files, ok) == Copied(old(files), source, dest, fault)
    {
      if source !in files {
        return false;
      }
      match fault {
        case CopyWorks =>
          files := files[dest := files[source]];
          ok := true;
        case CopyBreaks(left) =>
          if left.Some? {
            files := files[dest := left.value];
          }
          ok := false;
      }
    }

    method Remove(path: Path, fails: bool) returns (ok: bool)
      modifies this`files
      ensures (files, ok) == Removed(old(files), path, fails)
    {
      ok := !fails && path in files;
      if ok {
        files := files - {path};
      }
    }

    method MoveFile(source: Path, dest: Path, faults: MoveFaults) returns (ok: bool)
      modifies this`files
      ensures (files, ok) == Moved(old(files), source, dest, faults)
    {
      ok := Rename(source, dest, faults.rename);
      if ok {
        return;
      }
      ok := Copy(source, dest, faults.copy);
      if !ok {
        return;
      }
      ok := Remove(source, faults.remove);
      if !ok {
        var _ := Remove(dest, faults.undo);
      }
    }

    method ReserveQuarantinePath(folder: string, name: string, id: ItemId, createFails: bool)
      returns (r: Result<Path, Error>)
      modifies this`files
      ensures (files, r) == Reserved(old(files), folder, name, id, createFails)
    {
      for k := 0 to CANDIDATES
        invariant files == old(files)
        invariant FirstFree(files, folder, name, id, k) == FirstFree(files, folder, name, id, 0)
      {
        var path := Path(folder, Some(Candidate(name, id, k)));
        if path !in files {
          if createFails {
            return Err(NameNotCreated(path));
          }
          files := files[path := []];
          return Ok(path);
        }
      }
      r := Err(NoFreeName);
    }

    method QuarantineIn(folder: string, id: ItemId, faults: Faults) returns (r: Result<Path, Error>)
      modifies this
      ensures (State(), r) == old(State()).Quarantined(folder, id, faults)
    {
      if id !in rows {
        return Err(ItemNotFound);
      }
      var source := rows[id];
      if source !in files {
        return Err(FileDoesNotExist(source));
      }
      if faults.makeFolder {
        return Err(FolderNotCreated);
      }
      if source.name.None? {
        return Err(MissingFileName);
      }
      r := ReserveQuarantinePath(folder, source.name.value, id, faults.create);
      if r.Err? {
        return;
      }
      var dest := r.value;
      var moved := MoveFile(source, dest, faults.move);
      if !moved {
        var _ := Remove(dest, faults.cleanup);
        return Err(NotMoved(source));
      }
      if faults.update || exists other :: other in rows && other != id && rows[other] == dest {
        var restored := MoveFile(dest, source, faults.restore);
        return Err(if restored then UpdateFailed else UpdateAndRestoreFailed(dest));
      }
      rows := rows[id := dest];
      r := Ok(dest);
    }
  }

  // ---- Names ----

  lemma SameMiddle(head: string, a: string, b: string, tail: string)
    requires head + a + tail == head + b + tail
    ensures a == b
  {
    assert (head + a + tail)[|head|..|head| + |a|] == a && (head + b + tail)[|head|..|head| + |b|] == b;
  }

  lemma {:induction false} CandidateLength(name: string, id: ItemId, k: nat)
    ensures |Candidate(name, id, k)|
            == |name| + if k == 0 then 0 else |Decimal.OfInt(id)| + 1 + if k == 1 then 0 else |Decimal.OfNat(k)| + 1
  {
  }

  lemma CountedCandidatesDiffer(name: string, id: ItemId, j: nat, k: nat)
    requires 2 <= j < k
    ensures Candidate(name, id, j) != Candidate(name, id, k)
  {
    if Candidate(name, id, j) == Candidate(name, id, k) {
      var head, tail := Decimal.OfInt(id) + "-", "-" + name;
      SumIsLeft(head, Decimal.OfNat(j), name);
      SumIsLeft(head, Decimal.OfNat(k), name);
      SameMiddle(head, Decimal.OfNat(j), Decimal.OfNat(k), tail);
      Decimal.OfNatIsInjective(j, k);
    }
  }

  lemma SumIsLeft(head: string, count: string, name: string)
    ensures head + count + "-" + name == head + count + ("-" + name)
  {
  }

  /** The 10,000 candidate names are pairwise distinct. */
  lemma CandidatesAreDistinct(name: string, id: ItemId, j: nat, k: nat)
    requires j < k < CANDIDATES
    ensures Candidate(name, id, j) != Candidate(name, id, k)
  {
    if j >= 2 {
      CountedCandidatesDiffer(name, id, j, k);
    } else {
      CandidateLength(name, id, j);
      CandidateLength(name, id, k);
    }
  }

  /** With fewer than 10,000 files on disk, a free name is always found. */
  lemma {:induction false} SomeNameIsFree(files: Files, folder: string, name: string, id: ItemId)
    requires |files| < CANDIDATES
    ensures FirstFree(files, folder, name, id, 0).Some?
  {
    if FirstFree(files, folder, name, id, 0).None? {
      CandidatesFill(files, folder, name, id, CANDIDATES);
    }
  }

  lemma {:induction false} CandidatesFill(files: Files, folder: string, name: string, id: ItemId, count: nat)
    requires count <= CANDIDATES
    requires forall j :: 0 <= j < count ==> Taken(files, folder, name, id, j)
    ensures |files| >= count
  {
    if count > 0 {
      var last := Path(folder, Some(Candidate(name, id, count - 1)));
      assert Taken(files, folder, name, id, count - 1);
      var fewer := files - {last};
      forall j | 0 <= j < count - 1 ensures Taken(fewer, folder, name, id, j) {
        assert Taken(files, folder, name, id, j);
        CandidatesAreDistinct(name, id, j, count - 1);
      }
      CandidatesFill(fewer, folder, name, id, count - 1);
      assert fewer.Keys == files.Keys - {last};
    }
  }

  // ---- One call ----

  /** The two sets of files differ at most at the given paths. */
  ghost predicate SameExcept(a: Files, b: Files, p: Path, q: Path) {
    forall path :: path != p && path != q ==> (path in a <==> path in b) && (path in a ==> a[path] == b[path])
  }

  /** A move either takes the bytes to the destination, or leaves them whole at the source. */
  lemma MoveConserves(files: Files, source: Path, dest: Path, faults: MoveFaults)
    requires source in files && source != dest
    ensures var (after, ok) := Moved(files, source, dest, faults);
            && (ok <==> !faults.rename || (faults.copy.CopyWorks? && !faults.remove))
            && SameExcept(files, after, source, dest)
            && (ok ==> after == (files - {source})[dest := files[source]])
            && (!ok ==> source in after && after[source] == files[source])
  {
  }

  predicate MoveWorks(faults: MoveFaults) {
    !faults.rename || (faults.copy.CopyWorks? && !faults.remove)
  }

  /** `k` numbers the first free candidate. */
  ghost predicate IsFirstFreeAt(files: Files, folder: string, name: string, id: ItemId, k: int) {
    0 <= k < CANDIDATES && !Taken(files, folder, name, id, k)
    && forall j :: 0 <= j < k ==> Taken(files, folder, name, id, j)
  }

  lemma {:induction false} FirstFreeIs(files: Files, folder: string, name: string, id: ItemId, k: int)
    ensures IsFirstFreeAt(files, folder, name, id, k) <==> FirstFree(files, folder, name, id, 0) == Some(k)
  {
    match FirstFree(files, folder, name, id, 0)
    case None =>
      assert 0 <= k < CANDIDATES ==> Taken(files, folder, name, id, k);
    case Some(free) =>
      if 0 <= k < free {
        assert Taken(files, folder, name, id, k);
      } else if free < k < CANDIDATES {
        assert !Taken(files, folder, name, id, free);
      }
  }

  /** The reservation made: the item, its file and its name exist, and the folder and the new file can be made. */
  lemma {:induction false} QuarantineOnceReserved(disk: Disk, folder: string, id: ItemId, faults: Faults, k: nat)
    requires id in disk.rows && disk.rows[id] in disk.files && disk.rows[id].name.Some?
    requires !faults.makeFolder && !faults.create
    requires FirstFree(disk.files, folder, disk.rows[id].name.value, id, 0) == Some(k)
    ensures disk.Quarantined(folder, id, faults).1.Ok?
            <==> MoveWorks(faults.move)
                 && !disk.UpdateFails(id, Path(folder, Some(Candidate(disk.rows[id].name.value, id, k))), faults.update)
  {
    var dest := Path(folder, Some(Candidate(disk.rows[id].name.value, id, k)));
    assert !Taken(disk.files, folder, disk.rows[id].name.value, id, k);
    MoveConserves(disk.files[dest := []], disk.rows[id], dest, faults.move);
  }

  /** When a quarantine succeeds: exactly when it gets a file, a free name, a move and an update. */
  lemma QuarantineSucceedsExactlyWhen(disk: Disk, folder: string, id: ItemId, faults: Faults)
    ensures disk.Quarantined(folder, id, faults).1.Ok? <==>
              && id in disk.rows && disk.rows[id] in disk.files && disk.rows[id].name.Some?
              && !faults.makeFolder && !faults.create && MoveWorks(faults.move)
              && (exists k: int :: IsFirstFreeAt(disk.files, folder, disk.rows[id].name.value, id, k)
                    && !disk.UpdateFails(id, Path(folder, Some(Candidate(disk.rows[id].name.value, id, k))), faults.update))
  {
    if id in disk.rows && disk.rows[id] in disk.files && disk.rows[id].name.Some?
       && !faults.makeFolder && !faults.create {
      var name := disk.rows[id].name.value;
      var free := FirstFree(disk.files, folder, name, id, 0);
      if free.Some? {
        QuarantineOnceReserved(disk, folder, id, faults, free.value);
        FirstFreeIs(disk.files, folder, name, id, free.value);
      }
      if k: int :| IsFirstFreeAt(disk.files, folder, name, id, k)
                   && !disk.UpdateFails(id, Path(folder, Some(Candidate(name, id, k))), faults.update) {
        FirstFreeIs(disk.files, folder, name, id, k);
      }
    }
  }

  /** A move that fails after its reservation leaves every earlier file as it was. */
  lemma FailedMoveConserves(files: Files, source: Path, dest: Path, move: MoveFaults, cleanup: bool)
    requires source in files && dest !in files && !Moved(files[dest := []], source, dest, move).1
    ensures var cleaned := Removed(Moved(files[dest := []], source, dest, move).0, dest, cleanup).0;
            SameExcept(files, cleaned, dest, dest) && (!cleanup ==> cleaned == files)
  {
    MoveConserves(files[dest := []], source, dest, move);
  }

  /** A move that is undone by a restore leaves the files as they were, or the bytes at the destination. */
  lemma RestoreConserves(files: Files, source: Path, dest: Path, restore: MoveFaults)
    requires source in files && dest !in files
    ensures var moved := (files[dest := []] - {source})[dest := files[source]];
            var (restored, ok) := Moved(moved, dest, source, restore);
            if ok then restored == files
            else SameExcept(files, restored, source, dest) && dest in restored && restored[dest] == files[source]
  {
    var moved := (files[dest := []] - {source})[dest := files[source]];
    MoveConserves(moved, dest, source, restore);
  }

  /** `dest` is the first of the candidate names that no file has. */
  ghost predicate IsFirstFree(files: Files, folder: string, name: Option<string>, id: ItemId, dest: Path) {
    name.Some? && exists k: int :: IsFirstFreeAt(files, folder, name.value, id, k)
                                   && dest == Path(folder, Some(Candidate(name.value, id, k)))
  }

  /** What a failed call may leave behind. */
  ghost predicate LeftOver(disk: Disk, after: Disk, source: Path, error: Error, cleanup: bool)
    requires source in disk.files
  {
    after.rows == disk.rows
    && match error
       case UpdateAndRestoreFailed(dest) =>
         && dest !in disk.files && SameExcept(disk.files, after.files, source, dest)
         && dest in after.files && after.files[dest] == disk.files[source]
       case NotMoved(_) =>
         && (exists dest :: dest !in disk.files && SameExcept(disk.files, after.files, dest, dest))
         && (!cleanup ==> after.files == disk.files)
       case _ => after.files == disk.files
  }

  lemma TransferConserves(disk: Disk, source: Path, dest: Path, id: ItemId, faults: Faults)
    requires source in disk.files && dest !in disk.files
    ensures var (after, r) := disk.(files := disk.files[dest := []]).Transferred(source, dest, id, faults);
            match r
            case Ok(path) =>
              path == dest && after == Disk((disk.files - {source})[dest := disk.files[source]], disk.rows[id := dest])
            case Err(error) => LeftOver(disk, after, source, error, faults.cleanup)
  {
    MoveConserves(disk.files[dest := []], source, dest, faults.move);
    if MoveWorks(faults.move) {
      RestoreConserves(disk.files, source, dest, faults.restore);
      assert (disk.files[dest := []] - {source})[dest := disk.files[source]]
             == (disk.files - {source})[dest := disk.files[source]];
    } else {
      FailedMoveConserves(disk.files, source, dest, faults.move, faults.cleanup);
    }
  }

  /** Without a reservation a call changes nothing. */
  lemma {:induction false} UnreservedChangesNothing(disk: Disk, folder: string, id: ItemId, faults: Faults)
    requires id in disk.rows && disk.rows[id] in disk.files
    requires faults.makeFolder || disk.rows[id].name.None? || faults.create
             || FirstFree(disk.files, folder, disk.rows[id].name.value, id, 0).None?
    ensures var (after, r) := disk.Quarantined(folder, id, faults);
            after == disk && r.Err? && !r.error.UpdateAndRestoreFailed? && !r.error.NotMoved?
  {
  }

  /** With one it is a transfer to the reserved path. */
  lemma {:induction false} ReservedIsTransferred(disk: Disk, folder: string, id: ItemId, faults: Faults, k: nat)
    requires id in disk.rows && disk.rows[id] in disk.files && disk.rows[id].name.Some?
    requires !faults.makeFolder && !faults.create
    requires FirstFree(disk.files, folder, disk.rows[id].name.value, id, 0) == Some(k)
    ensures var dest := Path(folder, Some(Candidate(disk.rows[id].name.value, id, k)));
            && dest !in disk.files && IsFirstFree(disk.files, folder, disk.rows[id].name, id, dest)
            && disk.Quarantined(folder, id, faults)
               == disk.(files := disk.files[dest := []]).Transferred(disk.rows[id], dest, id, faults)
  {
    FirstFreeIs(disk.files, folder, disk.rows[id].name.value, id, k);
    assert !Taken(disk.files, folder, disk.rows[id].name.value, id, k);
  }

  /**
    Content is conserved whatever fails.  On success the original bytes are at the first
    candidate path that no file had, which the row now names.  On failure the rows are as before and the
    full bytes are at the row's path; or, when the restore failed too, at the path named
    in the error.  No other file changes, and a reserved name is left behind only if its
    removal fails too.
  */
  lemma QuarantineConserves(disk: Disk, folder: string, id: ItemId, faults: Faults)
    requires id in disk.rows && disk.rows[id] in disk.files
    ensures var (after, r) := disk.Quarantined(folder, id, faults);
            var source := disk.rows[id];
            match r
            case Ok(dest) =>
              && dest !in disk.files && IsFirstFree(disk.files, folder, source.name, id, dest)
              && after == Disk((disk.files - {source})[dest := disk.files[source]], disk.rows[id := dest])
            case Err(error) => LeftOver(disk, after, source, error, faults.cleanup)
  {
    var name := disk.rows[id].name;
    if faults.makeFolder || name.None? || faults.create || FirstFree(disk.files, folder, name.value, id, 0).None? {
      UnreservedChangesNothing(disk, folder, id, faults);
    } else {
      var k := FirstFree(disk.files, folder, name.value, id, 0).value;
      ReservedIsTransferred(disk, folder, id, faults, k);
      TransferConserves(disk, disk.rows[id], Path(folder, Some(Candidate(name.value, id, k))), id, faults);
    }
  }

  /** The error of a refused call, given the first free name if there is one. */
  function Cause(disk: Disk, folder: string, id: ItemId, faults: Faults, free: Option<Path>): Error {
    if id !in disk.rows then ItemNotFound
    else if disk.rows[id] !in disk.files then FileDoesNotExist(disk.rows[id])
    else if faults.makeFolder then FolderNotCreated
    else if disk.rows[id].name.None? then MissingFileName
    else if free.None? then NoFreeName
    else if faults.create then NameNotCreated(free.value)
    else if !MoveWorks(faults.move) then NotMoved(disk.rows[id])
    else if MoveWorks(faults.restore) then UpdateFailed
    else UpdateAndRestoreFailed(free.value)
  }

  /** The first free candidate for the item's name. */
  ghost predicate IsFree(disk: Disk, folder: string, id: ItemId, free: Option<Path>)
    requires id in disk.rows && disk.rows[id].name.Some?
  {
    var name := disk.rows[id].name.value;
    if free.Some? then IsFirstFree(disk.files, folder, Some(name), id, free.value)
    else forall k :: 0 <= k < CANDIDATES ==> Taken(disk.files, folder, name, id, k)
  }

  lemma {:induction false} FreeIs(disk: Disk, folder: string, id: ItemId, free: Option<Path>)
    requires id in disk.rows && disk.rows[id].name.Some? && IsFree(disk, folder, id, free)
    ensures var name := disk.rows[id].name.value;
            match FirstFree(disk.files, folder, name, id, 0)
            case None => free.None?
            case Some(k) => free == Some(Path(folder, Some(Candidate(name, id, k))))
  {
    var name := disk.rows[id].name.value;
    if free.Some? {
      var k: int :| IsFirstFreeAt(disk.files, folder, name, id, k) && free.value == Path(folder, Some(Candidate(name, id, k)));
      FirstFreeIs(disk.files, folder, name, id, k);
    }
  }

  /** A call that fails says why; one that fails before its move leaves files and rows as they were. */
  lemma RefusalNamesItsCause(disk: Disk, folder: string, id: ItemId, faults: Faults, free: Option<Path>)
    requires id in disk.rows && disk.rows[id].name.Some? ==> IsFree(disk, folder, id, free)
    ensures var (after, r) := disk.Quarantined(folder, id, faults);
            r.Err? ==>
              && r.error == Cause(disk, folder, id, faults, free)
              && (!r.error.NotMoved? && !r.error.UpdateAndRestoreFailed? ==> after == disk)
  {
    if id in disk.rows && disk.rows[id] in disk.files && disk.rows[id].name.Some? {
      QuarantineConserves(disk, folder, id, faults);
      FreeIs(disk, folder, id, free);
      var name := disk.rows[id].name;
      var first := FirstFree(disk.files, folder, name.value, id, 0);
      if !faults.makeFolder && !faults.create && first.Some? {
        ReservedIsTransferred(disk, folder, id, faults, first.value);
        TransferNamesItsCause(disk, disk.rows[id], free.value, id, faults);
      }
    }
  }

  lemma TransferNamesItsCause(disk: Disk, source: Path, dest: Path, id: ItemId, faults: Faults)
    requires source in disk.files && dest !in disk.files
    ensures var r := disk.(files := disk.files[dest := []]).Transferred(source, dest, id, faults).1;
            r.Err? ==> r.error == if !MoveWorks(faults.move) then NotMoved(source)
                                  else if MoveWorks(faults.restore) then UpdateFailed
                                  else UpdateAndRestoreFailed(dest)
  {
    MoveConserves(disk.files[dest := []], source, dest, faults.move);
    if MoveWorks(faults.move) {
      MoveConserves((disk.files[dest := []] - {source})[dest := disk.files[source]], dest, source, faults.restore);
    }
  }

  /**
    A quarantined file keeps its name if no file in the folder has it; else the item's
    number is put in front, and if that is taken too, the first free count from 2 behind it.
  */
  lemma QuarantinedNameIs(disk: Disk, folder: string, id: ItemId, faults: Faults)
    requires disk.Quarantined(folder, id, faults).1.Ok?
    ensures id in disk.rows && disk.rows[id].name.Some?
    ensures var dest := disk.Quarantined(folder, id, faults).1.value;
            var name, number := disk.rows[id].name.value, Decimal.OfInt(id);
            if Path(folder, Some(name)) !in disk.files then
              dest == Path(folder, Some(name))
            else if Path(folder, Some(number + "-" + name)) !in disk.files then
              dest == Path(folder, Some(number + "-" + name))
            else
              exists k: nat :: 2 <= k < CANDIDATES && dest == Path(folder, Some(number + "-" + Decimal.OfNat(k) + "-" + name))
                && forall j: nat :: 2 <= j < k ==> Path(folder, Some(number + "-" + Decimal.OfNat(j) + "-" + name)) in disk.files
  {
    QuarantineSucceedsExactlyWhen(disk, folder, id, faults);
    QuarantineConserves(disk, folder, id, faults);
    var name, number := disk.rows[id].name.value, Decimal.OfInt(id);
    var dest := disk.Quarantined(folder, id, faults).1.value;
    var k: int :| IsFirstFreeAt(disk.files, folder, name, id, k) && dest == Path(folder, Some(Candidate(name, id, k)));
    assert k > 0 ==> Taken(disk.files, folder, name, id, 0);
    assert k > 1 ==> Taken(disk.files, folder, name, id, 1);
    if k >= 2 {
      assert dest == Path(folder, Some(number + "-" + Decimal.OfNat(k) + "-" + name));
      forall j: nat | 2 <= j < k
        ensures Path(folder, Some(number + "-" + Decimal.OfNat(j) + "-" + name)) in disk.files
      {
        assert Taken(disk.files, folder, name, id, j);
      }
    }
  }

  // ---- Any number of calls ----

  datatype Call = Call(id: ItemId, faults: Faults)

  function RunCalls(disk: Disk, folder: string, calls: seq<Call>): Disk
    decreases |calls|
  {
    if calls == [] then disk
    else RunCalls(disk.Quarantined(folder, calls[0].id, calls[0].faults).0, folder, calls[1..])
  }

  /** Where a call says that it put the file at `path`, by succeeding or by naming the place in its error. */
  function FollowOne(disk: Disk, folder: string, call: Call, path: Path): Path {
    if call.id in disk.rows && disk.rows[call.id] == path then
      match disk.Quarantined(folder, call.id, call.faults).1
      case Ok(dest) => dest
      case Err(UpdateAndRestoreFailed(dest)) => dest
      case Err(_) => path
    else
      path
  }

  function Follow(disk: Disk, folder: string, calls: seq<Call>, path: Path): Path
    decreases |calls|
  {
    if calls == [] then path
    else Follow(disk.Quarantined(folder, calls[0].id, calls[0].faults).0, folder, calls[1..],
                FollowOne(disk, folder, calls[0], path))
  }

  lemma CallKeepsFile(disk: Disk, folder: string, call: Call, path: Path)
    requires path in disk.files
    ensures var after := disk.Quarantined(folder, call.id, call.faults).0;
            var now := FollowOne(disk, folder, call, path);
            now in after.files && after.files[now] == disk.files[path]
  {
    if call.id in disk.rows && disk.rows[call.id] in disk.files {
      QuarantineConserves(disk, folder, call.id, call.faults);
    }
  }

  /**
    No run of quarantines loses a file, whatever fails: the bytes of every file that was
    on disk are still there, whole, at the path reached by following the calls' answers.
  */
  lemma {:induction false} NoRunLosesAFile(disk: Disk, folder: string, calls: seq<Call>, path: Path)
    requires path in disk.files
    ensures var after := RunCalls(disk, folder, calls);
            var now := Follow(disk, folder, calls, path);
            now in after.files && after.files[now] == disk.files[path]
    decreases |calls|
  {
    if calls != [] {
      CallKeepsFile(disk, folder, calls[0], path);
      NoRunLosesAFile(disk.Quarantined(folder, calls[0].id, calls[0].faults).0, folder, calls[1..],
                      FollowOne(disk, folder, calls[0], path));
    }
  }

  /** Some call of the run answered, for this item, that the file is stranded at the destination. */
  predicate Stranded(disk: Disk, folder: string, calls: seq<Call>, id: ItemId)
    decreases |calls|
  {
    calls != []
    && (StrandsIt(disk, folder, calls[0], id)
        || Stranded(disk.Quarantined(folder, calls[0].id, calls[0].faults).0, folder, calls[1..], id))
  }

  ghost predicate UniqueRows(disk: Disk) {
    forall a, b :: a in disk.rows && b in disk.rows && a != b ==> disk.rows[a] != disk.rows[b]
  }

  predicate StrandsIt(disk: Disk, folder: string, call: Call, id: ItemId) {
    var r := disk.Quarantined(folder, call.id, call.faults).1;
    call.id == id && r.Err? && r.error.UpdateAndRestoreFailed?
  }

  lemma CallKeepsRow(disk: Disk, folder: string, call: Call, id: ItemId)
    requires UniqueRows(disk) && id in disk.rows && disk.rows[id] in disk.files && !StrandsIt(disk, folder, call, id)
    ensures var after := disk.Quarantined(folder, call.id, call.faults).0;
            && UniqueRows(after) && id in after.rows
            && after.rows[id] == FollowOne(disk, folder, call, disk.rows[id])
  {
    if call.id in disk.rows && disk.rows[call.id] in disk.files {
      QuarantineConserves(disk, folder, call.id, call.faults);
    }
  }

  /** Unless its file was reported stranded, a row still names its own bytes after any run; paths stay unique. */
  lemma {:induction false} RowsKeepTheirFiles(disk: Disk, folder: string, calls: seq<Call>, id: ItemId)
    requires UniqueRows(disk) && id in disk.rows && disk.rows[id] in disk.files
    requires !Stranded(disk, folder, calls, id)
    ensures var after := RunCalls(disk, folder, calls);
            && UniqueRows(after) && id in after.rows && after.rows[id] in after.files
            && after.files[after.rows[id]] == disk.files[disk.rows[id]]
            && after.rows[id] == Follow(disk, folder, calls, disk.rows[id])
    decreases |calls|
  {
    if calls != [] {
      var call := calls[0];
      CallKeepsFile(disk, folder, call, disk.rows[id]);
      CallKeepsRow(disk, folder, call, id);
      RowsKeepTheirFiles(disk.Quarantined(folder, call.id, call.faults).0, folder, calls[1..], id);
    }
  }

  /** Whatever fails, no run of quarantines drops or adds a library row. */
  lemma {:induction false} NoRunChangesTheItems(disk: Disk, folder: string, calls: seq<Call>)
    ensures RunCalls(disk, folder, calls).rows.Keys == disk.rows.Keys
    decreases |calls|
  {
    if calls != [] {
      var call := calls[0];
      if call.id in disk.rows && disk.rows[call.id] in disk.files {
        QuarantineConserves(disk, folder, call.id, call.faults);
      }
      NoRunChangesTheItems(disk.Quarantined(folder, call.id, call.faults).0, folder, calls[1..]);
    }
  }
}
