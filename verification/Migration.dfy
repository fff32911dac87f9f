/** Layout migration: job capsules, registry records and snapshots move to the role
    layout by publish, save and delete, and may be cut between any two effects. */
module Migration {
  import opened Common
  import opened Capsule

  datatype Layout = Legacy | Role

  datatype Outcome = Done | Failed | Crashed

  /** How far the remote copy script got: it may be killed with its staging tree in
      place, and a finished script's answer may still be lost. */
  datatype CopyRun = NotStarted | Killed | Finished(copied: Files, reported: bool)

  /** What a remote delete leaves behind; an empty rest is a finished delete. */
  datatype DeleteRun = DeleteRun(kept: set<Name>, gone: bool, reported: bool)

  // ---------- one job's capsule ----------

  /** How far a row has come: it waits for a copy, perhaps with a staging tree in the way;
      a copy was published and the row does not know; or the row was moved. */
  datatype Fate = Waiting(staging: bool) | Stuck | Moved

  /** What one attempt does to a row that was cut, answered or not answered like this. */
  function NextFate(fate: Fate, files: Files, copy: CopyRun, steps: nat): Fate {
    if !fate.Waiting? || steps == 0 || copy.NotStarted? then fate
    else if fate.staging then Waiting(false)
    else if copy.Killed? then Waiting(true)
    else if copy.copied != files || !Copyable(files) then Waiting(false)
    else if copy.reported && steps >= 2 then Moved
    else Stuck
  }

  class Job {
    /** The capsule as it was before migration. */
    const original: Files
    var layout: Layout
    var pending: bool
    var legacy: Option<Files>
    var role: Option<Tree>
    var staging: bool

    ghost predicate Valid()
      reads this
    {
      // a row with the legacy layout implies an intact legacy capsule,
      && (layout.Legacy? ==> legacy == Some(original) && !pending)
      // a migrated row implies a complete role capsule,
      && (layout.Role? ==> role.Some?)
      && (role.Some? ==> Migrated(role.value, original))
      // and one that awaits no cleanup implies that the legacy copy is gone
      && (layout.Role? && !pending ==> legacy.None?)
      && (legacy.Some? ==> forall n | n in legacy.value :: n in original && legacy.value[n] == original[n])
    }

    ghost function FateNow(): Fate
      reads this`layout, this`role, this`staging
    {
      if layout.Role? then Moved else if role.Some? then Stuck else Waiting(staging)
    }

    constructor (files: Files)
      ensures Valid() && original == files && layout == Legacy && role == None && !staging
    {
      original, layout, pending, legacy, role, staging := files, Legacy, false, Some(files), None, false;
    }

    /** The worker's copy script: it refuses an existing destination, compares its copy
        with the source before arranging it, and drops its staging tree when it fails. */
    method Copy(run: CopyRun, temporaries: seq<Name>) returns (reported: bool)
      requires Valid() && layout.Legacy?
      requires forall n :: n in temporaries ==> n.ExitTemporary?
      requires forall n | n in original && n.ExitTemporary? :: n in temporaries
      modifies this`role, this`staging
      ensures Valid()
      ensures reported ==> role.Some?
      ensures reported <==> old(role).None? && !old(staging) && Copyable(original)
                            && run == Finished(original, true)
      ensures old(role).Some? ==> role == old(role)
      // a verified copy is published whether or not its answer arrives
      ensures old(role).None? ==>
                (role.Some? <==> !old(staging) && Copyable(original) && run.Finished? && run.copied == original)
      ensures staging == if run.NotStarted? then old(staging) else run.Killed? && old(role).None? && !old(staging)
    {
      if run.NotStarted? {
        return false;
      }
      if role.Some? || staging {
        staging := false;
        return false;
      }
      staging := true;
      if run.Killed? {
        return false;
      }
      if run.copied != legacy.value || !Copyable(run.copied) {
        staging := false;
        return false;
      }
      var tree := Arrange(run.copied, temporaries);
      role, staging := Some(tree), false;
      return run.reported;
    }

    /** `_worker_delete_source_command`: finds and deletes; only an absent source is success. */
    method DeleteLegacy(run: DeleteRun) returns (reported: bool)
      requires Valid() && layout.Role? && pending
      modifies this`legacy
      ensures Valid()
      ensures reported <==> run.reported && (run.gone || old(legacy).None?)
      ensures reported ==> legacy.None?
    {
      if legacy.None? || run.gone {
        legacy := None;
        return run.reported;
      }
      legacy := Some(map n | n in legacy.value && n in run.kept :: legacy.value[n]);
      return false;
    }

    /** The row kind `job` of `apply_layout`, cut after `steps` effects. */
    method Migrate(copy: CopyRun, del: DeleteRun, temporaries: seq<Name>, steps: nat) returns (r: Outcome)
      requires Valid()
      requires forall n :: n in temporaries ==> n.ExitTemporary?
      requires forall n | n in original && n.ExitTemporary? :: n in temporaries
      modifies this
      ensures Valid()
      ensures r == Done <==>
              && old(layout) == Legacy && old(role) == None && !old(staging) && Copyable(original)
              && copy == Finished(original, true) && del.gone && del.reported && steps >= 4
      ensures r == Done ==> layout == Role && !pending
      ensures old(layout) == Role ==> layout == Role && pending == old(pending) && legacy == old(legacy)
      ensures old(role).Some? ==> layout == old(layout) && role == old(role)
      ensures FateNow() == NextFate(old(FateNow()), original, copy, steps)
    {
      if !layout.Legacy? {
        return Failed;
      }
      if steps == 0 {
        return Crashed;
      }
      var copied := Copy(copy, temporaries);
      if !copied {
        return Failed;
      }
      if steps == 1 {
        return Crashed;
      }
      layout, pending := Role, true;
      if steps == 2 {
        return Crashed;
      }
      var deleted := DeleteLegacy(del);
      if !deleted {
        return Failed;
      }
      if steps == 3 {
        return Crashed;
      }
      pending := false;
      return Done;
    }

    /** The row kind `job_cleanup`, cut after `steps` effects. */
    method Cleanup(del: DeleteRun, steps: nat) returns (r: Outcome)
      requires Valid()
      modifies this`pending, this`legacy
      ensures Valid()
      ensures r == Done <==>
              old(layout) == Role && old(pending) && del.reported && (del.gone || old(legacy).None?) && steps >= 2
      ensures r == Done ==> !pending
      ensures old(layout) == Legacy ==> legacy == old(legacy) && pending == old(pending)
    {
      if !layout.Role? || !pending {
        return Failed;
      }
      if steps == 0 {
        return Crashed;
      }
      var deleted := DeleteLegacy(del);
      if !deleted {
        return Failed;
      }
      if steps == 1 {
        return Crashed;
      }
      pending := false;
      return Done;
    }
  }

  datatype Attempt = Attempt(copy: CopyRun, del: DeleteRun, steps: nat)

  ghost predicate NamesTemporaries(temporaries: seq<Name>, files: Files) {
    && (forall n :: n in temporaries ==> n.ExitTemporary?)
    && (forall n | n in files && n.ExitTemporary? :: n in temporaries)
  }

  /** One `migrate --apply` on one job: the planned row kind follows the row's fields. */
  method Apply(job: Job, a: Attempt, temporaries: seq<Name>)
    requires job.Valid() && NamesTemporaries(temporaries, job.original)
    modifies job
    ensures job.Valid()
    ensures old(job.layout) == Legacy && old(job.role).Some? ==> job.layout == Legacy && job.role == old(job.role)
    ensures old(job.layout) == Role ==> job.layout == Role && (old(job.pending) || !job.pending)
    ensures job.FateNow() == NextFate(old(job.FateNow()), job.original, a.copy, a.steps)
    ensures a == Undisturbed(job.original) && Copyable(job.original) && job.layout == Role ==> !job.pending
  {
    if job.layout == Role && job.pending {
      var _ := job.Cleanup(a.del, a.steps);
    } else if job.layout == Legacy {
      var _ := job.Migrate(a.copy, a.del, temporaries, a.steps);
    }
  }

  /** An attempt that nothing interrupts and whose answers all arrive. */
  function Undisturbed(files: Files): Attempt {
    Attempt(Finished(files, true), DeleteRun({}, true, true), 4)
  }

  function Fated(fate: Fate, files: Files, attempts: seq<Attempt>): Fate {
    if attempts == [] then fate
    else NextFate(Fated(fate, files, attempts[..|attempts| - 1]), files, attempts[|attempts| - 1].copy, attempts[|attempts| - 1].steps)
  }

  /** Nothing else moves a row that is stuck or moved. */
  lemma {:induction false} FateIsFinal(fate: Fate, files: Files, attempts: seq<Attempt>, i: nat)
    requires i <= |attempts| && !Fated(fate, files, attempts[..i]).Waiting?
    ensures Fated(fate, files, attempts) == Fated(fate, files, attempts[..i])
  {
    if i < |attempts| {
      var shorter := attempts[..|attempts| - 1];
      assert shorter[..i] == attempts[..i];
      FateIsFinal(fate, files, shorter, i);
    } else {
      assert attempts[..i] == attempts;
    }
  }

  /** Publishes a copy that the row does not get to record. */
  predicate PublishesUnseen(files: Files, a: Attempt) {
    a.copy.Finished? && a.copy.copied == files && Copyable(files) && a.steps >= 1 && !(a.copy.reported && a.steps >= 2)
  }

  lemma StuckStep(fate: Fate, files: Files, a: Attempt)
    ensures NextFate(fate, files, a.copy, a.steps) == Stuck <==> fate == Stuck || (fate == Waiting(false) && PublishesUnseen(files, a))
  {
  }

  /** A row gets stuck exactly in an attempt that finds it waiting with no staging tree in
      the way and publishes a copy whose answer is lost, or that is cut before the row is
      saved. */
  lemma {:induction false} StuckExactly(fate: Fate, files: Files, attempts: seq<Attempt>)
    requires fate.Waiting?
    ensures Fated(fate, files, attempts) == Stuck <==>
            exists i :: 0 <= i < |attempts| && Fated(fate, files, attempts[..i]) == Waiting(false) && PublishesUnseen(files, attempts[i])
  {
    if attempts != [] {
      var n := |attempts| - 1;
      var shorter := attempts[..n];
      StuckExactly(fate, files, shorter);
      StuckStep(Fated(fate, files, shorter), files, attempts[n]);
      hide NextFate, PublishesUnseen;
      if Fated(fate, files, shorter) == Stuck {
        var i :| 0 <= i < n && Fated(fate, files, shorter[..i]) == Waiting(false) && PublishesUnseen(files, shorter[i]);
        assert shorter[..i] == attempts[..i];
      }
      forall i | 0 <= i < |attempts| && Fated(fate, files, attempts[..i]) == Waiting(false) && PublishesUnseen(files, attempts[i])
        ensures Fated(fate, files, attempts) == Stuck
      {
        if i < n {
          assert shorter[..i] == attempts[..i] && shorter[i] == attempts[i];
        }
      }
    }
  }

  /** Any number of `migrate --apply` runs, each cut or failing anywhere, and then two
      undisturbed ones. The capsule is never lost, and the job ends up migrated unless the
      attempts got it stuck, which no later run takes up. */
  method ApplyAgainAndAgain(job: Job, attempts: seq<Attempt>, temporaries: seq<Name>) returns (wedged: bool)
    requires job.Valid() && NamesTemporaries(temporaries, job.original) && Copyable(job.original)
    modifies job
    ensures job.Valid()
    ensures wedged <==> job.layout == Legacy
    ensures wedged <==> Fated(old(job.FateNow()), job.original, attempts) == Stuck
    ensures wedged ==> job.role.Some? && job.legacy == Some(job.original)
    ensures !wedged ==> !job.pending && job.legacy == None && job.role.Some? && Migrated(job.role.value, job.original)
  {
    for i := 0 to |attempts|
      invariant job.Valid()
      invariant job.FateNow() == Fated(old(job.FateNow()), job.original, attempts[..i])
    {
      Apply(job, attempts[i], temporaries);
      assert attempts[..i + 1][..i] == attempts[..i];
    }
    assert attempts[..|attempts|] == attempts;
    wedged := job.layout == Legacy && job.role.Some?;
    Apply(job, Undisturbed(job.original), temporaries);
    Apply(job, Undisturbed(job.original), temporaries);
  }

  /** Every copyable capsule can get stuck, from the start and whatever is tried afterwards:
      its first copy is published and the answer is lost. */
  method StuckForGood(files: Files, attempts: seq<Attempt>, temporaries: seq<Name>) returns (job: Job)
    requires NamesTemporaries(temporaries, files) && Copyable(files)
    ensures job.Valid() && job.original == files && job.layout == Legacy && job.legacy == Some(files) && job.role.Some?
  {
    job := new Job(files);
    var lost := Attempt(Finished(files, false), DeleteRun({}, true, true), 4);
    assert ([lost] + attempts)[..1] == [lost] && [lost][..0] == [];
    assert Fated(Waiting(false), files, [lost]) == Stuck;
    FateIsFinal(Waiting(false), files, [lost] + attempts, 1);
    var wedged := ApplyAgainAndAgain(job, [lost] + attempts, temporaries);
  }

  // ---------- one registry record ----------

  /** A decoded record; encoding it and decoding it again gives it back. Every save
      stamps the time of the update anew. */
  datatype Record = Record(fields: nat, updatedAt: nat)

  /** A record file and its status: inode, size and times, which every save changes, since
      it replaces the file. */
  datatype RecordFile = RecordFile(record: Record, status: nat)

  datatype Status = Movable | DuplicateVerified

  /** What an older process saves into the source meanwhile: between the two reads of the
      source, before the comparison with the destination, before the one with the first
      read, and between the last comparison and the removal. */
  datatype Edits = Edits(reread: Option<nat>, early: Option<nat>, late: Option<nat>, last: Option<nat>)

  /** What works: the flush of the destination directory, the status of the source staying
      as it is while nobody saves it, the removal of the source, and the last flush. */
  datatype Disk = Disk(flushed: bool, steady: bool, unlinked: bool, settled: bool)

  /** Does `_copy_registry_row` get as far as removing the source? */
  predicate Passes(found: Record, destination: Option<Record>, status: Status, e: Edits, disk: Disk) {
    && e.reread.None? && e.early.None?
    && if status.DuplicateVerified? then destination == Some(found)
       else destination.None? && disk.flushed && e.late.None? && disk.steady
  }

  class RegistryFile {
    var source: Option<RecordFile>
    var destination: Option<Record>
    /** The record as last saved. */
    ghost var latest: Record
    /** Later than every stamp given so far. */
    var clock: nat

    /** The source, while there is one, is the record as last saved. */
    ghost predicate Live()
      reads this
    {
      && (source.Some? ==> source.value.record == latest && source.value.status < clock)
      && latest.updatedAt < clock && (destination.Some? ==> destination.value.updatedAt < clock)
    }

    /** The record as last saved is held by the source, or by the destination once the
        source is gone. */
    ghost predicate Valid()
      reads this
    {
      Live() && (source.None? ==> destination == Some(latest))
    }

    constructor (fields: nat)
      ensures Valid() && source == Some(RecordFile(Record(fields, 0), 0)) && destination == None
    {
      source, destination, latest, clock := Some(RecordFile(Record(fields, 0), 0)), None, Record(fields, 0), 1;
    }

    /** An older process may still save the legacy record it finds. */
    method Save(fields: Option<nat>)
      requires Live()
      modifies this`source, this`latest, this`clock
      ensures Live() && (old(Valid()) ==> Valid()) && clock >= old(clock)
      ensures source.None? <==> old(source).None?
      ensures source.None? ==> latest == old(latest)
      ensures fields.None? ==> source == old(source) && latest == old(latest)
      ensures fields.Some? && source.Some? ==>
                source.value.record == Record(fields.value, old(clock)) && source.value.status == old(clock)
    {
      if fields.Some? && source.Some? {
        latest := Record(fields.value, clock);
        source, clock := Some(RecordFile(Record(fields.value, clock), clock)), clock + 1;
      }
    }

    /** Another read of the source: its record, and its status unless something else than
        a save, such as a recorded access, has touched that. */
    method SameAs(first: Option<RecordFile>, steady: bool) returns (same: bool)
      ensures same <==> source == first && steady
    {
      same := source == first && steady;
    }

    /** `_copy_registry_row`, cut after `steps` effects. */
    method Copy(status: Status, e: Edits, disk: Disk, steps: nat) returns (r: Outcome)
      requires Live()
      modifies this
      ensures Live() && (old(source).None? ==> source == None && latest == old(latest) && destination == old(destination))
      // the source goes only when every comparison has passed, and then the record as last
      // saved is held exactly when nobody saved it after the last of them
      ensures r == Done ==> source == None
      ensures old(source).Some? && source.None? ==>
                && Passes(old(source).value.record, old(destination), status, e, disk)
                && destination == Some(old(source).value.record)
                && latest.fields == (if e.last.Some? then e.last.value else old(source).value.record.fields)
                && (Valid() <==> e.last.None?)
      // a failure that is not a crash leaves the destination as it found it, unless only
      // the last flush failed
      ensures r == Failed ==>
                if old(source).Some? && source.None? then !disk.settled else destination == old(destination)
      // cut between the two effects, an undisturbed attempt leaves both files
      ensures steps == 1 && status.Movable? && e == NO_EDITS && old(source).Some? && old(destination).None? ==>
                r == Crashed && source == old(source) && destination == Some(old(source).value.record)
      ensures steps >= 2 && old(source).Some? ==>
                (r == Done <==> Passes(old(source).value.record, old(destination), status, e, disk) && disk.unlinked && disk.settled)
    {
      if source.None? {
        return Failed;
      }
      var first := source;
      Save(e.reread);
      var read := source.value.record;
      Save(e.early);
      if status.DuplicateVerified? {
        if destination != Some(source.value.record) {
          return Failed;
        }
        r := Remove(e.last, disk, steps);
        return;
      }
      if destination.Some? {
        return Failed;
      }
      if steps == 0 {
        return Crashed;
      }
      destination := Some(read);
      var good := destination == Some(source.value.record) && disk.flushed;
      if good {
        Save(e.late);
        good := SameAs(first, disk.steady);
      }
      if good && steps >= 2 {
        r := Remove(e.last, disk, steps);
        if source.None? {
          return;
        }
      }
      if steps == 1 {
        return Crashed;
      }
      // published and not completed
      destination := None;
      return Failed;
    }

    /** The removal of the source and the flush after it. */
    method Remove(last: Option<nat>, disk: Disk, steps: nat) returns (r: Outcome)
      requires Live() && source.Some? && destination.Some?
      modifies this`source, this`latest, this`clock
      ensures Live()
      ensures source.None? <==> steps > 0 && disk.unlinked
      ensures source.None? ==> latest == if last.Some? then Record(last.value, old(clock)) else old(latest)
      ensures r == if steps == 0 then Crashed else if disk.unlinked && disk.settled then Done else Failed
    {
      Save(last);
      if steps == 0 {
        return Crashed;
      }
      if !disk.unlinked {
        return Failed;
      }
      source := None;
      return if disk.settled then Done else Failed;
    }
  }

  /** before is a save between two attempts. */
  datatype CopyAttempt = CopyAttempt(before: Option<nat>, edits: Edits, disk: Disk, steps: nat)

  const NO_EDITS := Edits(None, None, None, None)

  const GOOD_DISK := Disk(true, true, true, true)

  const QUIET := CopyAttempt(None, NO_EDITS, GOOD_DISK, 2)

  /** The losing run: an older process saves the record just before its source is removed,
      whether the row is movable or a duplicate left by an attempt that was cut. */
  method SaveThatIsLost(fields: nat, newer: nat) returns (moved: RegistryFile, duplicate: RegistryFile)
    ensures moved.source == None && moved.destination == Some(Record(fields, 0)) && moved.latest.fields == newer && !moved.Valid()
    ensures duplicate.source == None && duplicate.destination == Some(Record(fields, 0)) && duplicate.latest.fields == newer
            && !duplicate.Valid()
  {
    var late := Edits(None, None, None, Some(newer));
    moved := new RegistryFile(fields);
    var r := moved.Copy(Movable, late, GOOD_DISK, 2);
    duplicate := new RegistryFile(fields);
    r := duplicate.Copy(Movable, NO_EDITS, GOOD_DISK, 1);
    r := duplicate.Copy(DuplicateVerified, late, GOOD_DISK, 2);
  }

  /** Any number of retries, each planned afresh, and an undisturbed one: the record as
      last saved is held exactly unless it was saved after the last comparison of the
      attempt that removed the source, and only a destination with another record blocks
      the move. */
  method MoveRecord(file: RegistryFile, attempts: seq<CopyAttempt>) returns (removal: Option<nat>)
    requires file.Valid()
    modifies file
    ensures file.Live()
    ensures removal.Some? <==> old(file.source).Some? && file.source.None?
    ensures removal.Some? ==> removal.value <= |attempts|
    ensures file.Valid() <==> (removal.Some? ==> (attempts + [QUIET])[removal.value].edits.last.None?)
    ensures file.source.Some? ==> file.destination.Some? && file.destination.value != file.source.value.record
    ensures old(file.source).None? ==> file.source == None && file.destination == old(file.destination)
  {
    removal := None;
    var all := attempts + [QUIET];
    for i := 0 to |all|
      invariant file.Live()
      invariant old(file.source).None? ==> file.source == None && file.destination == old(file.destination) && file.latest == old(file.latest)
      invariant removal.Some? <==> old(file.source).Some? && file.source.None?
      invariant removal.Some? ==> removal.value < i
      invariant file.Valid() <==> (removal.Some? ==> all[removal.value].edits.last.None?)
      invariant i == |all| && file.source.Some? ==> file.destination.Some? && file.destination.value != file.source.value.record
    {
      var a := all[i];
      file.Save(a.before);
      // the plan moves, accepts a verified duplicate, or blocks on a different record
      if file.source.Some? && (file.destination.None? || file.destination == Some(file.source.value.record)) {
        var status := if file.destination.None? then Movable else DuplicateVerified;
        var r := file.Copy(status, a.edits, a.disk, a.steps);
        if file.source.None? {
          removal := Some(i);
        }
      }
    }
  }

  // ---------- one snapshot ----------

  /** What a directory named by the digest holds. */
  datatype Dir = Absent | Intact | Damaged

  class Snapshot {
    var source: Dir
    var destination: Dir

    /** The snapshot is always intact in one of its two places. */
    ghost predicate Valid()
      reads this
    {
      source == Intact || destination == Intact
    }

    constructor ()
      ensures Valid() && source == Intact && destination == Absent
    {
      source, destination := Intact, Absent;
    }

    /** `_copy_snapshot_row`, cut after `steps` effects. copied is what the tree copy
        delivers, removed whether the recursive delete finishes. */
    method Copy(status: Status, copied: Dir, removed: bool, steps: nat) returns (r: Outcome)
      requires Valid()
      modifies this
      ensures Valid()
      ensures r == Done ==> destination == Intact && source == Absent
      ensures old(destination) == Intact ==> destination == Intact
      ensures old(destination) == Damaged ==> destination == Damaged && source == old(source)
      ensures steps >= 3 && status.Movable? ==>
                (r == Done <==> removed && old(destination).Absent? && copied.Intact?)
      ensures steps >= 3 && status.DuplicateVerified? ==>
                (r == Done <==> removed && old(source).Intact? && old(destination).Intact?)
    {
      if status.DuplicateVerified? {
        if source != Intact || destination != Intact {
          return Failed;
        }
        if steps == 0 {
          return Crashed;
        }
        var tombstone := source;
        source := Absent;
        if steps == 1 {
          return Crashed;
        }
        if !removed {
          // what is left goes back under its name
          tombstone := Damaged;
          if steps == 2 {
            return Crashed;
          }
          source := tombstone;
          return Failed;
        }
        return Done;
      }
      if copied != Intact || destination != Absent {
        return Failed;
      }
      if steps == 0 {
        return Crashed;
      }
      destination := copied;
      if steps == 1 {
        return Crashed;
      }
      source := if removed then Absent else Damaged;
      return if removed then Done else Failed;
    }
  }

  datatype TreeAttempt = TreeAttempt(copied: Dir, removed: bool, steps: nat)

  /** Any number of retries, each planned afresh and cut anywhere: the snapshot survives,
      and one undisturbed attempt finishes the move exactly while the source is still
      intact and the destination is not damaged. */
  method MoveSnapshot(snapshot: Snapshot, attempts: seq<TreeAttempt>) returns (moved: bool)
    requires snapshot.Valid()
    modifies snapshot
    ensures snapshot.Valid()
    ensures moved ==> snapshot.source == Absent && snapshot.destination == Intact
    ensures attempts == [] ==> (moved <==> old(snapshot.source) == Intact && old(snapshot.destination) != Damaged)
  {
    moved := false;
    for i := 0 to |attempts| + 1
      invariant snapshot.Valid()
      invariant i == 0 ==> !moved && snapshot.source == old(snapshot.source) && snapshot.destination == old(snapshot.destination)
      invariant i > |attempts| && moved ==> snapshot.source == Absent && snapshot.destination == Intact
      invariant attempts == [] && i == 1 ==> (moved <==> old(snapshot.source) == Intact && old(snapshot.destination) != Damaged)
    {
      var a := if i < |attempts| then attempts[i] else TreeAttempt(Intact, true, 3);
      moved := false;
      if snapshot.source == Intact && snapshot.destination != Damaged {
        var status := if snapshot.destination == Absent then Movable else DuplicateVerified;
        var r := snapshot.Copy(status, a.copied, a.removed, a.steps);
        moved := r == Done;
      }
    }
  }
}
