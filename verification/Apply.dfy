/** Applying a push to the credentials file: lock, backup, atomic write, verify, roll back. */
module ApplyPath {
  import opened Formats
  import opened MediatorSpec
  import opened ApplySpec
  import opened Disk

  const LOCK_RETRY_MAX := 3

  predicate IsTemp(dst: Path, p: Path) {
    dst + ".tmp." <= p
  }

  predicate IsBackup(dst: Path, p: Path) {
    dst + ".bak." <= p
  }

  lemma Siblings(dst: Path, bak: Path)
    requires IsBackup(dst, bak)
    ensures !IsTemp(dst, dst) && !IsBackup(dst, dst) && !IsTemp(dst, bak) && !IsTemp(bak, bak)
    ensures !IsTemp(bak, dst) && bak != dst
  {
    assert (dst + ".tmp.")[|dst| + 1] == 't' && (dst + ".bak.")[|dst| + 1] == 'b';
    assert bak[|dst| + 1] == 'b';
  }

  // ------------------------------------------------------------ atomic write

  /** The two file systems agree but for temporary files of `dst`. */
  ghost predicate SameButTemps(before: Files, after: Files, dst: Path) {
    forall p: Path | !IsTemp(dst, p) :: At(after, p) == At(before, p)
  }

  /** In between, an atomic write of `dst` shows the old contents or the new, never a mix. */
  ghost predicate Staging(before: Files, held: bool, m: Moment, dst: Path, data: Bytes) {
    m.held == held && (SameButTemps(before, m.files, dst) || m.files == before[dst := data])
  }

  ghost predicate AllStaging(past: seq<Moment>, from: nat, before: Files, held: bool, dst: Path, data: Bytes) {
    forall i | from <= i < |past| :: Staging(before, held, past[i], dst, data)
  }

  lemma TempTouched(before: Files, mid: Files, after: Files, dst: Path, tmp: Path)
    requires IsTemp(dst, tmp) && SameButTemps(before, mid, dst)
    requires after == mid - {tmp} || (tmp in after && after == mid[tmp := after[tmp]])
    ensures SameButTemps(before, after, dst)
  {
  }

  lemma MomentsTouched(before: Files, mid: Files, held: bool, past: seq<Moment>, from: nat, dst: Path, tmp: Path,
                       data: Bytes)
    requires IsTemp(dst, tmp) && SameButTemps(before, mid, dst)
    requires forall i | from <= i < |past| ::
               past[i].held == held && tmp in past[i].files && past[i].files == mid[tmp := past[i].files[tmp]]
    ensures AllStaging(past, from, before, held, dst, data)
  {
  }

  method MakeTempPath(disk: FileSystem, dst: Path) returns (tmp: Option<Path>)
    modifies disk`past, disk`faults
    ensures disk.past == old(disk.past) + [disk.Now()]
    ensures disk.faults >= old(disk.faults)
    ensures tmp.Some? ==> IsTemp(dst, tmp.value)
    ensures tmp.None? ==> disk.faults > old(disk.faults)
  {
    var ok := disk.Attempt();
    if ok {
      var random: string := *;
      tmp := Some(dst + ".tmp." + random);
    } else {
      tmp := None;
    }
  }

  /** Syncs, closes and sets the mode of the temporary file; the first failure ends it. */
  method Finish(disk: FileSystem) returns (ok: bool)
    modifies disk`past, disk`faults
    ensures old(disk.past) <= disk.past
    ensures forall i | |old(disk.past)| <= i < |disk.past| :: disk.past[i] == disk.Now()
    ensures disk.faults >= old(disk.faults)
    ensures !ok ==> disk.faults > old(disk.faults)
  {
    ok := disk.Attempt();  // fsync
    if ok { ok := disk.Attempt(); }  // close
    if ok { ok := disk.Attempt(); }  // chmod
  }

  /** Puts the data into a new temporary file, which a failure removes again. */
  method Stage(disk: FileSystem, dst: Path, tmp: Path, data: Bytes) returns (ok: bool)
    requires IsTemp(dst, tmp)
    modifies disk`files, disk`past, disk`faults
    ensures old(disk.past) <= disk.past
    ensures AllStaging(disk.past, |old(disk.past)|, old(disk.files), disk.held, dst, data)
    ensures disk.faults >= old(disk.faults)
    ensures ok ==> tmp !in old(disk.files) && disk.files == old(disk.files)[tmp := data]
    ensures !ok ==> SameButTemps(old(disk.files), disk.files, dst) && disk.faults > old(disk.faults)
  {
    ghost var before := disk.files;
    ok := disk.CreateNew(tmp);
    if !ok { return; }
    TempTouched(before, before, disk.files, dst, tmp);
    ghost var mid, from := disk.files, |disk.past|;
    ok := disk.Write(tmp, data);
    MomentsTouched(before, mid, disk.held, disk.past, from, dst, tmp, data);
    TempTouched(before, mid, disk.files, dst, tmp);
    if ok { ok := Finish(disk); }
    if !ok {
      ghost var staged := disk.files;
      disk.Remove(tmp);
      if disk.files != staged { TempTouched(before, staged, disk.files, dst, tmp); }
    }
  }

  /** Writes a sibling temporary file and renames it into place. A failure leaves `dst` as it
      was; success replaces it and leaves nothing behind. */
  method AtomicWrite(disk: FileSystem, dst: Path, data: Bytes) returns (ok: bool)
    modifies disk`files, disk`past, disk`faults
    ensures old(disk.past) <= disk.past
    ensures AllStaging(disk.past, |old(disk.past)|, old(disk.files), disk.held, dst, data)
    ensures disk.faults >= old(disk.faults)
    ensures ok ==> disk.files == old(disk.files)[dst := data]
    ensures !ok ==> SameButTemps(old(disk.files), disk.files, dst) && disk.faults > old(disk.faults)
  {
    ghost var before := disk.files;
    ok := disk.Attempt();  // the parent directory
    if !ok { return; }
    var alloc := MakeTempPath(disk, dst);
    if alloc.None? { return false; }
    var tmp := alloc.value;
    ok := Stage(disk, dst, tmp, data);
    if !ok { return; }
    ghost var staged := disk.files;
    TempTouched(before, before, staged, dst, tmp);
    ok := disk.Rename(tmp, dst);
    if !ok {
      disk.Remove(tmp);
      if disk.files != staged { TempTouched(before, staged, disk.files, dst, tmp); }
      return;
    }
    assert disk.files == before[dst := data];
    var synced := disk.Attempt();  // fsync of the directory, best effort
  }

  // ------------------------------------------------------------ the apply path

  /** The credentials file, the backup it may get, what it held at the start and what a push
      wants it to hold. */
  datatype Job = Job(path: Path, bak: Path, start: Files, want: Fingerprint, raw: Bytes) {
    function Original(): Option<Bytes> {
      At(start, path)
    }
  }

  ghost predicate IsJob(j: Job) {
    IsBackup(j.path, j.bak)
  }

  /** Nothing but the file, its backup and their temporary files has changed. */
  ghost predicate Untouched(j: Job, files: Files) {
    forall p: Path | p != j.path && p != j.bak && !IsTemp(j.path, p) && !IsTemp(j.bak, p) ::
      At(files, p) == At(j.start, p)
  }

  /** At every moment the file holds its original contents or the complete pushed bytes, and
      it changes only under the lock. Once there is a backup, the original contents are in
      the file or in the backup, unless what was pushed is what was wanted. */
  ghost predicate Safe(j: Job, backedUp: bool, m: Moment) {
    && Untouched(j, m.files)
    && (m.held || m.files == j.start)
    && (At(m.files, j.path) == j.Original() || At(m.files, j.path) == Some(j.raw))
    && (backedUp ==>
          At(m.files, j.path) == j.Original() || At(m.files, j.bak) == j.Original() || Sha256(j.raw) == j.want)
  }

  ghost predicate AllSafe(j: Job, backedUp: bool, past: seq<Moment>, from: nat) {
    forall i | from <= i < |past| :: Safe(j, backedUp, past[i])
  }

  /** The file still holds its original contents. */
  ghost predicate Unspoilt(j: Job, files: Files) {
    Untouched(j, files) && At(files, j.path) == j.Original()
  }

  /** The backup holds them, whatever the file holds. */
  ghost predicate Backed(j: Job, files: Files) {
    && Untouched(j, files) && At(files, j.bak) == j.Original()
    && (At(files, j.path) == j.Original() || At(files, j.path) == Some(j.raw))
  }

  /** Taking the backup. */
  lemma BackupStaged(j: Job, before: Files, m: Moment, data: Bytes)
    requires IsJob(j) && Unspoilt(j, before) && Staging(before, true, m, j.bak, data)
    ensures Unspoilt(j, m.files) && Safe(j, true, m) && Safe(j, false, m)
  {
  }

  /** Writing the pushed bytes, or the original ones back. */
  lemma FileStaged(j: Job, backedUp: bool, before: Files, m: Moment, data: Bytes)
    requires IsJob(j) && Staging(before, true, m, j.path, data)
    requires Untouched(j, before) && (At(before, j.path) == j.Original() || At(before, j.path) == Some(j.raw))
    requires backedUp ==> At(before, j.bak) == j.Original()
    requires data == j.raw || j.Original() == Some(data)
    ensures Safe(j, backedUp, m)
    ensures backedUp ==> Backed(j, m.files)
  {
    Siblings(j.path, j.bak);
  }

  method ReadWithBackup(disk: FileSystem, ghost j: Job, dst: Path, stamp: string) returns (bak: Option<Path>)
    requires IsJob(j) && j.path == dst && j.bak == dst + ".bak." + stamp
    requires disk.held && Unspoilt(j, disk.files)
    modifies disk`files, disk`past, disk`faults
    ensures old(disk.past) <= disk.past
    ensures AllSafe(j, true, disk.past, |old(disk.past)|) && AllSafe(j, false, disk.past, |old(disk.past)|)
    ensures disk.faults >= old(disk.faults)
    ensures bak.Some? ==>
              j.Original().Some? && bak.value == j.bak
              && disk.files == old(disk.files)[j.bak := j.Original().value]
    ensures bak.None? ==> Unspoilt(j, disk.files)
    ensures bak.None? && dst in old(disk.files) ==> disk.faults > old(disk.faults)
  {
    var data := disk.ReadFile(dst);
    if data.None? { return None; }
    ghost var from, before := |disk.past|, disk.files;
    var path := dst + ".bak." + stamp;
    var ok := AtomicWrite(disk, path, data.value);
    Siblings(dst, path);
    forall i | from <= i < |disk.past|
      ensures Safe(j, true, disk.past[i]) && Safe(j, false, disk.past[i])
    {
      BackupStaged(j, before, disk.past[i], data.value);
    }
    return if ok then Some(path) else None;
  }

  method RestoreBackup(disk: FileSystem, ghost j: Job, bak: Path, dst: Path) returns (ok: bool)
    requires IsJob(j) && j.path == dst && j.bak == bak && j.Original().Some?
    requires disk.held && Backed(j, disk.files)
    modifies disk`files, disk`past, disk`faults
    ensures old(disk.past) <= disk.past
    ensures AllSafe(j, true, disk.past, |old(disk.past)|)
    ensures disk.faults >= old(disk.faults)
    ensures ok ==> Unspoilt(j, disk.files)
    ensures !ok ==>
              Backed(j, disk.files) && At(disk.files, dst) == At(old(disk.files), dst)
              && disk.faults > old(disk.faults)
    ensures disk.faults == old(disk.faults) ==>
              disk.files == old(disk.files)[dst := j.Original().value] - {bak}
  {
    var data := disk.ReadFile(bak);
    if data.None? { return false; }
    ghost var from, before := |disk.past|, disk.files;
    ok := AtomicWrite(disk, dst, data.value);
    Siblings(dst, bak);
    FileStaged(j, true, before, disk.Now(), data.value);
    forall i | from <= i < |disk.past|
      ensures Safe(j, true, disk.past[i])
    {
      FileStaged(j, true, before, disk.past[i], data.value);
    }
    if ok { disk.Remove(bak); }
  }

  /** How an apply ended: whether it took a backup, whether it put the pushed bytes in place,
      and whether a failed one put the original ones back. */
  datatype Ending = Ending(backedUp: bool, wrote: bool, restored: bool)

  /** What an apply promises about its last state: success means the wanted contents; failure
      the original ones, unless it wrote and either had no backup or could not restore it. */
  ghost predicate Ended(j: Job, end: Ending, ok: bool, faulty: bool, files: Files) {
    && Untouched(j, files)
    && (end.backedUp ==> j.Original().Some?)
    && (ok ==> At(files, j.path).Some? && Sha256(At(files, j.path).value) == j.want)
    && (!ok ==> At(files, j.path) == if end.wrote && !(end.backedUp && end.restored) then Some(j.raw) else j.Original())
    && (!ok && end.backedUp && !end.restored ==> At(files, j.bak) == j.Original() && faulty)
    && (!faulty ==>
          Clean(j, files) && Applied(At(files, j.path), end.wrote, ok) == Apply(j.Original(), j.want, Text(j.raw)))
  }

  /** No backup and no temporary file is left. */
  ghost predicate Clean(j: Job, files: Files) {
    && (forall p: Path | p != j.path && p != j.bak :: At(files, p) == At(j.start, p))
    && (j.bak in files ==> j.bak in j.start)
  }

  /** Writes the pushed bytes and reads them back. */
  method WriteAndVerify(disk: FileSystem, ghost j: Job, ghost backedUp: bool, want: Fingerprint, raw: Bytes, path: Path)
    returns (ok: bool, ghost wrote: bool)
    requires IsJob(j) && j.path == path && j.raw == raw && j.want == want
    requires disk.held && Unspoilt(j, disk.files) && (backedUp ==> At(disk.files, j.bak) == j.Original())
    modifies disk`files, disk`past, disk`faults
    ensures old(disk.past) <= disk.past && disk.faults >= old(disk.faults)
    ensures AllSafe(j, backedUp, disk.past, |old(disk.past)|)
    ensures backedUp ==> Backed(j, disk.files)
    ensures if wrote then disk.files == old(disk.files)[path := raw] else Unspoilt(j, disk.files)
    ensures ok ==> wrote && Sha256(raw) == want
    ensures disk.faults == old(disk.faults) ==> wrote && ok == (Sha256(raw) == want)
  {
    ghost var from, before := |disk.past|, disk.files;
    ok := AtomicWrite(disk, path, raw);
    Siblings(path, j.bak);
    FileStaged(j, backedUp, before, disk.Now(), raw);
    forall i | from <= i < |disk.past|
      ensures Safe(j, backedUp, disk.past[i])
    {
      FileStaged(j, backedUp, before, disk.past[i], raw);
    }
    wrote := ok;
    if ok {
      var got := disk.ReadFile(path);
      ok := got.Some? && Sha256(got.value) == want;
    }
  }

  /** Discards the backup, or puts it back. */
  method Settle(disk: FileSystem, ghost j: Job, ok: bool, bak: Path, path: Path) returns (ghost restored: bool)
    requires IsJob(j) && j.path == path && j.bak == bak && j.Original().Some?
    requires disk.held && Backed(j, disk.files)
    requires ok ==> At(disk.files, path) == Some(j.raw) && Sha256(j.raw) == j.want
    modifies disk`files, disk`past, disk`faults
    ensures old(disk.past) <= disk.past && disk.faults >= old(disk.faults)
    ensures AllSafe(j, true, disk.past, |old(disk.past)|)
    ensures ok ==> Untouched(j, disk.files) && At(disk.files, path) == Some(j.raw)
    ensures !ok && restored ==> Unspoilt(j, disk.files)
    ensures !ok && !restored ==>
              Backed(j, disk.files) && At(disk.files, path) == At(old(disk.files), path)
              && disk.faults > old(disk.faults)
    ensures disk.faults == old(disk.faults) ==>
              restored && disk.files == (if ok then old(disk.files)
                                         else old(disk.files)[path := j.Original().value]) - {bak}
  {
    Siblings(path, bak);
    if ok {
      disk.Remove(bak);
      restored := true;
    } else {
      var done := RestoreBackup(disk, j, bak, path);
      restored := done;
    }
  }

  /** The outcome when no operation fails. */
  lemma Undisturbed(j: Job, ok: bool, files: Files)
    requires IsJob(j) && ok == (Sha256(j.raw) == j.want)
    requires j.Original().Some? ==> Sha256(j.Original().value) != j.want
    requires files == match j.Original()
                      case None => j.start[j.path := j.raw]
                      case Some(old_) =>
                        (if ok then j.start[j.bak := old_][j.path := j.raw]
                         else j.start[j.bak := old_][j.path := j.raw][j.path := old_]) - {j.bak}
    ensures Clean(j, files) && Applied(At(files, j.path), true, ok) == Apply(j.Original(), j.want, Text(j.raw))
  {
  }

  /** From the backup to the verification, with the lock held. */
  method Replace(disk: FileSystem, ghost j: Job, ghost faulty: bool, want: Fingerprint, raw: Bytes, path: Path,
                 stamp: string)
    returns (ok: bool, ghost end: Ending)
    requires j == Job(path, path + ".bak." + stamp, disk.files, want, raw)
    requires disk.held && (faulty || j.Original().None? || Sha256(j.Original().value) != want)
    modifies disk`files, disk`past, disk`faults
    ensures old(disk.past) <= disk.past && disk.faults >= old(disk.faults)
    ensures AllSafe(j, end.backedUp, disk.past, |old(disk.past)|) && Safe(j, end.backedUp, disk.Now())
    ensures Ended(j, end, ok, faulty || disk.faults > old(disk.faults), disk.files)
  {
    end := Ending(false, false, true);
    var backup: Option<Path> := None;
    var exists_ := disk.Exists(path);
    if exists_ {
      backup := ReadWithBackup(disk, j, path, stamp);
      if backup.None? { return false, end; }
      end := end.(backedUp := true);
    }
    ghost var wrote;
    ok, wrote := WriteAndVerify(disk, j, end.backedUp, want, raw, path);
    end := end.(wrote := wrote);
    if backup.Some? {
      ghost var restored := Settle(disk, j, ok, backup.value, path);
      end := end.(restored := restored);
    }
    if !faulty && disk.faults == old(disk.faults) { Undisturbed(j, ok, disk.files); }
  }

  /** These attempts ended with the lock, or with a broken one, a cancelled session, or the third
      timeout; a timeout is all that leads to another attempt. */
  predicate TriesEnd(tries: seq<LockOutcome>, ok: bool, cancelled: bool) {
    && 1 <= |tries| <= 3
    && (forall i | 0 <= i < |tries| - 1 :: tries[i] == TimedOut)
    && ok == (tries[|tries| - 1] == Acquired)
    && (!ok ==> |tries| == 3 || tries[|tries| - 1] == Broken || cancelled)
  }

  /** Tries for the lock until it has it, it breaks, the session ends, or the attempts are
      used up. */
  method LockFile(disk: FileSystem) returns (ok: bool, ghost cancelled: bool)
    requires !disk.held
    modifies disk`held, disk`past, disk`faults, disk`tries
    ensures old(disk.tries) <= disk.tries
    ensures TriesEnd(disk.tries[|old(disk.tries)|..], ok, cancelled)
    ensures old(disk.past) <= disk.past && disk.faults >= old(disk.faults)
    ensures forall i | |old(disk.past)| <= i < |disk.past| :: disk.past[i].files == disk.files
    ensures |disk.past| - |old(disk.past)| == |disk.tries| - |old(disk.tries)|
    ensures disk.held == ok
    ensures !ok ==> disk.faults > old(disk.faults)
  {
    var attempt := 0;
    ok, cancelled := false, false;
    while attempt < LOCK_RETRY_MAX && !ok
      invariant old(disk.past) <= disk.past && disk.faults >= old(disk.faults)
      invariant forall i | |old(disk.past)| <= i < |disk.past| :: disk.past[i].files == disk.files
      invariant |disk.past| == |old(disk.past)| + attempt && attempt <= LOCK_RETRY_MAX
      invariant old(disk.tries) <= disk.tries && |disk.tries| == |old(disk.tries)| + attempt
      invariant forall i | |old(disk.tries)| <= i < |disk.tries| - 1 :: disk.tries[i] == TimedOut
      invariant attempt > 0 ==> disk.tries[|disk.tries| - 1] == if ok then Acquired else TimedOut
      invariant disk.held == ok && (ok ==> attempt > 0)
      invariant !ok && attempt > 0 ==> disk.faults > old(disk.faults)
    {
      var outcome := disk.Lock();
      ok := outcome.Acquired?;
      if outcome.Broken? { return; }
      var done: bool := *;
      if !ok && done {
        cancelled := true;
        return;
      }
      attempt := attempt + 1;
    }
  }

  /** The whole apply of one push to one path. A run that stops at any of the moments that
      `past` records is safe; the last of them already shows the final files. */
  method WriteOne(disk: FileSystem, want: Fingerprint, raw: Bytes, path: Path, stamp: string)
    returns (ok: bool, ghost end: Ending)
    requires !disk.held
    modifies disk
    ensures !disk.held
    ensures old(disk.past) < disk.past && disk.past[|disk.past| - 1].files == disk.files
    ensures var j := Job(path, path + ".bak." + stamp, old(disk.files), want, raw);
            && AllSafe(j, end.backedUp, disk.past, |old(disk.past)|)
            && Ended(j, end, ok, disk.faults > old(disk.faults), disk.files)
  {
    ghost var j := Job(path, path + ".bak." + stamp, disk.files, want, raw);
    end := Ending(false, false, true);
    var cur := disk.ReadFile(path);
    if cur.Some? && Sha256(cur.value) == want { return true, end; }
    var locked;
    ghost var cancelled;
    locked, cancelled := LockFile(disk);
    if !locked { return false, end; }
    ok, end := Replace(disk, j, disk.faults > old(disk.faults), want, raw, path, stamp);
    disk.Unlock();
  }

  /** The reply to a push. */
  datatype TruthAck = TruthAck(profile: string, account: Account, fingerprint: Fingerprint, ok: bool)

  /** Applies a push to the node's configured file. The ack names no account, whatever account
      the push was for. */
  method ApplyTruth(disk: FileSystem, push: Push, candidatePath: Path, stamp: string)
    returns (ack: TruthAck, ghost end: Ending)
    requires !disk.held
    modifies disk
    ensures !disk.held
    ensures ack == TruthAck(push.profile, "", push.fingerprint, ack.ok)
    ensures Decoded(push.rawB64).None? || candidatePath == ""
            ==> !ack.ok && disk.files == old(disk.files) && disk.past == old(disk.past)
    ensures Decoded(push.rawB64).Some? && candidatePath != "" ==>
              var j := Job(candidatePath, candidatePath + ".bak." + stamp, old(disk.files), push.fingerprint,
                           Decoded(push.rawB64).value);
              && old(disk.past) < disk.past && disk.past[|disk.past| - 1].files == disk.files
              && AllSafe(j, end.backedUp, disk.past, |old(disk.past)|)
              && Ended(j, end, ack.ok, disk.faults > old(disk.faults), disk.files)
    ensures candidatePath != "" && disk.faults == old(disk.faults) ==>
              Applied(At(disk.files, candidatePath), end.wrote, ack.ok)
              == Apply(At(old(disk.files), candidatePath), push.fingerprint, push.rawB64)
  {
    end := Ending(false, false, true);
    var raw := Decoded(push.rawB64);
    if raw.None? { return TruthAck(push.profile, "", push.fingerprint, false), end; }
    var target := candidatePath;
    if push.targetPath == candidatePath { target := push.targetPath; }
    if target == "" { return TruthAck(push.profile, "", push.fingerprint, false), end; }
    var ok;
    ok, end := WriteOne(disk, push.fingerprint, raw.value, target, stamp);
    ack := TruthAck(push.profile, "", push.fingerprint, ok);
  }
}
