/** The file system as the apply path uses it. Every operation can fail, and the disk keeps
    every state it has been in, so a crash is a stop at any of them. */
module Disk {
  import opened Formats

  type Path = string
  type Files = map<Path, Bytes>

  /** What an observer sees between two operations. */
  datatype Moment = Moment(files: Files, held: bool)

  datatype LockOutcome = Acquired | TimedOut | Broken

  function At(files: Files, p: Path): Option<Bytes> {
    if p in files then Some(files[p]) else None
  }

  class FileSystem {
    var files: Files
    /** Whether this process holds the advisory lock of the file it is applying to. */
    var held: bool
    ghost var past: seq<Moment>
    /** How many operations failed that could have succeeded, a temporary name that was
        already taken included. */
    ghost var faults: nat
    /** How each attempt to take the lock went. */
    ghost var tries: seq<LockOutcome>

    ghost function Now(): Moment
      reads this`files, this`held
    {
      Moment(files, held)
    }

    /** Whether an operation goes through. */
    method Attempt() returns (ok: bool)
      modifies this`past, this`faults
      ensures past == old(past) + [Now()]
      ensures faults == if ok then old(faults) else old(faults) + 1
    {
      ok := *;
      past := past + [Now()];
      if !ok { faults := faults + 1; }
    }

    method ReadFile(p: Path) returns (data: Option<Bytes>)
      modifies this`past, this`faults
      ensures past == old(past) + [Now()]
      ensures faults >= old(faults)
      ensures data.Some? ==> At(files, p) == data
      ensures faults == old(faults) ==> data == At(files, p)
    {
      var ok := Attempt();
      data := if ok && p in files then Some(files[p]) else None;
    }

    /** A failing stat looks like a missing file. */
    method Exists(p: Path) returns (exists_: bool)
      modifies this`past, this`faults
      ensures past == old(past) + [Now()]
      ensures faults >= old(faults)
      ensures exists_ ==> p in files
      ensures faults == old(faults) ==> exists_ == (p in files)
    {
      var ok := Attempt();
      exists_ := ok && p in files;
    }

    /** Creates an empty file, and only if there is none. */
    method CreateNew(p: Path) returns (ok: bool)
      modifies this`files, this`past, this`faults
      ensures past == old(past) + [old(Now())]
      ensures faults >= old(faults)
      ensures ok ==> p !in old(files) && files == old(files)[p := []]
      ensures !ok ==> files == old(files) && faults > old(faults)
    {
      ok := Attempt();
      if ok && p in files {
        ok, faults := false, faults + 1;
      } else if ok {
        files := files[p := []];
      }
    }

    /** Writes to an open file. Some first part of the data is on disk before the rest, and
        it is all there is when the write fails. */
    method Write(p: Path, data: Bytes) returns (ok: bool)
      requires p in files
      modifies this`files, this`past, this`faults
      ensures |past| == |old(past)| + 2 && old(past) <= past
      ensures forall i | |old(past)| <= i < |past| ::
                past[i].held == held && p in past[i].files && past[i].files == old(files)[p := past[i].files[p]]
      ensures p in files && files == old(files)[p := files[p]]
      ensures faults >= old(faults)
      ensures ok ==> files[p] == data
      ensures !ok ==> faults > old(faults)
    {
      ok := Attempt();
      var k: nat :| k <= |data|;
      files := files[p := data[..k]];
      past := past + [Now()];
      if ok { files := files[p := data]; }
    }

    method Rename(src: Path, dst: Path) returns (ok: bool)
      requires src in files && src != dst
      modifies this`files, this`past, this`faults
      ensures past == old(past) + [old(Now())]
      ensures faults >= old(faults)
      ensures ok ==> files == (old(files) - {src})[dst := old(files)[src]]
      ensures !ok ==> files == old(files) && faults > old(faults)
    {
      ok := Attempt();
      if ok { files := (files - {src})[dst := files[src]]; }
    }

    /** Callers ignore whether a removal succeeds. */
    method Remove(p: Path)
      modifies this`files, this`past, this`faults
      ensures past == old(past) + [old(Now())]
      ensures faults >= old(faults)
      ensures files == old(files) - {p} || (files == old(files) && faults > old(faults))
    {
      var ok := Attempt();
      if ok { files := files - {p}; }
    }

    method Lock() returns (outcome: LockOutcome)
      requires !held
      modifies this`held, this`past, this`faults, this`tries
      ensures past == old(past) + [old(Now())] && tries == old(tries) + [outcome]
      ensures held == outcome.Acquired?
      ensures faults == if outcome.Acquired? then old(faults) else old(faults) + 1
    {
      var ok := Attempt();
      held := ok;
      if ok {
        outcome := Acquired;
      } else {
        var timeout: bool := *;
        outcome := if timeout then TimedOut else Broken;
      }
      tries := tries + [outcome];
    }

    method Unlock()
      modifies this`held, this`past
      ensures past == old(past) + [old(Now())] && !held
    {
      past := past + [Now()];
      held := false;
    }
  }
}
