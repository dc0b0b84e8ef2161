/** What applying a push does to a node's file when nothing interferes. */
module ApplySpec {
  import opened Formats
  import opened MediatorSpec

  /** The file afterwards, whether a write took place, and whether the ack is positive. */
  datatype Applied = Applied(file: Option<Bytes>, wrote: bool, ok: bool)

  function Apply(file: Option<Bytes>, fp: Fingerprint, b64: Base64): Applied {
    match Decoded(b64)
    case None => Applied(file, false, false)
    case Some(raw) =>
      if file.Some? && Sha256(file.value) == fp then Applied(file, false, true)
      else if Sha256(raw) == fp then Applied(Some(raw), true, true)
      else if file.Some? then Applied(file, true, false)  // the backup is restored
      else Applied(Some(raw), true, false)                // there is no backup
  }

  /** A failed apply leaves the file as it was exactly when there was a file, or the push did
      not decode: a file that the apply created is not removed. */
  lemma FailureKeepsFile(file: Option<Bytes>, fp: Fingerprint, b64: Base64)
    requires !Apply(file, fp, b64).ok
    ensures Apply(file, fp, b64).file == file <==> file.Some? || Decoded(b64).None?
  {
  }

  /** A positive ack means the wanted contents, and a second delivery then changes nothing. */
  lemma ApplyIsIdempotent(file: Option<Bytes>, fp: Fingerprint, b64: Base64)
    ensures Apply(file, fp, b64).ok <==>
              Decoded(b64).Some? && (Sha256(Decoded(b64).value) == fp || (file.Some? && Sha256(file.value) == fp))
    ensures Apply(file, fp, b64).ok ==>
              var after := Apply(file, fp, b64).file;
              after.Some? && Sha256(after.value) == fp && Apply(after, fp, b64) == Applied(after, false, true)
  {
  }

  /** What a file says about its freshness, if it can be read. */
  function SnapshotOf(p: Profile, file: Option<Bytes>): Option<Snapshot> {
    if file.Some? && p.parse(file.value).Some? then Some(Snapshot(p.parse(file.value).value, file.value)) else None
  }

  /** A readable file has become unreadable or older. */
  predicate Lowered(p: Profile, before: Option<Bytes>, after: Option<Bytes>) {
    var old_, new_ := SnapshotOf(p, before), SnapshotOf(p, after);
    old_.Some? && (new_.None? || Compare(p.format, new_.value, old_.value) < 0)
  }

  /** Applying compares fingerprints, not freshness: it makes a node's file older exactly when
      the push decodes to what its fingerprint names, the file holds something else, and the
      file is readable and fresher than the push, or the push cannot be read. */
  lemma ApplyLowersExactly(p: Profile, file: Option<Bytes>, fp: Fingerprint, b64: Base64)
    ensures Lowered(p, file, Apply(file, fp, b64).file) <==>
              && Decoded(b64).Some? && Sha256(Decoded(b64).value) == fp
              && SnapshotOf(p, file).Some? && Sha256(file.value) != fp
              && Lowered(p, file, Decoded(b64))
  {
  }

  /** Such an input: a push of an older truth, in flight when the node refreshed its file. */
  lemma StalePushExample()
    ensures var p := Profile("p", "f", Claude, "", 0, false, false,
                             (b: Bytes) => if b == [] then None else Some(Times(b[0] as int, 0)));
            Lowered(p, Some([2]), Apply(Some([2]), Sha256([1]), Text([1])).file)
  {
  }
}
