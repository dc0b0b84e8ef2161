/** Who owns the bytes: the buffer decoded from a report is overwritten with zeros when the
    handler returns, and neither the stored snapshot nor anything pushed later notices. */
module SnapshotBytes {
  import opened Formats
  import opened MediatorSpec
  import opened MediatorRuns

  /** A parsed credential file with its own copy of the bytes. */
  class ParsedFile {
    const raw: array<Byte>
    const times: Times
    const fingerprint: Fingerprint

    ghost predicate Valid()
      reads this, raw
    {
      fingerprint == Sha256(raw[..])
    }

    constructor (raw: array<Byte>, times: Times)
      ensures fresh(this.raw) && this.raw[..] == raw[..]
      ensures this.times == times && Valid()
    {
      var own := CopyOf(raw);
      this.raw, this.times, this.fingerprint := own, times, Sha256(own[..]);
    }

    /** The bytes, in a buffer the caller may overwrite. */
    method Raw() returns (out: array<Byte>)
      ensures fresh(out) && out[..] == raw[..]
    {
      out := CopyOf(raw);
    }
  }

  method CopyOf(src: array<Byte>) returns (dst: array<Byte>)
    ensures fresh(dst) && dst[..] == src[..]
  {
    dst := new Byte[src.Length](_ => 0);
    for i := 0 to src.Length
      invariant dst[..i] == src[..i]
    {
      dst[i] := src[i];
    }
  }

  method Zeroize(b: array<Byte>)
    modifies b
    ensures forall i | 0 <= i < b.Length :: b[i] == 0
  {
    for i := 0 to b.Length
      invariant forall j | 0 <= j < i :: b[j] == 0
    {
      b[i] := 0;
    }
  }

  /** Parses a report's decoded buffer and, on the way out, zeroizes the buffer. */
  method ParseReport(p: Profile, buffer: array<Byte>) returns (file: Option<ParsedFile>)
    modifies buffer
    ensures forall i | 0 <= i < buffer.Length :: buffer[i] == 0
    ensures file.Some? <==> old(p.parse(buffer[..])).Some?
    ensures file.Some? ==>
              && fresh(file.value) && fresh(file.value.raw) && file.value.Valid()
              && file.value.raw[..] == old(buffer[..])
              && Some(file.value.times) == old(p.parse(buffer[..]))
  {
    var parsed := p.parse(buffer[..]);
    if parsed.None? {
      file := None;
    } else {
      var f := new ParsedFile(buffer, parsed.value);
      file := Some(f);
    }
    Zeroize(buffer);
  }

  /** Encodes the truth's bytes for the wire, from a copy that the snapshot does not share. */
  method EncodeTruth(file: ParsedFile) returns (b64: Base64)
    requires file.Valid()
    ensures b64 == Text(file.raw[..]) && Sha256(b64.bytes) == file.fingerprint
  {
    var copy := file.Raw();
    b64 := Text(copy[..]);
  }

  /** The buffer that base64 decoding allocates. */
  method Decode(bytes: Bytes) returns (buffer: array<Byte>)
    ensures fresh(buffer) && buffer[..] == bytes
  {
    buffer := new Byte[|bytes|](i requires 0 <= i < |bytes| => bytes[i]);
  }

  /** The snapshots that the mediator holds on to, one per node, in the heap. */
  class SnapshotStore {
    const profile: Profile
    var files: map<NodeId, ParsedFile>
    /** The bytes that each of these nodes reported. */
    ghost var reported: map<NodeId, Bytes>

    ghost function Arrays(): set<object>
      reads this
    {
      set n | n in files :: files[n].raw
    }

    /** Every stored buffer still holds what was reported, and its fingerprint is the hash. */
    ghost predicate Valid()
      reads this, Arrays()
    {
      && files.Keys == reported.Keys
      && forall n <- files :: files[n].raw[..] == reported[n] && files[n].fingerprint == Sha256(reported[n])
    }

    constructor (profile: Profile)
      ensures Valid() && this.profile == profile && reported == map[]
    {
      this.profile := profile;
      files, reported := map[], map[];
    }

    /** Handles one message. A report's buffer is allocated, parsed and zeroized. */
    method Handle(m: Message)
      requires Valid()
      modifies this
      ensures Valid() && reported == Stored(profile, old(reported), m)
    {
      match m
      case Report(n, _, _, b64, _, _) =>
        if b64 != Garbled && b64 != Text([]) {
          var buffer := Decode(Decoded(b64).value);
          var parsed := ParseReport(profile, buffer);
          if parsed.Some? {
            files, reported := files[n := parsed.value], reported[n := Decoded(b64).value];
          } else {
            files, reported := files - {n}, reported - {n};
          }
        }
      case Absent(n, _) => files, reported := files - {n}, reported - {n};
      case Ack(_, _, _, _) =>
      case Disconnect(n) => files, reported := files - {n}, reported - {n};
    }

    /** Over any run the buffers hold the bytes last reported, however many buffers have been
        overwritten since. */
    method Run(messages: seq<Message>)
      requires Valid() && reported == map[]
      modifies this
      ensures Valid() && reported == StoredAfter(profile, messages)
    {
      for i := 0 to |messages|
        invariant Valid() && reported == StoredAfter(profile, messages[..i])
      {
        Handle(messages[i]);
        assert messages[..i + 1][..i] == messages[..i];
      }
      assert messages[..|messages|] == messages;
    }
  }

  /** What one message does to the reported bytes that the mediator keeps. */
  function Stored(p: Profile, kept: map<NodeId, Bytes>, m: Message): map<NodeId, Bytes> {
    match m
    case Report(n, _, _, b64, _, _) =>
      if b64 == Garbled || b64 == Text([]) then kept
      else if p.parse(Decoded(b64).value).Some? then kept[n := Decoded(b64).value]
      else kept - {n}
    case Absent(n, _) => kept - {n}
    case Ack(_, _, _, _) => kept
    case Disconnect(n) => kept - {n}
  }

  function StoredAfter(p: Profile, messages: seq<Message>): map<NodeId, Bytes> {
    if messages == [] then map[]
    else Stored(p, StoredAfter(p, messages[..|messages| - 1]), messages[|messages| - 1])
  }

  /** The candidates with a snapshot, and its bytes. */
  function Snapshots(cands: map<NodeId, Candidate>): map<NodeId, Bytes> {
    map n | n in cands && cands[n].snap.Some? :: cands[n].snap.value.raw
  }

  /** In every state of every run of the actor, these are the bytes of its candidates: the
      heap and the model on values agree. */
  lemma {:induction false} StoreMatchesRun(p: Profile, states: seq<State>, messages: seq<Message>, i: nat)
    requires IsRun(p, states, messages) && i <= |messages|
    ensures Snapshots(states[i].candidates) == StoredAfter(p, messages[..i])
    decreases i
  {
    if i > 0 {
      StoreMatchesRun(p, states, messages, i - 1);
      assert messages[..i][..i - 1] == messages[..i - 1];
      StepMatches(p, states[i - 1], messages[i - 1], states[i]);
    }
  }

  lemma StepMatches(p: Profile, s: State, m: Message, s': State)
    requires Next(p, s, m, s')
    ensures Snapshots(s'.candidates) == Stored(p, Snapshots(s.candidates), m)
  {
    match m
    case Report(_, _, _, _, _, _) => ReportMatches(p, s, m, s');
    case Absent(n, a) => OneReplaced(s.candidates, n, Missing(a));
    case Ack(n, _, _, _) => OneReplaced(s.candidates, n, AckedCandidate(s.candidates, m));
    case Disconnect(n) => assert Snapshots(s.candidates - {n}) == Snapshots(s.candidates) - {n};
  }

  lemma ReportMatches(p: Profile, s: State, m: Message, s': State)
    requires m.Report? && ReportStep(p, s, m, s')
    ensures Snapshots(s'.candidates) == Stored(p, Snapshots(s.candidates), m)
  {
    if m.rawB64 != Garbled && m.rawB64 != Text([]) {
      assert s'.candidates == s.candidates[m.node := s'.candidates[m.node]];
      OneReplaced(s.candidates, m.node, s'.candidates[m.node]);
    }
  }

  lemma OneReplaced(cands: map<NodeId, Candidate>, n: NodeId, c: Candidate)
    ensures Snapshots(cands[n := c]) ==
            if c.snap.Some? then Snapshots(cands)[n := c.snap.value.raw] else Snapshots(cands) - {n}
  {
  }
}
