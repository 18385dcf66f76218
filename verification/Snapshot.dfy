/** Snapshot files: a header and the concatenated segments (pkg/wal/snapshot.go). */
module Snapshot {
  import opened Bits
  import opened Wrappers
  import opened Record
  import opened Segment
  import opened LogState
  import opened Recovery

  /** "NILE" */
  const SNAPSHOT_MAGIC: seq<byte> := [0x4E, 0x49, 0x4C, 0x45]
  const SNAPSHOT_VERSION := 1
  const SNAPSHOT_HEADER_SIZE := 8

  function Header(): (h: seq<byte>)
    ensures |h| == SNAPSHOT_HEADER_SIZE
  {
    SNAPSHOT_MAGIC + LittleEndian(SNAPSHOT_VERSION, 4)
  }

  /** The version of a snapshot, or none if it is too short or does not start with the magic. */
  function HeaderVersion(bytes: seq<byte>): Option<nat> {
    if |bytes| < SNAPSHOT_HEADER_SIZE || bytes[..4] != SNAPSHOT_MAGIC then None
    else Some(FromLittleEndian(bytes[4..8]))
  }

  method ReadSnapshotHeader(r: Reader) returns (version: Option<nat>)
    requires r.Valid()
    modifies r
    ensures r.Valid()
    ensures version == HeaderVersion(old(r.Rest()))
    ensures version.Some? ==> r.Rest() == old(r.Rest())[SNAPSHOT_HEADER_SIZE..]
  {
    var hdr, err := r.ReadFull(SNAPSHOT_HEADER_SIZE);
    if err.Some? || hdr[0..4] != SNAPSHOT_MAGIC {
      assert err == None ==> hdr[0..4] == old(r.Rest())[..4];
      return None;
    }
    assert hdr[0..4] == old(r.Rest())[..4] && hdr[4..8] == old(r.Rest())[4..8];
    return Some(FromLittleEndian(hdr[4..8]));
  }

  /** The whole files of the given segments, one after the other. */
  function Body(files: Files, segments: seq<Seg>): seq<byte>
    requires forall s :: s in segments ==> s.base in files
  {
    if |segments| == 0 then [] else Body(files, Front(segments)) + files[Last(segments).base]
  }

  function Contents(files: Files, segments: seq<Seg>): seq<byte>
    requires forall s :: s in segments ==> s.base in files
  {
    Header() + Body(files, segments)
  }

  lemma {:induction false} BodyOf(files: Files, segments: seq<Seg>, l: Layout)
    requires |segments| == |l|
    requires forall i :: 0 <= i < |l| ==> segments[i].base in files && files[segments[i].base] == EncodeAll(l[i].msgs)
    ensures Body(files, segments) == EncodeAll(Messages(l))
  {
    hide EncodeAll;
    EmptyFile();
    if |l| > 0 {
      BodyOf(files, Front(segments), Front(l));
      EncodeAllConcat(Messages(Front(l)), Last(l).msgs);
    }
  }

  /** A version is read exactly from bytes that begin with "NILE" and four more, the lowest first. */
  lemma VersionExactly(bytes: seq<byte>, version: nat)
    ensures HeaderVersion(bytes) == Some(version) <==>
            && |bytes| >= 8 && bytes[..4] == [0x4E, 0x49, 0x4C, 0x45]
            && version == Number(bytes[4], bytes[5], bytes[6], bytes[7])
  {
    if |bytes| >= 8 {
      FourOf(bytes[4..8]);
    }
  }

  /** The header is "NILE" and the version 1 in four bytes, the lowest first. */
  lemma HeaderIs()
    ensures Header() == [0x4E, 0x49, 0x4C, 0x45, 1, 0, 0, 0]
  {
    assert LittleEndian(1, 4) == [1, 0, 0, 0];
  }

  lemma HeaderReads(rest: seq<byte>)
    ensures HeaderVersion(Header() + rest) == Some(SNAPSHOT_VERSION)
    ensures (Header() + rest)[SNAPSHOT_HEADER_SIZE..] == rest
  {
    FourBytes(SNAPSHOT_VERSION);
    var b := Header() + rest;
    assert b[..4] == SNAPSHOT_MAGIC && b[4..8] == LittleEndian(SNAPSHOT_VERSION, 4);
  }

  /** Reading a snapshot back gives the version, and in order all messages of the segments it was
      made of, the first ones of the log: of the whole log if these are all its segments. */
  lemma SnapshotRoundTrip(l: Layout, segments: seq<Seg>)
    requires WellFormed(l) && |segments| <= |l|
    requires forall i :: 0 <= i < |segments| ==> segments[i].base == l[i].base
    ensures forall s :: s in segments ==> s.base in FilesOf(l)
    ensures var bytes := Contents(FilesOf(l), segments);
            && HeaderVersion(bytes) == Some(SNAPSHOT_VERSION)
            && ReadAll(bytes[SNAPSHOT_HEADER_SIZE..]) == ReadResult(Messages(l[..|segments|]), None)
    ensures Messages(l[..|segments|]) <= Messages(l)
    ensures |segments| == |l| ==> Messages(l[..|segments|]) == Messages(l)
  {
    hide EncodeAll, FilesOf, WellFormed, ReadAll, HeaderVersion, Messages, Body;
    var k := l[..|segments|];
    SegmentsOnDisk(l, segments);
    BodyOf(FilesOf(l), segments, k);
    HeaderReads(Body(FilesOf(l), segments));
    MessagesOfPrefix(l, |segments|);
    MessagesFit(k);
    ReadEncoded(Messages(k));
    assert |segments| == |l| ==> k == l;
  }

  lemma SegmentsOnDisk(l: Layout, segments: seq<Seg>)
    requires WellFormed(l) && |segments| <= |l|
    requires forall i :: 0 <= i < |segments| ==> segments[i].base == l[i].base
    ensures forall i :: 0 <= i < |segments| ==>
              segments[i].base in FilesOf(l) && FilesOf(l)[segments[i].base] == EncodeAll(l[i].msgs)
  {
    hide EncodeAll, FilesOf, WellFormed;
    forall i | 0 <= i < |segments|
      ensures segments[i].base in FilesOf(l) && FilesOf(l)[segments[i].base] == EncodeAll(l[i].msgs)
    {
      FileAt(l, i);
    }
  }

  lemma {:induction false} MessagesFit(l: Layout)
    requires WellFormed(l)
    ensures AllFit(Messages(l))
  {
    if |l| > 0 {
      MessagesFit(Front(l));
    }
  }
}
