/** Cache entries as responses carry them: metadata followed by the value. */
module Entries {
  import opened Bytes
  import opened Codec

  /** A start time and a duration that are sent together or not at all: `created` with
      `lifespan`, and `lastUsed` with `maxIdle`. */
  datatype Timed = Timed(since: int64, seconds: uint32)

  datatype Metadata = Metadata(lifespan: Option<Timed>, idle: Option<Timed>, version: int64)

  datatype Entry = Entry(metadata: Metadata, value: Blob)

  function EncodeTimed(t: Option<Timed>): Blob {
    match t
    case None => []
    case Some(Timed(since, seconds)) => EncodeLong(since) + EncodeVar(seconds)
  }

  /** Bit 0 says that there is no lifespan, bit 1 that there is no maximum idle time. */
  function Flag(m: Metadata): byte {
    (if m.lifespan.None? then 1 else 0) + (if m.idle.None? then 2 else 0)
  }

  function EncodeMetadata(m: Metadata): Blob {
    [Flag(m)] + EncodeTimed(m.lifespan) + EncodeTimed(m.idle) + EncodeLong(m.version)
  }

  function ReadTimed(s: Blob, present: bool): Parse<Option<Timed>> {
    if !present then Ok(None, s)
    else
      var (since, s1) :- ReadLong(s);
      var (seconds, s2) :- ReadVar(s1, W32);
      Ok(Some(Timed(since, seconds)), s2)
  }

  function ReadMetadata(s: Blob): Parse<Metadata> {
    var (flag, s0) :- ReadByte(s);
    var (lifespan, s1) :- ReadTimed(s0, flag % 2 == 0);
    var (idle, s2) :- ReadTimed(s1, flag / 2 % 2 == 0);
    var (version, s3) :- ReadLong(s2);
    Ok(Metadata(lifespan, idle, version), s3)
  }

  function EncodeEntry(e: Entry): Blob { EncodeMetadata(e.metadata) + EncodeBlob(e.value) }

  function ReadEntry(s: Blob): Parse<Entry> {
    var (metadata, s1) :- ReadMetadata(s);
    var (value, s2) :- ReadBlob(s1);
    Ok(Entry(metadata, value), s2)
  }

  lemma ReadWrittenTimed(t: Option<Timed>, rest: Blob)
    ensures ReadTimed(EncodeTimed(t) + rest, t.Some?) == Ok(t, rest)
  {
    hide ReadVar, EncodeVar, ReadLong, EncodeLong;
    if t.None? {
      assert EncodeTimed(t) + rest == rest;
    } else {
      var tail := EncodeVar(t.value.seconds) + rest;
      assert EncodeTimed(t) + rest == EncodeLong(t.value.since) + tail;
      ReadWrittenLong(t.value.since, tail);
      ReadWritten(t.value.seconds, W32, rest);
    }
  }

  /** receiveMetadata inverts the layout for all four combinations of expirations, and leaves
      the stream exactly at what follows. */
  lemma ReadWrittenMetadata(m: Metadata, rest: Blob)
    ensures ReadMetadata(EncodeMetadata(m) + rest) == Ok(m, rest)
  {
    hide ReadLong, EncodeLong, ReadTimed, EncodeTimed;
    var s2 := EncodeLong(m.version) + rest;
    var s1 := EncodeTimed(m.idle) + s2;
    var s0 := EncodeTimed(m.lifespan) + s1;
    assert EncodeMetadata(m) + rest == [Flag(m)] + s0;
    ReadWrittenByte(Flag(m), s0);
    ReadWrittenTimed(m.lifespan, s1);
    ReadWrittenTimed(m.idle, s2);
    ReadWrittenLong(m.version, rest);
  }

  lemma ReadWrittenEntry(e: Entry, rest: Blob)
    requires |e.value| < TWO32
    ensures ReadEntry(EncodeEntry(e) + rest) == Ok(e, rest)
  {
    hide ReadMetadata, EncodeMetadata, ReadBlob, EncodeBlob;
    assert EncodeEntry(e) + rest == EncodeMetadata(e.metadata) + (EncodeBlob(e.value) + rest);
    ReadWrittenMetadata(e.metadata, EncodeBlob(e.value) + rest);
    ReadWrittenBlob(e.value, rest);
  }

  /** Reading primitives can run out of stream or of width, but they never throw otherwise. */
  lemma NeverBad(s: Blob)
    ensures !ReadBlob(s).Bad? && !ReadLong(s).Bad? && !ReadEntry(s).Bad?
  {
    hide ReadVar;
    VarNeverBad(s);
    forall t: Blob ensures !ReadVar(t, W32).Bad? && !ReadBlob(t).Bad? {
      VarNeverBad(t);
    }
  }

  lemma {:induction false} DecodeNeverBad(s: Blob, limit: nat)
    ensures !DecodeVar(s, limit).Bad?
  {
    if s != [] && limit > 0 {
      DecodeNeverBad(s[1..], limit - 1);
    }
  }

  lemma VarNeverBad(s: Blob)
    ensures !ReadVar(s, W32).Bad?
  {
    hide DecodeVar;
    DecodeNeverBad(s, 5);
  }
}
