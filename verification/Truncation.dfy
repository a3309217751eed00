/** Streams that end too early: what a reader accepts it accepts in front of anything, so of a message
    that is cut off it accepts nothing. */
module Truncation {
  import opened Bytes
  import opened Codec
  import opened Responses
  import opened Topologies

  // ----- What follows a value does not change it -----

  /** The same value, with more behind it. */
  function Longer<T>(p: Parse<T>, t: Blob): Parse<T>
    requires p.Ok?
  {
    Ok(p.value, p.rest + t)
  }

  lemma TakeExtends(s: Blob, n: nat, t: Blob)
    ensures Take(s, n).Ok? ==> Take(s + t, n) == Longer(Take(s, n), t)
  {
    if n <= |s| {
      assert (s + t)[..n] == s[..n] && (s + t)[n..] == s[n..] + t;
    }
  }

  lemma ByteExtends(s: Blob, t: Blob)
    ensures ReadByte(s).Ok? ==> ReadByte(s + t) == Longer(ReadByte(s), t)
  {
    if s != [] {
      assert (s + t)[1..] == s[1..] + t;
    }
  }

  lemma {:induction false} DecodeExtends(s: Blob, limit: nat, t: Blob)
    ensures DecodeVar(s, limit).Ok? ==> DecodeVar(s + t, limit) == Longer(DecodeVar(s, limit), t)
  {
    if s != [] && limit > 0 {
      assert (s + t)[1..] == s[1..] + t && (s + t)[0] == s[0];
      DecodeExtends(s[1..], limit - 1, t);
    }
  }

  lemma VarExtends(s: Blob, w: Width, t: Blob)
    ensures ReadVar(s, w).Ok? ==> ReadVar(s + t, w) == Longer(ReadVar(s, w), t)
  {
    hide DecodeVar;
    DecodeExtends(s, w.Limit(), t);
  }

  lemma BlobExtends(s: Blob, t: Blob)
    ensures ReadBlob(s).Ok? ==> ReadBlob(s + t) == Longer(ReadBlob(s), t)
  {
    hide ReadVar, Take;
    VarExtends(s, W32, t);
    if ReadVar(s, W32).Ok? {
      TakeExtends(ReadVar(s, W32).rest, ReadVar(s, W32).value, t);
    }
  }

  lemma AddressExtends(s: Blob, t: Blob)
    ensures ReadAddress(s).Ok? ==> ReadAddress(s + t) == Longer(ReadAddress(s), t)
  {
    hide ReadBlob, Take, PortOf;
    BlobExtends(s, t);
    if ReadBlob(s).Ok? {
      TakeExtends(ReadBlob(s).rest, 2, t);
    }
  }

  lemma {:induction false} ServersExtends(s: Blob, n: nat, t: Blob)
    ensures ReadServers(s, n).Ok? ==> ReadServers(s + t, n) == Longer(ReadServers(s, n), t)
    decreases n
  {
    hide ReadAddress;
    if n > 0 {
      AddressExtends(s, t);
      if ReadAddress(s).Ok? {
        ServersExtends(ReadAddress(s).rest, n - 1, t);
      }
    }
  }

  lemma SegmentExtends(s: Blob, t: Blob)
    ensures ReadSegment(s).Ok? ==> ReadSegment(s + t) == Longer(ReadSegment(s), t)
  {
    hide ReadByte, Take;
    ByteExtends(s, t);
    if ReadByte(s).Ok? {
      TakeExtends(ReadByte(s).rest, ReadByte(s).value, t);
    }
  }

  lemma {:induction false} SegmentsExtends(s: Blob, n: nat, t: Blob)
    ensures ReadSegments(s, n).Ok? ==> ReadSegments(s + t, n) == Longer(ReadSegments(s, n), t)
    decreases n
  {
    hide ReadSegment;
    if n > 0 {
      SegmentExtends(s, t);
      if ReadSegment(s).Ok? {
        SegmentsExtends(ReadSegment(s).rest, n - 1, t);
      }
    }
  }

  lemma HashExtends(s: Blob, intelligence: Intelligence, t: Blob)
    ensures ReadHash(s, intelligence).Ok? ==> ReadHash(s + t, intelligence) == Longer(ReadHash(s, intelligence), t)
  {
    hide ReadByte, ReadVar, ReadSegments;
    ByteExtends(s, t);
    if intelligence == HashAware && ReadByte(s).Ok? {
      var s1 := ReadByte(s).rest;
      VarExtends(s1, W32, t);
      if ReadVar(s1, W32).Ok? {
        SegmentsExtends(ReadVar(s1, W32).rest, ReadVar(s1, W32).value, t);
      }
    }
  }

  lemma TopologyExtends(s: Blob, intelligence: Intelligence, t: Blob)
    ensures ReadTopology(s, intelligence).Ok? ==>
      ReadTopology(s + t, intelligence) == Longer(ReadTopology(s, intelligence), t)
  {
    hide ReadVar, ReadServers, ReadHash, Kept;
    VarExtends(s, W32, t);
    if ReadVar(s, W32).Ok? {
      var s1 := ReadVar(s, W32).rest;
      VarExtends(s1, W32, t);
      if ReadVar(s1, W32).Ok? {
        var s2, n := ReadVar(s1, W32).rest, ReadVar(s1, W32).value;
        ServersExtends(s2, n, t);
        if ReadServers(s2, n).Ok? {
          HashExtends(ReadServers(s2, n).rest, intelligence, t);
        }
      }
    }
  }

  lemma UpdateExtends(s: Blob, marker: byte, intelligence: Intelligence, t: Blob)
    ensures ReadUpdate(s, marker, intelligence).Ok? ==>
      ReadUpdate(s + t, marker, intelligence) == Longer(ReadUpdate(s, marker, intelligence), t)
  {
    hide ReadTopology;
    TopologyExtends(s, intelligence, t);
  }

  lemma ErrorExtends(s: Blob, opcode: byte, t: Blob)
    ensures ReadError(s, opcode).Ok? ==> ReadError(s + t, opcode) == Longer(ReadError(s, opcode), t)
  {
    hide ReadBlob;
    BlobExtends(s, t);
  }

  lemma HeadExtends(s: Blob, intelligence: Intelligence, t: Blob)
    ensures ReadHead(s, intelligence).Ok? ==> ReadHead(s + t, intelligence) == Longer(ReadHead(s, intelligence), t)
  {
    hide ReadByte, ReadVar, Take, ReadUpdate, ReadError;
    ByteExtends(s, t);
    if ReadByte(s).Ok? {
      var s0 := ReadByte(s).rest;
      VarExtends(s0, W64, t);
      if ReadVar(s0, W64).Ok? {
        var s1 := ReadVar(s0, W64).rest;
        TakeExtends(s1, 3, t);
        if Take(s1, 3).Ok? {
          var tail, s2 := Take(s1, 3).value, Take(s1, 3).rest;
          UpdateExtends(s2, tail[2], intelligence, t);
          if ReadUpdate(s2, tail[2], intelligence).Ok? {
            ErrorExtends(ReadUpdate(s2, tail[2], intelligence).rest, tail[0], t);
          }
        }
      }
    }
  }

  // ----- Messages cut off -----

  lemma Cut(s: Blob, n: nat)
    requires n < |s|
    ensures s[..n] + s[n..] == s && s[n..] != [] && s + [] == s
  {
  }

  /** A header that is cut off cannot be read, and not because of its magic byte. */
  lemma HeadCut(f: Frame, intelligence: Intelligence, n: nat)
    requires HeadFits(f, intelligence) && n < |EncodeHead(f, intelligence)|
    ensures !ReadHead(EncodeHead(f, intelligence)[..n], intelligence).Ok?
    ensures !BadMagic(EncodeHead(f, intelligence)[..n])
  {
    StartsWithMagic(f, intelligence);
    hide ReadHead, EncodeHead;
    var s := EncodeHead(f, intelligence);
    Cut(s, n);
    HeadExtends(s[..n], intelligence, s[n..]);
    ReadWrittenHead(f, intelligence, []);
  }

  lemma StartsWithMagic(f: Frame, intelligence: Intelligence)
    ensures EncodeHead(f, intelligence) != [] && EncodeHead(f, intelligence)[0] == RESPONSE_MAGIC
  {
  }

  lemma BlobCut(b: Blob, n: nat)
    requires |b| < TWO32 && n < |EncodeBlob(b)|
    ensures !ReadBlob(EncodeBlob(b)[..n]).Ok?
  {
    hide ReadBlob, EncodeBlob;
    var s := EncodeBlob(b);
    Cut(s, n);
    BlobExtends(s[..n], s[n..]);
    ReadWrittenBlob(b, []);
  }
}
