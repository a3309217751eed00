/** src/transport/Connection.cpp over an abstract socket. */
module Connections {
  import opened Bytes
  import opened Codec
  import opened Entries

  /** A blocking socket. `incoming` is every byte that it still delivers before it fails or the
      peer closes it, so a failure at any point of a stream is a stream that ends there.
      `outgoing` is every byte written so far. */
  class Connection {
    var connected: bool
    var incoming: Blob
    var outgoing: Blob

    constructor (stream: Blob)
      ensures connected && incoming == stream && outgoing == []
    {
      connected, incoming, outgoing := true, stream, [];
    }

    /** Writes in chunks of the socket's choosing; a failure leaves a proper prefix written. */
    method Send(data: Blob) returns (ok: bool)
      modifies this`outgoing
      ensures ok ==> connected && outgoing == old(outgoing) + data
      ensures !ok && connected ==> exists k :: 0 <= k < |data| && outgoing == old(outgoing) + data[..k]
      ensures !connected ==> !ok && outgoing == old(outgoing)
    {
      if !connected {
        return false;
      }
      var totalSent := 0;
      while totalSent < |data|
        invariant totalSent <= |data| && outgoing == old(outgoing) + data[..totalSent]
      {
        if * {
          return false;
        }
        var sent :| 1 <= sent <= |data| - totalSent;
        assert data[..totalSent + sent] == data[..totalSent] + data[totalSent..totalSent + sent];
        outgoing := outgoing + data[totalSent..totalSent + sent];
        totalSent := totalSent + sent;
      }
      assert data[..totalSent] == data;
      ok := true;
    }

    /** Reads exactly `length` bytes, however the socket fragments them. */
    method Receive(length: nat) returns (r: Parse<Blob>)
      modifies this`incoming
      ensures !connected ==> r == Bad && incoming == old(incoming)
      ensures connected ==> r == Take(old(incoming), length)
      ensures r.Ok? ==> incoming == r.rest
      ensures connected && !r.Ok? ==> incoming == []
    {
      if !connected {
        return Bad;
      }
      ghost var s := incoming;
      var buffer: Blob := [];
      while |buffer| < length
        invariant |buffer| <= |s| && |buffer| <= length
        invariant buffer == s[..|buffer|] && incoming == s[|buffer|..]
      {
        if incoming == [] {
          return Short;
        }
        var received :| 1 <= received <= length - |buffer| && received <= |incoming|;
        buffer := buffer + incoming[..received];
        incoming := incoming[received..];
      }
      r := Ok(buffer, incoming);
    }

    method ReceiveByte() returns (r: Parse<byte>)
      modifies this`incoming
      ensures !connected ==> r == Bad && incoming == old(incoming)
      ensures connected ==> r == ReadByte(old(incoming))
      ensures r.Ok? ==> incoming == r.rest
    {
      var b := Receive(1);
      r := match b { case Ok(v, rest) => Ok(v[0], rest) case Bad => Bad case _ => Short };
    }

    /** receiveVInt and receiveVLong: the same loop at two widths. */
    method ReceiveVar(w: Width) returns (r: Parse<nat>)
      modifies this`incoming
      ensures !connected ==> r == Bad && incoming == old(incoming)
      ensures connected ==> r == ReadVar(old(incoming), w)
      ensures r.Ok? ==> incoming == r.rest
    {
      hide Reading, ReadVar, Gather;
      ghost var s := incoming;
      var first := ReceiveByte();
      if first.Bad? {
        return Bad;
      }
      if first.Short? {
        EmptyStream(s, w);
        return Short;
      }
      var b := first.value;
      var value, weight, left: nat := b % 128, 128, w.Limit() - 1;
      ReadingStarts(s, w);
      while b >= 128
        invariant 0 <= value && 0 <= weight && connected
        invariant Reading(s, w, b, incoming, left, value, weight)
        decreases |incoming|
      {
        ReadingEnds(s, w, b, incoming, left, value, weight);
        ghost var ahead := incoming;
        var next := ReceiveByte();
        if next.Short? {
          return Short;
        }
        if left == 0 {
          return Undefined;
        }
        ReadingContinues(s, w, b, ahead, left, value, weight);
        value := Gather(value, next.value, weight, w);
        weight, left := weight * 128, left - 1;
        b := next.value;
      }
      ReadingEnds(s, w, b, incoming, left, value, weight);
      r := Ok(value, incoming);
    }

    method ReceiveByteArray() returns (r: Parse<Blob>)
      modifies this`incoming
      ensures !connected ==> r == Bad && incoming == old(incoming)
      ensures connected ==> r == ReadBlob(old(incoming))
      ensures r.Ok? ==> incoming == r.rest
    {
      hide ReadVar;
      var length := ReceiveVar(W32);
      if !length.Ok? {
        return length.PropagateFailure();
      }
      if length.value > 0 {
        r := Receive(length.value);
      } else {
        r := Ok([], incoming);
      }
    }

    method ReceiveLong() returns (r: Parse<int64>)
      modifies this`incoming
      ensures !connected ==> r == Bad && incoming == old(incoming)
      ensures connected ==> r == ReadLong(old(incoming))
      ensures r.Ok? ==> incoming == r.rest
    {
      var b := Receive(8);
      if !b.Ok? {
        return b.PropagateFailure();
      }
      var v := AssembleLong(b.value);
      r := Ok(v, incoming);
    }

    method ReceiveTimed(present: bool) returns (r: Parse<Option<Timed>>)
      requires connected
      modifies this`incoming
      ensures r == ReadTimed(old(incoming), present)
      ensures r.Ok? ==> incoming == r.rest
    {
      hide ReadVar, ReadLong;
      if !present {
        return Ok(None, incoming);
      }
      var since := ReceiveLong();
      if !since.Ok? {
        return since.PropagateFailure();
      }
      var seconds := ReceiveVar(W32);
      if !seconds.Ok? {
        return seconds.PropagateFailure();
      }
      r := Ok(Some(Timed(since.value, seconds.value)), incoming);
    }

    method ReceiveMetadata() returns (r: Parse<Metadata>)
      modifies this`incoming
      ensures !connected ==> r == Bad && incoming == old(incoming)
      ensures connected ==> r == ReadMetadata(old(incoming))
      ensures r.Ok? ==> incoming == r.rest
    {
      hide ReadVar, ReadLong, ReadTimed;
      var flag := ReceiveByte();
      if !flag.Ok? {
        return flag.PropagateFailure();
      }
      var lifespan := ReceiveTimed(flag.value % 2 == 0);
      if !lifespan.Ok? {
        return lifespan.PropagateFailure();
      }
      var idle := ReceiveTimed(flag.value / 2 % 2 == 0);
      if !idle.Ok? {
        return idle.PropagateFailure();
      }
      var version := ReceiveLong();
      if !version.Ok? {
        return version.PropagateFailure();
      }
      r := Ok(Metadata(lifespan.value, idle.value, version.value), incoming);
    }
  }

  lemma EmptyStream(s: Blob, w: Width)
    requires s == []
    ensures ReadVar(s, w) == Short
  {
  }
}
