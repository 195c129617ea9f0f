/** The two halves of a connection: a source that can run dry and a sink that can fill up. */
module Streams {
  import opened Bytes
  import opened Wrappers

  /** A stream of bytes that can run out: the inbound half of a connection, or a random source. */
  class ByteSource {
    var bytes: seq<byte>

    constructor (bytes: seq<byte>)
      ensures this.bytes == bytes
    {
      this.bytes := bytes;
    }

    /** io.ReadFull: n bytes, or an error after whatever was left has been consumed. */
    method ReadFull(n: nat) returns (r: Option<seq<byte>>)
      modifies this
      ensures |old(bytes)| >= n ==> r == Some(old(bytes)[..n]) && bytes == old(bytes)[n..]
      ensures |old(bytes)| < n ==> r == None && bytes == []
    {
      if |bytes| < n {
        bytes := [];
        return None;
      }
      r := Some(bytes[..n]);
      bytes := bytes[n..];
    }
  }

  /** The outbound half of a connection, which fails after accepting `room` more bytes. */
  class ByteSink {
    var written: seq<byte>
    var room: nat

    constructor (room: nat)
      ensures written == [] && this.room == room
    {
      this.written, this.room := [], room;
    }

    /** conn.Write: everything, or an error after a prefix has gone out. */
    method Write(data: seq<byte>) returns (ok: bool)
      modifies this
      ensures ok <==> |data| <= old(room)
      ensures ok ==> written == old(written) + data && room == old(room) - |data|
      ensures !ok ==> written == old(written) + data[..old(room)] && room == 0
    {
      if |data| <= room {
        written, room := written + data, room - |data|;
        return true;
      }
      written, room := written + data[..room], 0;
      return false;
    }
  }
}
