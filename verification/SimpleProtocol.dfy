/**
 The framed echo protocol (src/Express/Simple/ProtocolSimple.cpp, src/Express/Simple/ProtocolSimple.h):
 a reader that takes a size object and a payload in whatever pieces the socket delivers, and a writer
 that sends a size object and a message in whatever pieces the socket accepts.
 */
module SimpleProtocol {
  import opened Strings

  newtype byte = x: int | 0 <= x < 256

  /** `sizeof(std::size_t)`, on a little-endian machine. */
  const SIZE_BYTES: nat := 8

  /** The largest string; `resize` beyond it throws. */
  const MAX_STRING: nat := 0x7FFF_FFFF_FFFF_FFFF

  function Text(s: string): (b: seq<byte>)
    ensures |b| == |s|
    ensures forall i :: 0 <= i < |s| && s[i] as int < 256 ==> b[i] as int == s[i] as int
  {
    seq(|s|, i requires 0 <= i < |s| => (s[i] as int % 256) as byte)
  }

  const FAIL_SIZE := Text("Failed: Reading Size Object")
  const FAIL_INCOMPLETE := Text("Failed: Size OK. But message incomplete")
  const SUFFIX := Text("-> 200 OK Replied")

  // Size objects

  function Pow256(k: nat): nat {
    if k == 0 then 1 else 256 * Pow256(k - 1)
  }

  /** The number whose bytes, lowest first, are `b`. */
  function Decode(b: seq<byte>): nat {
    if b == [] then 0 else b[0] as nat + 256 * Decode(b[1..])
  }

  /** The `k` lowest bytes of `n`, lowest first. */
  function Encode(n: nat, k: nat): (b: seq<byte>)
    ensures |b| == k
  {
    if k == 0 then [] else [(n % 256) as byte] + Encode(n / 256, k - 1)
  }

  lemma {:induction false} DecodeEncode(n: nat, k: nat)
    requires n < Pow256(k)
    ensures Decode(Encode(n, k)) == n
  {
    if k > 0 {
      DecodeEncode(n / 256, k - 1);
      assert Encode(n, k)[1..] == Encode(n / 256, k - 1);
    }
  }

  lemma {:induction false} EncodeDecode(b: seq<byte>)
    ensures Encode(Decode(b), |b|) == b && Decode(b) < Pow256(|b|)
  {
    if b != [] {
      EncodeDecode(b[1..]);
      assert b == [b[0]] + b[1..];
    }
  }

  lemma Pow256Of8()
    ensures Pow256(7) == 0x100_0000_0000_0000 && Pow256(8) == 0x1_0000_0000_0000_0000
  {
    assert Pow256(4) == 0x1_0000_0000;
  }

  /** The last byte is the highest. */
  lemma {:induction false} DecodeSnoc(b: seq<byte>, last: byte)
    ensures Decode(b + [last]) == Decode(b) + Pow256(|b|) * last as nat
  {
    if b == [] {
      assert [last][1..] == [];
    } else {
      assert (b + [last])[1..] == b[1..] + [last];
      DecodeSnoc(b[1..], last);
    }
  }

  // What a connection is to answer

  function Frame(message: seq<byte>): seq<byte> {
    Encode(|message|, SIZE_BYTES) + message
  }

  /**
   The message that answers all the bytes a peer sends before it stops sending; none when the size
   object asks for more than a string can hold.
   */
  function Reply(input: seq<byte>): Option<seq<byte>> {
    if |input| < SIZE_BYTES then Some(FAIL_SIZE)
    else
      var size := Decode(input[..SIZE_BYTES]);
      if size > MAX_STRING then None
      else if |input| < SIZE_BYTES + size then Some(FAIL_INCOMPLETE)
      else Some(input[SIZE_BYTES..SIZE_BYTES + size] + SUFFIX)
  }

  /** There is no answer exactly when all bytes of a size object come and the highest of them is 128 or more. */
  lemma NoReplyExactly(input: seq<byte>)
    ensures Reply(input) == None <==> |input| >= SIZE_BYTES && input[SIZE_BYTES - 1] >= 0x80
  {
    if |input| >= SIZE_BYTES {
      var low := input[..SIZE_BYTES - 1];
      assert input[..SIZE_BYTES] == low + [input[SIZE_BYTES - 1]];
      DecodeSnoc(low, input[SIZE_BYTES - 1]);
      EncodeDecode(low);
      Pow256Of8();
    }
  }

  /** The bytes on the wire. */
  function ReplyFrame(input: seq<byte>): seq<byte> {
    match Reply(input)
    case Some(message) => Frame(message)
    case None => []
  }

  /** A frame is answered with its own payload, the suffix, and nothing of what follows the frame. */
  lemma FrameIsEchoed(payload: seq<byte>, rest: seq<byte>)
    requires |payload| <= MAX_STRING
    ensures Reply(Frame(payload) + rest) == Some(payload + Text("-> 200 OK Replied"))
  {
    var input := Frame(payload) + rest;
    Pow256Of8();
    DecodeEncode(|payload|, SIZE_BYTES);
    assert input[..SIZE_BYTES] == Encode(|payload|, SIZE_BYTES);
    assert input[SIZE_BYTES..SIZE_BYTES + |payload|] == payload;
  }

  /** A frame that breaks off is answered with what is missing: the size object, or the rest of the payload. */
  lemma BrokenFrameIsReported(payload: seq<byte>, n: nat)
    requires |payload| <= MAX_STRING && n < SIZE_BYTES + |payload|
    ensures Reply(Frame(payload)[..n]) ==
      Some(Text(if n < SIZE_BYTES then "Failed: Reading Size Object" else "Failed: Size OK. But message incomplete"))
  {
    var input := Frame(payload)[..n];
    if n >= SIZE_BYTES {
      Pow256Of8();
      DecodeEncode(|payload|, SIZE_BYTES);
      assert input[..SIZE_BYTES] == Encode(|payload|, SIZE_BYTES);
    }
  }

  /** All bytes of a frame have come. */
  predicate Whole(taken: seq<byte>) {
    |taken| >= SIZE_BYTES && |taken| >= SIZE_BYTES + Decode(taken[..SIZE_BYTES])
  }

  /** The reader of a frame gets back the message and what follows it. */
  lemma FrameIsReadBack(message: seq<byte>, rest: seq<byte>)
    requires |message| < Pow256(SIZE_BYTES)
    ensures var wire := Frame(message) + rest;
      var size := Decode(wire[..SIZE_BYTES]);
      size == |message| && wire[SIZE_BYTES..SIZE_BYTES + size] == message && wire[SIZE_BYTES + size..] == rest
  {
    var wire := Frame(message) + rest;
    DecodeEncode(|message|, SIZE_BYTES);
    assert wire[..SIZE_BYTES] == Encode(|message|, SIZE_BYTES);
  }

  /** Whoever reads the whole answer finds its size first and then exactly the message. */
  lemma ReplyIsReadBack(input: seq<byte>)
    ensures match Reply(input)
      case Some(message) =>
        var wire := ReplyFrame(input);
        |wire| == SIZE_BYTES + |message| && Decode(wire[..SIZE_BYTES]) == |message| && wire[SIZE_BYTES..] == message
      case None => ReplyFrame(input) == []
  {
    match Reply(input)
    case Some(message) =>
      Pow256Of8();
      FrameIsReadBack(message, []);
      assert Frame(message) + [] == Frame(message);
    case None =>
  }

  lemma Adjacent(s: seq<byte>, i: nat, j: nat, k: nat)
    requires i <= j <= k <= |s|
    ensures s[i..j] + s[j..k] == s[i..k]
  {
  }

  // The socket

  class DataSocket {
    /** Everything the peer sends before it stops sending. */
    const input: seq<byte>
    var got: nat
    var output: seq<byte>
    /** The peer sends no more bytes. */
    var ended: bool
    /** The peer accepts no more bytes. */
    var broken: bool
    var closed: bool
    /** How often no byte could be read or written although more may go later. */
    ghost var idle: nat

    ghost predicate Valid()
      reads this
    {
      got <= |input| && (ended ==> got == |input|)
    }

    constructor (input: seq<byte>)
      ensures Valid() && this.input == input && got == 0 && output == []
      ensures !ended && !broken && !closed && idle == 0
    {
      this.input, got, output := input, 0, [];
      ended, broken, closed, idle := false, false, false, 0;
    }

    /** Reads any number of the bytes still missing from `buffer`; no more come only after the last one. */
    method GetMessageData(buffer: array<byte>, size: nat, already: nat) returns (more: bool, read: nat)
      requires Valid() && already <= size <= buffer.Length
      modifies this`got, this`ended, this`idle, buffer
      ensures Valid() && got == old(got) + read && already + read <= size
      ensures buffer[..already] == old(buffer[..already])
      ensures buffer[already..already + read] == input[old(got)..got]
      ensures !more ==> got == |input|
      ensures ended == !more && (old(ended) ==> ended) && idle == old(idle) + if read == 0 && more then 1 else 0
    {
      var start := got;
      read :| 0 <= read <= size - already && start + read <= |input|;
      for k := 0 to read
        invariant got == start && ended == old(ended) && idle == old(idle)
        invariant buffer[..already + k] == old(buffer[..already]) + input[start..start + k]
      {
        buffer[already + k] := input[start + k];
        assert input[start..start + k + 1] == input[start..start + k] + [input[start + k]];
      }
      assert buffer[..already + read][..already] == buffer[..already];
      assert buffer[..already + read][already..] == buffer[already..already + read];
      got := start + read;
      more :| if ended then !more && got == |input| else !more ==> got == |input|;
      ended := !more;
      idle := idle + if read == 0 && more then 1 else 0;
    }

    /** Writes any number of the bytes from position `already` on. */
    method PutMessageData(buffer: seq<byte>, already: nat) returns (more: bool, written: nat)
      requires already <= |buffer|
      modifies this`output, this`broken, this`idle
      ensures already + written <= |buffer| && output == old(output) + buffer[already..already + written]
      ensures broken == !more && (old(broken) ==> broken) && idle == old(idle) + if written == 0 && more then 1 else 0
    {
      written :| 0 <= written <= |buffer| - already;
      output := output + buffer[already..already + written];
      more :| broken ==> !more;
      broken := !more;
      idle := idle + if written == 0 && more then 1 else 0;
    }

    method Close()
      modifies this`closed
      ensures closed
    {
      closed := true;
    }
  }

  /** What an activation leads to: wait for the socket, hand the stream to a writer, drop, or throw. */
  datatype Next = Await | Write(message: seq<byte>, ok: bool) | Dropped | LengthError

  class ReadMessageHandler {
    const stream: DataSocket
    var readSizeObject: nat
    var readBuffer: nat
    /** The bytes of the size object `bufferSize`. */
    const bufferSize: array<byte>
    var buffer: array<byte>

    /** The bytes taken so far are where the source keeps them. */
    ghost predicate Valid()
      reads this, stream, bufferSize, buffer
    {
      && stream.Valid() && bufferSize.Length == SIZE_BYTES && bufferSize != buffer
      && readSizeObject <= SIZE_BYTES && stream.got == readSizeObject + readBuffer
      && bufferSize[..readSizeObject] == stream.input[..readSizeObject]
      && (readSizeObject < SIZE_BYTES ==> readBuffer == 0)
      && (readSizeObject == SIZE_BYTES ==>
           && buffer.Length == Decode(bufferSize[..]) && readBuffer <= buffer.Length && buffer.Length <= MAX_STRING
           && buffer[..readBuffer] == stream.input[SIZE_BYTES..stream.got])
    }

    constructor (stream: DataSocket)
      requires stream.Valid() && stream.got == 0
      ensures Valid() && this.stream == stream && fresh(bufferSize) && fresh(buffer)
    {
      this.stream := stream;
      readSizeObject, readBuffer := 0, 0;
      bufferSize := new byte[SIZE_BYTES];
      buffer := new byte[0];
    }

    method EventActivate() returns (next: Next)
      requires Valid()
      modifies this, stream`got, stream`ended, stream`idle, bufferSize, buffer
      ensures next.Await? ==> Valid() && !Whole(stream.input[..stream.got]) && !stream.ended
      ensures next.Await? ==> stream.got + stream.idle > old(stream.got + stream.idle)
      ensures stream.got + stream.idle >= old(stream.got + stream.idle)
      ensures buffer == old(buffer) || fresh(buffer)
      ensures next.Write? ==> Reply(stream.input) == Some(if next.ok then next.message + SUFFIX else next.message)
      ensures next.LengthError? ==> Reply(stream.input) == None
      ensures !next.Dropped?
    {
      if readSizeObject != SIZE_BYTES {
        var more, read := stream.GetMessageData(bufferSize, SIZE_BYTES, readSizeObject);
        ghost var before := readSizeObject;
        readSizeObject := readSizeObject + read;
        assert bufferSize[..readSizeObject] == bufferSize[..before] + bufferSize[before..readSizeObject];
        assert stream.input[..readSizeObject] == stream.input[..before] + stream.input[before..readSizeObject];
        if readSizeObject != SIZE_BYTES {
          if !more {
            return Write(FAIL_SIZE, false);
          }
          return Await;
        }
        assert bufferSize[..] == bufferSize[..SIZE_BYTES];
        var size := Decode(bufferSize[..]);
        if size > MAX_STRING {
          return LengthError;
        }
        buffer := new byte[size];
      }
      assert bufferSize[..] == bufferSize[..SIZE_BYTES];
      next := ReadPayload();
    }

    /** The second half of an activation, once the size object is complete. */
    method ReadPayload() returns (next: Next)
      requires Valid() && readSizeObject == SIZE_BYTES
      modifies this`readBuffer, stream`got, stream`ended, stream`idle, buffer
      ensures next.Await? ==> Valid() && !Whole(stream.input[..stream.got]) && !stream.ended
      ensures next.Await? ==> stream.got + stream.idle > old(stream.got + stream.idle)
      ensures stream.got + stream.idle >= old(stream.got + stream.idle)
      ensures next.Write? ==> Reply(stream.input) == Some(if next.ok then next.message + SUFFIX else next.message)
      ensures next.Await? || next.Write?
    {
      assert bufferSize[..] == bufferSize[..SIZE_BYTES];
      ghost var before := readBuffer;
      var more, read := stream.GetMessageData(buffer, buffer.Length, readBuffer);
      readBuffer := readBuffer + read;
      assert buffer[..readBuffer] == buffer[..before] + buffer[before..readBuffer];
      Adjacent(stream.input, SIZE_BYTES, SIZE_BYTES + before, stream.got);
      assert buffer[..readBuffer] == stream.input[SIZE_BYTES..stream.got];
      assert stream.input[..SIZE_BYTES] == bufferSize[..];
      if readBuffer != buffer.Length {
        if !more {
          return Write(FAIL_INCOMPLETE, false);
        }
        assert stream.input[..stream.got][..SIZE_BYTES] == bufferSize[..];
        return Await;
      }
      assert buffer[..] == buffer[..readBuffer];
      return Write(buffer[..], true);
    }
  }

  class WriteMessageHandler {
    const stream: DataSocket
    var writeSizeObject: nat
    var writeBuffer: nat
    const message: seq<byte>

    /** What has been written is the beginning of the frame. */
    ghost predicate Valid()
      reads this, stream
    {
      && writeSizeObject <= SIZE_BYTES && writeBuffer <= |message|
      && (writeSizeObject < SIZE_BYTES ==> writeBuffer == 0)
      && stream.output == Frame(message)[..writeSizeObject + writeBuffer]
    }

    constructor (stream: DataSocket, m: seq<byte>, ok: bool)
      requires stream.output == []
      ensures Valid() && this.stream == stream && message == if ok then m + SUFFIX else m
    {
      this.stream := stream;
      writeSizeObject, writeBuffer := 0, 0;
      message := if ok then m + SUFFIX else m;
    }

    method EventActivate() returns (next: Next)
      requires Valid()
      modifies this, stream`output, stream`broken, stream`closed, stream`idle
      ensures Valid() && (next.Await? || next.Dropped?)
      ensures next.Await? ==> !stream.broken && |stream.output| < |Frame(message)|
      ensures next.Await? ==> |stream.output| + stream.idle > old(|stream.output| + stream.idle)
      ensures next.Dropped? ==> stream.closed && (stream.output == Frame(message) || stream.broken)
      ensures next.Await? ==> stream.closed == old(stream.closed)
    {
      if writeSizeObject != SIZE_BYTES {
        var size := Encode(|message|, SIZE_BYTES);
        ghost var before := writeSizeObject;
        var more, written := stream.PutMessageData(size, writeSizeObject);
        writeSizeObject := writeSizeObject + written;
        FrameGrows(Frame(message), size, message, before, written);
        if writeSizeObject != SIZE_BYTES {
          if !more {
            stream.Close();
            return Dropped;
          }
          return Await;
        }
      }
      next := WriteMessage();
    }

    method WriteMessage() returns (next: Next)
      requires Valid() && writeSizeObject == SIZE_BYTES
      modifies this`writeBuffer, stream`output, stream`broken, stream`closed, stream`idle
      ensures Valid() && (next.Await? || next.Dropped?)
      ensures next.Await? ==> !stream.broken && |stream.output| < |Frame(message)|
      ensures next.Await? ==> |stream.output| + stream.idle > old(|stream.output| + stream.idle)
      ensures next.Dropped? ==> stream.closed && (stream.output == Frame(message) || stream.broken)
      ensures next.Await? ==> stream.closed == old(stream.closed)
    {
      ghost var before := writeBuffer;
      var more, written := stream.PutMessageData(message, writeBuffer);
      writeBuffer := writeBuffer + written;
      assert Frame(message)[..SIZE_BYTES + writeBuffer] ==
        Frame(message)[..SIZE_BYTES + before] + message[before..writeBuffer];
      if writeBuffer != |message| {
        if !more {
          stream.Close();
          return Dropped;
        }
        return Await;
      }
      assert Frame(message)[..SIZE_BYTES + writeBuffer] == Frame(message);
      stream.Close();
      return Dropped;
    }
  }

  lemma FrameGrows(frame: seq<byte>, size: seq<byte>, message: seq<byte>, before: nat, written: nat)
    requires frame == size + message && before + written <= |size|
    ensures frame[..before + written] == frame[..before] + size[before..before + written]
  {
  }

  /**
   Any number of activations of the handlers of one connection, with any pieces read and written: what
   was sent is the beginning of the one reply, and all of it once the server has closed the connection
   to a peer that kept listening. It is closed at the latest when there were more activations than bytes to read
   and write and activations without any byte.
   */
  method Serve(stream: DataSocket, rounds: nat)
    requires stream.Valid() && stream.got == 0 && stream.output == []
    requires !stream.ended && !stream.broken && !stream.closed
    modifies stream
    ensures stream.output <= ReplyFrame(stream.input)
    ensures stream.closed && !stream.broken ==> stream.output == ReplyFrame(stream.input)
    ensures stream.broken ==> stream.closed
    ensures Reply(stream.input).Some? && !stream.closed ==>
      rounds <= stream.got + |stream.output| + stream.idle + 1
  {
    var reader := new ReadMessageHandler(stream);
    var next := Next.Await;
    var k := 0;
    while k < rounds && next.Await?
      invariant reader.stream == stream && stream.output == [] && !stream.closed && !stream.broken
      invariant k <= rounds && k <= stream.got + stream.idle + if next.Await? then 0 else 1
      invariant fresh(reader) && fresh(reader.buffer) && fresh(reader.bufferSize)
      invariant next.Await? ==> reader.Valid()
      invariant next.LengthError? ==> Reply(stream.input) == None
      invariant !next.Dropped?
      invariant next.Write? ==> Reply(stream.input) == Some(if next.ok then next.message + SUFFIX else next.message)
      decreases rounds - k
    {
      next := reader.EventActivate();
      k := k + 1;
    }
    if next.Write? {
      var writer := new WriteMessageHandler(stream, next.message, next.ok);
      next := Await;
      while k < rounds && next.Await?
        invariant writer.stream == stream && writer.Valid() && fresh(writer)
        invariant Frame(writer.message) == ReplyFrame(stream.input)
        invariant next.Await? ==> k <= stream.got + |stream.output| + stream.idle + 1 && !stream.broken
        invariant k <= rounds && (!next.Await? ==> stream.closed)
        invariant if next.Await? then !stream.closed else stream.output == Frame(writer.message) || stream.broken
        decreases rounds - k
      {
        next := writer.EventActivate();
        k := k + 1;
      }
    }
  }
}
