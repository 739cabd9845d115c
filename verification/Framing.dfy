/** Length-prefixed frames over a pipe that may take and give bytes in any pieces. */
module Framing {
  import opened Division

  type Byte = b: nat | b < 256

  const MAX_FRAME: nat := 8 * 1024 * 1024

  datatype Failure = Timeout | Closed | BadLength

  datatype Result<+T> = Ok(value: T) | Err(failure: Failure)

  // -------------------------------------------------------------------------- the encoding

  /** `struct.pack('<I', n)` */
  function Pack(n: nat): (b: seq<Byte>)
    requires n < 0x1_0000_0000
    ensures |b| == 4
  {
    [n % 256, n / 256 % 256, n / 256 / 256 % 256, n / 256 / 256 / 256 % 256]
  }

  function Unpack(b: seq<Byte>): (n: nat)
    requires |b| == 4
    ensures n < 0x1_0000_0000
  {
    b[0] as int + 256 * (b[1] as int + 256 * (b[2] as int + 256 * b[3] as int))
  }

  /** The least byte comes first. */
  lemma PackMeaning(n: nat, b: seq<Byte>)
    requires n < 0x1_0000_0000 && |b| == 4
    ensures b == Pack(n) <==> n == b[0] as int + 256 * b[1] as int + 65536 * b[2] as int + 16777216 * b[3] as int
  {
    UnpackPack(n);
    PackUnpack(b);
  }

  lemma UnpackPack(n: nat)
    requires n < 0x1_0000_0000
    ensures Unpack(Pack(n)) == n
  {
    var p, q, r := n / 256, n / 256 / 256, n / 256 / 256 / 256;
    assert n == 256 * p + n % 256 && p == 256 * q + p % 256 && q == 256 * r + q % 256;
    assert r < 256;
    ModSmall(r, 256);
  }

  lemma PackUnpack(b: seq<Byte>)
    requires |b| == 4
    ensures Pack(Unpack(b)) == b
  {
    var z: int := b[2] as int + 256 * b[3] as int;
    var y: int := b[1] as int + 256 * z;
    Unique(Unpack(b), y, b[0], 256);
    Unique(y, z, b[1], 256);
    Unique(z, b[3], b[2], 256);
    ModSmall(b[3], 256);
  }

  function Frame(payload: seq<Byte>): seq<Byte>
    requires |payload| <= MAX_FRAME
  {
    Pack(|payload|) + payload
  }

  predicate Sendable(payload: seq<Byte>)
  {
    0 < |payload| <= MAX_FRAME
  }

  type Payload = p: seq<Byte> | Sendable(p) witness [0]

  /** The first frame of a stream, and what follows it. */
  function Decode(s: seq<Byte>): Result<(seq<Byte>, seq<Byte>)>
  {
    if |s| < 4 then Err(Closed)
    else
      var n := Unpack(s[..4]);
      if n == 0 || MAX_FRAME < n then Err(BadLength)
      else if |s| < 4 + n then Err(Closed)
      else Ok((s[4..4 + n], s[4 + n..]))
  }

  lemma DecodeFrame(payload: seq<Byte>, rest: seq<Byte>)
    requires Sendable(payload)
    ensures Decode(Frame(payload) + rest) == Ok((payload, rest))
  {
    UnpackPack(|payload|);
    var s := Frame(payload) + rest;
    assert s[..4] == Pack(|payload|);
    assert s[4..4 + |payload|] == payload && s[4 + |payload|..] == rest;
  }

  /** When a stream decodes and when not, by its bytes: the first four say how long the payload
      is, at most 8 MiB; a payload that is not there yet is no error of the length. */
  lemma DecodeMeaning(s: seq<Byte>)
    ensures |s| < 4 ==> Decode(s) == Err(Closed)
    ensures |s| >= 4 ==>
              var n := s[0] as int + 256 * s[1] as int + 65536 * s[2] as int + 16777216 * s[3] as int;
              && (Decode(s) == Err(BadLength) <==> n == 0 || n > 8388608)
              && (Decode(s) == Err(Closed) <==> 0 < n <= 8388608 && |s| < 4 + n)
              && (Decode(s).Ok? <==> 0 < n <= 8388608 && |s| >= 4 + n)
              && (Decode(s).Ok? ==> Decode(s).value == (s[4..4 + n], s[4 + n..]))
  {
  }

  /** Only a frame decodes: the encoding has one form. */
  lemma DecodedIsFrame(s: seq<Byte>)
    requires Decode(s).Ok?
    ensures var (payload, rest) := Decode(s).value; Sendable(payload) && s == Frame(payload) + rest
  {
    PackUnpack(s[..4]);
    var (payload, rest) := Decode(s).value;
    assert s == s[..4] + payload + rest;
  }

  function Encoded(payloads: seq<Payload>): seq<Byte>
  {
    if payloads == [] then [] else Frame(payloads[0]) + Encoded(payloads[1..])
  }

  // ------------------------------------------------------------------------------ the pipe

  /** One direction of a pipe: what was written and not yet read.  `ended` says that the
      other side is gone. */
  class Pipe {
    var bytes: seq<Byte>
    var ended: bool

    constructor ()
      ensures bytes == [] && !ended
    {
      bytes := [];
      ended := false;
    }

    /** `os.read`: as many of the bytes as the system likes, at least one; none at the end;
        a timeout before there are any. */
    method Read(count: nat, pace: nat) returns (r: Result<seq<Byte>>)
      requires count > 0
      modifies this`bytes
      ensures r.Ok? && old(bytes) != [] ==> 1 <= |r.value| <= count && old(bytes) == r.value + bytes
      ensures r.Ok? && old(bytes) == [] ==> r.value == [] && ended && bytes == []
      ensures r.Err? ==> r == Err(Timeout) && bytes == old(bytes) && (pace == 0 || (bytes == [] && !ended))
    {
      if bytes == [] {
        return if ended then Ok([]) else Err(Timeout);
      }
      if pace == 0 {
        return Err(Timeout);
      }
      var most := if |bytes| < count then |bytes| else count;
      var n := if pace < most then pace else most;
      r := Ok(bytes[..n]);
      bytes := bytes[n..];
    }

    /** `os.write`: a part of the data, at least one byte. */
    method Write(data: seq<Byte>, pace: nat) returns (r: Result<nat>)
      requires data != []
      modifies this`bytes
      ensures r.Ok? ==> 1 <= r.value <= |data| && bytes == old(bytes) + data[..r.value]
      ensures r.Err? ==> pace == 0 && bytes == old(bytes)
    {
      if pace == 0 {
        return Err(Timeout);
      }
      var n := if pace < |data| then pace else |data|;
      bytes := bytes + data[..n];
      r := Ok(n);
    }
  }

  /** `read_exact`: `paces` is how the system cuts the stream. */
  method ReadExact(pipe: Pipe, count: nat, paces: nat -> nat) returns (r: Result<seq<Byte>>)
    modifies pipe`bytes
    ensures r.Ok? ==> |r.value| == count && old(pipe.bytes) == r.value + pipe.bytes
    ensures r == Err(Closed) ==> pipe.bytes == [] && pipe.ended && |old(pipe.bytes)| < count
    ensures r.Err? ==> r.failure != BadLength
    ensures (forall i :: paces(i) > 0) && (count <= |old(pipe.bytes)|) ==> r.Ok?
    ensures (forall i :: paces(i) > 0) && pipe.ended && |old(pipe.bytes)| < count ==> r == Err(Closed)
  {
    var chunks: seq<Byte> := [];
    var left, i := count, 0;
    while left > 0
      invariant left >= 0 && |chunks| + left == count && old(pipe.bytes) == chunks + pipe.bytes
      decreases left
    {
      var chunk := pipe.Read(left, paces(i));
      if chunk.Err? {
        return Err(Timeout);
      }
      if chunk.value == [] {
        return Err(Closed);
      }
      chunks := chunks + chunk.value;
      left := left - |chunk.value|;
      i := i + 1;
    }
    r := Ok(chunks);
  }

  /** The reading half of `rpc`, and `read_frame`. */
  method ReadFrame(pipe: Pipe, paces: nat -> nat) returns (r: Result<seq<Byte>>)
    modifies pipe`bytes
    ensures r.Ok? ==> Decode(old(pipe.bytes)) == Ok((r.value, pipe.bytes))
    ensures r == Err(BadLength) ==> Decode(old(pipe.bytes)) == Err(BadLength)
    ensures r == Err(Closed) ==> Decode(old(pipe.bytes)) == Err(Closed) && pipe.ended
    ensures (forall i :: paces(i) > 0) && (pipe.ended || Decode(old(pipe.bytes)).Ok?) ==>
              match Decode(old(pipe.bytes))
              case Ok(found) => r == Ok(found.0) && pipe.bytes == found.1
              case Err(f) => r == Err(f)
  {
    ghost var s := pipe.bytes;
    var header := ReadExact(pipe, 4, paces);
    if header.Err? {
      return header;
    }
    assert s[..4] == header.value && s[4..] == pipe.bytes;
    var length := Unpack(header.value);
    if length == 0 || MAX_FRAME < length {
      return Err(BadLength);
    }
    r := ReadExact(pipe, length, paces);
    if r.Ok? {
      assert s == header.value + r.value + pipe.bytes;
      assert s[4..4 + length] == r.value && s[4 + length..] == pipe.bytes;
    }
  }

  /** The writing half of `rpc`: the frame goes out in whatever pieces the pipe takes. */
  method SendFrame(pipe: Pipe, payload: seq<Byte>, paces: nat -> nat) returns (r: Result<nat>)
    modifies pipe`bytes
    ensures |payload| > 8388608 <==> r == Err(BadLength)
    ensures r == Err(BadLength) ==> pipe.bytes == old(pipe.bytes)
    ensures r.Ok? ==> pipe.bytes == old(pipe.bytes) + Frame(payload)
    ensures (forall i :: paces(i) > 0) && |payload| <= MAX_FRAME ==> r.Ok?
  {
    if |payload| > MAX_FRAME {
      return Err(BadLength);
    }
    var data, i := Pack(|payload|) + payload, 0;
    while data != []
      invariant pipe.bytes + data == old(pipe.bytes) + Frame(payload)
      decreases |data|
    {
      var n := pipe.Write(data, paces(i));
      if n.Err? {
        return Err(Timeout);
      }
      assert data == data[..n.value] + data[n.value..];
      data := data[n.value..];
      i := i + 1;
    }
    r := Ok(|payload|);
  }

  /** The round trip: however the stream is cut, reading as many frames as were sent yields
      exactly their payloads, in order, and touches nothing behind them. */
  method ReadFrames(pipe: Pipe, paces: nat -> nat, ghost payloads: seq<Payload>, count: nat, ghost rest: seq<Byte>)
    returns (read: seq<seq<Byte>>)
    requires count == |payloads| && forall i :: paces(i) > 0
    requires pipe.bytes == Encoded(payloads) + rest
    modifies pipe`bytes
    ensures read == payloads && pipe.bytes == rest
  {
    read := [];
    while |read| < count
      invariant |read| <= count && read == payloads[..|read|]
      invariant pipe.bytes == Encoded(payloads[|read|..]) + rest
    {
      ghost var todo := payloads[|read|..];
      assert pipe.bytes == Frame(todo[0]) + (Encoded(todo[1..]) + rest);
      DecodeFrame(todo[0], Encoded(todo[1..]) + rest);
      assert todo[1..] == payloads[|read| + 1..];
      var frame := ReadFrame(pipe, paces);
      read := read + [frame.value];
    }
  }
}
