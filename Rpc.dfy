/**
 * The byte-level message format of the remote procedure calls between
 * training and inference processes: a serializer that appends raw values
 * and length-prefixed strings to a growing byte buffer, a deserializer that
 * consumes them from the front and clamps reads that run past the end, and
 * the status byte a server puts in front of each reply. Values are written
 * in the machine's byte order, taken here to be little-endian.
 */
module Rpc {
  import opened Wrappers
  import Network

  type byte = Network.byte

  /** Byte widths of the trivial types the protocol writes. */
  const SizeWidth: nat := 8     // size_t
  const IdWidth: nat := 4       // uint32_t
  const StatusWidth: nat := 1   // uint8_t

  const StatusOk: byte := 0
  const StatusRemoteException: byte := 0xfe
  const StatusFunctionNotFound: byte := 0xff

  function Pow256(n: nat): (p: nat)
    ensures p > 0
  {
    if n == 0 then 1 else 256 * Pow256(n - 1)
  }

  /** A value of `width` bytes as its little-endian bytes. */
  function Encode(v: nat, width: nat): (bs: seq<byte>)
    requires v < Pow256(width)
    ensures |bs| == width
  {
    if width == 0 then []
    else
      assert v / 256 < Pow256(width - 1);
      [(v % 256) as byte] + Encode(v / 256, width - 1)
  }

  /** The value little-endian bytes stand for. */
  function Decode(bs: seq<byte>): (v: nat)
    ensures v < Pow256(|bs|)
  {
    if |bs| == 0 then 0
    else
      var high := Decode(bs[1..]);
      assert high <= Pow256(|bs| - 1) - 1;
      assert 256 * high <= 256 * Pow256(|bs| - 1) - 256;
      bs[0] as nat + 256 * high
  }

  lemma {:induction false} DecodeEncode(v: nat, width: nat)
    requires v < Pow256(width)
    ensures Decode(Encode(v, width)) == v
  {
    if width > 0 {
      DecodeEncode(v / 256, width - 1);
      assert Encode(v, width)[1..] == Encode(v / 256, width - 1);
    }
  }

  lemma {:induction false} EncodeDecode(bs: seq<byte>)
    ensures Encode(Decode(bs), |bs|) == bs
  {
    if |bs| > 0 {
      EncodeDecode(bs[1..]);
      var v := Decode(bs);
      assert v % 256 == bs[0] as nat && v / 256 == Decode(bs[1..]);
    }
  }

  /** A string as the serializer writes it: its size_t length, then its bytes. */
  function EncodeString(s: seq<byte>): (bs: seq<byte>)
    requires |s| < Pow256(SizeWidth)
    ensures |bs| == SizeWidth + |s|
    ensures bs[SizeWidth..] == s
  {
    Encode(|s|, SizeWidth) + s
  }

  /** The serializer's growing output buffer. */
  class Serializer {
    var buf: seq<byte>
    var capacity: nat

    ghost predicate Valid()
      reads this
    {
      |buf| <= capacity
    }

    constructor()
      ensures Valid() && buf == [] && capacity == 0
    {
      buf := [];
      capacity := 0;
    }

    /**
     * Appends exactly the given bytes; when they do not fit, the capacity
     * grows to the larger of what is needed and twice the old capacity (16
     * at least).
     */
    method Write(data: seq<byte>)
      requires Valid()
      modifies this
      ensures Valid()
      ensures buf == old(buf) + data
      ensures old(capacity) >= |old(buf)| + |data| ==> capacity == old(capacity)
      ensures old(capacity) < |old(buf)| + |data| ==>
        capacity == Max(|old(buf)| + |data|, Max(2 * old(capacity), 16))
    {
      var offset := |buf|;
      if capacity < offset + |data| {
        capacity := Max(offset + |data|, Max(capacity * 2, 16));
      }
      buf := buf + data;
    }

    /** Writes a trivial value of `width` bytes. */
    method WriteUInt(v: nat, width: nat)
      requires Valid() && v < Pow256(width)
      modifies this
      ensures Valid()
      ensures buf == old(buf) + Encode(v, width)
    {
      Write(Encode(v, width));
    }

    /** Writes the length as a size_t, then the bytes. */
    method WriteString(s: seq<byte>)
      requires Valid() && |s| < Pow256(SizeWidth)
      modifies this
      ensures Valid()
      ensures buf == old(buf) + EncodeString(s)
    {
      ghost var before := buf;
      WriteUInt(|s|, SizeWidth);
      Write(s);
      assert buf == before + (Encode(|s|, SizeWidth) + s);
    }

    /** Empties the buffer; the capacity stays. */
    method Clear()
      requires Valid()
      modifies this
      ensures Valid() && buf == [] && capacity == old(capacity)
    {
      buf := [];
    }
  }

  /**
   * Reading a trivial value of `width` bytes: the value and what is left.
   * A buffer too short for it is consumed whole and gives zero.
   */
  function ReadUIntFrom(buf: seq<byte>, width: nat): (r: (nat, seq<byte>))
    ensures |buf| < width ==> r == (0, [])
    ensures |buf| >= width ==> r.1 == buf[width..] && r.0 < Pow256(width)
  {
    if |buf| < width then (0, []) else (Decode(buf[..width]), buf[width..])
  }

  /**
   * Reading a string: the length, clamped to the bytes that remain, then
   * that many bytes.
   */
  function ReadStringFrom(buf: seq<byte>): (r: (seq<byte>, seq<byte>))
    ensures var (len, after) := ReadUIntFrom(buf, SizeWidth);
            && |r.0| == Min(len, |after|)
            && r.0 + r.1 == after
  {
    var (len, after) := ReadUIntFrom(buf, SizeWidth);
    var n := if |after| < len then |after| else len;
    assert after[..n] + after[n..] == after;
    (after[..n], after[n..])
  }

  /**
   * Reading a string of `elemSize`-byte elements: the element count is
   * clamped to the whole elements that remain.
   */
  function ReadStringViewFrom(buf: seq<byte>, elemSize: nat): (r: (seq<byte>, seq<byte>))
    requires elemSize > 0
    ensures var (len, after) := ReadUIntFrom(buf, SizeWidth);
            && |r.0| == elemSize * Min(len, |after| / elemSize)
            && r.0 + r.1 == after
  {
    var (len, after) := ReadUIntFrom(buf, SizeWidth);
    var n := Clamped(|after|, elemSize, len);
    assert after[..elemSize * n] + after[elemSize * n..] == after;
    (after[..elemSize * n], after[elemSize * n..])
  }

  /** The element count `readStringView` keeps: the declared one, or the whole elements available. */
  function Clamped(avail: nat, elemSize: nat, len: nat): (n: nat)
    requires elemSize > 0
    ensures n == Min(len, avail / elemSize)
    ensures elemSize * n <= avail
  {
    DivLess(avail, elemSize, len);
    if avail < elemSize * len then
      assert elemSize * (avail / elemSize) <= avail;
      avail / elemSize
    else
      len
  }

  lemma DivLess(a: nat, d: nat, len: nat)
    requires d > 0
    ensures a < d * len <==> a / d < len
  {
    if a / d < len {
      assert a < d * (a / d) + d;
      assert d * (a / d) + d <= d * len by {
        assert d * (a / d + 1) <= d * len;
      }
    } else {
      assert d * len <= d * (a / d);
    }
  }

  /**
   * The element count `readStringView` keeps and the bytes it consumes, with
   * the size_t product `sizeof(T) * len` wrapping around modulo 2^64 as it
   * does in the source.
   */
  function ReadStringViewAsWritten(buf: seq<byte>, elemSize: nat): (r: (nat, nat))
    requires elemSize > 0
    ensures var (len, after) := ReadUIntFrom(buf, SizeWidth);
            (elemSize * len) % Pow256(SizeWidth) <= |after| ==> r.0 == len
  {
    var (len, after) := ReadUIntFrom(buf, SizeWidth);
    var n := if |after| < (elemSize * len) % Pow256(SizeWidth) then |after| / elemSize else len;
    (n, (elemSize * n) % Pow256(SizeWidth))
  }

  /**
   * A declared length of 2^63 two-byte elements makes the wrapped product
   * zero: nothing is clamped, nothing is consumed, and the view claims 2^63
   * elements over an empty buffer.
   */
  lemma ReadStringViewOverruns()
    ensures var buf := Encode(Pow256(SizeWidth) / 2, SizeWidth);
            && ReadStringViewAsWritten(buf, 2) == (Pow256(SizeWidth) / 2, 0)
            && ReadUIntFrom(buf, SizeWidth).1 == []
            && |ReadStringViewFrom(buf, 2).0| == 0
  {
    var buf := Encode(Pow256(SizeWidth) / 2, SizeWidth);
    DecodeEncode(Pow256(SizeWidth) / 2, SizeWidth);
    assert buf[..SizeWidth] == buf;
    assert ReadUIntFrom(buf, SizeWidth) == (Pow256(SizeWidth) / 2, []);
  }

  /** The deserializer's view of the bytes not read yet. */
  class Deserializer {
    var buf: seq<byte>

    constructor(data: seq<byte>)
      ensures buf == data
    {
      buf := data;
    }

    predicate Empty()
      reads this
    {
      |buf| == 0
    }

    /** Drops exactly `len` leading bytes. */
    method Consume(len: nat)
      requires len <= |buf|
      modifies this
      ensures buf == old(buf)[len..]
      ensures old(buf) == old(buf)[..len] + buf
    {
      buf := buf[len..];
    }

    method ReadUInt(width: nat) returns (v: nat)
      modifies this
      ensures (v, buf) == ReadUIntFrom(old(buf), width)
    {
      if |buf| < width {
        Consume(|buf|);
        return 0;
      }
      v := Decode(buf[..width]);
      Consume(width);
    }

    method ReadString() returns (s: seq<byte>)
      modifies this
      ensures (s, buf) == ReadStringFrom(old(buf))
    {
      var len := ReadUInt(SizeWidth);
      if |buf| < len {
        len := |buf|;
      }
      s := buf[..len];
      Consume(len);
    }

    /** `readStringView` with the element count clamped without wrap-around. */
    method ReadStringView(elemSize: nat) returns (s: seq<byte>)
      requires elemSize > 0
      modifies this
      ensures (s, buf) == ReadStringViewFrom(old(buf), elemSize)
    {
      var len := ReadUInt(SizeWidth);
      if |buf| < elemSize * len {
        len := |buf| / elemSize;
      }
      assert elemSize * len <= |buf|;
      s := buf[..elemSize * len];
      Consume(elemSize * len);
    }
  }

  /** A value written by the serializer is read back unchanged, and the rest follows. */
  lemma ReadUIntAfterWrite(v: nat, width: nat, rest: seq<byte>)
    requires v < Pow256(width)
    ensures ReadUIntFrom(Encode(v, width) + rest, width) == (v, rest)
  {
    var bs := Encode(v, width) + rest;
    assert bs[..width] == Encode(v, width);
    assert bs[width..] == rest;
    DecodeEncode(v, width);
  }

  /** A string written by the serializer is read back unchanged, and the rest follows. */
  lemma ReadStringAfterWrite(s: seq<byte>, rest: seq<byte>)
    requires |s| < Pow256(SizeWidth)
    ensures ReadStringFrom(EncodeString(s) + rest) == (s, rest)
  {
    assert EncodeString(s) + rest == Encode(|s|, SizeWidth) + (s + rest);
    ReadUIntAfterWrite(|s|, SizeWidth, s + rest);
    assert (s + rest)[..|s|] == s;
  }

  /** What a called function did: returned its serialized result, or threw. */
  datatype CallResult = Returned(value: seq<byte>) | Threw

  datatype RpcError = ConnectionError | FunctionNotFound | RemoteException

  /** A call as the client sends it: the request id, the function name, the arguments. */
  function EncodeRequest(id: nat, name: seq<byte>, args: seq<byte>): seq<byte>
    requires id < Pow256(IdWidth) && |name| < Pow256(SizeWidth)
  {
    Encode(id, IdWidth) + EncodeString(name) + args
  }

  /** The reply the server sends for a request, before compression. */
  function ReplyFor(funcs: map<seq<byte>, seq<byte> -> CallResult>, request: seq<byte>): seq<byte>
  {
    var (id, afterId) := ReadUIntFrom(request, IdWidth);
    var (name, args) := ReadStringFrom(afterId);
    ReplyTo(funcs, id, name, args)
  }

  /** The reply to a call of `name` with `args` under request id `id`. */
  function ReplyTo(funcs: map<seq<byte>, seq<byte> -> CallResult>, id: nat, name: seq<byte>, args: seq<byte>): seq<byte>
    requires id < Pow256(IdWidth)
  {
    if name in funcs then
      match funcs[name](args)
      case Returned(value) => Encode(id, IdWidth) + [StatusOk] + value
      case Threw => Encode(id, IdWidth) + [StatusRemoteException]
    else Encode(id, IdWidth) + [StatusFunctionNotFound]
  }

  /** The status byte as the serializer writes a uint8_t. */
  lemma EncodeStatus(status: byte)
    ensures Encode(status as nat, StatusWidth) == [status]
  {
    var v := status as nat;
    assert v % 256 == v && v / 256 == 0;
    assert Encode(v, 1) == [(v % 256) as byte] + Encode(0, 0);
  }

  /**
   * The server's handling of one request: the call read from it, then the
   * reply written and sent. When the function threw, the exception leaves
   * `handle` after the 0xfe reply is sent; `rethrown` says so, and it is
   * set exactly when the client will read a remote exception.
   */
  method Handle(funcs: map<seq<byte>, seq<byte> -> CallResult>, request: seq<byte>) returns (reply: seq<byte>, rethrown: bool)
    ensures reply == ReplyFor(funcs, request)
    ensures rethrown <==> Response(reply).1 == Err(RemoteException)
  {
    var id, name, args := ReadCall(request);
    reply, rethrown := WriteReply(funcs, id, name, args);
    RemoteExceptionIffThrew(funcs, id, name, args);
  }

  /** The request id, the function name and the argument bytes, through a deserializer. */
  method ReadCall(request: seq<byte>) returns (id: nat, name: seq<byte>, args: seq<byte>)
    ensures id < Pow256(IdWidth)
    ensures (id, ReadStringFrom(ReadUIntFrom(request, IdWidth).1)) == (ReadUIntFrom(request, IdWidth).0, (name, args))
  {
    var des := new Deserializer(request);
    id := des.ReadUInt(IdWidth);
    name := des.ReadString();
    args := des.buf;
  }

  /**
   * The reply through a serializer: the id, the status, and the result when
   * there is one. `rethrown` is the `throw;` that follows the 0xfe reply.
   */
  method WriteReply(funcs: map<seq<byte>, seq<byte> -> CallResult>, id: nat, name: seq<byte>, args: seq<byte>)
    returns (reply: seq<byte>, rethrown: bool)
    requires id < Pow256(IdWidth)
    ensures reply == ReplyTo(funcs, id, name, args)
    ensures rethrown <==> name in funcs && funcs[name](args).Threw?
  {
    rethrown := false;
    var ser := new Serializer();
    ser.WriteUInt(id, IdWidth);
    if name in funcs {
      EncodeStatus(StatusOk);
      ser.WriteUInt(StatusOk as nat, StatusWidth);
      var result := funcs[name](args);
      if result.Returned? {
        ser.Write(result.value);
      } else {
        ser.Clear();
        ser.WriteUInt(id, IdWidth);
        EncodeStatus(StatusRemoteException);
        ser.WriteUInt(StatusRemoteException as nat, StatusWidth);
        rethrown := true;
      }
    } else {
      EncodeStatus(StatusFunctionNotFound);
      ser.WriteUInt(StatusFunctionNotFound as nat, StatusWidth);
    }
    reply := ser.buf;
  }

  /** How the client reads a reply: the request id, then the outcome named by the status byte. */
  function Response(reply: seq<byte>): (r: (nat, Result<seq<byte>, RpcError>))
    ensures r.0 < Pow256(IdWidth)
  {
    var (id, afterId) := ReadUIntFrom(reply, IdWidth);
    var (status, rest) := ReadUIntFrom(afterId, StatusWidth);
    assert id < Pow256(IdWidth) by {
      if |reply| >= IdWidth {
      }
    }
    var outcome :=
      if status == StatusFunctionNotFound as nat then Err(FunctionNotFound)
      else if status == StatusRemoteException as nat then Err(RemoteException)
      else if status != 0 then Err(ConnectionError)
      else Ok(rest);
    (id, outcome)
  }

  /**
   * A request reaches the caller's future as the function's result, as
   * "function not found" when the server has no such function, or as
   * "remote exception" when the function threw; the reply carries the
   * request's id.
   */
  lemma CallRoundTrip(funcs: map<seq<byte>, seq<byte> -> CallResult>, id: nat, name: seq<byte>, args: seq<byte>)
    requires id < Pow256(IdWidth) && |name| < Pow256(SizeWidth)
    ensures var r := Response(ReplyFor(funcs, EncodeRequest(id, name, args)));
            && r.0 == id
            && (name !in funcs ==> r.1 == Err(FunctionNotFound))
            && (name in funcs && funcs[name](args).Threw? ==> r.1 == Err(RemoteException))
            && (name in funcs && funcs[name](args).Returned? ==> r.1 == Ok(funcs[name](args).value))
  {
    var request := EncodeRequest(id, name, args);
    assert request == Encode(id, IdWidth) + (EncodeString(name) + args);
    ReadUIntAfterWrite(id, IdWidth, EncodeString(name) + args);
    ReadStringAfterWrite(name, args);
    var reply := ReplyFor(funcs, request);
    assert reply == ReplyTo(funcs, id, name, args);
    var tail: seq<byte> := if name in funcs && funcs[name](args).Returned? then funcs[name](args).value else [];
    var status: byte :=
      if name !in funcs then StatusFunctionNotFound
      else if funcs[name](args).Threw? then StatusRemoteException
      else StatusOk;
    assert reply == Encode(id, IdWidth) + ([status] + tail);
    ReadUIntAfterWrite(id, IdWidth, [status] + tail);
    EncodeStatus(status);
    ReadUIntAfterWrite(status as nat, StatusWidth, tail);
  }

  /** The client reads a remote exception from a reply exactly when the server's function threw. */
  lemma RemoteExceptionIffThrew(funcs: map<seq<byte>, seq<byte> -> CallResult>, id: nat, name: seq<byte>, args: seq<byte>)
    requires id < Pow256(IdWidth)
    ensures Response(ReplyTo(funcs, id, name, args)).1 == Err(RemoteException) <==> name in funcs && funcs[name](args).Threw?
  {
    var tail: seq<byte> := if name in funcs && funcs[name](args).Returned? then funcs[name](args).value else [];
    var status: byte :=
      if name !in funcs then StatusFunctionNotFound
      else if funcs[name](args).Threw? then StatusRemoteException
      else StatusOk;
    assert ReplyTo(funcs, id, name, args) == Encode(id, IdWidth) + ([status] + tail);
    ReadUIntAfterWrite(id, IdWidth, [status] + tail);
    EncodeStatus(status);
    ReadUIntAfterWrite(status as nat, StatusWidth, tail);
  }

  /** The request through a serializer: the id, the function name, the arguments. */
  method WriteRequest(id: nat, name: seq<byte>, args: seq<byte>) returns (message: seq<byte>)
    requires id < Pow256(IdWidth) && |name| < Pow256(SizeWidth)
    ensures message == EncodeRequest(id, name, args)
  {
    var ser := new Serializer();
    ser.WriteUInt(id, IdWidth);
    ser.WriteString(name);
    ser.Write(args);
    message := ser.buf;
  }

  /** The client side: the id counter and the requests waiting for a reply. */
  class Client {
    var reqcounter: nat
    var pending: set<nat>
    var numRpcCalls: nat

    ghost predicate Valid()
      reads this
    {
      reqcounter < Pow256(IdWidth) && forall id :: id in pending ==> id < Pow256(IdWidth)
    }

    constructor()
      ensures Valid() && reqcounter == 0 && pending == {} && numRpcCalls == 0
    {
      reqcounter := 0;
      pending := {};
      numRpcCalls := 0;
    }

    /**
     * Sends a call: the counter, a 32-bit value, is incremented with
     * wrap-around and names the request; a call whose result is awaited
     * is remembered until its reply arrives.
     */
    method Async(name: seq<byte>, args: seq<byte>, awaitReply: bool) returns (message: seq<byte>)
      requires Valid() && |name| < Pow256(SizeWidth)
      modifies this
      ensures Valid()
      ensures reqcounter == (old(reqcounter) + 1) % Pow256(IdWidth)
      ensures message == EncodeRequest(reqcounter, name, args)
      ensures pending == if awaitReply then old(pending) + {reqcounter} else old(pending)
      ensures numRpcCalls == old(numRpcCalls) + 1
    {
      reqcounter := (reqcounter + 1) % Pow256(IdWidth);
      message := WriteRequest(reqcounter, name, args);
      if awaitReply {
        pending := pending + {reqcounter};
      }
      numRpcCalls := numRpcCalls + 1;
    }

    /**
     * A reply resolves its pending request once, with the outcome its
     * status byte names; a reply for no pending request is dropped.
     */
    method OnMessage(reply: seq<byte>) returns (delivered: Option<(nat, Result<seq<byte>, RpcError>)>)
      requires Valid()
      modifies this
      ensures Valid()
      ensures Response(reply).0 in old(pending) ==> delivered == Some(Response(reply))
      ensures Response(reply).0 !in old(pending) ==> delivered == None
      ensures pending == old(pending) - {Response(reply).0}
      ensures reqcounter == old(reqcounter) && numRpcCalls == old(numRpcCalls)
    {
      var des := new Deserializer(reply);
      var id := des.ReadUInt(IdWidth);
      var status := des.ReadUInt(StatusWidth);
      if id in pending {
        pending := pending - {id};
        var outcome :=
          if status == StatusFunctionNotFound as nat then Err(FunctionNotFound)
          else if status == StatusRemoteException as nat then Err(RemoteException)
          else if status != 0 then Err(ConnectionError)
          else Ok(des.buf);
        delivered := Some((id, outcome));
      } else {
        delivered := None;
      }
    }

    /** A closed connection fails every pending request with a connection error. */
    method OnConnectionClosed() returns (failed: set<nat>)
      requires Valid()
      modifies this
      ensures Valid()
      ensures failed == old(pending) && pending == {}
    {
      failed := pending;
      pending := {};
    }
  }
}
