/**
  The frame reassembler of the hybrid connector's TCP socket
  (lib/connectors/hybrid/tcpsocket.js).  Bytes arrive in chunks of any
  size; the socket cuts them into packages of a `headSize`-byte head,
  whose first byte is the package type, followed by a body whose length
  `headHandler(head)` reads from the head.

  The head handler is a parameter of the configuration.  The bytes
  collected for the current package are kept as sequences: the head
  bytes while waiting for the head, the head and body bytes read so far
  while waiting for the body.  The socket's `close()` only asks the
  underlying socket to close, which is recorded as an output.
 */
module TcpSocket {
  import opened Common
  import Utils

  type Byte = Utils.Byte

  /** The package types a head may carry (pomelo-protocol's `Package`). */
  const TypeHandshake: Byte := 1
  const TypeHandshakeAck: Byte := 2
  const TypeHeartbeat: Byte := 3
  const TypeData: Byte := 4
  const TypeKick: Byte := 5

  /** `checkTypeData(data)`. */
  predicate CheckTypeData(b: Byte) {
    b == TypeHandshake || b == TypeHandshakeAck || b == TypeHeartbeat || b == TypeData || b == TypeKick
  }

  datatype State = Head | Body | Closed

  datatype Config = Config(headSize: nat, headHandler: seq<Byte> -> int)

  datatype Socket = Socket(
    state: State,
    headOffset: nat,
    headBuffer: seq<Byte>,
    packageOffset: nat,
    packageSize: int,
    packageBuffer: seq<Byte>)

  // ----- construction -----

  /** The constructor's options; `headHandler` is `None` when it is not a
      function, and a head size of `0` stands for any falsy one. */
  datatype Options = Options(headSize: int, headHandler: Option<seq<Byte> -> int>)

  datatype ConstructError =
    | InvalidSocketOrOpts
    | InvalidHeadSizeOrHandler
    | HeadBufferAllocationFailed  // `Buffer.alloc` of a negative size

  datatype Result = Created(cfg: Config, socket: Socket) | Failed(error: ConstructError)

  /** The constructor: a socket and options are required, with a truthy
      head size and a function as head handler; a negative head size makes
      the allocation of the head buffer throw. */
  function NewSocket(hasSocket: bool, opts: Option<Options>): (r: Result)
    ensures !hasSocket || opts.None? ==> r == Failed(InvalidSocketOrOpts)
    ensures hasSocket && opts.Some? && (opts.value.headSize == 0 || opts.value.headHandler.None?) ==>
              r == Failed(InvalidHeadSizeOrHandler)
    ensures r.Created? <==> hasSocket && opts.Some? && opts.value.headSize > 0 && opts.value.headHandler.Some?
    ensures r.Created? ==> && r.cfg == Config(opts.value.headSize, opts.value.headHandler.value)
                           && r.socket == Reset() && Open(r.cfg, r.socket)
  {
    if !hasSocket || opts.None? then Failed(InvalidSocketOrOpts)
    else if opts.value.headSize == 0 || opts.value.headHandler.None? then Failed(InvalidHeadSizeOrHandler)
    else if opts.value.headSize < 0 then Failed(HeadBufferAllocationFailed)
    else Created(Config(opts.value.headSize, opts.value.headHandler.value), Reset())
  }

  /** `reset(socket)`: waiting for a head, nothing collected. */
  function Reset(): (s: Socket)
    ensures s.state == Head && s.headOffset == 0 && s.packageOffset == 0 && s.packageSize == 0
    ensures Pending(s) == []
  {
    Socket(Head, 0, [], 0, 0, [])
  }

  /** The bytes of the current package collected so far. */
  function Pending(s: Socket): seq<Byte> {
    if s.state == Body then s.packageBuffer else s.headBuffer
  }

  // ----- well-formed packages -----

  /** A complete package: a head with a valid type and a non-negative
      length, followed by exactly that many body bytes. */
  ghost predicate Frame(cfg: Config, f: seq<Byte>) {
    && cfg.headSize <= |f|
    && 1 <= |f|
    && CheckTypeData(f[0])
    && cfg.headHandler(f[..cfg.headSize]) >= 0
    && |f| == cfg.headSize + cfg.headHandler(f[..cfg.headSize])
  }

  /** The start of a package: fewer bytes than the head, or a good head
      and fewer bytes than the whole package. */
  ghost predicate Partial(cfg: Config, p: seq<Byte>) {
    || |p| < cfg.headSize
    || (&& 1 <= |p|
        && CheckTypeData(p[0])
        && cfg.headHandler(p[..cfg.headSize]) >= 0
        && |p| < cfg.headSize + cfg.headHandler(p[..cfg.headSize]))
  }

  /** A stream that starts with a whole head of an invalid type or a
      negative length. */
  ghost predicate BadStart(cfg: Config, p: seq<Byte>) {
    && 1 <= cfg.headSize <= |p|
    && (!CheckTypeData(p[0]) || cfg.headHandler(p[..cfg.headSize]) < 0)
  }

  /** The length the handler reads from the head a stream starts with. */
  ghost function RejectedHead(cfg: Config, p: seq<Byte>): int
    requires BadStart(cfg, p)
  {
    cfg.headHandler(p[..cfg.headSize])
  }

  /** Every package of a list is complete. */
  ghost predicate AllFrames(cfg: Config, fs: seq<seq<Byte>>) {
    forall i :: 0 <= i < |fs| ==> Frame(cfg, fs[i])
  }

  /** The consistency of a socket between chunks.  Waiting for a head
      either holds fewer than `headSize` bytes, or a whole head the socket
      rejected: one of an invalid type (after which it asked to be closed)
      or one of a negative length (after which it threw); waiting for a
      body holds a good head and part of the body. */
  ghost predicate Valid(cfg: Config, s: Socket) {
    && cfg.headSize > 0
    && (s.state == Head ==>
          && |s.headBuffer| == s.headOffset <= cfg.headSize
          && (s.headOffset == cfg.headSize ==>
                cfg.headHandler(s.headBuffer) < 0 || !CheckTypeData(s.headBuffer[0])))
    && (s.state == Body ==> Collecting(cfg, s) && s.packageOffset < s.packageSize)
  }

  /** Waiting for a body: a good head and at most the whole package. */
  ghost predicate Collecting(cfg: Config, s: Socket) {
    && 1 <= cfg.headSize
    && |s.packageBuffer| == s.packageOffset
    && cfg.headSize <= s.packageOffset <= s.packageSize
    && CheckTypeData(s.packageBuffer[0])
    && cfg.headHandler(s.packageBuffer[..cfg.headSize]) >= 0
    && s.packageSize == cfg.headSize + cfg.headHandler(s.packageBuffer[..cfg.headSize])
  }

  /** A socket that has not rejected a head. */
  ghost predicate Open(cfg: Config, s: Socket) {
    Valid(cfg, s) && s.state != Closed && (s.state == Head ==> s.headOffset < cfg.headSize)
  }

  // ----- reading -----

  datatype HeadResult =
    | HeadRead(socket: Socket, offset: nat, closeRequested: bool)
    | InvalidBodySize(size: int, socket: Socket)

  /** `readHead(socket, data, offset)`. */
  function ReadHead(cfg: Config, s: Socket, data: seq<Byte>, offset: nat): (r: HeadResult)
    requires Valid(cfg, s) && s.state == Head && offset < |data|
    ensures r.HeadRead? ==> r.socket.state != Closed && offset < r.offset <= |data|
    ensures r.HeadRead? && r.socket.state == Head ==> Valid(cfg, r.socket)
    ensures r.HeadRead? && r.socket.state == Body ==> Collecting(cfg, r.socket)
    ensures r.HeadRead? && !r.closeRequested ==>
              && Pending(r.socket) + data[r.offset..] == Pending(s) + data[offset..]
              && (r.socket.state == Body ==> r.socket.packageOffset == cfg.headSize)
              && (r.socket.state == Head ==> r.offset == |data|)
    ensures r.HeadRead? && r.closeRequested ==>
              && r.offset == |data| && r.socket.state == Head && r.socket.headOffset == cfg.headSize
    // the throw leaves the whole head in the socket
    ensures r.InvalidBodySize? ==>
              && Valid(cfg, r.socket) && r.socket.state == Head && r.socket.headOffset == cfg.headSize
              && cfg.headHandler(r.socket.headBuffer) == r.size
    // a rejected head: the stream from here starts with a bad head
    // and the thrown size is what the handler reads from that head
    ensures r.InvalidBodySize? || (r.HeadRead? && r.closeRequested) ==>
              && BadStart(cfg, Pending(s) + data[offset..])
              && (r.InvalidBodySize? <==> RejectedHead(cfg, Pending(s) + data[offset..]) < 0)
              && (r.InvalidBodySize? ==> r.size == RejectedHead(cfg, Pending(s) + data[offset..]))
  {
    var hlen := cfg.headSize - s.headOffset;
    var dlen := |data| - offset;
    var len := if hlen < dlen then hlen else dlen;
    var dend := offset + len;
    var head := s.headBuffer + data[offset..dend];
    assert head + data[dend..] == s.headBuffer + data[offset..] by {
      assert data[offset..] == data[offset..dend] + data[dend..];
    }
    if s.headOffset + len == cfg.headSize then
      var size := cfg.headHandler(head);
      var stream := s.headBuffer + data[offset..];
      assert stream[..cfg.headSize] == head;
      assert stream[0] == head[0];
      if size < 0 then
        InvalidBodySize(size, s.(headOffset := cfg.headSize, headBuffer := head))
      else if CheckTypeData(head[0]) then
        assert head[..cfg.headSize] == head;
        HeadRead(s.(state := Body, packageSize := size + cfg.headSize, packageBuffer := head,
                    packageOffset := cfg.headSize, headOffset := cfg.headSize, headBuffer := head), dend, false)
      else
        HeadRead(s.(headOffset := cfg.headSize, headBuffer := head), |data|, true)
    else
      HeadRead(s.(headOffset := s.headOffset + len, headBuffer := head), dend, false)
  }

  predicate IsPrefix(p: seq<Byte>, s: seq<Byte>) {
    |p| <= |s| && s[..|p|] == p
  }

  /** A stream whose head is bad is not the start of any package, and
      cannot be cut. */
  lemma NoFrameStarts(cfg: Config, stream: seq<Byte>)
    requires BadStart(cfg, stream)
    ensures !Partial(cfg, stream)
    ensures forall f :: Frame(cfg, f) ==> !IsPrefix(f, stream)
    ensures Deframe(cfg, stream) == BadHead
  {
    forall f | Frame(cfg, f) ensures !IsPrefix(f, stream) {
      PrefixesAgree(f, stream, cfg.headSize);
    }
  }

  lemma PrefixesAgree(f: seq<Byte>, stream: seq<Byte>, n: nat)
    requires 1 <= n <= |f|
    ensures IsPrefix(f, stream) ==> f[..n] == stream[..n] && f[0] == stream[0]
  {
    if IsPrefix(f, stream) {
      assert f == stream[..|f|];
    }
  }

  /** `readBody(socket, data, offset)`: the package, once complete. */
  function ReadBody(cfg: Config, s: Socket, data: seq<Byte>, offset: nat): (r: (Socket, nat, Option<seq<Byte>>))
    requires Collecting(cfg, s) && s.state == Body && offset <= |data|
    ensures Valid(cfg, r.0) && Open(cfg, r.0) && offset <= r.1 <= |data|
    ensures r.2.None? ==> Pending(r.0) + data[r.1..] == Pending(s) + data[offset..] && r.0.state == Body
    ensures r.2.None? ==> r.1 == |data|
    ensures offset < |data| && s.packageOffset < s.packageSize ==> offset < r.1
    ensures r.2.Some? ==> && Frame(cfg, r.2.value)
                          && r.2.value + data[r.1..] == Pending(s) + data[offset..]
                          && r.0 == Reset()
  {
    var blen := s.packageSize - s.packageOffset;
    var dlen := |data| - offset;
    var len := if blen < dlen then blen else dlen;
    var dend := offset + len;
    var buffer := s.packageBuffer + data[offset..dend];
    assert buffer + data[dend..] == s.packageBuffer + data[offset..] by {
      assert data[offset..] == data[offset..dend] + data[dend..];
    }
    assert buffer[..cfg.headSize] == s.packageBuffer[..cfg.headSize];
    if s.packageOffset + len == s.packageSize then
      (Reset(), dend, Some(buffer))
    else
      (s.(packageOffset := s.packageOffset + len, packageBuffer := buffer), dend, None)
  }

  datatype Step =
    | Stepped(socket: Socket, offset: nat, message: Option<seq<Byte>>, closeRequested: bool)
    | Threw(size: int, socket: Socket)

  /** What one turn of the `ondata` loop promises: a turn that goes on
      moves forward, keeps the socket consistent and, unless it requests
      close, emits only complete packages and conserves the stream; a
      throw or a close request happens only at a bad head, and the throw
      leaves that head in the socket. */
  ghost predicate Turn(cfg: Config, s: Socket, data: seq<Byte>, offset: nat, r: Step)
    requires offset <= |data|
  {
    && (r.Stepped? ==> Valid(cfg, r.socket) && r.socket.state != Closed && offset < r.offset <= |data|)
    && (r.Stepped? && !r.closeRequested ==>
          && AllFrames(cfg, Emits(r.message))
          && Flatten(Emits(r.message)) + (Pending(r.socket) + data[r.offset..]) == Pending(s) + data[offset..]
          && Open(cfg, r.socket))
    && (r.Stepped? && r.closeRequested ==> r.offset == |data| && r.message.None? && !Open(cfg, r.socket))
    && (r.Threw? || (r.Stepped? && r.closeRequested) ==>
          && BadStart(cfg, Pending(s) + data[offset..])
          && (r.Threw? <==> RejectedHead(cfg, Pending(s) + data[offset..]) < 0)
          && (r.Threw? ==> r.size == RejectedHead(cfg, Pending(s) + data[offset..])))
    && (r.Threw? ==>
          && Valid(cfg, r.socket) && r.socket.state == Head && r.socket.headOffset == cfg.headSize
          && cfg.headHandler(r.socket.headBuffer) == r.size)
  }

  /** One turn of the `ondata` loop: read the head if waiting for one,
      then the body if now waiting for one. */
  function Iterate(cfg: Config, s: Socket, data: seq<Byte>, offset: nat): (r: Step)
    requires Valid(cfg, s) && s.state != Closed && offset < |data|
    ensures Turn(cfg, s, data, offset, r)
  {
    if s.state == Head then HeadStep(cfg, s, data, offset) else BodyStep(cfg, s, data, offset)
  }

  /** A loop turn that starts waiting for a head. */
  function HeadStep(cfg: Config, s: Socket, data: seq<Byte>, offset: nat): (r: Step)
    requires Valid(cfg, s) && s.state == Head && offset < |data|
    ensures Turn(cfg, s, data, offset, r)
  {
    match ReadHead(cfg, s, data, offset)
    case InvalidBodySize(size, s1) => Threw(size, s1)
    case HeadRead(s1, o1, closeRequested) =>
      if closeRequested || s1.state != Body then Stepped(s1, o1, None, closeRequested)
      else BodyStep(cfg, s1, data, o1)
  }

  /** Reading a body as one loop turn does. */
  function BodyStep(cfg: Config, s: Socket, data: seq<Byte>, offset: nat): (r: Step)
    requires Collecting(cfg, s) && s.state == Body && offset <= |data|
    ensures r.Stepped? && !r.closeRequested && Valid(cfg, r.socket) && Open(cfg, r.socket) && offset <= r.offset <= |data|
    ensures offset < |data| && s.packageOffset < s.packageSize ==> offset < r.offset
    ensures AllFrames(cfg, Emits(r.message))
    ensures Flatten(Emits(r.message)) + (Pending(r.socket) + data[r.offset..]) == Pending(s) + data[offset..]
  {
    var (s2, o2, message) := ReadBody(cfg, s, data, offset);
    EmitsFlatten(message);
    assert Open(cfg, s2) && Valid(cfg, s2);
    if message.Some? then
      assert Pending(s2) + data[o2..] == data[o2..];
      assert AllFrames(cfg, Emits(message)) by { assert Emits(message) == [message.value]; }
      Stepped(s2, o2, message, false)
    else
      assert Flatten(Emits(message)) + (Pending(s2) + data[o2..]) == Pending(s2) + data[o2..];
      Stepped(s2, o2, message, false)
  }

  /** The messages one loop turn emits. */
  function Emits(message: Option<seq<Byte>>): (r: seq<seq<Byte>>)
    ensures |r| <= 1
  {
    if message.Some? then [message.value] else []
  }

  lemma EmitsFlatten(message: Option<seq<Byte>>)
    ensures Flatten(Emits(message)) == if message.Some? then message.value else []
    ensures message.Some? ==> Emits(message)[0] == message.value
  {
    if message.Some? {
      assert Flatten([message.value]) == message.value + Flatten([]);
    }
  }

  datatype Error = SocketHasClosed | InvalidData | InvalidBodySizeError(size: int)

  /** A chunk as the socket delivers it: a Buffer, a string (by its UTF-8
      bytes) or anything else. */
  datatype Chunk = BufferChunk(bytes: seq<Byte>) | StringChunk(utf8: seq<Byte>) | OtherChunk

  /** The bytes of a Buffer or string chunk. */
  function ChunkBytes(chunk: Chunk): seq<Byte> {
    match chunk
    case BufferChunk(bytes) => bytes
    case StringChunk(utf8) => utf8
    case OtherChunk => []
  }

  datatype DataResult =
    | Consumed(socket: Socket, messages: seq<seq<Byte>>, closeRequested: bool)
    | Thrown(error: Error, messages: seq<seq<Byte>>, socket: Socket)

  function Flatten(fs: seq<seq<Byte>>): seq<Byte> {
    if fs == [] then [] else fs[0] + Flatten(fs[1..])
  }

  /** `ondata(socket, chunk)`: emits a "message" for every package the
      chunk completes.  Given an open socket, the chunk goes through
      without error exactly when the collected bytes followed by the chunk
      are a run of packages and the start of one more; those packages are
      the messages and that start is what the socket keeps.  Otherwise the
      messages are the packages in front of the first bad head, and the
      call throws when that head has a negative length and requests close
      when only its type is bad. */
  method OnData(cfg: Config, s0: Socket, chunk: Chunk) returns (r: DataResult)
    requires Valid(cfg, s0)
    ensures s0.state == Closed ==> r == Thrown(SocketHasClosed, [], s0)
    ensures s0.state != Closed && chunk.OtherChunk? ==> r == Thrown(InvalidData, [], s0)
    ensures r.Consumed? ==> Valid(cfg, r.socket) && r.socket.state != Closed
    // a negative length is thrown with its whole head left in the socket
    ensures r.Thrown? && r.error.InvalidBodySizeError? ==>
              && Valid(cfg, r.socket) && r.socket.state == Head && r.socket.headOffset == cfg.headSize
              && cfg.headHandler(r.socket.headBuffer) == r.error.size
    // an empty chunk changes nothing
    ensures s0.state != Closed && !chunk.OtherChunk? && ChunkBytes(chunk) == [] ==> r == Consumed(s0, [], false)
    // a socket holding a rejected head rejects every further chunk the
    // same way, emitting nothing: it throws the same size again, or
    // requests close again
    ensures s0.state == Head && s0.headOffset == cfg.headSize && !chunk.OtherChunk? && ChunkBytes(chunk) != [] ==>
              && (cfg.headHandler(s0.headBuffer) < 0 ==>
                    r == Thrown(InvalidBodySizeError(cfg.headHandler(s0.headBuffer)), [], s0))
              && (cfg.headHandler(s0.headBuffer) >= 0 ==> r == Consumed(s0, [], true))
    ensures Open(cfg, s0) && !chunk.OtherChunk? ==>
              var stream := Pending(s0) + ChunkBytes(chunk);
              && (r.Consumed? && !r.closeRequested <==> Deframe(cfg, stream).Framed?)
              && (r.Consumed? && !r.closeRequested ==>
                    Deframe(cfg, stream) == Framed(r.messages, Pending(r.socket)) && Open(cfg, r.socket))
    ensures Open(cfg, s0) && !chunk.OtherChunk? && !(r.Consumed? && !r.closeRequested) ==>
              var stream := Pending(s0) + ChunkBytes(chunk);
              && CutAtBadHead(cfg, stream, r.messages)
              && (r.Thrown? <==> RejectedSize(cfg, stream, r.messages) < 0)
              && (r.Thrown? ==> r.error == InvalidBodySizeError(RejectedSize(cfg, stream, r.messages)))
  {
    if s0.state == Closed {
      return Thrown(SocketHasClosed, [], s0);
    }
    if chunk.OtherChunk? {
      return Thrown(InvalidData, [], s0);
    }
    var data := ChunkBytes(chunk);
    ghost var stream := Pending(s0) + data;
    ghost var open := Open(cfg, s0);
    ghost var stuck := s0.state == Head && s0.headOffset == cfg.headSize;
    var s := s0;
    var offset := 0;
    var messages: seq<seq<Byte>> := [];
    var closeRequested := false;
    assert data[0..] == data;
    while offset < |data| && s.state != Closed && !closeRequested
      invariant LoopInv(cfg, open, stream, data, s, offset, messages, closeRequested)
      invariant offset == 0 ==> s == s0 && messages == [] && !closeRequested
      invariant stuck ==> s == s0 && messages == [] && (offset > 0 ==> closeRequested && cfg.headHandler(s0.headBuffer) >= 0)
      decreases |data| - offset
    {
      var step := Iterate(cfg, s, data, offset);
      if stuck {
        RejectedHeadSticks(cfg, s, data, offset);
      }
      if step.Threw? {
        ThrowMeansBadHead(cfg, open, stream, data, s, offset, messages);
        return Thrown(InvalidBodySizeError(step.size), messages, step.socket);
      }
      LoopStep(cfg, open, stream, data, s, offset, messages, step);
      s := step.socket;
      offset := step.offset;
      closeRequested := step.closeRequested;
      messages := messages + Emits(step.message);
    }
    LoopEnd(cfg, open, stream, data, s, offset, messages, closeRequested);
    return Consumed(s, messages, closeRequested);
  }

  /** The invariant of the `ondata` loop: the emitted messages are complete
      packages and, on a socket that was open, they followed by what the
      socket holds and the unread rest of the chunk are the whole stream;
      a close request means the messages stop at a head of a bad type. */
  ghost predicate LoopInv(cfg: Config, open: bool, stream: seq<Byte>, data: seq<Byte>, s: Socket, offset: nat,
                          messages: seq<seq<Byte>>, closeRequested: bool) {
    && offset <= |data|
    && Valid(cfg, s) && s.state != Closed
    && AllFrames(cfg, messages)
    && (closeRequested ==> offset == |data| && !Open(cfg, s))
    && (open && !closeRequested ==> Open(cfg, s) && Flatten(messages) + (Pending(s) + data[offset..]) == stream)
    && (open && closeRequested ==> CutAtBadHead(cfg, stream, messages) && RejectedSize(cfg, stream, messages) >= 0)
  }

  /** The packages in front of a head the socket rejects: complete
      packages, then that head. */
  ghost predicate CutAtBadHead(cfg: Config, stream: seq<Byte>, messages: seq<seq<Byte>>) {
    && AllFrames(cfg, messages)
    && IsPrefix(Flatten(messages), stream)
    && BadStart(cfg, stream[|Flatten(messages)|..])
  }

  /** The length the handler reads from the rejected head. */
  ghost function RejectedSize(cfg: Config, stream: seq<Byte>, messages: seq<seq<Byte>>): int
    requires CutAtBadHead(cfg, stream, messages)
  {
    RejectedHead(cfg, stream[|Flatten(messages)|..])
  }

  /** Only one run of packages stops at a bad head: the messages a
      rejecting `ondata` emits are determined by the stream. */
  lemma {:induction false} CutAtBadHeadUnique(cfg: Config, stream: seq<Byte>, a: seq<seq<Byte>>, b: seq<seq<Byte>>)
    requires CutAtBadHead(cfg, stream, a) && CutAtBadHead(cfg, stream, b)
    ensures a == b
    decreases |a|
  {
    if a == [] && b != [] {
      FirstIsPrefix(cfg, stream, b);
      NoFrameStarts(cfg, stream);
      assert false;
    } else if a != [] && b == [] {
      FirstIsPrefix(cfg, stream, a);
      NoFrameStarts(cfg, stream);
      assert false;
    } else if a != [] {
      FirstIsPrefix(cfg, stream, a);
      FirstIsPrefix(cfg, stream, b);
      PrefixFramesAgree(cfg, a[0], b[0], stream);
      var tail := stream[|a[0]|..];
      CutAfterFirst(cfg, stream, a);
      CutAfterFirst(cfg, stream, b);
      CutAtBadHeadUnique(cfg, tail, a[1..], b[1..]);
      assert a == [a[0]] + a[1..] && b == [b[0]] + b[1..];
    }
  }

  lemma FirstIsPrefix(cfg: Config, stream: seq<Byte>, ms: seq<seq<Byte>>)
    requires CutAtBadHead(cfg, stream, ms) && ms != []
    ensures Frame(cfg, ms[0]) && IsPrefix(ms[0], stream)
  {
    assert Flatten(ms) == ms[0] + Flatten(ms[1..]);
    assert stream[..|ms[0]|] == Flatten(ms)[..|ms[0]|];
  }

  /** The packages after the first stop at the same bad head. */
  lemma CutAfterFirst(cfg: Config, stream: seq<Byte>, ms: seq<seq<Byte>>)
    requires CutAtBadHead(cfg, stream, ms) && ms != []
    ensures |ms[0]| <= |stream| && CutAtBadHead(cfg, stream[|ms[0]|..], ms[1..])
  {
    var rest := stream[|Flatten(ms)|..];
    PrefixSplit(Flatten(ms), stream);
    assert Flatten(ms) == ms[0] + Flatten(ms[1..]);
    DropFirst(ms[0], Flatten(ms[1..]), rest, stream);
    AllFramesTail(cfg, ms);
    CutAfter(cfg, stream[|ms[0]|..], ms[1..], rest);
  }

  lemma PrefixSplit(p: seq<Byte>, s: seq<Byte>)
    requires IsPrefix(p, s)
    ensures s == p + s[|p|..]
  {
    assert s == s[..|p|] + s[|p|..];
  }

  lemma DropFirst(a: seq<Byte>, b: seq<Byte>, c: seq<Byte>, s: seq<Byte>)
    requires s == (a + b) + c
    ensures |a| <= |s| && s[|a|..] == b + c
  {
    assert (a + b) + c == a + (b + c);
  }

  lemma AllFramesTail(cfg: Config, ms: seq<seq<Byte>>)
    requires AllFrames(cfg, ms) && ms != []
    ensures AllFrames(cfg, ms[1..])
  {
    forall i | 0 <= i < |ms[1..]| ensures Frame(cfg, ms[1..][i]) {
      assert ms[1..][i] == ms[i + 1];
    }
  }

  /** Two packages that both start a stream are the same package: the
      head fixes the length. */
  lemma PrefixFramesAgree(cfg: Config, f: seq<Byte>, g: seq<Byte>, stream: seq<Byte>)
    requires Frame(cfg, f) && Frame(cfg, g) && IsPrefix(f, stream) && IsPrefix(g, stream)
    ensures f == g
  {
    assert f[..cfg.headSize] == stream[..cfg.headSize] == g[..cfg.headSize];
    assert f == stream[..|f|] && g == stream[..|g|];
  }

  lemma CutAfter(cfg: Config, stream: seq<Byte>, messages: seq<seq<Byte>>, rest: seq<Byte>)
    requires AllFrames(cfg, messages) && Flatten(messages) + rest == stream && BadStart(cfg, rest)
    ensures CutAtBadHead(cfg, stream, messages) && stream[|Flatten(messages)|..] == rest
    ensures Deframe(cfg, stream).BadHead?
  {
    assert stream[..|Flatten(messages)|] == Flatten(messages);
    assert stream[|Flatten(messages)|..] == rest;
    BadHeadAfterFrames(cfg, messages, rest);
  }

  lemma LoopStep(cfg: Config, open: bool, stream: seq<Byte>, data: seq<Byte>, s: Socket, offset: nat,
                 messages: seq<seq<Byte>>, step: Step)
    requires LoopInv(cfg, open, stream, data, s, offset, messages, false)
    requires offset < |data| && step == Iterate(cfg, s, data, offset) && step.Stepped?
    ensures LoopInv(cfg, open, stream, data, step.socket, step.offset, messages + Emits(step.message), step.closeRequested)
  {
    var next := messages + Emits(step.message);
    assert AllFrames(cfg, next);
    if step.closeRequested {
      if open {
        CutAfter(cfg, stream, messages, Pending(s) + data[offset..]);
        assert next == messages;
      }
    } else if open {
      FlattenAppend(messages, Emits(step.message));
      Regroup3(Flatten(messages), Flatten(Emits(step.message)), Pending(step.socket) + data[step.offset..]);
    }
  }

  lemma ThrowMeansBadHead(cfg: Config, open: bool, stream: seq<Byte>, data: seq<Byte>, s: Socket, offset: nat,
                          messages: seq<seq<Byte>>)
    requires LoopInv(cfg, open, stream, data, s, offset, messages, false)
    requires offset < |data| && Iterate(cfg, s, data, offset).Threw?
    ensures open ==> && Deframe(cfg, stream).BadHead? && CutAtBadHead(cfg, stream, messages)
                     && RejectedSize(cfg, stream, messages) == Iterate(cfg, s, data, offset).size < 0
  {
    if open {
      CutAfter(cfg, stream, messages, Pending(s) + data[offset..]);
    }
  }

  lemma LoopEnd(cfg: Config, open: bool, stream: seq<Byte>, data: seq<Byte>, s: Socket, offset: nat,
                messages: seq<seq<Byte>>, closeRequested: bool)
    requires LoopInv(cfg, open, stream, data, s, offset, messages, closeRequested)
    requires !(offset < |data| && s.state != Closed && !closeRequested)
    ensures open && !closeRequested ==> Deframe(cfg, stream) == Framed(messages, Pending(s)) && Open(cfg, s)
    ensures open && closeRequested ==> Deframe(cfg, stream).BadHead?
  {
    if open && closeRequested {
      CutAfter(cfg, stream, messages, stream[|Flatten(messages)|..]);
    }
    if open && !closeRequested {
      assert Pending(s) + data[offset..] == Pending(s);
      PartialDeframes(cfg, Pending(s));
      DeframeAfterFrames(cfg, messages, Pending(s));
      assert messages + [] == messages;
    }
  }

  lemma Regroup3(a: seq<Byte>, b: seq<Byte>, c: seq<Byte>)
    ensures (a + b) + c == a + (b + c)
  {
  }

  lemma {:induction false} FlattenAppend(a: seq<seq<Byte>>, b: seq<seq<Byte>>)
    ensures Flatten(a + b) == Flatten(a) + Flatten(b)
    decreases |a|
  {
    if a == [] {
      assert a + b == b;
    } else {
      assert (a + b)[1..] == a[1..] + b;
      FlattenAppend(a[1..], b);
    }
  }

  /** `onend(socket, chunk)`: a truthy final chunk is written back, the
      state is set to CLOSED and then reset, so the socket ends up waiting
      for a head again. */
  function OnEnd(s: Socket, chunk: Option<seq<Byte>>): (r: (Socket, Option<seq<Byte>>))
    ensures r.0 == Reset() && r.0.state == Head
    ensures r.1 == chunk
  {
    (Reset(), chunk)
  }

  // ----- the reference cutting of a byte stream -----

  datatype Deframed = Framed(frames: seq<seq<Byte>>, leftover: seq<Byte>) | BadHead

  /** Cuts a byte stream into packages: the complete packages at its
      start and the incomplete rest, or `BadHead` when a head has an
      invalid type or a negative length. */
  function Deframe(cfg: Config, bytes: seq<Byte>): (r: Deframed)
    requires cfg.headSize > 0
    decreases |bytes|
  {
    if |bytes| < cfg.headSize then Framed([], bytes)
    else
      var size := cfg.headHandler(bytes[..cfg.headSize]);
      if size < 0 || !CheckTypeData(bytes[0]) then BadHead
      else if |bytes| < cfg.headSize + size then Framed([], bytes)
      else
        match Deframe(cfg, bytes[cfg.headSize + size..])
        case BadHead => BadHead
        case Framed(fs, rest) => Framed([bytes[..cfg.headSize + size]] + fs, rest)
  }

  function Prepend(fs: seq<seq<Byte>>, d: Deframed): Deframed {
    if d.BadHead? then BadHead else Framed(fs + d.frames, d.leftover)
  }

  /** A complete package in front of a stream is cut off. */
  lemma DeframeAfterFrame(cfg: Config, f: seq<Byte>, tail: seq<Byte>)
    requires cfg.headSize > 0 && Frame(cfg, f)
    ensures Deframe(cfg, f + tail) == Prepend([f], Deframe(cfg, tail))
  {
    var bytes := f + tail;
    assert bytes[..cfg.headSize] == f[..cfg.headSize];
    assert bytes[0] == f[0];
    assert bytes[|f|..] == tail;
    assert bytes[..|f|] == f;
  }

  /** Complete packages in front of a stream are cut off one by one. */
  lemma {:induction false} DeframeAfterFrames(cfg: Config, fs: seq<seq<Byte>>, rest: seq<Byte>)
    requires cfg.headSize > 0
    requires AllFrames(cfg, fs)
    ensures Deframe(cfg, Flatten(fs) + rest) == Prepend(fs, Deframe(cfg, rest))
    decreases |fs|
  {
    if fs == [] {
      assert Flatten(fs) + rest == rest;
      assert Deframe(cfg, rest).Framed? ==> fs + Deframe(cfg, rest).frames == Deframe(cfg, rest).frames;
    } else {
      var tail := Flatten(fs[1..]) + rest;
      assert Flatten(fs) + rest == fs[0] + tail;
      DeframeAfterFrame(cfg, fs[0], tail);
      DeframeAfterFrames(cfg, fs[1..], rest);
      PrependTwice(fs[0], fs[1..], Deframe(cfg, rest));
      assert [fs[0]] + fs[1..] == fs;
    }
  }

  lemma PrependTwice(f: seq<Byte>, fs: seq<seq<Byte>>, d: Deframed)
    ensures Prepend([f], Prepend(fs, d)) == Prepend([f] + fs, d)
  {
    if d.Framed? {
      assert [f] + (fs + d.frames) == ([f] + fs) + d.frames;
    }
  }

  lemma BadHeadAfterFrames(cfg: Config, fs: seq<seq<Byte>>, rest: seq<Byte>)
    requires AllFrames(cfg, fs) && BadStart(cfg, rest)
    ensures Deframe(cfg, Flatten(fs) + rest).BadHead?
  {
    DeframeAfterFrames(cfg, fs, rest);
  }

  /** The start of a package is not cut. */
  lemma PartialDeframes(cfg: Config, p: seq<Byte>)
    requires cfg.headSize > 0 && Partial(cfg, p)
    ensures Deframe(cfg, p) == Framed([], p)
  {
  }

  /** Packages written back to back are read back unchanged: cutting the
      concatenation of complete packages gives those packages. */
  lemma FrameRoundTrip(cfg: Config, fs: seq<seq<Byte>>)
    requires cfg.headSize > 0
    requires AllFrames(cfg, fs)
    ensures Deframe(cfg, Flatten(fs)) == Framed(fs, [])
  {
    DeframeAfterFrames(cfg, fs, []);
    assert Flatten(fs) + [] == Flatten(fs);
    assert fs + [] == fs;
  }

  /** How the stream is split into chunks does not matter: what two
      chunks yield one after the other is what their concatenation yields
      at once. */
  lemma ChunkingIrrelevant(cfg: Config, p: seq<Byte>, c1: seq<Byte>, c2: seq<Byte>)
    requires cfg.headSize > 0
    requires Deframe(cfg, p + c1).Framed?
    requires Deframe(cfg, Deframe(cfg, p + c1).leftover + c2).Framed?
    ensures Deframe(cfg, p + (c1 + c2)) ==
              Framed(Deframe(cfg, p + c1).frames + Deframe(cfg, Deframe(cfg, p + c1).leftover + c2).frames,
                     Deframe(cfg, Deframe(cfg, p + c1).leftover + c2).leftover)
  {
    var d1 := Deframe(cfg, p + c1);
    DeframeSplits(cfg, p + c1);
    var rest := d1.leftover + c2;
    Regroup(p, c1, Flatten(d1.frames), d1.leftover, c2);
    DeframeAfterFrames(cfg, d1.frames, rest);
  }

  lemma Regroup(a: seq<Byte>, b: seq<Byte>, x: seq<Byte>, y: seq<Byte>, c: seq<Byte>)
    requires a + b == x + y
    ensures a + (b + c) == x + (y + c)
  {
    assert a + (b + c) == (a + b) + c;
    assert x + (y + c) == (x + y) + c;
  }

  /** What `Deframe` returns is packages followed by the leftover. */
  lemma {:induction false} DeframeSplits(cfg: Config, bytes: seq<Byte>)
    requires cfg.headSize > 0 && Deframe(cfg, bytes).Framed?
    ensures bytes == Flatten(Deframe(cfg, bytes).frames) + Deframe(cfg, bytes).leftover
    ensures AllFrames(cfg, Deframe(cfg, bytes).frames)
    ensures Partial(cfg, Deframe(cfg, bytes).leftover)
    decreases |bytes|
  {
    if |bytes| >= cfg.headSize {
      var n := cfg.headSize + cfg.headHandler(bytes[..cfg.headSize]);
      if |bytes| >= n {
        var f, rest := FirstFrame(cfg, bytes);
        DeframeSplits(cfg, rest);
        var d := Deframe(cfg, rest);
        ConsFrames(cfg, f, d.frames, d.leftover);
      }
    }
  }

  /** The first package of a stream that holds one whole. */
  lemma FirstFrame(cfg: Config, bytes: seq<Byte>) returns (f: seq<Byte>, rest: seq<Byte>)
    requires cfg.headSize > 0 && Deframe(cfg, bytes).Framed?
    requires |bytes| >= cfg.headSize && |bytes| >= cfg.headSize + cfg.headHandler(bytes[..cfg.headSize])
    ensures Frame(cfg, f) && bytes == f + rest && |rest| < |bytes|
    ensures Deframe(cfg, rest).Framed? && Deframe(cfg, bytes) == Framed([f] + Deframe(cfg, rest).frames, Deframe(cfg, rest).leftover)
  {
    var n := cfg.headSize + cfg.headHandler(bytes[..cfg.headSize]);
    f := bytes[..n];
    rest := bytes[n..];
    assert f[..cfg.headSize] == bytes[..cfg.headSize];
    assert bytes == f + rest;
  }

  lemma ConsFrames(cfg: Config, f: seq<Byte>, fs: seq<seq<Byte>>, rest: seq<Byte>)
    requires Frame(cfg, f) && AllFrames(cfg, fs)
    ensures AllFrames(cfg, [f] + fs)
    ensures f + (Flatten(fs) + rest) == Flatten([f] + fs) + rest
  {
    assert ([f] + fs)[1..] == fs;
    assert Flatten([f] + fs) == f + Flatten(fs);
  }

  // ----- the hybrid connector's configuration -----

  /** The configuration the TCP processor uses: four-byte heads and
      `utils.headHandler` (which is only ever given four bytes). */
  function ProcessorConfig(): (cfg: Config)
    ensures cfg.headSize == 4
  {
    Config(4, (h: seq<Byte>) => if |h| >= 4 then Utils.HeadLength(h) else 0)
  }

  /** A package of a valid type and a body shorter than 2^24 bytes,
      encoded with its head, is a complete package for the processor. */
  lemma EncodedPackageIsFrame(t: Byte, body: seq<Byte>)
    requires CheckTypeData(t) && |body| < 0x100_0000
    ensures Frame(ProcessorConfig(), Utils.EncodeHead(t, |body|) + body)
  {
    var f := Utils.EncodeHead(t, |body|) + body;
    assert f[..4] == Utils.EncodeHead(t, |body|);
    Utils.HeadRoundTrip(t, |body|);
  }

  /** A package as a sender writes it: the four-byte head, then the body. */
  function Encode(t: Byte, body: seq<Byte>): (f: seq<Byte>)
    requires |body| < 0x100_0000
  {
    Utils.EncodeHead(t, |body|) + body
  }

  /** Packages encoded back to back are cut into exactly those packages
      by the processor's configuration. */
  lemma EncodedPackagesRoundTrip(types: seq<Byte>, bodies: seq<seq<Byte>>)
    requires |types| == |bodies|
    requires forall i :: 0 <= i < |types| ==> CheckTypeData(types[i]) && |bodies[i]| < 0x100_0000
    ensures var fs := seq(|types|, i requires 0 <= i < |types| => Encode(types[i], bodies[i]));
            Deframe(ProcessorConfig(), Flatten(fs)) == Framed(fs, [])
  {
    var fs := seq(|types|, i requires 0 <= i < |types| => Encode(types[i], bodies[i]));
    forall i | 0 <= i < |fs| ensures Frame(ProcessorConfig(), fs[i]) {
      EncodedPackageIsFrame(types[i], bodies[i]);
    }
    FrameRoundTrip(ProcessorConfig(), fs);
  }

  /** A socket holding a rejected head stays stuck on it.  After a head of
      a negative length every further chunk throws the same size again;
      after a head of an unknown type the socket asks to be closed and,
      until it is, every further chunk is swallowed whole and the request
      is repeated.  No message is emitted either way. */
  lemma RejectedHeadSticks(cfg: Config, s: Socket, data: seq<Byte>, offset: nat)
    requires Valid(cfg, s) && s.state == Head && s.headOffset == cfg.headSize && offset < |data|
    ensures cfg.headHandler(s.headBuffer) < 0 ==>
              Iterate(cfg, s, data, offset) == Threw(cfg.headHandler(s.headBuffer), s)
    ensures cfg.headHandler(s.headBuffer) >= 0 ==>
              Iterate(cfg, s, data, offset) == Stepped(s, |data|, None, true)
  {
    assert s.headBuffer + data[offset..offset] == s.headBuffer;
  }
}
