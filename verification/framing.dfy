/** Wire framing of one connection (connection_manager.rs:70-177): every batch of payloads
    travels as an 8-byte big-endian length followed by the encoded batch, the receiver keeps
    at most one pending length (`next_len`) across calls, and the in-process loopback is a
    plain queue that bypasses framing.

    The socket is an abstract pair of byte strings: `avail` holds the bytes the peer has
    delivered and this side has not yet read, `outbox` the bytes this side has written.
    A read of the 8-byte prefix is all-or-would-block (fewer than 8 available bytes are
    left where they are); write results are parameters. */
module Framing {
  import opened Addressing
  import opened Messages

  const PREFIX_LEN: nat := 8
  const U64_LIMIT: nat := 0x1_0000_0000_0000_0000

  /* ---------------- the 8-byte big-endian length ---------------- */

  function Pow256(k: nat): (p: nat)
    ensures p > 0
  {
    if k == 0 then 1 else 256 * Pow256(k - 1)
  }

  lemma Pow256Eight()
    ensures Pow256(PREFIX_LEN) == U64_LIMIT
  {
    assert Pow256(2) == 65536;
  }

  /** `u64::to_be_bytes` generalised to `k` bytes: most significant byte first. */
  function BigEndian(n: nat, k: nat): (r: Bytes)
    requires n < Pow256(k)
    ensures |r| == k
  {
    if k == 0 then []
    else
      assert n / 256 < Pow256(k - 1) by { DivBound(n, Pow256(k - 1)); }
      BigEndian(n / 256, k - 1) + [(n % 256) as byte]
  }

  /** `u64::from_be_bytes` generalised to any width. */
  function FromBigEndian(b: Bytes): (n: nat)
    ensures n < Pow256(|b|)
  {
    if b == [] then 0
    else
      var hi := FromBigEndian(b[..|b| - 1]);
      MulAddBound(hi, b[|b| - 1] as nat, Pow256(|b| - 1));
      hi * 256 + b[|b| - 1] as nat
  }

  lemma DivBound(n: nat, p: nat)
    requires n < 256 * p
    ensures n / 256 < p
  {
  }

  lemma MulAddBound(hi: nat, lo: nat, p: nat)
    requires hi < p && lo < 256
    ensures hi * 256 + lo < 256 * p
  {
  }

  /** Decoding the big-endian bytes of `n` gives back `n`. */
  lemma {:induction false} FromBigEndianOfBigEndian(n: nat, k: nat)
    requires n < Pow256(k)
    ensures FromBigEndian(BigEndian(n, k)) == n
  {
    if k > 0 {
      DivBound(n, Pow256(k - 1));
      var hi := BigEndian(n / 256, k - 1);
      assert BigEndian(n, k) == hi + [(n % 256) as byte];
      FromBigEndianOfBigEndian(n / 256, k - 1);
      FromBigEndianSnoc(hi, (n % 256) as byte);
      DivMod256(n);
    }
  }

  /** Appending a low byte shifts the decoded value one byte up. */
  lemma FromBigEndianSnoc(init: Bytes, last: byte)
    ensures FromBigEndian(init + [last]) == FromBigEndian(init) * 256 + last as nat
  {
    assert (init + [last])[..|init|] == init;
  }

  lemma DivMod256(n: nat)
    ensures n / 256 * 256 + n % 256 == n
  {
  }

  /** Encoding the decoded value of `b` at `b`'s width gives back `b`. */
  lemma {:induction false} BigEndianOfFromBigEndian(b: Bytes)
    ensures BigEndian(FromBigEndian(b), |b|) == b
  {
    if b != [] {
      var init := b[..|b| - 1];
      var n := FromBigEndian(b);
      var hi := FromBigEndian(init);
      assert n == hi * 256 + b[|b| - 1] as nat;
      assert n / 256 == hi && n % 256 == b[|b| - 1] as nat;
      BigEndianOfFromBigEndian(init);
      assert init + [b[|b| - 1]] == b;
    }
  }

  /** The 8-byte length prefix of a frame whose body is `len` bytes long. */
  function LengthPrefix(len: nat): (r: Bytes)
    requires len < U64_LIMIT
    ensures |r| == PREFIX_LEN && FromBigEndian(r) == len
  {
    Pow256Eight();
    FromBigEndianOfBigEndian(len, PREFIX_LEN);
    BigEndian(len, PREFIX_LEN)
  }

  /** Any eight bytes are the prefix of exactly one length. */
  lemma LengthPrefixOfRead(b: Bytes)
    requires |b| == PREFIX_LEN
    ensures FromBigEndian(b) < U64_LIMIT && LengthPrefix(FromBigEndian(b)) == b
  {
    Pow256Eight();
    BigEndianOfFromBigEndian(b);
  }

  /* ---------------- the serializer, as a parameter ---------------- */

  /** `serde_cbor::to_vec` / `from_slice` on a batch of payloads. */
  datatype Codec = Codec(encode: seq<Payload> -> Bytes, decode: Bytes -> Option<seq<Payload>>)

  /** What the core relies on: decoding undoes encoding, and an encoded batch is
      non-empty and short enough for its length to fit the prefix. */
  ghost predicate ValidCodec(c: Codec) {
    forall batch :: c.decode(c.encode(batch)) == Some(batch) && 0 < |c.encode(batch)| < U64_LIMIT
  }

  /** One frame on the wire. */
  function Frame(body: Bytes): (r: Bytes)
    requires |body| < U64_LIMIT
    ensures |r| == PREFIX_LEN + |body| && r[PREFIX_LEN..] == body
    ensures FromBigEndian(r[..PREFIX_LEN]) == |body|
  {
    var p := LengthPrefix(|body|);
    assert (p + body)[..PREFIX_LEN] == p;
    p + body
  }

  /** The bytes a sender writes for a sequence of batches, one frame each. */
  function Frames(codec: Codec, batches: seq<seq<Payload>>): (r: Bytes)
    requires ValidCodec(codec)
  {
    if batches == [] then [] else Frame(codec.encode(batches[0])) + Frames(codec, batches[1..])
  }

  function Flatten(batches: seq<seq<Payload>>): seq<Payload> {
    if batches == [] then [] else batches[0] + Flatten(batches[1..])
  }

  function Concat(chunks: seq<Bytes>): Bytes {
    if chunks == [] then [] else chunks[0] + Concat(chunks[1..])
  }

  /* ---------------- `ConnectionInner` ---------------- */

  /** `ConnectionInner`: a TCP stream with its pending length, or the loopback queue. */
  datatype Inner =
    | External(avail: Bytes, nextLen: Option<nat>, outbox: Bytes)
    | Internal(payloads: seq<Payload>)

  /** Outcome of one `stream.write`; partial writes are not modelled. */
  datatype WriteResult = Written | WriteFailed(kind: IoErrorKind)

  /** `ConnectionInner::send`: the loopback appends the batch to its queue; a stream
      writes the length prefix and then the encoded batch, stopping at the first
      failed write. */
  function InnerSend(inner: Inner, payloads: seq<Payload>, codec: Codec,
                     prefixWrite: WriteResult, bodyWrite: WriteResult): (r: (Inner, Result<(), Error>))
    requires ValidCodec(codec)
    ensures inner.Internal? ==> r.0 == Internal(inner.payloads + payloads) && r.1.Ok?
    ensures inner.External? ==>
      && r.0.External? && r.0.avail == inner.avail && r.0.nextLen == inner.nextLen
      && (r.1.Ok? <==> prefixWrite.Written? && bodyWrite.Written?)
      && (r.1.Ok? ==> r.0.outbox == inner.outbox + Frame(codec.encode(payloads)))
      && (r.1.Err? ==> r.1.error.Io? && inner.outbox <= r.0.outbox)
  {
    match inner
    case Internal(queued) => (Internal(queued + payloads), Ok(()))
    case External(avail, nextLen, outbox) =>
      var bytes := codec.encode(payloads);
      var prefix := LengthPrefix(|bytes|);
      if prefixWrite.WriteFailed? then (inner, Err(Io(prefixWrite.kind)))
      else if bodyWrite.WriteFailed? then (External(avail, nextLen, outbox + prefix), Err(Io(bodyWrite.kind)))
      else
        assert prefix + bytes == Frame(bytes);
        (External(avail, nextLen, outbox + prefix + bytes), Ok(()))
  }

  /** `Connection::send`: as `InnerSend`, but a would-block failure counts as success. */
  function ConnectionSend(inner: Inner, payloads: seq<Payload>, codec: Codec,
                          prefixWrite: WriteResult, bodyWrite: WriteResult): (r: (Inner, Result<(), Error>))
    requires ValidCodec(codec)
    ensures r.0 == InnerSend(inner, payloads, codec, prefixWrite, bodyWrite).0
    ensures r.1.Err? <==> InnerSend(inner, payloads, codec, prefixWrite, bodyWrite).1 == Err(Io(OtherIo))
    ensures r.1.Err? ==> r.1.error == Io(OtherIo) && inner.External?
  {
    var sent := InnerSend(inner, payloads, codec, prefixWrite, bodyWrite);
    // `InnerSend` fails only with I/O errors, so this is "every error but would-block".
    match sent.1
    case Err(Io(OtherIo)) => (sent.0, Err(Io(OtherIo)))
    case _ => (sent.0, Ok(()))
  }

  /** No complete frame is buffered: the next receive would block. */
  predicate Blocked(inner: Inner) {
    && inner.External?
    && match inner.nextLen
       case None => |inner.avail| < PREFIX_LEN
       case Some(len) => |inner.avail| < len
  }

  /** Where a socket in an error state fails during one `ConnectionInner::receive`: at
      the read of the 8-byte prefix, at the peek for the body, or at the read of the
      body. A fault strikes only if the step gets that far. */
  datatype SocketFault = Healthy | PrefixReadFails | PeekFails | BodyReadFails

  /** `ConnectionInner::receive` with the pending length stored whenever the body is
      incomplete, including when none of it has arrived (the corrected behaviour; see
      `ReceiveStepAsWritten`). A failing peek returns before the length is stored; a
      failing body read stores it first. */
  function ReceiveStep(inner: Inner, codec: Codec, fault: SocketFault): (r: (Inner, Result<seq<Payload>, Error>))
    ensures inner.Internal? ==> r == (Internal([]), Ok(inner.payloads))
    ensures inner.External? ==> r.0.External? && r.0.outbox == inner.outbox
    ensures inner.External? && inner.nextLen.None? && fault.PrefixReadFails? ==> r == (inner, Err(Io(OtherIo)))
    ensures inner.External? && r.1.Ok? ==>
      && !fault.PeekFails? && !fault.BodyReadFails?
      && r.0.nextLen == None && |r.0.avail| <= |inner.avail| && inner.avail[|inner.avail| - |r.0.avail|..] == r.0.avail
      && (|r.0.avail| < |inner.avail| || (|r.0.avail| == |inner.avail| && inner.nextLen.Some?))
    ensures r.1 == Err(Io(WouldBlock)) ==> Blocked(r.0)
    ensures fault.Healthy? && Blocked(inner) ==> r == (inner, Err(Io(WouldBlock)))
    ensures inner.External? && r.1.Err? && !IsWouldBlock(r.1.error) ==>
      r.1.error == Cbor || (r.1.error == Io(OtherIo) && !fault.Healthy?)
  {
    match inner
    case Internal(queued) => (Internal([]), Ok(queued))
    case External(avail, nextLen, outbox) =>
      if nextLen.None? && fault.PrefixReadFails? then (inner, Err(Io(OtherIo)))
      else if nextLen.None? && |avail| < PREFIX_LEN then (inner, Err(Io(WouldBlock)))
      else
        var len := if nextLen.Some? then nextLen.value else FromBigEndian(avail[..PREFIX_LEN]);
        var rest := if nextLen.Some? then avail else avail[PREFIX_LEN..];
        if fault.PeekFails? then (External(rest, nextLen, outbox), Err(Io(OtherIo)))
        else if |rest| < len then (External(rest, Some(len), outbox), Err(Io(WouldBlock)))
        else if fault.BodyReadFails? then (External(rest, Some(len), outbox), Err(Io(OtherIo)))
        else
          var body := rest[..len];
          (External(rest[len..], None, outbox),
           match codec.decode(body) case Some(ps) => Ok(ps) case None => Err(Cbor))
  }

  /** `ConnectionInner::receive` as the source is written: when the prefix has been read
      but no body byte is available yet, `stream.peek(..)?` on a non-blocking socket
      fails with would-block and the `?` returns before `next_len` is stored, so the
      length just read is lost. In every other case it is the corrected step. */
  function ReceiveStepAsWritten(inner: Inner, codec: Codec, fault: SocketFault): (r: (Inner, Result<seq<Payload>, Error>))
    ensures inner.External? && !fault.PrefixReadFails? && !fault.PeekFails? && inner.nextLen.None?
            && |inner.avail| == PREFIX_LEN && FromBigEndian(inner.avail[..PREFIX_LEN]) > 0 ==>
      r == (External([], None, inner.outbox), Err(Io(WouldBlock)))
    ensures inner.External? && (inner.nextLen.Some? || |inner.avail| > PREFIX_LEN) ==>
      r == ReceiveStep(inner, codec, fault)
    ensures inner.Internal? || fault.PrefixReadFails? || fault.PeekFails? ==> r == ReceiveStep(inner, codec, fault)
  {
    match inner
    case Internal(queued) => (Internal([]), Ok(queued))
    case External(avail, nextLen, outbox) =>
      if nextLen.None? && fault.PrefixReadFails? then (inner, Err(Io(OtherIo)))
      else if nextLen.None? && |avail| < PREFIX_LEN then (inner, Err(Io(WouldBlock)))
      else
        var len := if nextLen.Some? then nextLen.value else FromBigEndian(avail[..PREFIX_LEN]);
        var rest := if nextLen.Some? then avail else avail[PREFIX_LEN..];
        if fault.PeekFails? then (External(rest, nextLen, outbox), Err(Io(OtherIo)))
        else if |rest| == 0 && len > 0 then (External(rest, nextLen, outbox), Err(Io(WouldBlock)))
        else if |rest| < len then (External(rest, Some(len), outbox), Err(Io(WouldBlock)))
        else if fault.BodyReadFails? then (External(rest, Some(len), outbox), Err(Io(OtherIo)))
        else
          var body := rest[..len];
          (External(rest[len..], None, outbox),
           match codec.decode(body) case Some(ps) => Ok(ps) case None => Err(Cbor))
  }

  /** The fault of the first step of a receive loop, and those of the later steps;
      steps beyond the list are healthy. */
  function FirstFault(faults: seq<SocketFault>): SocketFault {
    if faults == [] then Healthy else faults[0]
  }

  function LaterFaults(faults: seq<SocketFault>): seq<SocketFault> {
    if faults == [] then [] else faults[1..]
  }

  /** A socket that never fails. */
  predicate Faultless(faults: seq<SocketFault>) {
    forall i :: 0 <= i < |faults| ==> faults[i].Healthy?
  }

  lemma FaultlessLater(faults: seq<SocketFault>)
    requires Faultless(faults)
    ensures FirstFault(faults).Healthy? && Faultless(LaterFaults(faults))
  {
    if faults != [] {
      assert forall i :: 0 <= i < |faults[1..]| ==> faults[1..][i] == faults[i + 1];
    }
  }

  /** The loop of `Connection::receive`: read frames until the stream would block,
      collecting the batches; the loopback is drained once. Would-block never escapes,
      and any other error discards the batches collected so far. `faults` gives the
      socket's fault at each successive step. */
  function ReceiveLoop(inner: Inner, codec: Codec, faults: seq<SocketFault>, acc: seq<Payload>):
    (r: (Inner, Result<seq<Payload>, Error>))
    ensures inner.Internal? ==> r == (Internal([]), Ok(acc + inner.payloads))
    ensures inner.External? ==> r.0.External? && r.0.outbox == inner.outbox
    ensures r.1.Ok? ==> acc <= r.1.value
    ensures r.1.Err? ==> !IsWouldBlock(r.1.error)
    ensures r.1.Err? && Faultless(faults) ==> r.1.error == Cbor
    ensures r.1.Ok? && inner.External? ==> Blocked(r.0)
    decreases if inner.External? then |inner.avail| else 0, if inner.External? && inner.nextLen.Some? then 1 else 0
  {
    var (inner', res) := ReceiveStep(inner, codec, FirstFault(faults));
    match res
    case Ok(ps) =>
      if inner'.Internal? then (inner', Ok(acc + ps))
      else
        ReceiveLoop(inner', codec, LaterFaults(faults), acc + ps)
    case Err(e) =>
      if IsWouldBlock(e) then (inner', Ok(acc)) else (inner', Err(e))
  }

  /** `Connection::receive` on one connection's transport. */
  function ConnectionReceive(inner: Inner, codec: Codec, faults: seq<SocketFault>): (r: (Inner, Result<seq<Payload>, Error>))
  {
    ReceiveLoop(inner, codec, faults, [])
  }

  /* ---------------- round trip over split reads ---------------- */

  /** Bytes arriving from the peer. */
  function Arrive(inner: Inner, chunk: Bytes): (r: Inner)
    requires inner.External?
    ensures r.External? && r.avail == inner.avail + chunk && r.nextLen == inner.nextLen && r.outbox == inner.outbox
  {
    inner.(avail := inner.avail + chunk)
  }

  /** The receiver is called once after each chunk of bytes arrives; the batches it
      returns are collected until the first error. */
  function ReceiveChunks(inner: Inner, chunks: seq<Bytes>, codec: Codec): (r: (Inner, Result<seq<Payload>, Error>))
    requires inner.External?
    ensures r.0.External? && r.0.outbox == inner.outbox
    decreases |chunks|
  {
    if chunks == [] then (inner, Ok([]))
    else
      var first := ConnectionReceive(Arrive(inner, chunks[0]), codec, []);
      match first.1
      case Err(_) => first
      case Ok(ps) =>
        var later := ReceiveChunks(first.0, chunks[1..], codec);
        (later.0, if later.1.Ok? then Ok(ps + later.1.value) else later.1)
  }

  /** The receiver's state follows the byte stream: what it holds (`avail`) followed by
      what is still in flight (`future`) is exactly the frames of the batches it has not
      returned yet (`rest`), less the prefix of the first one when that length is pending. */
  ghost predicate Tracks(codec: Codec, inner: Inner, future: Bytes, rest: seq<seq<Payload>>)
    requires ValidCodec(codec)
  {
    && inner.External?
    && match inner.nextLen
       case None => inner.avail + future == Frames(codec, rest)
       case Some(len) =>
         && |rest| > 0 && len == |codec.encode(rest[0])|
         && inner.avail + future == codec.encode(rest[0]) + Frames(codec, rest[1..])
  }

  lemma SplitAt<T>(a: seq<T>, f: seq<T>, x: seq<T>, y: seq<T>)
    requires a + f == x + y && |a| >= |x|
    ensures a[..|x|] == x && a[|x|..] + f == y
  {
    assert a[..|x|] == (a + f)[..|x|] == (x + y)[..|x|];
    assert a[|x|..] + f == (a + f)[|x|..] == (x + y)[|x|..];
  }

  lemma FramesShape(codec: Codec, batches: seq<seq<Payload>>)
    requires ValidCodec(codec)
    ensures batches == [] <==> Frames(codec, batches) == []
    ensures batches != [] ==>
      Frames(codec, batches)
        == LengthPrefix(|codec.encode(batches[0])|) + (codec.encode(batches[0]) + Frames(codec, batches[1..]))
  {
    if batches != [] {
      FramesCons(codec, batches);
    }
  }

  /** A non-empty sequence of batches starts with the first batch's prefix and body. */
  lemma FramesCons(codec: Codec, batches: seq<seq<Payload>>)
    requires ValidCodec(codec) && batches != []
    ensures Frames(codec, batches)
        == LengthPrefix(|codec.encode(batches[0])|) + (codec.encode(batches[0]) + Frames(codec, batches[1..]))
  {
    FrameThen(codec.encode(batches[0]), Frames(codec, batches[1..]));
  }

  /** A frame followed by more bytes: the prefix, then the body, then the rest. */
  lemma FrameThen(body: Bytes, tail: Bytes)
    requires |body| < U64_LIMIT
    ensures Frame(body) + tail == LengthPrefix(|body|) + (body + tail)
  {
    var p := LengthPrefix(|body|);
    assert Frame(body) == p + body;
    assert (p + body) + tail == p + (body + tail);
  }

  lemma FlattenAppend(a: seq<seq<Payload>>, b: seq<seq<Payload>>)
    ensures Flatten(a + b) == Flatten(a) + Flatten(b)
  {
    if a != [] {
      assert (a + b)[1..] == a[1..] + b;
      FlattenAppend(a[1..], b);
    } else {
      assert a + b == b;
    }
  }

  /** One receive step keeps the receiver in step with the stream: it returns the next
      batch, or would-block, and never anything else; once nothing is in flight it only
      blocks when every batch has been returned. */
  lemma StepKeepsTracks(codec: Codec, inner: Inner, future: Bytes, rest: seq<seq<Payload>>)
    requires ValidCodec(codec) && Tracks(codec, inner, future, rest)
    ensures var r := ReceiveStep(inner, codec, Healthy);
      && (r.1.Ok? ==> |rest| > 0 && r.1.value == rest[0] && Tracks(codec, r.0, future, rest[1..]))
      && (r.1.Err? ==> r.1 == Err(Io(WouldBlock)) && Tracks(codec, r.0, future, rest))
      && (r.1.Err? && future == [] ==> rest == [] && r.0 == External([], None, inner.outbox))
  {
    FramesShape(codec, rest);
    match inner.nextLen
    case None =>
      if |inner.avail| >= PREFIX_LEN {
        var e0 := codec.encode(rest[0]);
        SplitAt(inner.avail, future, LengthPrefix(|e0|), e0 + Frames(codec, rest[1..]));
        var tail := inner.avail[PREFIX_LEN..];
        if |tail| >= |e0| {
          SplitAt(tail, future, e0, Frames(codec, rest[1..]));
        }
      }
    case Some(len) =>
      if |inner.avail| >= len {
        SplitAt(inner.avail, future, codec.encode(rest[0]), Frames(codec, rest[1..]));
      }
  }

  /** One turn of the receive loop, for an external stream. */
  lemma LoopUnfold(inner: Inner, codec: Codec, acc: seq<Payload>)
    requires inner.External?
    ensures var s := ReceiveStep(inner, codec, Healthy);
      && (s.1.Ok? ==> ReceiveLoop(inner, codec, [], acc) == ReceiveLoop(s.0, codec, [], acc + s.1.value))
      && (s.1 == Err(Io(WouldBlock)) ==> ReceiveLoop(inner, codec, [], acc) == (s.0, Ok(acc)))
  {
  }

  lemma FlattenPrefixCons(rest: seq<seq<Payload>>, k: nat, acc: seq<Payload>)
    requires 0 < k <= |rest|
    ensures (acc + rest[0]) + Flatten(rest[1..][..k - 1]) == acc + Flatten(rest[..k])
    ensures rest[k..] == rest[1..][k - 1..]
  {
    assert rest[..k] == [rest[0]] + rest[1..][..k - 1];
    assert ([rest[0]] + rest[1..][..k - 1])[1..] == rest[1..][..k - 1];
  }

  /** The receive loop returns a prefix of the outstanding batches, in order, and
      stays in step with the stream; with nothing in flight it returns all of them. */
  lemma {:induction false} LoopKeepsTracks(codec: Codec, inner: Inner, future: Bytes,
                                           rest: seq<seq<Payload>>, acc: seq<Payload>) returns (k: nat)
    requires ValidCodec(codec) && Tracks(codec, inner, future, rest)
    ensures k <= |rest|
    ensures ReceiveLoop(inner, codec, [], acc).1 == Ok(acc + Flatten(rest[..k]))
    ensures Tracks(codec, ReceiveLoop(inner, codec, [], acc).0, future, rest[k..])
    ensures future == [] ==> k == |rest| && ReceiveLoop(inner, codec, [], acc).0 == External([], None, inner.outbox)
    decreases |inner.avail|, if inner.nextLen.Some? then 1 else 0
  {
    var s := ReceiveStep(inner, codec, Healthy);
    StepKeepsTracks(codec, inner, future, rest);
    LoopUnfold(inner, codec, acc);
    if s.1.Ok? {
      var k' := LoopKeepsTracks(codec, s.0, future, rest[1..], acc + rest[0]);
      k := k' + 1;
      FlattenPrefixCons(rest, k, acc);
      assert s.1.value == rest[0];
      assert ReceiveLoop(inner, codec, [], acc) == ReceiveLoop(s.0, codec, [], acc + rest[0]);
      assert ReceiveLoop(s.0, codec, [], acc + rest[0]).1 == Ok((acc + rest[0]) + Flatten(rest[1..][..k']));
      assert ReceiveLoop(inner, codec, [], acc).1 == Ok(acc + Flatten(rest[..k]));
    } else {
      k := 0;
      assert rest[..0] == [] && rest[0..] == rest;
      assert Flatten(rest[..k]) == [];
      assert acc + Flatten(rest[..k]) == acc;
      assert ReceiveLoop(inner, codec, [], acc) == (s.0, Ok(acc));
      assert ReceiveLoop(inner, codec, [], acc).1 == Ok(acc + Flatten(rest[..k]));
    }
  }

  lemma {:induction false} ChunksKeepTracks(codec: Codec, inner: Inner, chunks: seq<Bytes>, rest: seq<seq<Payload>>)
    requires ValidCodec(codec) && Tracks(codec, inner, Concat(chunks), rest) && Blocked(inner)
    ensures ReceiveChunks(inner, chunks, codec) == (External([], None, inner.outbox), Ok(Flatten(rest)))
    decreases |chunks|
  {
    if chunks == [] {
      StepKeepsTracks(codec, inner, [], rest);
    } else {
      var k := FirstChunkTracks(codec, inner, chunks, rest);
      var first := ConnectionReceive(Arrive(inner, chunks[0]), codec, []);
      ChunksKeepTracks(codec, first.0, chunks[1..], rest[k..]);
      ChunksStep(codec, inner, chunks, rest, k);
    }
  }

  /** The first call's batches followed by the later calls' batches are all of them. */
  lemma ChunksStep(codec: Codec, inner: Inner, chunks: seq<Bytes>, rest: seq<seq<Payload>>, k: nat)
    requires inner.External? && chunks != [] && k <= |rest|
    requires ConnectionReceive(Arrive(inner, chunks[0]), codec, []).1 == Ok(Flatten(rest[..k]))
    requires ReceiveChunks(ConnectionReceive(Arrive(inner, chunks[0]), codec, []).0, chunks[1..], codec)
          == (External([], None, inner.outbox), Ok(Flatten(rest[k..])))
    ensures ReceiveChunks(inner, chunks, codec) == (External([], None, inner.outbox), Ok(Flatten(rest)))
  {
    ChunksUnfold(inner, chunks, codec);
    FlattenSplit(rest, k);
  }

  /** Flattening splits at any point of the list. */
  lemma FlattenSplit(batches: seq<seq<Payload>>, k: nat)
    requires k <= |batches|
    ensures Flatten(batches) == Flatten(batches[..k]) + Flatten(batches[k..])
  {
    assert batches[..k] + batches[k..] == batches;
    FlattenAppend(batches[..k], batches[k..]);
  }

  /** One step of `ReceiveChunks` when the first call and the later calls succeed. */
  lemma ChunksUnfold(inner: Inner, chunks: seq<Bytes>, codec: Codec)
    requires inner.External? && chunks != []
    requires ConnectionReceive(Arrive(inner, chunks[0]), codec, []).1.Ok?
    requires ReceiveChunks(ConnectionReceive(Arrive(inner, chunks[0]), codec, []).0, chunks[1..], codec).1.Ok?
    ensures ReceiveChunks(inner, chunks, codec)
         == (ReceiveChunks(ConnectionReceive(Arrive(inner, chunks[0]), codec, []).0, chunks[1..], codec).0,
             Ok(ConnectionReceive(Arrive(inner, chunks[0]), codec, []).1.value
                + ReceiveChunks(ConnectionReceive(Arrive(inner, chunks[0]), codec, []).0, chunks[1..], codec).1.value))
  {
  }

  /** The call after the first chunk arrives returns the next `k` batches and leaves
      the receiver blocked and in step with the remaining chunks. */
  lemma FirstChunkTracks(codec: Codec, inner: Inner, chunks: seq<Bytes>, rest: seq<seq<Payload>>) returns (k: nat)
    requires ValidCodec(codec) && Tracks(codec, inner, Concat(chunks), rest) && chunks != []
    ensures k <= |rest|
    ensures ConnectionReceive(Arrive(inner, chunks[0]), codec, []).1 == Ok(Flatten(rest[..k]))
    ensures Blocked(ConnectionReceive(Arrive(inner, chunks[0]), codec, []).0)
    ensures ConnectionReceive(Arrive(inner, chunks[0]), codec, []).0.outbox == inner.outbox
    ensures Tracks(codec, ConnectionReceive(Arrive(inner, chunks[0]), codec, []).0, Concat(chunks[1..]), rest[k..])
  {
    var arrived := Arrive(inner, chunks[0]);
    assert Concat(chunks) == chunks[0] + Concat(chunks[1..]);
    ArriveTracks(codec, inner, chunks[0], Concat(chunks[1..]), rest);
    k := LoopKeepsTracks(codec, arrived, Concat(chunks[1..]), rest, []);
    var got := ReceiveLoop(arrived, codec, [], []);
    assert ConnectionReceive(arrived, codec, []) == got;
    assert [] + Flatten(rest[..k]) == Flatten(rest[..k]);
  }

  /** Bytes arriving move from the future into the buffer without changing what the
      receiver is in step with. */
  lemma ArriveTracks(codec: Codec, inner: Inner, chunk: Bytes, future: Bytes, rest: seq<seq<Payload>>)
    requires ValidCodec(codec) && Tracks(codec, inner, chunk + future, rest)
    ensures Tracks(codec, Arrive(inner, chunk), future, rest)
  {
    assert (inner.avail + chunk) + future == inner.avail + (chunk + future);
  }

  /** Framing round trip: however the frames of a sequence of batches are split into
      chunks by the transport, receiving after each chunk returns exactly the batches'
      payloads in order and leaves the receiver empty with no pending length. */
  lemma FramingRoundTrip(codec: Codec, chunks: seq<Bytes>, batches: seq<seq<Payload>>, outbox: Bytes)
    requires ValidCodec(codec) && Concat(chunks) == Frames(codec, batches)
    ensures ReceiveChunks(External([], None, outbox), chunks, codec)
         == (External([], None, outbox), Ok(Flatten(batches)))
  {
    ChunksKeepTracks(codec, External([], None, outbox), chunks, batches);
  }

  /** What a successful `Connection::send` writes is read back by the peer as that batch. */
  lemma SendThenReceive(codec: Codec, sender: Inner, payloads: seq<Payload>, receiverOutbox: Bytes)
    requires ValidCodec(codec) && sender.External?
    ensures var sent := ConnectionSend(sender, payloads, codec, Written, Written);
      && sent.1.Ok?
      && sent.0.outbox == sender.outbox + Frames(codec, [payloads])
      && ConnectionReceive(External(Frames(codec, [payloads]), None, receiverOutbox), codec, [])
         == (External([], None, receiverOutbox), Ok(payloads))
  {
    var wire := Frames(codec, [payloads]);
    assert [payloads][1..] == [];
    assert wire == Frame(codec.encode(payloads)) + Frames(codec, []);
    assert wire + [] == wire;
    var k := LoopKeepsTracks(codec, External(wire, None, receiverOutbox), [], [payloads], []);
    assert [payloads][..1] == [payloads];
    assert k == 1;
    assert Flatten([payloads]) == payloads + Flatten([]);
    assert Flatten([payloads]) == payloads;
    assert [] + Flatten([payloads][..k]) == payloads;
    var got := ReceiveLoop(External(wire, None, receiverOutbox), codec, [], []);
    assert got.1 == Ok(payloads);
    assert got.0 == External([], None, receiverOutbox);
  }

  /** A fresh frame's prefix, read off a stream, gives the body's length and leaves the
      body and what follows it. */
  lemma PrefixThenBody(body: Bytes, tail: Bytes)
    requires |body| < U64_LIMIT
    ensures |Frame(body) + tail| >= PREFIX_LEN
    ensures FromBigEndian((Frame(body) + tail)[..PREFIX_LEN]) == |body|
    ensures (Frame(body) + tail)[PREFIX_LEN..] == body + tail
  {
    var f := Frame(body);
    assert (f + tail)[..PREFIX_LEN] == f[..PREFIX_LEN];
    assert (f + tail)[PREFIX_LEN..] == f[PREFIX_LEN..] + tail;
  }

  /** A body read that fails after the peek found the whole body stores the length and
      leaves the body in the socket; a later healthy call then returns the batch. */
  lemma BodyReadFailureKeepsLength(codec: Codec, batch: seq<Payload>, tail: Bytes, outbox: Bytes)
    requires ValidCodec(codec)
    ensures var body := codec.encode(batch);
      var failed := External(body + tail, Some(|body|), outbox);
      && ReceiveStep(External(Frame(body) + tail, None, outbox), codec, BodyReadFails) == (failed, Err(Io(OtherIo)))
      && ReceiveStep(failed, codec, BodyReadFails) == (failed, Err(Io(OtherIo)))
      && ReceiveStep(failed, codec, Healthy) == (External(tail, None, outbox), Ok(batch))
  {
    var body := codec.encode(batch);
    PrefixThenBody(body, tail);
    assert (body + tail)[..|body|] == body;
    assert (body + tail)[|body|..] == tail;
  }

  /** An error after an earlier frame of the same call discards that frame's batch: the
      bytes are consumed, and the caller gets only the error. */
  lemma ErrorDiscardsEarlierFrames(codec: Codec, batch: seq<Payload>, outbox: Bytes)
    requires ValidCodec(codec)
    ensures ReceiveLoop(External(Frame(codec.encode(batch)), None, outbox), codec, [Healthy, PrefixReadFails], [])
         == (External([], None, outbox), Err(Io(OtherIo)))
  {
    var body := codec.encode(batch);
    var inner := External(Frame(body), None, outbox);
    PrefixThenBody(body, []);
    assert Frame(body) + [] == Frame(body);
    assert body[..|body|] == body && body[|body|..] == [];
    assert ReceiveStep(inner, codec, Healthy) == (External([], None, outbox), Ok(batch));
    assert LaterFaults([Healthy, PrefixReadFails]) == [PrefixReadFails];
  }

  /** The as-written receiver, given a frame's length prefix alone, consumes it and ends
      in the state of a receiver that has read nothing, so the receiver no longer follows
      the stream: the body, once it arrives, is parsed from its first byte as a new
      prefix. The corrected step stores the length and stays in step. */
  lemma AsWrittenLosesPendingLength(codec: Codec, batch: seq<Payload>, outbox: Bytes)
    requires ValidCodec(codec)
    ensures var body := codec.encode(batch);
      var lone := External(LengthPrefix(|body|), None, outbox);
      && Tracks(codec, lone, body, [batch])
      && ReceiveStepAsWritten(lone, codec, Healthy) == (External([], None, outbox), Err(Io(WouldBlock)))
      && !Tracks(codec, External([], None, outbox), body, [batch])
      && ReceiveStep(lone, codec, Healthy) == (External([], Some(|body|), outbox), Err(Io(WouldBlock)))
      && Tracks(codec, External([], Some(|body|), outbox), body, [batch])
  {
    var body := codec.encode(batch);
    FramesShape(codec, [batch]);
    assert [batch][1..] == [];
    assert Frames(codec, [batch]) == LengthPrefix(|body|) + (body + []);
    var lone := LengthPrefix(|body|);
    assert lone[..PREFIX_LEN] == lone;
  }
}
