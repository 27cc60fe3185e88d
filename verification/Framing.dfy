/** Frames on a byte stream (ai_fingerprint/protocol.py). The JSON text of a
    header is given by a pair of inverse functions. */
module Framing {
  import opened Results

  type Byte = x: int | 0 <= x < 256

  type Bytes = seq<Byte>

  // ----- fixed-width numbers -----

  function Power(width: nat): nat {
    if width == 0 then 1 else 256 * Power(width - 1)
  }

  /** n in width bytes, the most significant first. */
  function BigEndian(n: nat, width: nat): (bytes: Bytes)
    ensures |bytes| == width
  {
    if width == 0 then [] else BigEndian(n / 256, width - 1) + [n % 256]
  }

  function Number(bytes: Bytes): nat {
    if bytes == [] then 0 else 256 * Number(bytes[..|bytes| - 1]) + bytes[|bytes| - 1]
  }

  lemma {:induction false} NumberOfBigEndian(n: nat, width: nat)
    requires n < Power(width)
    ensures Number(BigEndian(n, width)) == n
  {
    if width > 0 {
      NumberOfBigEndian(n / 256, width - 1);
      assert BigEndian(n, width)[..width - 1] == BigEndian(n / 256, width - 1);
    }
  }

  /** Byte number k of n, counted from the least significant. */
  function ByteOf(n: nat, k: nat): nat {
    if k == 0 then n % 256 else ByteOf(n / 256, k - 1)
  }

  /** The bytes are those of n, the most significant first. */
  predicate Spells(bytes: Bytes, n: nat) {
    forall i :: 0 <= i < |bytes| ==> bytes[i] == ByteOf(n, |bytes| - 1 - i)
  }

  lemma {:induction false} BigEndianSpells(n: nat, width: nat)
    ensures Spells(BigEndian(n, width), n)
  {
    if width > 0 {
      BigEndianSpells(n / 256, width - 1);
      var before := BigEndian(n / 256, width - 1);
      forall i | 0 <= i < width ensures BigEndian(n, width)[i] == ByteOf(n, width - 1 - i) {
        if i < width - 1 { assert BigEndian(n, width)[i] == before[i]; }
      }
    }
  }

  lemma Powers()
    ensures Power(4) == 0x1_0000_0000 && Power(8) == 0x1_0000_0000_0000_0000
  {
    assert Power(2) == 65536;
    assert Power(3) == 16777216;
    assert Power(5) == 0x100_0000_0000;
    assert Power(6) == 0x1_0000_0000_0000;
    assert Power(7) == 0x100_0000_0000_0000;
  }

  // ----- frames -----

  const HEADER_LIMIT := 1_000_000
  const PAYLOAD_LIMIT := 10_000_000_000

  /** The text of a header, and the header a text denotes, if any. */
  datatype Json<!H> = Json(dumps: H -> Bytes, loads: Bytes -> Option<H>)

  /** Decoding undoes encoding. */
  ghost predicate Inverse<H(!new)>(json: Json<H>) {
    forall h :: json.loads(json.dumps(h)) == Some(h)
  }

  datatype Frame<H> = Frame(header: H, payload: Bytes)

  /** A closed connection; a frame that cannot be packed; a header or payload that
      is too large; a header that is not JSON. */
  datatype FrameError = ConnectionClosed | Unpackable | HeaderTooLarge | PayloadTooLarge | BadHeader

  predicate Packable<H>(json: Json<H>, f: Frame<H>) {
    |json.dumps(f.header)| < 0x1_0000_0000 && |f.payload| < 0x1_0000_0000_0000_0000
  }

  /** What is sent for a frame. */
  function Wire<H>(json: Json<H>, f: Frame<H>): Bytes {
    BigEndian(|json.dumps(f.header)|, 4) + json.dumps(f.header) + BigEndian(|f.payload|, 8) + f.payload
  }

  predicate WithinLimits<H>(json: Json<H>, f: Frame<H>) {
    |json.dumps(f.header)| <= HEADER_LIMIT && |f.payload| <= PAYLOAD_LIMIT
  }

  /** A frame, and how many bytes it took. */
  datatype Received<H> = Received(frame: Frame<H>, used: nat)

  /** The first frame of a stream that ends after these bytes. */
  function Parse<H>(json: Json<H>, s: Bytes): (r: Result<Received<H>, FrameError>)
    ensures r.Ok? ==> r.value.used <= |s|
  {
    if |s| < 4 then Err(ConnectionClosed) else
    var size := Number(s[..4]);
    if size > HEADER_LIMIT then Err(HeaderTooLarge)
    else if |s| < 4 + size then Err(ConnectionClosed)
    else if json.loads(s[4..4 + size]).None? then Err(BadHeader)
    else ParsePayload(s, json.loads(s[4..4 + size]).value, 4 + size)
  }

  /** The frame whose header took the first used bytes. */
  function ParsePayload<H>(s: Bytes, header: H, used: nat): (r: Result<Received<H>, FrameError>)
    requires used <= |s|
    ensures r.Ok? ==> r.value.used <= |s|
  {
    if |s| < used + 8 then Err(ConnectionClosed) else
    var length := Number(s[used..used + 8]);
    if length > PAYLOAD_LIMIT then Err(PayloadTooLarge)
    else if |s| < used + 8 + length then Err(ConnectionClosed)
    else Ok(Received(Frame(header, s[used + 8..used + 8 + length]), used + 8 + length))
  }

  // ----- what is recovered -----

  /** The parts of a frame that is followed by more bytes. */
  lemma WireParts<H>(json: Json<H>, f: Frame<H>, rest: Bytes)
    requires Packable(json, f)
    ensures var s, h := Wire(json, f) + rest, |json.dumps(f.header)|;
            && |s| == 12 + h + |f.payload| + |rest|
            && Number(s[..4]) == h && s[4..4 + h] == json.dumps(f.header)
            && Number(s[4 + h..12 + h]) == |f.payload| && s[12 + h..12 + h + |f.payload|] == f.payload
  {
    var s, h := Wire(json, f) + rest, |json.dumps(f.header)|;
    Powers();
    NumberOfBigEndian(h, 4);
    NumberOfBigEndian(|f.payload|, 8);
    assert s[..4] == BigEndian(h, 4);
    assert s[4 + h..12 + h] == BigEndian(|f.payload|, 8);
  }

  /** A frame on the wire, byte by byte: four bytes of the header's length, the most
      significant first, the header, eight bytes of the payload's length, and the
      payload. */
  lemma WireLayout<H>(json: Json<H>, f: Frame<H>)
    requires Packable(json, f)
    ensures var s, h := Wire(json, f), |json.dumps(f.header)|;
            && |s| == 4 + h + 8 + |f.payload|
            && s[4..4 + h] == json.dumps(f.header) && s[12 + h..] == f.payload
            && Spells(s[..4], h) && Spells(s[4 + h..12 + h], |f.payload|)
  {
    var header, payload := |json.dumps(f.header)|, |f.payload|;
    BigEndianSpells(header, 4);
    BigEndianSpells(payload, 8);
    assert Wire(json, f)[..4] == BigEndian(header, 4);
    assert Wire(json, f)[4 + header..12 + header] == BigEndian(payload, 8);
  }

  /** A frame is recovered, whatever follows it, exactly when it is within the
      limits. */
  lemma RecoveredIffWithinLimits<H(!new)>(json: Json<H>, f: Frame<H>, rest: Bytes)
    requires Inverse(json) && Packable(json, f)
    ensures Parse(json, Wire(json, f) + rest) ==
            if |json.dumps(f.header)| > 1_000_000 then Err(HeaderTooLarge)
            else if |f.payload| > 10_000_000_000 then Err(PayloadTooLarge)
            else Ok(Received(f, |Wire(json, f)|))
  {
    hide Wire, Number;
    WireParts(json, f, rest);
    WireParts(json, f, []);
    assert Wire(json, f) + [] == Wire(json, f);
  }

  /** A frame that is cut off is never taken for another one. */
  lemma TruncatedFails<H(!new)>(json: Json<H>, f: Frame<H>, cut: nat)
    requires Inverse(json) && Packable(json, f) && WithinLimits(json, f) && cut < |Wire(json, f)|
    ensures Parse(json, Wire(json, f)[..cut]) == Err(ConnectionClosed)
  {
    hide Wire, Number;
    WireParts(json, f, []);
    var s, h := Wire(json, f), |json.dumps(f.header)|;
    assert s + [] == s;
    var t := s[..cut];
    assert cut >= 4 ==> t[..4] == s[..4];
    assert cut >= 4 + h ==> t[4..4 + h] == s[4..4 + h];
    assert cut >= 12 + h ==> t[4 + h..12 + h] == s[4 + h..12 + h];
  }

  function WireAll<H>(json: Json<H>, frames: seq<Frame<H>>): Bytes {
    if frames == [] then [] else Wire(json, frames[0]) + WireAll(json, frames[1..])
  }

  /** The frames of a stream, up to n of them, and what is left; or the error of
      the first call that fails, after the frames before it. */
  datatype Stream<H> = Stream(frames: seq<Frame<H>>, rest: Bytes, failure: Option<FrameError>)

  function ParseAll<H>(json: Json<H>, s: Bytes, n: nat): Stream<H> {
    if n == 0 then Stream([], s, None) else
      match Parse(json, s)
      case Err(e) => Stream([], s, Some(e))
      case Ok(received) =>
        var more := ParseAll(json, s[received.used..], n - 1);
        Stream([received.frame] + more.frames, more.rest, more.failure)
  }

  /** A list of frames is recovered and takes exactly its own bytes. */
  lemma {:induction false} FramesRecovered<H(!new)>(json: Json<H>, frames: seq<Frame<H>>, rest: Bytes)
    requires Inverse(json) && forall f :: f in frames ==> Packable(json, f) && WithinLimits(json, f)
    ensures ParseAll(json, WireAll(json, frames) + rest, |frames|) == Stream(frames, rest, None)
  {
    hide Parse, Wire;
    if frames == [] {
      assert WireAll(json, frames) + rest == rest;
    } else {
      var f, after := frames[0], WireAll(json, frames[1..]) + rest;
      var s := WireAll(json, frames) + rest;
      assert s == Wire(json, f) + after;
      RecoveredIffWithinLimits(json, f, after);
      assert s[|Wire(json, f)|..] == after;
      FramesRecovered(json, frames[1..], rest);
      assert frames == [f] + frames[1..];
    }
  }

  /** A stream cut off anywhere yields the whole frames before the cut and then
      the closed connection. */
  lemma {:induction false} TruncatedStream<H(!new)>(json: Json<H>, frames: seq<Frame<H>>, cut: nat, k: nat)
    requires Inverse(json) && forall f :: f in frames ==> Packable(json, f) && WithinLimits(json, f)
    requires k < |frames| && |WireAll(json, frames[..k])| <= cut < |WireAll(json, frames[..k + 1])|
    requires cut <= |WireAll(json, frames)|
    ensures var stream := ParseAll(json, WireAll(json, frames)[..cut], |frames|);
            stream.frames == frames[..k] && stream.failure == Some(ConnectionClosed)
    decreases k
  {
    hide Parse, Wire;
    var f, w := frames[0], Wire(json, frames[0]);
    var s := WireAll(json, frames);
    assert s == w + WireAll(json, frames[1..]);
    assert frames[..k + 1][0] == f && frames[..k + 1][1..] == frames[1..][..k];
    if k == 0 {
      assert frames[..1][1..] == [];
      assert s[..cut] == w[..cut];
      TruncatedFails(json, f, cut);
    } else {
      assert frames[..k][0] == f && frames[..k][1..] == frames[1..][..k - 1];
      var after := WireAll(json, frames[1..])[..cut - |w|];
      assert s[..cut] == w + after;
      RecoveredIffWithinLimits(json, f, after);
      assert s[..cut][|w|..] == after;
      TruncatedStream(json, frames[1..], cut - |w|, k - 1);
      assert frames[..k] == [f] + frames[1..][..k - 1];
    }
  }

  // ----- the socket -----

  /** A connection whose peer closes it after some bytes. How many bytes each
      recv yields, by number of the call, is arbitrary. */
  class Socket {
    const sizes: map<nat, nat>
    var calls: nat
    var incoming: Bytes
    var outgoing: Bytes

    constructor (sizes: map<nat, nat>, incoming: Bytes)
      ensures this.incoming == incoming && outgoing == []
    {
      this.sizes, this.incoming := sizes, incoming;
      calls, outgoing := 0, [];
    }

    /** At least one byte and at most n, or none when the peer has closed. */
    method Recv(n: nat) returns (chunk: Bytes)
      requires n > 0
      modifies `calls, `incoming
      ensures old(incoming) == chunk + incoming && |chunk| <= n
      ensures chunk == [] <==> old(incoming) == []
    {
      var most := if n < |incoming| then n else |incoming|;
      var size := if calls in sizes && 1 <= sizes[calls] <= most then sizes[calls] else most;
      chunk, incoming := incoming[..size], incoming[size..];
      calls := calls + 1;
    }

    method SendAll(bytes: Bytes)
      modifies `outgoing
      ensures outgoing == old(outgoing) + bytes
    {
      outgoing := outgoing + bytes;
    }

    /** However recv splits the stream, the next size bytes or a failure. */
    method RecvExact(size: nat) returns (r: Result<Bytes, FrameError>)
      modifies `calls, `incoming
      ensures |old(incoming)| >= size ==> r == Ok(old(incoming)[..size]) && incoming == old(incoming)[size..]
      ensures |old(incoming)| < size ==> r == Err(ConnectionClosed) && incoming == []
    {
      var chunks: Bytes := [];
      var remaining: nat := size;
      while remaining > 0
        invariant old(incoming) == chunks + incoming
        invariant |chunks| + remaining == size
      {
        var chunk := Recv(remaining);
        if chunk == [] { return Err(ConnectionClosed); }
        chunks := chunks + chunk;
        remaining := remaining - |chunk|;
      }
      assert chunks == old(incoming)[..size] && incoming == old(incoming)[size..];
      return Ok(chunks);
    }

    /** send_frame: a length that does not fit its field raises, a payload's after
        the header is out. */
    method SendFrame<H>(json: Json<H>, f: Frame<H>) returns (r: Result<(), FrameError>)
      modifies `outgoing
      ensures |json.dumps(f.header)| >= 0x1_0000_0000 ==> r == Err(Unpackable) && outgoing == old(outgoing)
      ensures |f.payload| >= 0x1_0000_0000_0000_0000 ==> r == Err(Unpackable)
      ensures Packable(json, f) ==> r == Ok(()) && outgoing == old(outgoing) + Wire(json, f)
    {
      hide BigEndian;
      var header := json.dumps(f.header);
      if |header| >= 0x1_0000_0000 { return Err(Unpackable); }
      SendAll(BigEndian(|header|, 4));
      SendAll(header);
      if |f.payload| >= 0x1_0000_0000_0000_0000 { return Err(Unpackable); }
      SendAll(BigEndian(|f.payload|, 8));
      if f.payload != [] { SendAll(f.payload); }
      return Ok(());
    }

    /** recv_frame */
    method RecvFrame<H>(json: Json<H>) returns (r: Result<Frame<H>, FrameError>)
      modifies `calls, `incoming
      ensures match Parse(json, old(incoming))
              case Ok(received) => r == Ok(received.frame) && incoming == old(incoming)[received.used..]
              case Err(e) => r == Err(e)
    {
      hide Number, ParsePayload;
      ghost var s := incoming;
      var prefix := RecvExact(4);
      if prefix.Err? { return Err(prefix.error); }
      var size := Number(prefix.value);
      if size > HEADER_LIMIT { return Err(HeaderTooLarge); }
      var text := RecvExact(size);
      if text.Err? { return Err(text.error); }
      assert text.value == s[4..4 + size] && incoming == s[4 + size..];
      var header := json.loads(text.value);
      if header.None? { return Err(BadHeader); }
      r := RecvPayload(header.value, s, 4 + size);
    }

    /** The second half of recv_frame, after used bytes of the stream s. */
    method RecvPayload<H>(header: H, ghost s: Bytes, ghost used: nat) returns (r: Result<Frame<H>, FrameError>)
      requires used <= |s| && incoming == s[used..]
      modifies `calls, `incoming
      ensures match ParsePayload(s, header, used)
              case Ok(received) => r == Ok(received.frame) && incoming == s[received.used..]
              case Err(e) => r == Err(e)
    {
      hide Number;
      var middle := RecvExact(8);
      if middle.Err? { return Err(middle.error); }
      assert middle.value == s[used..used + 8] && incoming == s[used + 8..];
      var length := Number(middle.value);
      if length > PAYLOAD_LIMIT { return Err(PayloadTooLarge); }
      var payload: Bytes := [];
      if length > 0 {
        var body := RecvExact(length);
        if body.Err? { return Err(body.error); }
        payload := body.value;
      }
      assert payload == s[used + 8..used + 8 + length] && incoming == s[used + 8 + length..];
      return Ok(Frame(header, payload));
    }
  }

  /** Receive up to n frames. */
  method ReceiveFrames<H>(json: Json<H>, sock: Socket, n: nat) returns (stream: Stream<H>)
    modifies sock`calls, sock`incoming
    ensures var expected := ParseAll(json, old(sock.incoming), n);
            && stream.frames == expected.frames && stream.failure == expected.failure
            && (expected.failure == None ==> sock.incoming == expected.rest)
    decreases n
  {
    hide Parse;
    if n == 0 { return Stream([], sock.incoming, None); }
    var first := sock.RecvFrame(json);
    if first.Err? { return Stream([], sock.incoming, Some(first.error)); }
    var more := ReceiveFrames(json, sock, n - 1);
    return Stream([first.value] + more.frames, sock.incoming, more.failure);
  }

  /** Frames within the limits, sent over a connection that is then closed, arrive
      unchanged and leave nothing behind, however recv splits them. */
  lemma SentFramesArrive<H(!new)>(json: Json<H>, frames: seq<Frame<H>>)
    requires Inverse(json) && forall f :: f in frames ==> Packable(json, f) && WithinLimits(json, f)
    ensures ParseAll(json, WireAll(json, frames), |frames|) == Stream(frames, [], None)
    ensures ParseAll(json, WireAll(json, frames), |frames| + 1) == Stream(frames, [], Some(ConnectionClosed))
  {
    FramesRecovered(json, frames, []);
    assert WireAll(json, frames) + [] == WireAll(json, frames);
    OneMoreCall(json, WireAll(json, frames), |frames|);
  }

  lemma {:induction false} OneMoreCall<H>(json: Json<H>, s: Bytes, n: nat)
    requires ParseAll(json, s, n).failure == None && ParseAll(json, s, n).rest == []
    ensures ParseAll(json, s, n + 1) == Stream(ParseAll(json, s, n).frames, [], Some(ConnectionClosed))
  {
    if n > 0 { OneMoreCall(json, s[Parse(json, s).value.used..], n - 1); }
  }
}
