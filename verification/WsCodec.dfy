/**
 * WebSocket frames as sections 5.2 and 5.3 of RFC 6455 lay them out: writing them, and reading
 * them from a socket that hands over bytes as they arrive.
 */
module WsCodec {
  import opened Wrappers
  import opened Basics

  type byte = x: int | 0 <= x < 256

  // ---------------------------------------------------------------------------------------
  // Numbers
  // ---------------------------------------------------------------------------------------

  /** The `k` low bytes of `n`, most significant first. */
  function BigEndian(n: nat, k: nat): (bs: seq<byte>)
    ensures |bs| == k
  {
    if k == 0 then [] else BigEndian(n / 256, k - 1) + [n % 256]
  }

  function Value(bs: seq<byte>): nat {
    if bs == [] then 0 else 256 * Value(bs[..|bs| - 1]) + bs[|bs| - 1]
  }

  lemma {:induction false} ValueOfBigEndian(n: nat, k: nat)
    requires n < Power(256, k)
    ensures Value(BigEndian(n, k)) == n
  {
    if k > 0 {
      ValueOfBigEndian(n / 256, k - 1);
      assert BigEndian(n, k)[..k - 1] == BigEndian(n / 256, k - 1);
    }
  }

  /** The first byte counts for as many 256th powers as there are bytes behind it. */
  lemma {:induction false} ValueLeads(first: byte, rest: seq<byte>)
    ensures Value([first] + rest) == first * Power(256, |rest|) + Value(rest)
  {
    var all := [first] + rest;
    if rest != [] {
      var n := |rest| - 1;
      ValueLeads(first, rest[..n]);
      assert all[..n + 1] == [first] + rest[..n] && all[n + 1] == rest[n];
      assert 256 * (first * Power(256, n)) == first * Power(256, n + 1);
    } else {
      assert all[..0] == [];
    }
  }

  lemma Sizes()
    ensures Power(256, 2) == 0x1_0000 && Power(256, 8) == 0x1_0000_0000_0000_0000
  {
  }

  /** Exclusive or of the low `bits` bits. */
  function XorBits(a: nat, b: nat, bits: nat): nat {
    if bits == 0 then 0 else 2 * XorBits(a / 2, b / 2, bits - 1) + (a + b) % 2
  }

  lemma {:induction false} XorBitsBound(a: nat, b: nat, bits: nat)
    ensures XorBits(a, b, bits) < Power(2, bits)
  {
    if bits > 0 { XorBitsBound(a / 2, b / 2, bits - 1); }
  }

  lemma {:induction false} XorBitsTwice(a: nat, b: nat, bits: nat)
    requires a < Power(2, bits)
    ensures XorBits(XorBits(a, b, bits), b, bits) == a
  {
    if bits > 0 {
      HalfBound(a, Power(2, bits - 1));
      XorBitsTwice(a / 2, b / 2, bits - 1);
      Halves(a, b, XorBits(a / 2, b / 2, bits - 1));
    }
  }

  lemma HalfBound(a: nat, p: nat)
    requires a < 2 * p
    ensures a / 2 < p
  {
  }

  lemma Halves(a: nat, b: nat, q: nat)
    ensures var x := 2 * q + (a + b) % 2; x / 2 == q && 2 * (a / 2) + (x + b) % 2 == a
  {
  }

  function Xor(a: byte, b: byte): byte {
    XorBitsBound(a, b, 8);
    XorBits(a, b, 8)
  }

  function Bit(n: nat, k: nat): nat {
    if k == 0 then n % 2 else Bit(n / 2, k - 1)
  }

  /** A bit is set exactly if it is set in one of the two bytes and not in the other. */
  lemma {:induction false} XorBitIff(a: nat, b: nat, bits: nat, k: nat)
    requires k < bits
    ensures Bit(XorBits(a, b, bits), k) == 1 <==> Bit(a, k) != Bit(b, k)
  {
    var rest := XorBits(a / 2, b / 2, bits - 1);
    assert XorBits(a, b, bits) / 2 == rest && XorBits(a, b, bits) % 2 == (a + b) % 2;
    if k > 0 { XorBitIff(a / 2, b / 2, bits - 1, k - 1); }
  }

  lemma XorTwice(a: byte, b: byte)
    ensures Xor(Xor(a, b), b) == a
  {
    XorBitsTwice(a, b, 8);
  }

  /** Masking, which is also unmasking. */
  function Masked(payload: seq<byte>, key: seq<byte>): (r: seq<byte>)
    requires |key| == 4
    ensures |r| == |payload|
  {
    seq(|payload|, i requires 0 <= i < |payload| => Xor(payload[i], key[i % 4]))
  }

  lemma MaskedTwice(payload: seq<byte>, key: seq<byte>)
    requires |key| == 4
    ensures Masked(Masked(payload, key), key) == payload
  {
    forall i | 0 <= i < |payload| ensures Xor(Xor(payload[i], key[i % 4]), key[i % 4]) == payload[i] {
      XorTwice(payload[i], key[i % 4]);
    }
  }

  method ApplyMask(payload: seq<byte>, key: seq<byte>) returns (r: seq<byte>)
    requires |key| == 4
    ensures r == Masked(payload, key)
  {
    r := [];
    for index := 0 to |payload|
      invariant r == Masked(payload, key)[..index]
    {
      r := r + [Xor(payload[index], key[index % 4])];
    }
  }

  // ---------------------------------------------------------------------------------------
  // Writing
  // ---------------------------------------------------------------------------------------

  type Opcode = x: int | 0 <= x < 16

  /** What a frame says; `mask` is absent in frames of the server. */
  datatype Frame = Frame(final: bool, opcode: Opcode, mask: Option<seq<byte>>, payload: seq<byte>)

  predicate ValidFrame(f: Frame) {
    && |f.payload| < 0x1_0000_0000_0000_0000
    && (f.mask.Some? ==> |f.mask.value| == 4)
  }

  function FirstByte(f: Frame): byte {
    (if f.final then 128 else 0) + f.opcode
  }

  /** The second byte without the mask bit. */
  function LengthCode(n: nat): (c: nat)
    ensures c < 128
  {
    if n <= 125 then n else if n < 0x1_0000 then 126 else 127
  }

  function ExtraSize(code: nat): nat {
    if code == 126 then 2 else if code == 127 then 8 else 0
  }

  function KeyOf(f: Frame): seq<byte> {
    if f.mask.Some? then f.mask.value else []
  }

  function Header(f: Frame): (h: seq<byte>)
    ensures |h| == 2
  {
    [FirstByte(f), (if f.mask.Some? then 128 else 0) + LengthCode(|f.payload|)]
  }

  function Extra(f: Frame): (e: seq<byte>)
    ensures |e| == ExtraSize(LengthCode(|f.payload|))
  {
    BigEndian(|f.payload|, ExtraSize(LengthCode(|f.payload|)))
  }

  function Body(f: Frame): seq<byte>
    requires ValidFrame(f)
  {
    if f.mask.Some? then Masked(f.payload, f.mask.value) else f.payload
  }

  function Encode(f: Frame): seq<byte>
    requires ValidFrame(f)
  {
    Header(f) + Extra(f) + KeyOf(f) + Body(f)
  }

  function TextFrame(payload: seq<byte>): Frame {
    Frame(true, 1, None, payload)
  }

  function ControlFrame(opcode: nat, payload: seq<byte>, key: seq<byte>): Frame {
    Frame(true, opcode % 16, Some(key), payload)
  }

  /** The unmasked and the masked text "Hello" of section 5.7 of RFC 6455. */
  lemma HelloFrames()
    ensures var hello: seq<byte> := [0x48, 0x65, 0x6c, 0x6c, 0x6f];
      && Encode(TextFrame(hello)) == [0x81, 0x05, 0x48, 0x65, 0x6c, 0x6c, 0x6f]
      && Encode(Frame(true, 1, Some([0x37, 0xfa, 0x21, 0x3d]), hello)) ==
         [0x81, 0x85, 0x37, 0xfa, 0x21, 0x3d, 0x7f, 0x9f, 0x4d, 0x51, 0x58]
  {
    var hello: seq<byte> := [0x48, 0x65, 0x6c, 0x6c, 0x6f];
    HelloMasked(hello, [0x37, 0xfa, 0x21, 0x3d]);
    assert Header(TextFrame(hello)) == [0x81, 0x05] && Extra(TextFrame(hello)) == [];
  }

  lemma HelloMasked(hello: seq<byte>, key: seq<byte>)
    requires hello == [0x48, 0x65, 0x6c, 0x6c, 0x6f] && key == [0x37, 0xfa, 0x21, 0x3d]
    ensures Masked(hello, key) == [0x7f, 0x9f, 0x4d, 0x51, 0x58]
  {
    XorExamples();
    var masked := Masked(hello, key);
    assert masked[0] == Xor(hello[0], key[0]) && masked[1] == Xor(hello[1], key[1]) && masked[2] == Xor(hello[2], key[2]);
    assert masked[3] == Xor(hello[3], key[3]) && masked[4] == Xor(hello[4], key[0]);
  }

  lemma XorExamples()
    ensures Xor(0x48, 0x37) == 0x7f && Xor(0x65, 0xfa) == 0x9f && Xor(0x6c, 0x21) == 0x4d
    ensures Xor(0x6c, 0x3d) == 0x51 && Xor(0x6f, 0x37) == 0x58
  {
    FirstXor();
    SecondXor();
    ThirdXor();
    FourthXor();
    FifthXor();
  }

  lemma FirstXor()
    ensures XorBits(0x48, 0x37, 8) == 0x7f
  {
    assert XorBits(0, 0, 1) == 0 && XorBits(1, 0, 2) == 1 && XorBits(2, 1, 3) == 3 && XorBits(4, 3, 4) == 7;
    assert XorBits(9, 6, 5) == 15 && XorBits(18, 13, 6) == 31 && XorBits(36, 27, 7) == 63 && XorBits(72, 55, 8) == 127;
  }

  lemma SecondXor()
    ensures XorBits(0x65, 0xfa, 8) == 0x9f
  {
    assert XorBits(0, 1, 1) == 1 && XorBits(1, 3, 2) == 2 && XorBits(3, 7, 3) == 4 && XorBits(6, 15, 4) == 9;
    assert XorBits(12, 31, 5) == 19 && XorBits(25, 62, 6) == 39 && XorBits(50, 125, 7) == 79 && XorBits(101, 250, 8) == 159;
  }

  lemma ThirdXor()
    ensures XorBits(0x6c, 0x21, 8) == 0x4d
  {
    assert XorBits(0, 0, 1) == 0 && XorBits(1, 0, 2) == 1 && XorBits(3, 1, 3) == 2 && XorBits(6, 2, 4) == 4;
    assert XorBits(13, 4, 5) == 9 && XorBits(27, 8, 6) == 19 && XorBits(54, 16, 7) == 38 && XorBits(108, 33, 8) == 77;
  }

  lemma FourthXor()
    ensures XorBits(0x6c, 0x3d, 8) == 0x51
  {
    assert XorBits(0, 0, 1) == 0 && XorBits(1, 0, 2) == 1 && XorBits(3, 1, 3) == 2 && XorBits(6, 3, 4) == 5;
    assert XorBits(13, 7, 5) == 10 && XorBits(27, 15, 6) == 20 && XorBits(54, 30, 7) == 40 && XorBits(108, 61, 8) == 81;
  }

  lemma FifthXor()
    ensures XorBits(0x6f, 0x37, 8) == 0x58
  {
    assert XorBits(0, 0, 1) == 0 && XorBits(1, 0, 2) == 1 && XorBits(3, 1, 3) == 2 && XorBits(6, 3, 4) == 5;
    assert XorBits(13, 6, 5) == 11 && XorBits(27, 13, 6) == 22 && XorBits(55, 27, 7) == 44 && XorBits(111, 55, 8) == 88;
  }

  /** The server's text messages. */
  method WebsocketFrameText(payload: seq<byte>) returns (bytes: seq<byte>)
    requires |payload| < 0x1_0000_0000_0000_0000
    ensures bytes == Encode(TextFrame(payload))
  {
    var length := |payload|;
    var header: seq<byte> := [0x81];
    if length <= 125 {
      header := header + [length];
    } else if length < 65536 {
      header := header + [126];
      header := header + BigEndian(length, 2);
    } else {
      header := header + [127];
      header := header + BigEndian(length, 8);
    }
    bytes := header + payload;
  }

  /** The client's control messages, masked with a random key. */
  method SendWsControl(opcode: nat, payload: seq<byte>, maskKey: seq<byte>) returns (frame: seq<byte>)
    requires |payload| < 0x1_0000_0000_0000_0000 && |maskKey| == 4
    ensures frame == Encode(ControlFrame(opcode, payload, maskKey))
  {
    var maskedPayload := ApplyMask(payload, maskKey);
    var length := |maskedPayload|;
    frame := [128 + opcode % 16];
    if length <= 125 {
      frame := frame + [128 + length];
    } else if length <= 65535 {
      frame := frame + [128 + 126];
      frame := frame + BigEndian(length, 2);
    } else {
      frame := frame + [128 + 127];
      frame := frame + BigEndian(length, 8);
    }
    frame := frame + maskKey;
    frame := frame + maskedPayload;
  }

  // ---------------------------------------------------------------------------------------
  // Reading bytes
  // ---------------------------------------------------------------------------------------

  /** What one wait for the socket comes to; the empty sequence tells that the peer has closed. */
  datatype Arrival = Bytes(bytes: seq<byte>) | Timeout

  predicate IsEof(a: Arrival) {
    a == Bytes([])
  }

  /** No timeout and no early end. */
  ghost predicate Steady(a: seq<Arrival>) {
    forall i :: 0 <= i < |a| ==> a[i].Bytes? && a[i].bytes != []
  }

  function Flat(a: seq<Arrival>): seq<byte> {
    if a == [] then [] else (if a[0].Bytes? then a[0].bytes else []) + Flat(a[1..])
  }

  /** Leave over what is more than `n` bytes of the first arrival. */
  function Rest(a: seq<Arrival>, n: nat): seq<Arrival>
    requires a != [] && a[0].Bytes? && n <= |a[0].bytes|
  {
    if |a[0].bytes| == n then a[1..] else [Bytes(a[0].bytes[n..])] + a[1..]
  }

  /** Exactly `n` bytes; nothing, with what has come so far lost, at a timeout or the end. */
  function Exact(a: seq<Arrival>, n: nat): (Option<seq<byte>>, seq<Arrival>)
    decreases |a|
  {
    if n == 0 then (Some([]), a)
    else if a == [] then (None, [])
    else if a[0].Timeout? || IsEof(a[0]) then (None, a[1..])
    else if n <= |a[0].bytes| then (Some(a[0].bytes[..n]), Rest(a, n))
    else
      var (more, rest) := Exact(a[1..], n - |a[0].bytes|);
      (if more.Some? then Some(a[0].bytes + more.value) else None, rest)
  }

  class Socket {
    var arrivals: seq<Arrival>

    constructor (arrivals: seq<Arrival>)
      ensures this.arrivals == arrivals
    {
      this.arrivals := arrivals;
    }

    /** Up to `n` bytes as they come. */
    method Recv(n: nat) returns (r: Arrival)
      requires n > 0
      modifies this
      ensures old(arrivals) == [] ==> r == Bytes([]) && arrivals == []
      ensures old(arrivals) != [] && (old(arrivals[0]).Timeout? || IsEof(old(arrivals[0]))) ==>
        r == old(arrivals[0]) && arrivals == old(arrivals)[1..]
      ensures old(arrivals) != [] && old(arrivals[0]).Bytes? && !IsEof(old(arrivals[0])) ==>
        var k := if n <= |old(arrivals[0]).bytes| then n else |old(arrivals[0]).bytes|;
        r == Bytes(old(arrivals[0]).bytes[..k]) && arrivals == Rest(old(arrivals), k)
    {
      if arrivals == [] {
        return Bytes([]);
      }
      r := arrivals[0];
      if r.Timeout? || IsEof(r) {
        arrivals := arrivals[1..];
        return;
      }
      var k := if n <= |r.bytes| then n else |r.bytes|;
      arrivals := Rest(arrivals, k);
      r := Bytes(r.bytes[..k]);
    }

    method RecvExact(size: nat) returns (r: Option<seq<byte>>)
      modifies this
      ensures (r, arrivals) == Exact(old(arrivals), size)
    {
      var chunks := [];
      ContinuedNot(Exact(arrivals, size));
      while |chunks| < size
        invariant |chunks| <= size
        invariant Exact(old(arrivals), size) == Continued(chunks, Exact(arrivals, size - |chunks|))
      {
        ghost var before := arrivals;
        var chunk := Recv(size - |chunks|);
        ExactStep(before, size - |chunks|);
        if chunk.Timeout? {
          return None;
        }
        if chunk.bytes == [] {
          return None;
        }
        ContinuedAgain(chunks, chunk.bytes, Exact(arrivals, size - |chunks| - |chunk.bytes|));
        chunks := chunks + chunk.bytes;
      }
      assert chunks + [] == chunks;
      r := Some(chunks);
    }

    /** The opcode and the unmasked payload of the next frame. */
    method ReadWsFrame() returns (r: Option<(Opcode, seq<byte>)>)
      modifies this
      ensures (r, arrivals) == ReadFrame(old(arrivals))
    {
      var header := RecvExact(2);
      if header.None? {
        return None;
      }
      ExactLength(old(arrivals), 2);
      var b0, b1 := header.value[0], header.value[1];
      var opcode := b0 % 16;
      var masked := b1 >= 128;
      var payloadLen := b1 % 128;
      if payloadLen == 126 {
        var extra := RecvExact(2);
        if extra.None? {
          return None;
        }
        payloadLen := Value(extra.value);
      } else if payloadLen == 127 {
        var extra := RecvExact(8);
        if extra.None? {
          return None;
        }
        payloadLen := Value(extra.value);
      }
      var body := ReadBody(masked, payloadLen);
      r := if body.Some? then Some((opcode, body.value)) else None;
    }

    /** The other reader of bytes, which raises a timeout only before the first of them. */
    method RecvPatiently(size: nat) returns (r: Reading<seq<byte>>)
      modifies this
      ensures (r, arrivals) == Patient(old(arrivals), size)
    {
      var data := [];
      while |data| < size
        invariant |data| <= size
        invariant data == [] ==> arrivals == old(arrivals)
        invariant data != [] ==>
          && old(arrivals) != [] && old(arrivals)[0].Bytes?
          && Collect(old(arrivals), size) == Appended(data, Collect(arrivals, size - |data|))
        decreases size - |data|, |arrivals|
      {
        ghost var before := arrivals;
        var chunk := Recv(size - |data|);
        if chunk.Timeout? {
          if data == [] {
            return TimedOut;
          }
          continue;
        }
        if chunk.bytes == [] {
          return Closed;
        }
        CollectStep(before, size - |data|);
        AppendedAgain(data, chunk.bytes, Collect(arrivals, size - |data| - |chunk.bytes|));
        data := data + chunk.bytes;
      }
      assert data + [] == data;
      r := Got(data);
    }

    /** The other reader of frames, which tells the final bit too. */
    method ReadWsFramePatiently() returns (r: Reading<Incoming>)
      modifies this
      ensures (r, arrivals) == ReadFramePatiently(old(arrivals))
    {
      var header := RecvPatiently(2);
      if !header.Got? {
        return Failed(header);
      }
      CollectLength(old(arrivals), 2);
      var first, second := header.value[0], header.value[1];
      var body := ReadBodyPatiently(second);
      r := if body.Got? then Got(Incoming(first % 16, first >= 128, body.value)) else Failed(body);
    }

    method ReadBodyPatiently(second: byte) returns (r: Reading<seq<byte>>)
      modifies this
      ensures (r, arrivals) == ReadBehindHeader(old(arrivals), second)
    {
      var payloadLen := second % 128;
      if payloadLen == 126 {
        var extra := RecvPatiently(2);
        if !extra.Got? {
          return extra;
        }
        payloadLen := Value(extra.value);
      } else if payloadLen == 127 {
        var extra := RecvPatiently(8);
        if !extra.Got? {
          return extra;
        }
        payloadLen := Value(extra.value);
      }
      r := ReadPayloadPatiently(second >= 128, payloadLen);
    }

    method ReadPayloadPatiently(masked: bool, payloadLen: nat) returns (r: Reading<seq<byte>>)
      modifies this
      ensures (r, arrivals) == ReadRestPatiently(old(arrivals), masked, payloadLen)
    {
      var maskKey := [];
      if masked {
        var key := RecvPatiently(4);
        if !key.Got? {
          return key;
        }
        maskKey := key.value;
      }
      r := Got([]);
      if payloadLen != 0 {
        r := RecvPatiently(payloadLen);
      }
      if r.Got? && masked {
        CollectLength(old(arrivals), 4);
        var unmasked := ApplyMask(r.value, maskKey);
        r := Got(unmasked);
      }
    }

    method ReadBody(masked: bool, payloadLen: nat) returns (r: Option<seq<byte>>)
      modifies this
      ensures (r, arrivals) == ReadRest(old(arrivals), masked, payloadLen)
    {
      var maskKey := [];
      if masked {
        var key := RecvExact(4);
        maskKey := if key.Some? then key.value else [];
        if |maskKey| != 4 {
          ExactLength(old(arrivals), 4);
          return None;
        }
      }
      var payload := RecvExact(payloadLen);
      if payload.None? {
        return None;
      }
      if masked {
        var unmasked := ApplyMask(payload.value, maskKey);
        return Some(unmasked);
      }
      r := payload;
    }
  }

  function Continued(chunks: seq<byte>, tail: (Option<seq<byte>>, seq<Arrival>)): (Option<seq<byte>>, seq<Arrival>) {
    (if tail.0.Some? then Some(chunks + tail.0.value) else None, tail.1)
  }

  lemma ContinuedNot(tail: (Option<seq<byte>>, seq<Arrival>))
    ensures Continued([], tail) == tail
  {
    if tail.0.Some? { assert [] + tail.0.value == tail.0.value; }
  }

  lemma ExactStep(a: seq<Arrival>, n: nat)
    requires n > 0
    ensures a == [] ==> Exact(a, n) == (None, [])
    ensures a != [] && a[0].Bytes? && a[0].bytes != [] ==>
      var k := if n <= |a[0].bytes| then n else |a[0].bytes|;
      Exact(a, n) == Continued(a[0].bytes[..k], Exact(Rest(a, k), n - k))
  {
    if a != [] && a[0].Bytes? && a[0].bytes != [] {
      var b := a[0].bytes;
      if n <= |b| { assert b[..n] + [] == b[..n]; } else { assert b[..|b|] == b; }
    }
  }

  lemma ContinuedAgain(a: seq<byte>, b: seq<byte>, tail: (Option<seq<byte>>, seq<Arrival>))
    ensures Continued(a, Continued(b, tail)) == Continued(a + b, tail)
  {
    if tail.0.Some? { assert a + (b + tail.0.value) == a + b + tail.0.value; }
  }

  lemma {:induction false} ExactLength(a: seq<Arrival>, n: nat)
    ensures Exact(a, n).0.Some? ==> |Exact(a, n).0.value| == n
    decreases |a|
  {
    if n > 0 && a != [] && a[0].Bytes? && |a[0].bytes| < n { ExactLength(a[1..], n - |a[0].bytes|); }
  }

  function ReadRest(a: seq<Arrival>, masked: bool, payloadLen: nat): (Option<seq<byte>>, seq<Arrival>) {
    if masked then
      ExactLength(a, 4);
      var (key, a1) := Exact(a, 4);
      if key.None? then (None, a1)
      else
        var (payload, a2) := Exact(a1, payloadLen);
        (if payload.Some? then Some(Masked(payload.value, key.value)) else None, a2)
    else Exact(a, payloadLen)
  }

  function ReadFrame(a: seq<Arrival>): (Option<(Opcode, seq<byte>)>, seq<Arrival>) {
    ExactLength(a, 2);
    var (header, a1) := Exact(a, 2);
    if header.None? then (None, a1)
    else
      var opcode, masked, code := header.value[0] % 16, header.value[1] >= 128, header.value[1] % 128;
      var (extra, a2) := Exact(a1, ExtraSize(code));
      if extra.None? then (None, a2)
      else
        var (payload, a3) := ReadRest(a2, masked, LengthOf(code, extra.value));
        (if payload.Some? then Some((opcode, payload.value)) else None, a3)
  }

  // ---------------------------------------------------------------------------------------
  // What frames there are in a stream
  // ---------------------------------------------------------------------------------------

  /** Mask and payload, and what follows them. */
  function DecodeBody(s: seq<byte>, masked: bool, n: nat): Option<(Option<seq<byte>>, seq<byte>, seq<byte>)> {
    if masked then
      if |s| < 4 + n then None else Some((Some(s[..4]), Masked(s[4..4 + n], s[..4]), s[4 + n..]))
    else
      if |s| < n then None else Some((None, s[..n], s[n..]))
  }

  /** The length that the code and the bytes behind the header tell. */
  function LengthOf(code: nat, extra: seq<byte>): nat {
    if ExtraSize(code) == 0 then code else Value(extra)
  }

  /** The frame a byte stream starts with, and what follows it. */
  function Decode(s: seq<byte>): Option<(Frame, seq<byte>)> {
    if |s| < 2 then None
    else
      var head := 2 + ExtraSize(s[1] % 128);
      if |s| < head then None
      else
        var body := DecodeBody(s[head..], s[1] >= 128, LengthOf(s[1] % 128, s[2..head]));
        if body.None? then None
        else Some((Frame(s[0] >= 128, s[0] % 16, body.value.0, body.value.1), body.value.2))
  }

  lemma DecodeBodyOf(f: Frame, rest: seq<byte>)
    requires ValidFrame(f)
    ensures DecodeBody(KeyOf(f) + Body(f) + rest, f.mask.Some?, |f.payload|) == Some((f.mask, f.payload, rest))
  {
    var s, n := KeyOf(f) + Body(f) + rest, |f.payload|;
    if f.mask.Some? {
      assert s[..4] == f.mask.value && s[4..4 + n] == Body(f) && s[4 + n..] == rest;
      MaskedTwice(f.payload, f.mask.value);
    } else {
      assert s[..n] == f.payload && s[n..] == rest;
    }
  }

  /** Decoding undoes encoding: every field of the frame, at every length, whatever follows. */
  lemma DecodeEncode(f: Frame, rest: seq<byte>)
    requires ValidFrame(f)
    ensures Decode(Encode(f) + rest) == Some((f, rest))
  {
    EncodeParts(f, rest);
    HeaderRead(f);
    LengthRead(|f.payload|);
    DecodeBodyOf(f, rest);
    DecodeParts(f, Header(f)[0], Header(f)[1], Extra(f), KeyOf(f) + Body(f) + rest, rest);
  }

  lemma EncodeParts(f: Frame, rest: seq<byte>)
    requires ValidFrame(f)
    ensures Encode(f) + rest == [Header(f)[0], Header(f)[1]] + (Extra(f) + (KeyOf(f) + Body(f) + rest))
  {
    Regrouped(Header(f), Extra(f), KeyOf(f), Body(f), rest);
    TwoBytes(Header(f));
  }

  lemma Regrouped(h: seq<byte>, e: seq<byte>, k: seq<byte>, b: seq<byte>, rest: seq<byte>)
    ensures h + e + k + b + rest == h + (e + (k + b + rest))
  {
  }

  lemma TwoBytes(h: seq<byte>)
    requires |h| == 2
    ensures h == [h[0], h[1]]
  {
  }

  lemma HeaderRead(f: Frame)
    ensures Header(f)[0] % 16 == f.opcode && (Header(f)[0] >= 128) == f.final
    ensures Header(f)[1] % 128 == LengthCode(|f.payload|) && (Header(f)[1] >= 128) == f.mask.Some?
  {
  }

  lemma DecodeParts(f: Frame, b0: byte, b1: byte, extra: seq<byte>, tail: seq<byte>, rest: seq<byte>)
    requires f.opcode == b0 % 16 && f.final == (b0 >= 128)
    requires |extra| == ExtraSize(b1 % 128) && LengthOf(b1 % 128, extra) == |f.payload|
    requires DecodeBody(tail, b1 >= 128, |f.payload|) == Some((f.mask, f.payload, rest))
    ensures Decode([b0, b1] + (extra + tail)) == Some((f, rest))
  {
    var s := [b0, b1] + (extra + tail);
    assert s[0] == b0 && s[1] == b1 && s[2..2 + |extra|] == extra && s[2 + |extra|..] == tail;
  }

  lemma LengthRead(n: nat)
    requires n < 0x1_0000_0000_0000_0000
    ensures n == LengthOf(LengthCode(n), BigEndian(n, ExtraSize(LengthCode(n))))
  {
    Sizes();
    var size := ExtraSize(LengthCode(n));
    if size != 0 { ValueOfBigEndian(n, size); }
  }

  lemma {:induction false} BigEndianOfValue(bs: seq<byte>)
    ensures BigEndian(Value(bs), |bs|) == bs
    ensures Value(bs) < Power(256, |bs|)
  {
    if bs != [] { BigEndianOfValue(bs[..|bs| - 1]); }
  }

  /** What a stream that starts with a frame consists of. */
  lemma DecodedParts(s: seq<byte>)
    requires Decode(s).Some?
    ensures var (f, rest), head := Decode(s).value, 2 + ExtraSize(s[1] % 128);
      && ValidFrame(f) && head <= |s|
      && f.final == (s[0] >= 128) && f.opcode == s[0] % 16 && f.mask.Some? == (s[1] >= 128)
      && BigEndian(|f.payload|, ExtraSize(s[1] % 128)) == s[2..head]
      && KeyOf(f) + Body(f) + rest == s[head..]
  {
    var code := s[1] % 128;
    var head := 2 + ExtraSize(code);
    DecodedLength(code, s[2..head]);
    EncodeBody(s[head..], s[1] >= 128, LengthOf(code, s[2..head]));
  }

  /**
   * Encoding undoes decoding exactly for streams whose reserved bits are clear and whose length is
   * written in the shortest way; others are read as well.
   */
  lemma EncodeDecode(s: seq<byte>)
    requires Decode(s).Some?
    ensures var (f, rest) := Decode(s).value;
      && ValidFrame(f)
      && (Encode(f) + rest == s <==> s[0] % 128 < 16 && s[1] % 128 == LengthCode(|f.payload|))
  {
    DecodedParts(s);
    var (f, rest) := Decode(s).value;
    var head := 2 + ExtraSize(s[1] % 128);
    EncodeParts(f, rest);
    SplitHead(s, head);
    HeaderBytes(f, s[0], s[1]);
    SameStream(Header(f)[0], Header(f)[1], Extra(f), s[0], s[1], s[2..head], s[head..]);
  }

  lemma HeaderBytes(f: Frame, b0: byte, b1: byte)
    requires f.final == (b0 >= 128) && f.opcode == b0 % 16 && f.mask.Some? == (b1 >= 128)
    ensures Header(f)[0] == b0 <==> b0 % 128 < 16
    ensures Header(f)[1] == b1 <==> b1 % 128 == LengthCode(|f.payload|)
  {
  }

  lemma SameStream(b0: byte, b1: byte, e: seq<byte>, c0: byte, c1: byte, x: seq<byte>, tail: seq<byte>)
    requires b1 == c1 ==> e == x
    ensures [b0, b1] + (e + tail) == [c0, c1] + (x + tail) <==> b0 == c0 && b1 == c1
  {
    var s, t := [b0, b1] + (e + tail), [c0, c1] + (x + tail);
    assert s[0] == b0 && s[1] == b1 && t[0] == c0 && t[1] == c1;
  }

  lemma SplitHead(s: seq<byte>, head: nat)
    requires 2 <= head <= |s|
    ensures s == [s[0], s[1]] + (s[2..head] + s[head..])
  {
  }

  lemma DecodedLength(code: nat, extra: seq<byte>)
    requires code < 128 && |extra| == ExtraSize(code)
    ensures LengthOf(code, extra) < 0x1_0000_0000_0000_0000
    ensures ExtraSize(code) == 0 ==> extra == []
    ensures BigEndian(LengthOf(code, extra), |extra|) == extra
  {
    Sizes();
    BigEndianOfValue(extra);
  }

  lemma EncodeBody(s: seq<byte>, masked: bool, n: nat)
    ensures DecodeBody(s, masked, n).Some? ==>
      var (mask, payload, rest) := DecodeBody(s, masked, n).value;
      && mask.Some? == masked && (masked ==> |mask.value| == 4) && |payload| == n
      && (if masked then mask.value + Masked(payload, mask.value) else payload) + rest == s
  {
    if DecodeBody(s, masked, n).Some? && masked { MaskedTwice(s[4..4 + n], s[..4]); }
  }

  /** More bytes behind a frame do not change it. */
  lemma DecodeExtend(s: seq<byte>, more: seq<byte>)
    requires Decode(s).Some?
    ensures Decode(s + more) == Some((Decode(s).value.0, Decode(s).value.1 + more))
  {
    var t, code := s + more, s[1] % 128;
    var head := 2 + ExtraSize(code);
    assert t[0] == s[0] && t[1] == s[1] && t[2..head] == s[2..head] && t[head..] == s[head..] + more;
    DecodeBodyExtend(s[head..], more, s[1] >= 128, LengthOf(code, s[2..head]));
  }

  lemma DecodeBodyExtend(s: seq<byte>, more: seq<byte>, masked: bool, n: nat)
    requires DecodeBody(s, masked, n).Some?
    ensures var (mask, payload, rest) := DecodeBody(s, masked, n).value;
      DecodeBody(s + more, masked, n) == Some((mask, payload, rest + more))
  {
    var t, k := s + more, if masked then 4 else 0;
    assert t[k..k + n] == s[k..k + n] && t[..k] == s[..k] && t[k + n..] == s[k + n..] + more;
    assert s[0..n] == s[..n] || masked;
  }

  /** A frame that is not all there is not read as anything. */
  lemma TruncatedFrame(f: Frame, s: seq<byte>)
    requires ValidFrame(f) && s < Encode(f)
    ensures Decode(s).None?
  {
    if Decode(s).Some? {
      var more := Encode(f)[|s|..];
      assert s + more == Encode(f) == Encode(f) + [];
      DecodeExtend(s, more);
      DecodeEncode(f, []);
    }
  }

  // ---------------------------------------------------------------------------------------
  // Reading is decoding
  // ---------------------------------------------------------------------------------------

  lemma {:induction false} ExactSteady(a: seq<Arrival>, n: nat)
    requires Steady(a)
    ensures var (r, rest) := Exact(a, n);
      if n <= |Flat(a)| then r == Some(Flat(a)[..n]) && Steady(rest) && Flat(rest) == Flat(a)[n..]
      else r == None
    decreases |a|
  {
    if n > 0 && a != [] {
      var b := a[0].bytes;
      if n <= |b| {
        FlatOfRest(a, n);
      } else {
        ExactSteady(a[1..], n - |b|);
        if n <= |Flat(a)| {
          assert Flat(a)[..n] == b + Flat(a[1..])[..n - |b|];
          assert Flat(a)[n..] == Flat(a[1..])[n - |b|..];
        }
      }
    }
  }

  lemma FlatOfRest(a: seq<Arrival>, n: nat)
    requires a != [] && a[0].Bytes? && n <= |a[0].bytes|
    ensures Steady(a) ==> Steady(Rest(a, n))
    ensures NoEof(a) ==> NoEof(Rest(a, n))
    ensures Flat(Rest(a, n)) == Flat(a)[n..] && a[0].bytes[..n] == Flat(a)[..n]
  {
    var b := a[0].bytes;
    SliceConcat(b, Flat(a[1..]), n);
    if n < |b| { FlatCons(b[n..], a[1..]); }
  }

  lemma SliceConcat(s: seq<byte>, t: seq<byte>, n: nat)
    requires n <= |s|
    ensures (s + t)[..n] == s[..n] && (s + t)[n..] == s[n..] + t
  {
  }

  lemma FlatCons(b: seq<byte>, a: seq<Arrival>)
    ensures Flat([Bytes(b)] + a) == b + Flat(a)
  {
  }

  /** The frame read from a socket is the one its bytes spell, however they arrive. */
  lemma ReadFrameDecodes(a: seq<Arrival>)
    requires Steady(a)
    ensures match Decode(Flat(a))
      case None => ReadFrame(a).0 == None
      case Some((f, rest)) =>
        ReadFrame(a).0 == Some((f.opcode, f.payload)) && Steady(ReadFrame(a).1) && Flat(ReadFrame(a).1) == rest
  {
    var s := Flat(a);
    ExactSteady(a, 2);
    ExactLength(a, 2);
    if |s| >= 2 {
      var a1, code := Exact(a, 2).1, s[1] % 128;
      var size := ExtraSize(code);
      ExactSteady(a1, size);
      if |s| >= 2 + size {
        SliceTwice(s, 2, size);
        ReadRestDecodes(Exact(a1, size).1, s[1] >= 128, LengthOf(code, s[2..2 + size]));
      }
    }
  }

  lemma ReadRestDecodes(a: seq<Arrival>, masked: bool, n: nat)
    requires Steady(a)
    ensures match DecodeBody(Flat(a), masked, n)
      case None => ReadRest(a, masked, n).0 == None
      case Some((mask, payload, rest)) =>
        ReadRest(a, masked, n).0 == Some(payload) && Steady(ReadRest(a, masked, n).1) && Flat(ReadRest(a, masked, n).1) == rest
  {
    var s := Flat(a);
    if masked {
      ExactSteady(a, 4);
      ExactLength(a, 4);
      if |s| >= 4 {
        ExactSteady(Exact(a, 4).1, n);
        assert |s| >= 4 + n ==> s[4..][..n] == s[4..4 + n] && s[4..][n..] == s[4 + n..];
      }
    } else {
      ExactSteady(a, n);
    }
  }

  ghost predicate ValidFrames(fs: seq<Frame>) {
    forall i :: 0 <= i < |fs| ==> ValidFrame(fs[i])
  }

  function EncodeAll(fs: seq<Frame>): seq<byte>
    requires ValidFrames(fs)
  {
    if fs == [] then [] else Encode(fs[0]) + EncodeAll(fs[1..])
  }

  /** The results of reading `k` frames one after the other. */
  function ReadFrames(a: seq<Arrival>, k: nat): seq<Option<(Opcode, seq<byte>)>>
    decreases k
  {
    if k == 0 then [] else [ReadFrame(a).0] + ReadFrames(ReadFrame(a).1, k - 1)
  }

  function Messages(fs: seq<Frame>): seq<Option<(Opcode, seq<byte>)>> {
    if fs == [] then [] else [Some((fs[0].opcode, fs[0].payload))] + Messages(fs[1..])
  }

  lemma FrameReadsBack(f: Frame, a: seq<Arrival>, rest: seq<byte>)
    requires ValidFrame(f) && Steady(a) && Flat(a) == Encode(f) + rest
    ensures ReadFrame(a).0 == Some((f.opcode, f.payload)) && Steady(ReadFrame(a).1) && Flat(ReadFrame(a).1) == rest
  {
    DecodeEncode(f, rest);
    ReadFrameDecodes(a);
  }

  /** Frames written one after the other are read back as they are, in whatever pieces they come. */
  lemma {:induction false} FramesReadBack(fs: seq<Frame>, a: seq<Arrival>, rest: seq<byte>)
    requires ValidFrames(fs) && Steady(a) && Flat(a) == EncodeAll(fs) + rest
    ensures ReadFrames(a, |fs|) == Messages(fs)
    decreases |fs|
  {
    if fs != [] {
      var rest1 := EncodeAll(fs[1..]) + rest;
      Grouped(Encode(fs[0]), EncodeAll(fs[1..]), rest);
      FrameReadsBack(fs[0], a, rest1);
      FramesReadBack(fs[1..], ReadFrame(a).1, rest);
    }
  }

  // ---------------------------------------------------------------------------------------
  // Reading with patience
  // ---------------------------------------------------------------------------------------

  /** A frame as the loop of a client sees it. */
  datatype Incoming = Incoming(opcode: Opcode, final: bool, payload: seq<byte>)

  datatype Reading<+T> = Got(value: T) | TimedOut | Closed

  /** Exactly `n` bytes, sitting out timeouts. */
  function Collect(a: seq<Arrival>, n: nat): (Reading<seq<byte>>, seq<Arrival>)
    decreases |a|
  {
    if n == 0 then (Got([]), a)
    else if a == [] then (Closed, [])
    else if a[0].Timeout? then Collect(a[1..], n)
    else if IsEof(a[0]) then (Closed, a[1..])
    else if n <= |a[0].bytes| then (Got(a[0].bytes[..n]), Rest(a, n))
    else
      var (more, rest) := Collect(a[1..], n - |a[0].bytes|);
      (if more.Got? then Got(a[0].bytes + more.value) else more, rest)
  }

  /** A timeout counts only as long as none of the bytes have come. */
  function Patient(a: seq<Arrival>, n: nat): (Reading<seq<byte>>, seq<Arrival>) {
    if n > 0 && a != [] && a[0].Timeout? then (TimedOut, a[1..]) else Collect(a, n)
  }

  /** Opcode, final bit and payload of the next frame; a timeout between its parts gives it up. */
  function ReadFramePatiently(a: seq<Arrival>): (Reading<Incoming>, seq<Arrival>) {
    CollectLength(a, 2);
    var (header, a1) := Patient(a, 2);
    if !header.Got? then (Failed(header), a1)
    else
      var (payload, a2) := ReadBehindHeader(a1, header.value[1]);
      (if payload.Got? then Got(Incoming(header.value[0] % 16, header.value[0] >= 128, payload.value)) else Failed(payload), a2)
  }

  function ReadBehindHeader(a: seq<Arrival>, b1: byte): (Reading<seq<byte>>, seq<Arrival>) {
    var (extra, a1) := Patient(a, ExtraSize(b1 % 128));
    if !extra.Got? then (extra, a1)
    else ReadRestPatiently(a1, b1 >= 128, LengthOf(b1 % 128, extra.value))
  }

  function ReadRestPatiently(a: seq<Arrival>, masked: bool, n: nat): (Reading<seq<byte>>, seq<Arrival>) {
    if masked then
      CollectLength(a, 4);
      var (key, a1) := Patient(a, 4);
      if !key.Got? then (Failed(key), a1)
      else
        var (payload, a2) := Patient(a1, n);
        (if payload.Got? then Got(Masked(payload.value, key.value)) else payload, a2)
    else Patient(a, n)
  }

  function Appended(data: seq<byte>, tail: (Reading<seq<byte>>, seq<Arrival>)): (Reading<seq<byte>>, seq<Arrival>) {
    (if tail.0.Got? then Got(data + tail.0.value) else tail.0, tail.1)
  }

  lemma AppendedAgain(a: seq<byte>, b: seq<byte>, tail: (Reading<seq<byte>>, seq<Arrival>))
    ensures Appended(a, Appended(b, tail)) == Appended(a + b, tail)
    ensures a == [] ==> Appended(a, Appended(b, tail)) == Appended(b, tail)
  {
    if tail.0.Got? {
      assert a + (b + tail.0.value) == a + b + tail.0.value;
      assert a == [] ==> a + b == b;
    }
  }

  lemma CollectStep(a: seq<Arrival>, n: nat)
    requires n > 0 && a != [] && a[0].Bytes? && a[0].bytes != []
    ensures var k := if n <= |a[0].bytes| then n else |a[0].bytes|;
      Collect(a, n) == Appended(a[0].bytes[..k], Collect(Rest(a, k), n - k))
  {
    var b := a[0].bytes;
    if n <= |b| { assert b[..n] + [] == b[..n]; } else { assert b[..|b|] == b; }
  }

  function Failed<T, U>(r: Reading<T>): Reading<U>
    requires !r.Got?
  {
    if r.TimedOut? then TimedOut else Closed
  }

  lemma {:induction false} CollectLength(a: seq<Arrival>, n: nat)
    ensures Collect(a, n).0.Got? ==> |Collect(a, n).0.value| == n
    decreases |a|
  {
    if n > 0 && a != [] {
      if a[0].Timeout? {
        CollectLength(a[1..], n);
      } else if |a[0].bytes| < n {
        CollectLength(a[1..], n - |a[0].bytes|);
      }
    }
  }

  ghost predicate NoEof(a: seq<Arrival>) {
    forall i :: 0 <= i < |a| ==> !IsEof(a[i])
  }

  /** A timeout comes when exactly `offset` bytes have come. */
  predicate TimeoutAt(a: seq<Arrival>, offset: nat) {
    a != [] &&
    if a[0].Timeout? then offset == 0 || TimeoutAt(a[1..], offset)
    else offset >= |a[0].bytes| && TimeoutAt(a[1..], offset - |a[0].bytes|)
  }

  /** What is left behind `n` bytes: all the other bytes, and the timeouts that come with or after them. */
  ghost predicate Behind(a: seq<Arrival>, n: nat, rest: seq<Arrival>) {
    && NoEof(a) && NoEof(rest) && n <= |Flat(a)| && Flat(rest) == Flat(a)[n..]
    && forall o: nat :: TimeoutAt(rest, o) <==> TimeoutAt(a, n + o)
  }

  lemma BehindBehind(a: seq<Arrival>, m: nat, b: seq<Arrival>, n: nat, c: seq<Arrival>)
    requires Behind(a, m, b) && Behind(b, n, c)
    ensures Behind(a, m + n, c)
  {
    forall o: nat ensures TimeoutAt(c, o) <==> TimeoutAt(a, m + n + o) {
      assert TimeoutAt(b, n + o) <==> TimeoutAt(a, m + (n + o));
    }
  }

  lemma {:induction false} CollectTakes(a: seq<Arrival>, n: nat)
    requires NoEof(a) && 0 < n <= |Flat(a)|
    ensures var (r, rest) := Collect(a, n);
      r == Got(Flat(a)[..n]) && NoEof(rest) && Flat(rest) == Flat(a)[n..]
    decreases |a|
  {
    if a[0].Timeout? {
      assert Flat(a) == Flat(a[1..]);
      CollectTakes(a[1..], n);
    } else {
      var b := a[0].bytes;
      if n <= |b| {
        FlatOfRest(a, n);
      } else {
        CollectTakes(a[1..], n - |b|);
        assert Flat(a)[..n] == b + Flat(a[1..])[..n - |b|];
        assert Flat(a)[n..] == Flat(a[1..])[n - |b|..];
      }
    }
  }

  /** Timeouts behind the bytes collected are all still there, and no others. */
  lemma {:induction false} CollectShifts(a: seq<Arrival>, n: nat, offset: nat)
    requires NoEof(a) && 0 < n <= |Flat(a)|
    ensures TimeoutAt(Collect(a, n).1, offset) <==> TimeoutAt(a, n + offset)
    decreases |a|
  {
    if a[0].Timeout? {
      CollectShifts(a[1..], n, offset);
    } else if n > |a[0].bytes| {
      CollectShifts(a[1..], n - |a[0].bytes|, offset);
    } else if n < |a[0].bytes| {
      assert Rest(a, n)[1..] == a[1..];
    }
  }

  /** A timeout comes right where the length, the mask or the payload of the frame at `start` begins. */
  predicate PausesWithin(f: Frame, a: seq<Arrival>, start: nat) {
    var size := ExtraSize(LengthCode(|f.payload|));
    || (size > 0 && TimeoutAt(a, start + 2))
    || (f.mask.Some? && TimeoutAt(a, start + 2 + size))
    || (f.payload != [] && TimeoutAt(a, start + 2 + size + |KeyOf(f)|))
  }

  /** One part: timed out exactly when a timeout comes first, and otherwise read. */
  lemma PatientTakes(a: seq<Arrival>, n: nat)
    requires NoEof(a) && n <= |Flat(a)|
    ensures var (r, rest) := Patient(a, n);
      if n > 0 && TimeoutAt(a, 0) then a != [] && (r, rest) == (TimedOut, a[1..])
      else r == Got(Flat(a)[..n]) && Behind(a, n, rest)
  {
    if n > 0 {
      if a[0].Bytes? { assert a[0].bytes != []; }
      CollectTakes(a, n);
      forall o: nat ensures TimeoutAt(Collect(a, n).1, o) <==> TimeoutAt(a, n + o) {
        CollectShifts(a, n, o);
      }
    }
  }

  /**
   * A frame that has come, in whatever pieces and with whatever pauses, is read exactly when no
   * timeout comes right where one of its parts begins.  A timeout before the frame costs nothing.
   */
  lemma PatientReadsIff(f: Frame, a: seq<Arrival>, rest: seq<byte>)
    requires ValidFrame(f) && NoEof(a) && Flat(a) == Encode(f) + rest
    ensures var (r, after) := ReadFramePatiently(a);
      if TimeoutAt(a, 0) then a != [] && (r, after) == (TimedOut, a[1..])
      else if PausesWithin(f, a, 0) then r == TimedOut
      else r == Got(Incoming(f.opcode, f.final, f.payload)) && Flat(after) == rest && Behind(a, |Encode(f)|, after)
  {
    EncodeParts(f, rest);
    StreamParts(Flat(a), Header(f)[0], Header(f)[1], Extra(f) + (KeyOf(f) + Body(f) + rest));
    PatientTakes(a, 2);
    CollectLength(a, 2);
    if !TimeoutAt(a, 0) {
      HeaderRead(f);
      PatientReadsFrame(f, a, Patient(a, 2).1, rest);
    }
  }

  lemma PatientReadsFrame(f: Frame, a: seq<Arrival>, a1: seq<Arrival>, rest: seq<byte>)
    requires ValidFrame(f) && Behind(a, 2, a1) && Flat(a1) == Extra(f) + (KeyOf(f) + Body(f) + rest)
    ensures var (r, after) := ReadBehindHeader(a1, Header(f)[1]);
      if PausesWithin(f, a, 0) then r == TimedOut
      else r == Got(f.payload) && Flat(after) == rest && Behind(a, |Encode(f)|, after)
  {
    var (r, after) := ReadBehindHeader(a1, Header(f)[1]);
    PatientReadsBehindHeader(f, a1, rest);
    SameTimeouts(f, a, a1);
    if !PausesBehindHeader(f, a1) { FrameBehind(f, a, a1, after); }
  }

  lemma FrameBehind(f: Frame, a: seq<Arrival>, a1: seq<Arrival>, after: seq<Arrival>)
    requires ValidFrame(f) && Behind(a, 2, a1) && Behind(a1, |Extra(f)| + |KeyOf(f)| + |f.payload|, after)
    ensures Behind(a, |Encode(f)|, after)
  {
    EncodeSize(f);
    BehindBehind(a, 2, a1, |Extra(f)| + |KeyOf(f)| + |f.payload|, after);
  }

  lemma EncodeSize(f: Frame)
    requires ValidFrame(f)
    ensures |Encode(f)| == 2 + (|Extra(f)| + |KeyOf(f)| + |f.payload|)
  {
  }

  predicate PausesBehindHeader(f: Frame, a: seq<Arrival>) {
    || (Extra(f) != [] && TimeoutAt(a, 0))
    || (f.mask.Some? && TimeoutAt(a, |Extra(f)|))
    || (f.payload != [] && TimeoutAt(a, |Extra(f)| + |KeyOf(f)|))
  }

  lemma SameTimeouts(f: Frame, a: seq<Arrival>, a1: seq<Arrival>)
    requires Behind(a, 2, a1)
    ensures PausesBehindHeader(f, a1) <==> PausesWithin(f, a, 0)
  {
    var size := |Extra(f)|;
    assert TimeoutAt(a1, 0) <==> TimeoutAt(a, 2 + 0);
    assert TimeoutAt(a1, size) <==> TimeoutAt(a, 2 + size);
    assert TimeoutAt(a1, size + |KeyOf(f)|) <==> TimeoutAt(a, 2 + (size + |KeyOf(f)|));
  }

  lemma PatientReadsBehindHeader(f: Frame, a: seq<Arrival>, rest: seq<byte>)
    requires ValidFrame(f) && NoEof(a) && Flat(a) == Extra(f) + (KeyOf(f) + Body(f) + rest)
    ensures var (r, after) := ReadBehindHeader(a, Header(f)[1]);
      if PausesBehindHeader(f, a) then r == TimedOut
      else r == Got(f.payload) && Flat(after) == rest && Behind(a, |Extra(f)| + |KeyOf(f)| + |f.payload|, after)
  {
    var size := |Extra(f)|;
    HeaderRead(f);
    PrefixOf(Flat(a), Extra(f), KeyOf(f) + Body(f) + rest);
    PatientTakes(a, size);
    if size == 0 || !TimeoutAt(a, 0) {
      LengthRead(|f.payload|);
      PatientReadsBehindLength(f, a, Patient(a, size).1, rest);
    }
  }

  lemma PatientReadsBehindLength(f: Frame, a: seq<Arrival>, a1: seq<Arrival>, rest: seq<byte>)
    requires ValidFrame(f) && Behind(a, |Extra(f)|, a1) && Flat(a1) == KeyOf(f) + Body(f) + rest
    requires Extra(f) == [] || !TimeoutAt(a, 0)
    ensures var (r, after) := ReadRestPatiently(a1, f.mask.Some?, |f.payload|);
      if PausesBehindHeader(f, a) then r == TimedOut
      else r == Got(f.payload) && Flat(after) == rest && Behind(a, |Extra(f)| + |KeyOf(f)| + |f.payload|, after)
  {
    var size := |Extra(f)|;
    assert TimeoutAt(a1, 0) <==> TimeoutAt(a, size + 0);
    assert TimeoutAt(a1, |KeyOf(f)|) <==> TimeoutAt(a, size + |KeyOf(f)|);
    PatientReadsRest(f, a1, rest);
    if !PausesBehindHeader(f, a) {
      BehindBehind(a, size, a1, |KeyOf(f)| + |f.payload|, ReadRestPatiently(a1, f.mask.Some?, |f.payload|).1);
    }
  }

  lemma StreamParts(s: seq<byte>, b0: byte, b1: byte, tail: seq<byte>)
    requires s == [b0, b1] + tail
    ensures s[..2] == [b0, b1] && s[2..] == tail
  {
  }

  lemma PrefixOf(s: seq<byte>, front: seq<byte>, tail: seq<byte>)
    requires s == front + tail
    ensures s[..|front|] == front && s[|front|..] == tail
  {
  }

  lemma PatientReadsRest(f: Frame, a: seq<Arrival>, rest: seq<byte>)
    requires ValidFrame(f) && NoEof(a) && Flat(a) == KeyOf(f) + Body(f) + rest
    ensures var (r, after) := ReadRestPatiently(a, f.mask.Some?, |f.payload|);
      if (f.mask.Some? && TimeoutAt(a, 0)) || (f.payload != [] && TimeoutAt(a, |KeyOf(f)|)) then r == TimedOut
      else r == Got(f.payload) && Flat(after) == rest && Behind(a, |KeyOf(f)| + |f.payload|, after)
  {
    if f.mask.Some? {
      Grouped(KeyOf(f), Body(f), rest);
      PatientReadsMasked(KeyOf(f), Body(f), a, rest);
      MaskedTwice(f.payload, KeyOf(f));
    } else {
      assert KeyOf(f) + Body(f) == f.payload;
      PatientReadsPlain(f.payload, a, rest);
    }
  }

  lemma PatientReadsPlain(payload: seq<byte>, a: seq<Arrival>, rest: seq<byte>)
    requires NoEof(a) && Flat(a) == payload + rest
    ensures var (r, after) := ReadRestPatiently(a, false, |payload|);
      if payload != [] && TimeoutAt(a, 0) then r == TimedOut
      else r == Got(payload) && Flat(after) == rest && Behind(a, |payload|, after)
  {
    PrefixOf(Flat(a), payload, rest);
    PatientTakes(a, |payload|);
  }

  lemma PatientReadsMasked(key: seq<byte>, body: seq<byte>, a: seq<Arrival>, rest: seq<byte>)
    requires |key| == 4 && NoEof(a) && Flat(a) == key + (body + rest)
    ensures var (r, after) := ReadRestPatiently(a, true, |body|);
      if TimeoutAt(a, 0) || (body != [] && TimeoutAt(a, 4)) then r == TimedOut
      else r == Got(Masked(body, key)) && Flat(after) == rest && Behind(a, 4 + |body|, after)
  {
    var n := |body|;
    PrefixOf(Flat(a), key, body + rest);
    PatientTakes(a, 4);
    if !TimeoutAt(a, 0) {
      var a1 := Patient(a, 4).1;
      PrefixOf(Flat(a1), body, rest);
      PatientTakes(a1, n);
      assert TimeoutAt(a1, 0) <==> TimeoutAt(a, 4 + 0);
      if n == 0 || !TimeoutAt(a1, 0) { BehindBehind(a, 4, a1, n, Patient(a1, n).1); }
    }
  }

  // ---------------------------------------------------------------------------------------
  // Reading without patience
  // ---------------------------------------------------------------------------------------

  /** Some timeout comes before `n` bytes have come. */
  ghost predicate TimeoutBefore(a: seq<Arrival>, n: nat) {
    exists o: nat :: o < n && TimeoutAt(a, o)
  }

  lemma {:induction false} ExactIsCollect(a: seq<Arrival>, n: nat)
    requires NoEof(a) && n <= |Flat(a)|
    ensures var (r, rest) := Exact(a, n);
      if TimeoutBefore(a, n) then r == None else r.Some? && Collect(a, n) == (Got(r.value), rest)
    decreases |a|
  {
    if n > 0 {
      if a[0].Timeout? {
        assert TimeoutAt(a, 0);
      } else if n <= |a[0].bytes| {
        assert forall o: nat :: o < n ==> !TimeoutAt(a, o);
      } else {
        var k := |a[0].bytes|;
        ExactIsCollect(a[1..], n - k);
        if o: nat :| o < n - k && TimeoutAt(a[1..], o) { assert TimeoutAt(a, k + o); }
        if o: nat :| o < n && TimeoutAt(a, o) { assert TimeoutAt(a[1..], o - k); }
      }
    }
  }

  /** So many bytes: lost if a timeout comes before the last of them, and otherwise read. */
  lemma ExactTakes(a: seq<Arrival>, n: nat)
    requires NoEof(a) && n <= |Flat(a)|
    ensures var (r, rest) := Exact(a, n);
      if TimeoutBefore(a, n) then r == None else r == Some(Flat(a)[..n]) && Behind(a, n, rest)
  {
    ExactIsCollect(a, n);
    if n > 0 && !TimeoutBefore(a, n) {
      CollectTakes(a, n);
      forall o: nat ensures TimeoutAt(Collect(a, n).1, o) <==> TimeoutAt(a, n + o) { CollectShifts(a, n, o); }
    }
  }

  lemma BeforeBoth(a: seq<Arrival>, m: nat, b: seq<Arrival>, n: nat)
    requires Behind(a, m, b)
    ensures TimeoutBefore(a, m + n) <==> TimeoutBefore(a, m) || TimeoutBefore(b, n)
  {
    if o: nat :| o < m + n && TimeoutAt(a, o) {
      if o >= m { assert TimeoutAt(a, m + (o - m)) && TimeoutAt(b, o - m); }
    }
    if o: nat :| o < n && TimeoutAt(b, o) { assert TimeoutAt(a, m + o); }
  }

  /** The reader without patience reads a frame that has come exactly if no timeout comes before its last byte. */
  lemma ExactReadsIff(f: Frame, a: seq<Arrival>, rest: seq<byte>)
    requires ValidFrame(f) && NoEof(a) && Flat(a) == Encode(f) + rest
    ensures var (r, after) := ReadFrame(a);
      if TimeoutBefore(a, |Encode(f)|) then r == None
      else r == Some((f.opcode, f.payload)) && Flat(after) == rest && Behind(a, |Encode(f)|, after)
  {
    EncodeParts(f, rest);
    StreamParts(Flat(a), Header(f)[0], Header(f)[1], Extra(f) + (KeyOf(f) + Body(f) + rest));
    ExactTakes(a, 2);
    ExactLength(a, 2);
    if TimeoutBefore(a, 2) {
      BeforeMore(a, 2, |Encode(f)|);
    } else {
      HeaderRead(f);
      ExactReadsBehindHeader(f, a, Exact(a, 2).1, rest);
    }
  }

  lemma BeforeMore(a: seq<Arrival>, n: nat, m: nat)
    requires TimeoutBefore(a, n) && n <= m
    ensures TimeoutBefore(a, m)
  {
  }

  lemma ExactReadsBehindHeader(f: Frame, a: seq<Arrival>, a1: seq<Arrival>, rest: seq<byte>)
    requires ValidFrame(f) && Behind(a, 2, a1) && !TimeoutBefore(a, 2)
    requires Flat(a1) == Extra(f) + (KeyOf(f) + Body(f) + rest)
    ensures var size, all := |Extra(f)|, |Encode(f)|;
      var (extra, a2) := Exact(a1, size);
      var (r, after) := ReadRest(a2, f.mask.Some?, |f.payload|);
      if TimeoutBefore(a, all) then extra == None || r == None
      else
        && extra == Some(Extra(f)) && LengthOf(LengthCode(|f.payload|), Extra(f)) == |f.payload|
        && r == Some(f.payload) && Flat(after) == rest && Behind(a, all, after)
    ensures Exact(a1, |Extra(f)|).0.Some? ==> Exact(a1, |Extra(f)|).0.value == Extra(f)
    ensures LengthOf(LengthCode(|f.payload|), Extra(f)) == |f.payload|
  {
    var size := |Extra(f)|;
    PrefixOf(Flat(a1), Extra(f), KeyOf(f) + Body(f) + rest);
    ExactTakes(a1, size);
    LengthRead(|f.payload|);
    BeforeBoth(a, 2, a1, size + |KeyOf(f)| + |f.payload|);
    if TimeoutBefore(a1, size) {
      BeforeMore(a1, size, size + |KeyOf(f)| + |f.payload|);
    } else {
      var a2 := Exact(a1, size).1;
      BeforeBoth(a1, size, a2, |KeyOf(f)| + |f.payload|);
      ExactReadsRest(f, a2, rest);
      BehindBehind(a, 2, a1, size, a2);
      if !TimeoutBefore(a2, |KeyOf(f)| + |f.payload|) {
        BehindBehind(a, 2 + size, a2, |KeyOf(f)| + |f.payload|, ReadRest(a2, f.mask.Some?, |f.payload|).1);
      }
    }
  }

  lemma ExactReadsRest(f: Frame, a: seq<Arrival>, rest: seq<byte>)
    requires ValidFrame(f) && NoEof(a) && Flat(a) == KeyOf(f) + Body(f) + rest
    ensures var (r, after) := ReadRest(a, f.mask.Some?, |f.payload|);
      if TimeoutBefore(a, |KeyOf(f)| + |f.payload|) then r == None
      else r == Some(f.payload) && Flat(after) == rest && Behind(a, |KeyOf(f)| + |f.payload|, after)
  {
    if f.mask.Some? {
      Grouped(KeyOf(f), Body(f), rest);
      ExactReadsMasked(KeyOf(f), Body(f), a, rest);
      MaskedTwice(f.payload, KeyOf(f));
    } else {
      assert KeyOf(f) + Body(f) == f.payload;
      PrefixOf(Flat(a), f.payload, rest);
      ExactTakes(a, |f.payload|);
    }
  }

  lemma ExactReadsMasked(key: seq<byte>, body: seq<byte>, a: seq<Arrival>, rest: seq<byte>)
    requires |key| == 4 && NoEof(a) && Flat(a) == key + (body + rest)
    ensures var (r, after) := ReadRest(a, true, |body|);
      if TimeoutBefore(a, 4 + |body|) then r == None
      else r == Some(Masked(body, key)) && Flat(after) == rest && Behind(a, 4 + |body|, after)
  {
    var n := |body|;
    PrefixOf(Flat(a), key, body + rest);
    ExactTakes(a, 4);
    if TimeoutBefore(a, 4) {
      BeforeMore(a, 4, 4 + n);
    } else {
      var a1 := Exact(a, 4).1;
      PrefixOf(Flat(a1), body, rest);
      ExactTakes(a1, n);
      BeforeBoth(a, 4, a1, n);
      if !TimeoutBefore(a1, n) { BehindBehind(a, 4, a1, n, Exact(a1, n).1); }
    }
  }

  // ---------------------------------------------------------------------------------------
  // Reading on after timeouts
  // ---------------------------------------------------------------------------------------

  /** The fewest bytes in which a frame says this. */
  function Least(m: Incoming): nat {
    2 + ExtraSize(LengthCode(|m.payload|)) + |m.payload|
  }

  /** At least `n` bytes fewer are left. */
  ghost predicate Spent(a: seq<Arrival>, n: nat, rest: seq<Arrival>) {
    |rest| <= |a| && |Flat(rest)| + n <= |Flat(a)|
  }

  lemma {:induction false} CollectSpends(a: seq<Arrival>, n: nat)
    ensures var (r, rest) := Collect(a, n); !r.TimedOut? && Spent(a, if r.Got? then n else 0, rest)
    decreases |a|
  {
    if n > 0 && a != [] {
      if a[0].Timeout? {
        CollectSpends(a[1..], n);
      } else if !IsEof(a[0]) {
        if n <= |a[0].bytes| { FlatOfRest(a, n); } else { CollectSpends(a[1..], n - |a[0].bytes|); }
      }
    }
  }

  lemma PatientSpends(a: seq<Arrival>, n: nat)
    ensures var (r, rest) := Patient(a, n);
      && Spent(a, if r.Got? then n else 0, rest)
      && (r.TimedOut? ==> a != [] && a[0].Timeout? && rest == a[1..])
      && (r.Got? ==> |r.value| == n)
  {
    CollectSpends(a, n);
    CollectLength(a, n);
  }

  lemma RestSpends(a: seq<Arrival>, masked: bool, n: nat)
    ensures var (r, rest) := ReadRestPatiently(a, masked, n);
      Spent(a, if r.Got? then n else 0, rest) && (r.Got? ==> |r.value| == n)
  {
    if masked {
      PatientSpends(a, 4);
      PatientSpends(Patient(a, 4).1, n);
    } else {
      PatientSpends(a, n);
    }
  }

  lemma BehindHeaderSpends(a: seq<Arrival>, b1: byte)
    ensures var (r, rest) := ReadBehindHeader(a, b1);
      Spent(a, if r.Got? then ExtraSize(LengthCode(|r.value|)) + |r.value| else 0, rest)
  {
    var code := b1 % 128;
    PatientSpends(a, ExtraSize(code));
    var (extra, a1) := Patient(a, ExtraSize(code));
    if extra.Got? {
      ShortestCode(code, extra.value);
      RestSpends(a1, b1 >= 128, LengthOf(code, extra.value));
    }
  }

  /** Reading a frame takes at least the bytes it needs, and giving up takes something too. */
  lemma FrameSpends(a: seq<Arrival>)
    ensures var (r, rest) := ReadFramePatiently(a);
      && Spent(a, if r.Got? then Least(r.value) else 0, rest)
      && (r.TimedOut? && !(a != [] && a[0].Timeout?) ==> Spent(a, 2, rest))
      && (r.TimedOut? && a != [] && a[0].Timeout? ==> rest == a[1..])
  {
    PatientSpends(a, 2);
    var (header, a1) := Patient(a, 2);
    if header.Got? { BehindHeaderSpends(a1, header.value[1]); }
  }

  lemma ShortestCode(code: nat, extra: seq<byte>)
    requires code < 128 && |extra| == ExtraSize(code)
    ensures ExtraSize(LengthCode(LengthOf(code, extra))) <= ExtraSize(code)
  {
    Sizes();
    BigEndianOfValue(extra);
  }

  /** The frames read until the socket is closed, going on after each timeout. */
  function ReadOn(a: seq<Arrival>): seq<Incoming>
    decreases |Flat(a)| + |a|
  {
    FrameSpends(a);
    var (r, rest) := ReadFramePatiently(a);
    match r
    case Got(m) => [m] + ReadOn(rest)
    case TimedOut => ReadOn(rest)
    case Closed => []
  }

  /** Bytes and waits to come. */
  function ToCome(a: seq<Arrival>): nat {
    |Flat(a)| + |a|
  }

  lemma ReadOnStep(a: seq<Arrival>)
    ensures match ReadFramePatiently(a).0
      case Got(m) => ReadOn(a) == [m] + ReadOn(ReadFramePatiently(a).1) && ToCome(ReadFramePatiently(a).1) < ToCome(a)
      case TimedOut => ReadOn(a) == ReadOn(ReadFramePatiently(a).1) && ToCome(ReadFramePatiently(a).1) < ToCome(a)
      case Closed => ReadOn(a) == []
  {
    FrameSpends(a);
  }

  function Said(fs: seq<Frame>): seq<Incoming> {
    if fs == [] then [] else [Incoming(fs[0].opcode, fs[0].final, fs[0].payload)] + Said(fs[1..])
  }

  function LeastAll(ms: seq<Incoming>): nat {
    if ms == [] then 0 else Least(ms[0]) + LeastAll(ms[1..])
  }

  /** Some frame is interrupted where one of its parts begins. */
  predicate PausesInFrame(fs: seq<Frame>, a: seq<Arrival>, start: nat)
    requires ValidFrames(fs)
  {
    fs != [] && (PausesWithin(fs[0], a, start) || PausesInFrame(fs[1..], a, start + |Encode(fs[0])|))
  }

  ghost predicate Unmasked(fs: seq<Frame>) {
    forall i :: 0 <= i < |fs| ==> fs[i].mask.None?
  }

  /** What is read takes no fewer bytes than it can be said in. */
  lemma {:induction false} ReadOnSpends(a: seq<Arrival>)
    ensures LeastAll(ReadOn(a)) <= |Flat(a)|
    decreases |Flat(a)| + |a|
  {
    FrameSpends(a);
    var (r, rest) := ReadFramePatiently(a);
    if !r.Closed? { ReadOnSpends(rest); }
  }

  lemma {:induction false} SaidShortly(fs: seq<Frame>)
    requires ValidFrames(fs) && Unmasked(fs)
    ensures LeastAll(Said(fs)) == |EncodeAll(fs)|
  {
    if fs != [] { SaidShortly(fs[1..]); }
  }

  lemma {:induction false} PausesBehind(fs: seq<Frame>, a: seq<Arrival>, n: nat, rest: seq<Arrival>, start: nat)
    requires ValidFrames(fs) && Behind(a, n, rest)
    ensures PausesInFrame(fs, rest, start) <==> PausesInFrame(fs, a, n + start)
    decreases |fs|
  {
    if fs != [] {
      PausesShift(fs[0], a, n, rest, start);
      PausesBehind(fs[1..], a, n, rest, start + |Encode(fs[0])|);
    }
  }

  lemma PausesFirst(fs: seq<Frame>, a: seq<Arrival>)
    requires ValidFrames(fs) && fs != []
    ensures PausesInFrame(fs, a, 0) <==> PausesWithin(fs[0], a, 0) || PausesInFrame(fs[1..], a, |Encode(fs[0])|)
  {
  }

  lemma PausesShift(f: Frame, a: seq<Arrival>, n: nat, rest: seq<Arrival>, start: nat)
    requires Behind(a, n, rest)
    ensures PausesWithin(f, rest, start) <==> PausesWithin(f, a, n + start)
  {
    var size := ExtraSize(LengthCode(|f.payload|));
    assert TimeoutAt(rest, start + 2) <==> TimeoutAt(a, n + (start + 2));
    assert TimeoutAt(rest, start + 2 + size) <==> TimeoutAt(a, n + (start + 2 + size));
    assert TimeoutAt(rest, start + 2 + size + |KeyOf(f)|) <==> TimeoutAt(a, n + (start + 2 + size + |KeyOf(f)|));
  }

  /** A timeout before the frames changes nothing about them. */
  lemma {:induction false} PausesLater(fs: seq<Frame>, a: seq<Arrival>, start: nat)
    requires ValidFrames(fs) && a != [] && a[0].Timeout?
    ensures PausesInFrame(fs, a, start) <==> PausesInFrame(fs, a[1..], start)
    decreases |fs|
  {
    if fs != [] { PausesLater(fs[1..], a, start + |Encode(fs[0])|); }
  }

  lemma TimeoutFirst(a: seq<Arrival>)
    requires NoEof(a)
    ensures TimeoutAt(a, 0) <==> a != [] && a[0].Timeout?
  {
    if a != [] && a[0].Bytes? { assert a[0].bytes != []; }
  }

  /** How reading begins: with a timeout before the first frame, or within it, or with the frame. */
  lemma FirstFrame(fs: seq<Frame>, a: seq<Arrival>)
    requires ValidFrames(fs) && fs != [] && NoEof(a) && Flat(a) == EncodeAll(fs)
    ensures var (r, after) := ReadFramePatiently(a);
      if TimeoutAt(a, 0) then r == TimedOut && a != [] && after == a[1..] && Pending(fs, after, fs, a)
      else if PausesWithin(fs[0], a, 0) then r == TimedOut && Spent(a, 2, after)
      else r == Got(Incoming(fs[0].opcode, fs[0].final, fs[0].payload)) && Pending(fs[1..], after, fs, a)
  {
    var f, rest := fs[0], EncodeAll(fs[1..]);
    assert Flat(a) == Encode(f) + rest;
    TimeoutFirst(a);
    FrameSpends(a);
    PatientReadsIff(f, a, rest);
    var after := ReadFramePatiently(a).1;
    if TimeoutAt(a, 0) {
      PausesLater(fs, a, 0);
    } else if !PausesWithin(f, a, 0) {
      PendingBehind(fs, a, after);
    }
  }

  lemma PendingBehind(fs: seq<Frame>, a: seq<Arrival>, after: seq<Arrival>)
    requires ValidFrames(fs) && fs != [] && Behind(a, |Encode(fs[0])|, after) && Flat(after) == EncodeAll(fs[1..])
    requires !PausesWithin(fs[0], a, 0)
    ensures Pending(fs[1..], after, fs, a)
  {
    PausesFirst(fs, a);
    PausesBehind(fs[1..], a, |Encode(fs[0])|, after, 0);
  }

  /** The frames that are still to come, with the pauses within them. */
  ghost predicate Pending(left: seq<Frame>, after: seq<Arrival>, fs: seq<Frame>, a: seq<Arrival>)
    requires ValidFrames(fs)
  {
    && ValidFrames(left) && NoEof(after) && Flat(after) == EncodeAll(left)
    && (PausesInFrame(left, after, 0) <==> PausesInFrame(fs, a, 0))
  }

  /** Without such a pause every frame is read, masked or not. */
  lemma {:induction false} NoneLost(fs: seq<Frame>, a: seq<Arrival>)
    requires ValidFrames(fs) && NoEof(a) && Flat(a) == EncodeAll(fs)
    requires !PausesInFrame(fs, a, 0)
    ensures ReadOn(a) == Said(fs)
    decreases |Flat(a)| + |a|
  {
    FrameSpends(a);
    if fs == [] {
      ReadOnSpends(a);
    } else {
      FirstFrame(fs, a);
      NoneLost(if TimeoutAt(a, 0) then fs else fs[1..], ReadFramePatiently(a).1);
    }
  }

  lemma SameHead(m: Incoming, x: seq<Incoming>, y: seq<Incoming>)
    ensures [m] + x == [m] + y <==> x == y
  {
    assert ([m] + x)[1..] == x && ([m] + y)[1..] == y;
  }

  /** With such a pause bytes are lost, and too few are left to say as much. */
  lemma {:induction false} SomeLost(fs: seq<Frame>, a: seq<Arrival>)
    requires ValidFrames(fs) && Unmasked(fs) && NoEof(a) && Flat(a) == EncodeAll(fs)
    requires PausesInFrame(fs, a, 0)
    ensures ReadOn(a) != Said(fs)
    decreases |Flat(a)| + |a|
  {
    FrameSpends(a);
    FirstFrame(fs, a);
    var after := ReadFramePatiently(a).1;
    if TimeoutAt(a, 0) {
      SomeLost(fs, after);
    } else if PausesWithin(fs[0], a, 0) {
      ReadOnSpends(after);
      SaidShortly(fs);
    } else {
      SomeLost(fs[1..], after);
      SameHead(Said(fs)[0], ReadOn(after), Said(fs[1..]));
    }
  }

  /**
   * The frames of a server, which are not masked, are all read, and nothing else is, exactly when
   * none of them is interrupted where one of its parts begins.
   */
  lemma ReadOnIff(fs: seq<Frame>, a: seq<Arrival>)
    requires ValidFrames(fs) && Unmasked(fs) && NoEof(a) && Flat(a) == EncodeAll(fs)
    ensures ReadOn(a) == Said(fs) <==> !PausesInFrame(fs, a, 0)
  {
    if PausesInFrame(fs, a, 0) { SomeLost(fs, a); } else { NoneLost(fs, a); }
  }

  /** A header, and the rest after a timeout. */
  function Interrupted(header: seq<byte>, rest: seq<byte>): seq<Arrival> {
    [Bytes(header), Timeout, Bytes(rest)]
  }

  lemma InterruptedRead(header: seq<byte>, rest: seq<byte>)
    requires |header| == 2 && header[1] != 0
    ensures Flat(Interrupted(header, rest)) == header + rest
    ensures ReadFramePatiently(Interrupted(header, rest)) == (TimedOut, [Bytes(rest)])
    ensures TimeoutAt(Interrupted(header, rest), 2)
  {
    var a := Interrupted(header, rest);
    assert a[1..] == [Timeout, Bytes(rest)] && a[1..][1..] == [Bytes(rest)] && header[..2] == header;
    assert Flat([Bytes(rest)]) == rest && Flat(a[1..]) == [] + rest == rest;
    assert Patient(a, 2) == (Got(header), a[1..]);
    assert TimeoutAt(a[1..], 0);
  }

  lemma ShortFrame(b0: byte, b1: byte, payload: seq<byte>, tail: seq<byte>)
    requires 0 < |payload| == b1 < 126
    ensures ReadFramePatiently([Bytes([b0, b1] + payload + tail)]).0 == Got(Incoming(b0 % 16, b0 >= 128, payload))
  {
    var s := [b0, b1] + payload + tail;
    assert s[..2] == [b0, b1] && s[2..] == payload + tail && (payload + tail)[..b1] == payload;
    assert Rest([Bytes(s)], 2) == [Bytes(payload + tail)];
  }

  const HELLO: seq<byte> := [0x68, 0x65, 0x6c, 0x6c, 0x6f]

  /** After such a timeout the payload is taken for the next header: "hello" and 98 bytes more tell to close. */
  lemma TimeoutMisreads(more: seq<byte>)
    requires |more| >= 98
    ensures var arrivals := Interrupted([0x81, 5], HELLO + more);
      && Flat(arrivals) == Encode(TextFrame(HELLO)) + more
      && ReadFramePatiently(arrivals) == (TimedOut, arrivals[2..])
      && ReadFramePatiently(arrivals[2..]).0 == Got(Incoming(8, false, [0x6c, 0x6c, 0x6f] + more[..98]))
  {
    InterruptedRead([0x81, 5], HELLO + more);
    assert Encode(TextFrame(HELLO)) == [0x81, 5] + HELLO;
    assert [0x81, 5] + HELLO + more == [0x81, 5] + (HELLO + more);
    HelloMisread(more);
  }

  lemma HelloMisread(more: seq<byte>)
    requires |more| >= 98
    ensures ReadFramePatiently([Bytes(HELLO + more)]).0 == Got(Incoming(8, false, [0x6c, 0x6c, 0x6f] + more[..98]))
  {
    var payload := [0x6c, 0x6c, 0x6f] + more[..98];
    assert HELLO + more == [0x68, 0x65] + payload + more[98..];
    ShortFrame(0x68, 0x65, payload, more[98..]);
  }

  const ZEROS: seq<byte> := [0, 0]

  /** A masked frame may be read by accident: the mask, taken for a frame, says the same. */
  lemma MaskMisreadsTheSame()
    ensures var f, mask := Frame(true, 1, Some([0x81, 126] + ZEROS), []), [0x81, 126] + ZEROS;
      var arrivals := Interrupted([0x81, 128], mask);
      && Flat(arrivals) == EncodeAll([f]) && PausesInFrame([f], arrivals, 0)
      && ReadOn(arrivals) == Said([f])
  {
    var mask := [0x81, 126] + ZEROS;
    InterruptedRead([0x81, 128], mask);
    NothingAtLength(0x81, 126);
    assert ReadOn([]) == [];
    assert ReadOn([Bytes(mask)]) == [Incoming(1, true, [])];
  }

  lemma NothingAtLength(b0: byte, b1: byte)
    requires b1 == 126
    ensures ReadFramePatiently([Bytes([b0, b1] + ZEROS)]) == (Got(Incoming(b0 % 16, b0 >= 128, [])), [])
  {
    var s := [b0, b1] + ZEROS;
    assert s[..2] == [b0, b1] && s[2..] == ZEROS && ZEROS[..2] == ZEROS;
    assert Rest([Bytes(s)], 2) == [Bytes(ZEROS)];
    assert ZEROS[..1] == [0] && Value([0]) == 0 && Value(ZEROS) == 0;
  }
}
