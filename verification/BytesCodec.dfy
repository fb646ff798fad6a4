/** RustDesk's BytesCodec framing: a 1-4 byte little-endian header whose two low bits hold the header
    size minus one, then the payload. Two copies of the codec exist, `FramedTransport` and a pair of
    free functions used by the rendezvous client; both are proved against the same frame format, so each
    reads what the other writes. */
module BytesCodec {
  import opened Common

  /** One byte on the wire. Ciphertext is symbolic: its bytes remember which box they belong to and
      where they stand in it. */
  datatype Octet =
    | Clear(value: Byte)
    | Sealed(key: Bytes, nonce: Bytes, plain: Bytes, at: nat)

  /** The value a header parser sees. A ciphertext octet has no known value and reads as zero. A reader that
      is in step with the writer never takes one for a header byte; one that an oversized message has put
      out of step does, and what it reads from then on has no meaning here. */
  function ValueOf(o: Octet): Byte {
    if o.Clear? then o.value else 0
  }

  const MAX_SENDABLE: nat := 0x3FFF_FFFF
  const MAX_RECEIVABLE: nat := 64 * 1024 * 1024

  datatype SendError = PayloadTooLarge | StreamBroken

  datatype RecvError = UnexpectedEof | LengthOverLimit(length: nat)

  function Clears(bs: Bytes): (s: seq<Octet>)
    ensures |s| == |bs|
  {
    seq(|bs|, i requires 0 <= i < |bs| => Clear(bs[i]))
  }

  function Values(s: seq<Octet>): (bs: Bytes)
    ensures |bs| == |s|
  {
    seq(|s|, i requires 0 <= i < |s| => ValueOf(s[i]))
  }

  function HeaderSize(length: nat): (k: nat)
    ensures 1 <= k <= 4
  {
    if length <= 0x3F then 1 else if length <= 0x3FFF then 2 else if length <= 0x3F_FFFF then 3 else 4
  }

  /** The number written as the header: the length shifted by two bits, with the tag in these. The casts of
      the source are written out: `as u8`, `as u16` and `as u32` keep the low bits, and `<< 2` drops what
      leaves the type. That `|` adds the tag is `OrTag`. */
  function HeaderWord(length: nat): nat {
    if length <= 0x3F then length % 0x100 * 4 % 0x100
    else if length <= 0x3FFF then length % 0x1_0000 * 4 % 0x1_0000 + 1
    else if length <= 0x3F_FFFF then length % 0x1_0000_0000 * 4 % 0x1_0000_0000 + 2
    else length % 0x1_0000_0000 * 4 % 0x1_0000_0000 + 3
  }

  function Header(length: nat): (h: Bytes)
    requires length <= MAX_SENDABLE
    ensures |h| == HeaderSize(length)
  {
    Le(HeaderWord(length), HeaderSize(length))
  }

  function Frame(payload: seq<Octet>): (f: seq<Octet>)
    requires |payload| <= MAX_SENDABLE
    ensures |payload| < |f| <= |payload| + 4
  {
    Clears(Header(|payload|)) + payload
  }

  /** What one `recv` finds at the front of a stream that ends after `s`. */
  datatype Reading =
    | Complete(payload: seq<Octet>, rest: seq<Octet>)
    | TooLong(length: nat, rest: seq<Octet>)
    | Partial

  /** The `u32` a header of at most four bytes stands for once missing bytes are zero. */
  function HeaderNumber(h: Bytes): nat
    requires |h| <= 4
  {
    FromLe(h + seq(4 - |h|, _ => 0))
  }

  function ReadFrame(s: seq<Octet>): Reading {
    if s == [] then Partial
    else
      var size := ValueOf(s[0]) % 4 + 1;
      if |s| < size then Partial
      else
        var length := HeaderNumber(Values(s[..size])) / 4;
        if length > MAX_RECEIVABLE then TooLong(length, s[size..])
        else if |s| < size + length then Partial
        else Complete(s[size..size + length], s[size + length..])
  }

  // ----- The header carries exactly its length -----

  /** Shifting the length left by two inside its type loses nothing, and the tag fits beside it. */
  lemma HeaderWordFits(length: nat)
    requires length <= MAX_SENDABLE
    ensures HeaderWord(length) == 4 * length + HeaderSize(length) - 1 < Pow256(HeaderSize(length))
  {
    assert Pow256(1) == 0x100;
    assert Pow256(2) == 0x1_0000;
    assert Pow256(3) == 0x100_0000;
    assert Pow256(4) == 0x1_0000_0000;
    hide Pow256;
    ShiftKeeps(length);
  }

  lemma ShiftKeeps(length: nat)
    requires length <= MAX_SENDABLE
    ensures length <= 0x3F ==> length % 0x100 * 4 % 0x100 == 4 * length
    ensures length <= 0x3FFF ==> length % 0x1_0000 * 4 % 0x1_0000 == 4 * length
    ensures length % 0x1_0000_0000 * 4 % 0x1_0000_0000 == 4 * length
  {
  }

  /** No cast loses a bit at any of the four size boundaries: the first byte announces the number of
      header bytes, and the header number divided by four is the payload length. */
  lemma HeaderCarriesLength(length: nat)
    requires length <= MAX_SENDABLE
    ensures Header(length)[0] % 4 + 1 == |Header(length)|
    ensures HeaderNumber(Header(length)) / 4 == length
    ensures |Header(length)| == 1 <==> length < 0x40
    ensures |Header(length)| <= 2 <==> length < 0x4000
    ensures |Header(length)| <= 3 <==> length < 0x40_0000
  {
    hide Le, FromLe, HeaderWord, Pow256;
    HeaderWordFits(length);
    LeFirst(HeaderWord(length), HeaderSize(length));
    LeRoundTrip(HeaderWord(length), HeaderSize(length));
    FromLePadded(Header(length), 4 - HeaderSize(length));
  }

  lemma LeFirst(v: nat, k: nat)
    requires k > 0
    ensures Le(v, k)[0] == v % 0x100
  {
  }

  /** Facts about the front of a frame followed by anything. */
  lemma FrameFront(payload: seq<Octet>, tail: seq<Octet>)
    requires |payload| <= MAX_SENDABLE
    ensures var h := Header(|payload|); var s := Frame(payload) + tail;
            && ValueOf(s[0]) % 4 + 1 == |h|
            && Values(s[..|h|]) == h
            && s[|h|..] == payload + tail
  {
    hide Le;
    hide HeaderWord;
    HeaderCarriesLength(|payload|);
    var h := Header(|payload|);
    assert (Frame(payload) + tail)[..|h|] == Clears(h);
  }

  // ----- Frames are self-delimiting -----

  /** A frame is read back whole, and what follows it is untouched, exactly when its payload is within
      the receiver's limit. Above the limit the header alone is consumed and the payload is left in
      the stream, where the next read will take it for a header. */
  lemma ReadBack(payload: seq<Octet>, tail: seq<Octet>)
    requires |payload| <= MAX_SENDABLE
    ensures ReadFrame(Frame(payload) + tail) == Complete(payload, tail) <==> |payload| <= MAX_RECEIVABLE
    ensures |payload| > MAX_RECEIVABLE ==> ReadFrame(Frame(payload) + tail) == TooLong(|payload|, payload + tail)
  {
    HeaderCarriesLength(|payload|);
    FrameFront(payload, tail);
    var h := Header(|payload|);
    var s := Frame(payload) + tail;
    assert s[|h|..|h| + |payload|] == payload;
    assert s[|h| + |payload|..] == tail;
  }

  /** No strict prefix of a receivable frame reads as a frame, so a reader waits for all of it. */
  lemma StrictPrefixIsPartial(payload: seq<Octet>, k: nat)
    requires |payload| <= MAX_RECEIVABLE
    requires k < |Frame(payload)|
    ensures ReadFrame(Frame(payload)[..k]) == Partial
  {
    HeaderCarriesLength(|payload|);
    FrameFront(payload, []);
    var h := Header(|payload|);
    var s := Frame(payload);
    assert s + [] == s;
    if |h| <= k {
      assert s[..k][..|h|] == s[..|h|];
    }
  }

  function Frames(payloads: seq<seq<Octet>>): seq<Octet>
    requires forall p <- payloads :: |p| <= MAX_SENDABLE
  {
    if payloads == [] then [] else Frame(payloads[0]) + Frames(payloads[1..])
  }

  /** Reads `n` frames in a row; `None` as soon as one of them is not there or is refused. */
  function ReadFrames(s: seq<Octet>, n: nat): Option<(seq<seq<Octet>>, seq<Octet>)> {
    if n == 0 then Some(([], s))
    else
      match ReadFrame(s)
      case Complete(payload, rest) =>
        var more := ReadFrames(rest, n - 1);
        if more.None? then None else Some(([payload] + more.value.0, more.value.1))
      case _ => None
  }

  lemma ReadFramesStep(s: seq<Octet>, n: nat, payload: seq<Octet>, rest: seq<Octet>)
    requires n > 0
    requires ReadFrame(s) == Complete(payload, rest)
    requires ReadFrames(rest, n - 1).Some?
    ensures var more := ReadFrames(rest, n - 1).value;
            ReadFrames(s, n) == Some(([payload] + more.0, more.1))
  {
  }

  /** Any list of receivable payloads written back to back is read back as that list, leaving the
      rest of the stream as it was. */
  lemma {:induction false} StreamRoundTrip(payloads: seq<seq<Octet>>, tail: seq<Octet>)
    requires forall p <- payloads :: |p| <= MAX_RECEIVABLE
    ensures ReadFrames(Frames(payloads) + tail, |payloads|) == Some((payloads, tail))
  {
    hide Frame, ReadFrame;
    if payloads == [] {
      assert Frames(payloads) + tail == tail;
    } else {
      hide ReadFrames;
      var first, more := Frame(payloads[0]), Frames(payloads[1..]);
      var rest := more + tail;
      ConcatAssociative(first, more, tail);
      ReadBack(payloads[0], rest);
      StreamRoundTrip(payloads[1..], tail);
      ReadFramesStep(first + rest, |payloads|, payloads[0], rest);
      assert [payloads[0]] + payloads[1..] == payloads;
    }
  }

  /** Equal bytes begin with the same frame and go on equally. */
  lemma FrameFirst(p: seq<Octet>, x: seq<Octet>, q: seq<Octet>, y: seq<Octet>)
    requires |p| <= MAX_SENDABLE && |q| <= MAX_SENDABLE && Frame(p) + x == Frame(q) + y
    ensures p == q && x == y
  {
    FrameFront(p, x);
    FrameFront(q, y);
    HeaderCarriesLength(|p|);
    HeaderCarriesLength(|q|);
    hide Frame, Header;
    assert (p + x)[..|p|] == p && (q + y)[..|q|] == q;
    assert (p + x)[|p|..] == x && (q + y)[|q|..] == y;
  }

  /** Two different payload lists never produce the same bytes. */
  lemma {:induction false} FramesInjective(ps: seq<seq<Octet>>, qs: seq<seq<Octet>>)
    requires (forall p <- ps :: |p| <= MAX_SENDABLE) && (forall q <- qs :: |q| <= MAX_SENDABLE)
    requires Frames(ps) == Frames(qs)
    ensures ps == qs
  {
    hide Frame;
    if ps != [] && qs != [] {
      FrameFirst(ps[0], Frames(ps[1..]), qs[0], Frames(qs[1..]));
      FramesInjective(ps[1..], qs[1..]);
      assert ps == [ps[0]] + ps[1..] && qs == [qs[0]] + qs[1..];
    }
  }

  // ----- The stream and the two copies of the codec -----

  function Min(a: nat, b: nat): nat {
    if a <= b then a else b
  }

  /** A duplex byte stream as one side sees it: what the peer has written and this side has not read
      yet, what this side has written, and how many more bytes go out before the stream breaks. */
  class ByteStream {
    var inbound: seq<Octet>
    var outbound: seq<Octet>
    var capacity: nat

    constructor (inbound: seq<Octet>, capacity: nat)
      ensures this.inbound == inbound && outbound == [] && this.capacity == capacity
    {
      this.inbound := inbound;
      outbound := [];
      this.capacity := capacity;
    }

    /** `write_all`: when the stream breaks on the way, the bytes before that are out. */
    method WriteAll(bytes: seq<Octet>) returns (ok: bool)
      modifies this`outbound, this`capacity
      ensures ok == (|bytes| <= old(capacity))
      ensures outbound == old(outbound) + bytes[..Min(|bytes|, old(capacity))]
      ensures capacity == old(capacity) - Min(|bytes|, old(capacity))
    {
      var n := Min(|bytes|, capacity);
      ok := n == |bytes|;
      outbound := outbound + bytes[..n];
      capacity := capacity - n;
    }

    /** `read_exact`: fills the whole buffer or, at the end of the stream, fails with it drained. */
    method ReadExact(n: nat) returns (r: Option<seq<Octet>>)
      modifies this`inbound
      ensures n <= |old(inbound)| ==> r == Some(old(inbound)[..n]) && inbound == old(inbound)[n..]
      ensures n > |old(inbound)| ==> r == None && inbound == []
    {
      if n <= |inbound| {
        r, inbound := Some(inbound[..n]), inbound[n..];
      } else {
        r, inbound := None, [];
      }
    }

    /** `read_exact` into a part of a buffer. */
    method ReadInto(raw: array<Byte>, from: nat, to: nat) returns (ok: bool)
      requires from <= to <= raw.Length
      modifies this`inbound, raw
      ensures ok == (to - from <= |old(inbound)|)
      ensures ok ==> inbound == old(inbound)[to - from..]
      ensures ok ==> raw[..] == old(raw[..from]) + Values(old(inbound)[..to - from]) + old(raw[to..])
      ensures !ok ==> inbound == []
    {
      var bytes := ReadExact(to - from);
      if bytes.None? { return false; }
      for i := from to to
        modifies raw
        invariant raw[..from] == old(raw[..from]) && raw[to..] == old(raw[to..])
        invariant raw[from..i] == Values(bytes.value)[..i - from]
      {
        raw[i] := ValueOf(bytes.value[i - from]);
      }
      assert raw[..] == raw[..from] + raw[from..to] + raw[to..];
      return true;
    }
  }

  function ReadResult(s: seq<Octet>): Result<seq<Octet>, RecvError> {
    match ReadFrame(s)
    case Complete(payload, _) => Ok(payload)
    case TooLong(length, _) => Err(LengthOverLimit(length))
    case Partial => Err(UnexpectedEof)
  }

  function Unread(s: seq<Octet>): seq<Octet> {
    match ReadFrame(s)
    case Complete(_, rest) => rest
    case TooLong(_, rest) => rest
    case Partial => []
  }

  /** What a send puts on a stream that breaks after `capacity` bytes: the frame, or the part of it before
      the break; nothing at all for a payload too large to frame. */
  function Sent(msg: seq<Octet>, capacity: nat): (out: seq<Octet>)
    ensures |out| <= capacity
  {
    if |msg| > MAX_SENDABLE then [] else Frame(msg)[..Min(|Frame(msg)|, capacity)]
  }

  function SendResult(msg: seq<Octet>, capacity: nat): Result<(), SendError> {
    if |msg| > MAX_SENDABLE then Err(PayloadTooLarge)
    else if |Frame(msg)| <= capacity then Ok(()) else Err(StreamBroken)
  }

  /** After the shift the two low bits are free, so `|` adds the tag: what the writers compute is the header
      word. */
  lemma OrTag(length: nat)
    requires length <= MAX_SENDABLE
    ensures length <= 0x3F ==> BitOr(length % 0x100 * 4 % 0x100, 0) == HeaderWord(length)
    ensures 0x3F < length <= 0x3FFF ==> BitOr(length % 0x1_0000 * 4 % 0x1_0000, 1) == HeaderWord(length)
    ensures 0x3FFF < length <= 0x3F_FFFF ==>
              BitOr(length % 0x1_0000_0000 * 4 % 0x1_0000_0000, 2) == HeaderWord(length)
    ensures length > 0x3F_FFFF ==> BitOr(length % 0x1_0000_0000 * 4 % 0x1_0000_0000, 3) == HeaderWord(length)
  {
    hide BitOr;
    ShiftKeeps(length);
    OrLowBits(4 * length, HeaderSize(length) - 1);
  }

  lemma OrLowBits(shifted: nat, tag: nat)
    requires shifted % 4 == 0 && tag < 4
    ensures BitOr(shifted, tag) == shifted + tag
  {
    assert Pow2(1) == 2 && Pow2(2) == 4;
    hide BitOr;
    OrAdds(shifted / 4, tag, 2);
  }

  /** Writing a header and then a payload, the second only if the first went out. */
  lemma TwoWrites(msg: seq<Octet>, header: Bytes, capacity: nat)
    requires |msg| <= MAX_SENDABLE && header == Header(|msg|)
    ensures |header| > capacity ==>
              Sent(msg, capacity) == Clears(header)[..capacity] && SendResult(msg, capacity) == Err(StreamBroken)
    ensures |header| <= capacity ==>
              var rest := capacity - |header|;
              && Sent(msg, capacity) == Clears(header) + msg[..Min(|msg|, rest)]
              && SendResult(msg, capacity) == if |msg| <= rest then Ok(()) else Err(StreamBroken)
  {
    hide Header, Clears;
  }

  /** The header number, as the zeroed buffer holds it. */
  lemma HeaderInBuffer(s: seq<Octet>, size: nat, raw: Bytes)
    requires 1 <= size <= 4 && size <= |s|
    requires raw == [ValueOf(s[0])] + Values(s[1..][..size - 1]) + seq(4 - size, _ => 0)
    ensures FromLe(raw) == HeaderNumber(Values(s[..size]))
  {
    hide FromLe;
    assert raw == Values(s[..size]) + seq(4 - size, _ => 0);
  }

  lemma FirstValue(s: seq<Octet>, first: Bytes)
    requires s != [] && first == [] + Values(s[..1]) + []
    ensures first == [ValueOf(s[0])]
  {
  }

  /** Reading a frame in the order of the source: the size of the header, the header, the payload. */
  lemma ReadInSteps(s: seq<Octet>, size: nat)
    requires s != [] && size == ValueOf(s[0]) % 4 + 1
    ensures |s| < size ==> ReadResult(s) == Err(UnexpectedEof) && Unread(s) == []
    ensures |s| >= size ==>
              var rest, length := s[size..], HeaderNumber(Values(s[..size])) / 4;
              if length > MAX_RECEIVABLE then ReadResult(s) == Err(LengthOverLimit(length)) && Unread(s) == rest
              else if length > |rest| then ReadResult(s) == Err(UnexpectedEof) && Unread(s) == []
              else ReadResult(s) == Ok(rest[..length]) && Unread(s) == rest[length..]
  {
    hide HeaderNumber, Values;
    if |s| >= size {
      var rest, length := s[size..], HeaderNumber(Values(s[..size])) / 4;
      if length <= |rest| {
        assert rest[..length] == s[size..size + length] && rest[length..] == s[size + length..];
      }
    }
  }

  lemma ReadEmpty()
    ensures ReadResult([]) == Err(UnexpectedEof) && Unread([]) == []
  {
  }

  class FramedTransport {
    const stream: ByteStream

    constructor (stream: ByteStream)
      ensures this.stream == stream
    {
      this.stream := stream;
    }

    method Send(msg: seq<Octet>) returns (r: Result<(), SendError>)
      modifies stream`outbound, stream`capacity
      ensures r == SendResult(msg, old(stream.capacity))
      ensures stream.outbound == old(stream.outbound) + Sent(msg, old(stream.capacity))
      ensures stream.capacity == old(stream.capacity) - |Sent(msg, old(stream.capacity))|
    {
      hide Le, BitOr, Frame, Clears;
      var length := |msg|;
      if length <= MAX_SENDABLE { OrTag(length); }
      var header: Bytes;
      if length <= 0x3F {
        header := Le(BitOr(length % 0x100 * 4 % 0x100, 0), 1);
      } else if length <= 0x3FFF {
        header := Le(BitOr(length % 0x1_0000 * 4 % 0x1_0000, 1), 2);
      } else if length <= 0x3F_FFFF {
        LeTake(HeaderWord(length), 4, 3);
        header := Le(BitOr(length % 0x1_0000_0000 * 4 % 0x1_0000_0000, 2), 4)[..3];
      } else if length <= 0x3FFF_FFFF {
        header := Le(BitOr(length % 0x1_0000_0000 * 4 % 0x1_0000_0000, 3), 4);
      } else {
        return Err(PayloadTooLarge);
      }
      assert header == Header(length);
      hide Header, HeaderWord;
      TwoWrites(msg, header, stream.capacity);
      hide Sent, SendResult;
      ghost var before := stream.outbound;
      var ok := stream.WriteAll(Clears(header));
      if !ok { return Err(StreamBroken); }
      assert Clears(header)[..|header|] == Clears(header);
      ConcatAssociative(before, Clears(header), msg[..Min(|msg|, stream.capacity)]);
      ok := stream.WriteAll(msg);
      if !ok { return Err(StreamBroken); }
      return Ok(());
    }

    method Recv() returns (r: Result<seq<Octet>, RecvError>)
      modifies stream`inbound
      ensures r == ReadResult(old(stream.inbound))
      ensures stream.inbound == Unread(old(stream.inbound))
    {
      hide FromLe, HeaderNumber, Values, ValueOf, ReadResult, Unread;
      ReadEmpty();
      ghost var s := stream.inbound;
      var first := new Byte[1](_ => 0);
      var ok := stream.ReadInto(first, 0, 1);
      if !ok { return Err(UnexpectedEof); }
      FirstValue(s, first[..]);
      var size := first[0] % 4 + 1;
      ReadInSteps(s, size);
      var raw := new Byte[4](_ => 0);
      raw[0] := first[0];
      if size > 1 {
        ok := stream.ReadInto(raw, 1, size);
        if !ok { return Err(UnexpectedEof); }
      }
      assert stream.inbound == s[size..];
      HeaderInBuffer(s, size, raw[..]);
      var length := FromLe(raw[..]) / 4;
      if length > MAX_RECEIVABLE { return Err(LengthOverLimit(length)); }
      var payload := stream.ReadExact(length);
      if payload.None? { return Err(UnexpectedEof); }
      return Ok(payload.value);
    }
  }

  /** The copy of the writer that the rendezvous client uses. */
  method BytescodecSend(stream: ByteStream, msg: seq<Octet>) returns (r: Result<(), SendError>)
    modifies stream`outbound, stream`capacity
    ensures r == SendResult(msg, old(stream.capacity))
    ensures stream.outbound == old(stream.outbound) + Sent(msg, old(stream.capacity))
    ensures stream.capacity == old(stream.capacity) - |Sent(msg, old(stream.capacity))|
  {
    hide Le, BitOr, Frame, Clears;
    var length := |msg|;
    if length <= MAX_SENDABLE { OrTag(length); }
    var header: Bytes;
    if length <= 0x3F {
      header := Le(BitOr(length % 0x100 * 4 % 0x100, 0), 1);
    } else if length <= 0x3FFF {
      header := Le(BitOr(length % 0x1_0000 * 4 % 0x1_0000, 1), 2);
    } else if length <= 0x3F_FFFF {
      LeTake(HeaderWord(length), 4, 3);
      header := Le(BitOr(length % 0x1_0000_0000 * 4 % 0x1_0000_0000, 2), 4)[..3];
    } else if length <= 0x3FFF_FFFF {
      header := Le(BitOr(length % 0x1_0000_0000 * 4 % 0x1_0000_0000, 3), 4);
    } else {
      return Err(PayloadTooLarge);
    }
    assert header == Header(length);
    hide Header, HeaderWord;
    TwoWrites(msg, header, stream.capacity);
    hide Sent, SendResult;
    ghost var before := stream.outbound;
    var ok := stream.WriteAll(Clears(header));
    if !ok { return Err(StreamBroken); }
    assert Clears(header)[..|header|] == Clears(header);
    ConcatAssociative(before, Clears(header), msg[..Min(|msg|, stream.capacity)]);
    ok := stream.WriteAll(msg);
    if !ok { return Err(StreamBroken); }
    return Ok(());
  }

  /** The copy of the reader that the rendezvous client uses. */
  method BytescodecRecv(stream: ByteStream) returns (r: Result<seq<Octet>, RecvError>)
    modifies stream`inbound
    ensures r == ReadResult(old(stream.inbound))
    ensures stream.inbound == Unread(old(stream.inbound))
  {
    hide FromLe, HeaderNumber, Values, ValueOf, ReadResult, Unread;
    ReadEmpty();
    ghost var s := stream.inbound;
    var first := new Byte[1](_ => 0);
    var ok := stream.ReadInto(first, 0, 1);
    if !ok { return Err(UnexpectedEof); }
    FirstValue(s, first[..]);
    var size := first[0] % 4 + 1;
    ReadInSteps(s, size);
    var raw := new Byte[4](_ => 0);
    raw[0] := first[0];
    if size > 1 {
      ok := stream.ReadInto(raw, 1, size);
      if !ok { return Err(UnexpectedEof); }
    }
    assert stream.inbound == s[size..];
    HeaderInBuffer(s, size, raw[..]);
    var length := FromLe(raw[..]) / 4;
    if length > MAX_RECEIVABLE { return Err(LengthOverLimit(length)); }
    var payload := stream.ReadExact(length);
    if payload.None? { return Err(UnexpectedEof); }
    return Ok(payload.value);
  }
}
