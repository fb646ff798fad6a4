/** The encrypted stream: secretbox encryption with sequence-number nonces over framed transport.
    Heartbeats are empty frames that bypass both the cipher and the counters. */
module SecureStream {
  import opened Common
  import opened BytesCodec

  const TAG_LENGTH: nat := 16

  // ----- The symbolic cipher -----

  /** Sealing yields as many octets as the plaintext plus the tag. Each octet names its box, so a
      ciphertext stands for one key, one nonce and one plaintext. */
  function Seal(key: Bytes, nonce: Bytes, plain: Bytes): (c: seq<Octet>)
    ensures |c| == |plain| + TAG_LENGTH
  {
    seq(|plain| + TAG_LENGTH, i requires 0 <= i => Sealed(key, nonce, plain, i))
  }

  function Open(key: Bytes, nonce: Bytes, c: seq<Octet>): Option<Bytes> {
    if c != [] && c[0].Sealed? && c == Seal(key, nonce, c[0].plain) then Some(c[0].plain) else None
  }

  /** A box opens exactly under the key and nonce it was sealed with, and then gives its plaintext. */
  lemma OpenSealed(key: Bytes, nonce: Bytes, key': Bytes, nonce': Bytes, plain: Bytes)
    ensures Open(key', nonce', Seal(key, nonce, plain)) == if key == key' && nonce == nonce' then Some(plain) else None
  {
  }

  /** Whatever opens was sealed under that key and nonce: nothing else is accepted. */
  lemma OnlySealedOpens(key: Bytes, nonce: Bytes, c: seq<Octet>)
    ensures Open(key, nonce, c).Some? <==> exists plain :: c == Seal(key, nonce, plain)
  {
  }

  // ----- Nonces -----

  /** Eight little-endian bytes of sequence number, then sixteen zero bytes. */
  function Nonce(number: nat): (n: Bytes)
    ensures |n| == 24
  {
    Le(number, 8) + seq(16, _ => 0)
  }

  /** Different 64-bit sequence numbers never share a nonce. */
  lemma NonceInjective(a: nat, b: nat)
    requires a < U64_VALUES && b < U64_VALUES
    ensures Nonce(a) == Nonce(b) <==> a == b
  {
    assert Nonce(a)[..8] == Le(a, 8) && Nonce(b)[..8] == Le(b, 8);
    assert Pow256(8) == U64_VALUES;
    LeRoundTrip(a, 8);
    LeRoundTrip(b, 8);
  }

  /** The number stands in the first eight bytes, least significant first. */
  lemma NonceBytes(number: nat, nonce: Bytes)
    requires number < U64_VALUES && nonce == Nonce(number)
    ensures forall i :: 0 <= i < 8 ==> nonce[i] == number / Pow256(i) % 0x100
    ensures FromLe(nonce[..8]) == number
  {
    assert Pow256(8) == U64_VALUES;
    hide Le, FromLe, Pow256;
    var le := Le(number, 8);
    assert nonce[..8] == le;
    LeRoundTrip(number, 8);
    forall i | 0 <= i < 8 ensures nonce[i] == number / Pow256(i) % 0x100 {
      LeDigit(number, 8, i);
      assert nonce[i] == le[i];
    }
  }

  // ----- What sending and receiving do -----

  /** What a `u64` counter shows after `n` steps from zero. */
  function Wrapped(n: nat): (w: nat)
    ensures w < U64_VALUES
  {
    n % U64_VALUES
  }

  /** `+= 1` on a `u64`. */
  function Next(counter: nat): (n: nat)
    ensures n < U64_VALUES
  {
    Wrapped(counter + 1)
  }

  /** The frame that carries `plain` as message number `number`. */
  function Letter(key: Bytes, number: nat, plain: Bytes): (frame: seq<Octet>)
    requires |plain| + TAG_LENGTH <= MAX_SENDABLE
    ensures |plain| + TAG_LENGTH < |frame| <= |plain| + TAG_LENGTH + 4
  {
    Frame(Seal(key, Nonce(number), plain))
  }

  datatype StreamError = Transport(cause: RecvError) | DecryptionFailed

  /** One receive: what the caller gets, the receive counter after it, and the bytes left unread. */
  datatype Receipt = Receipt(result: Result<Bytes, StreamError>, counter: nat, unread: seq<Octet>)

  function Receive(key: Bytes, counter: nat, s: seq<Octet>): Receipt {
    match ReadResult(s)
    case Err(cause) => Receipt(Err(Transport(cause)), counter, Unread(s))
    case Ok(frame) =>
      if frame == [] then Receipt(Ok([]), counter, Unread(s))
      else
        var box := Open(key, Nonce(Next(counter)), frame);
        Receipt(if box.Some? then Ok(box.value) else Err(DecryptionFailed), Next(counter), Unread(s))
  }

  /** A receivable letter moves the receive counter by one whatever happens. It is delivered exactly
      when its number is the next expected one. */
  lemma ReceiveLetter(key: Bytes, counter: nat, number: nat, plain: Bytes, tail: seq<Octet>)
    requires number < U64_VALUES
    requires |plain| + TAG_LENGTH <= MAX_RECEIVABLE
    ensures Receive(key, counter, Letter(key, number, plain) + tail)
         == Receipt(if number == Next(counter) then Ok(plain) else Err(DecryptionFailed), Next(counter), tail)
  {
    ReadBack(Seal(key, Nonce(number), plain), tail);
    OpenSealed(key, Nonce(number), key, Nonce(Next(counter)), plain);
    NonceInjective(number, Next(counter));
  }

  /** A heartbeat is read as an empty message and moves no counter. */
  lemma ReceiveHeartbeat(key: Bytes, counter: nat, tail: seq<Octet>)
    ensures Receive(key, counter, Frame([]) + tail) == Receipt(Ok([]), counter, tail)
  {
    ReadBack([], tail);
  }

  /** A plaintext the sender still accepts but the receiver's limit excludes is never delivered, and
      the receiver is left inside its ciphertext instead of at a frame boundary. */
  lemma OversizedLetterDesynchronises(key: Bytes, counter: nat, number: nat, plain: Bytes, tail: seq<Octet>)
    requires MAX_RECEIVABLE < |plain| + TAG_LENGTH <= MAX_SENDABLE
    ensures Receive(key, counter, Letter(key, number, plain) + tail)
         == Receipt(Err(Transport(LengthOverLimit(|plain| + TAG_LENGTH))), counter,
                    Seal(key, Nonce(number), plain) + tail)
  {
    ReadBack(Seal(key, Nonce(number), plain), tail);
  }

  /** Messages sealed under another key are refused, whatever their number. */
  lemma WrongKeyRefused(key: Bytes, other: Bytes, counter: nat, number: nat, plain: Bytes, tail: seq<Octet>)
    requires key != other
    requires |plain| + TAG_LENGTH <= MAX_RECEIVABLE
    ensures Receive(other, counter, Letter(key, number, plain) + tail).result == Err(DecryptionFailed)
  {
    ReadBack(Seal(key, Nonce(number), plain), tail);
    OpenSealed(key, Nonce(number), other, Nonce(Next(counter)), plain);
  }

  // ----- The stream object -----

  class EncryptedStream {
    const inner: FramedTransport
    const key: Bytes
    var sendSeq: nat
    var recvSeq: nat
    var lastRecvAt: int

    ghost predicate Valid()
      reads this
    {
      sendSeq < U64_VALUES && recvSeq < U64_VALUES
    }

    constructor (inner: FramedTransport, key: Bytes, now: int)
      ensures Valid() && this.inner == inner && this.key == key
      ensures sendSeq == 0 && recvSeq == 0 && lastRecvAt == now
    {
      this.inner := inner;
      this.key := key;
      sendSeq, recvSeq := 0, 0;
      lastRecvAt := now;
    }

    static method MakeNonce(number: nat) returns (nonce: Bytes)
      requires number < U64_VALUES
      ensures nonce == Nonce(number) && |nonce| == 24
      ensures forall i :: 0 <= i < 8 ==> nonce[i] == number / Pow256(i) % 0x100
      ensures forall i :: 8 <= i < 24 ==> nonce[i] == 0
      ensures FromLe(nonce[..8]) == number
    {
      hide Le, FromLe, Pow256;
      var bytes := new Byte[24](_ => 0);
      var le := Le(number, 8);
      for i := 0 to 8
        invariant bytes[..i] == le[..i]
        invariant forall j :: i <= j < 24 ==> bytes[j] == 0
      {
        bytes[i] := le[i];
      }
      assert bytes[..8] == le;
      assert bytes[..] == le + seq(16, _ => 0);
      nonce := bytes[..];
      NonceBytes(number, nonce);
    }

    /** The counter moves before anything can fail, so a send that fails has used up its number, and may
        have left the front of its frame on the stream. */
    method Send(plain: Bytes) returns (r: Result<(), SendError>)
      requires Valid()
      modifies this`sendSeq, inner.stream`outbound, inner.stream`capacity
      ensures Valid() && sendSeq == Next(old(sendSeq))
      ensures var box := Seal(key, Nonce(sendSeq), plain); var room := old(inner.stream.capacity);
              && r == SendResult(box, room)
              && inner.stream.outbound == old(inner.stream.outbound) + Sent(box, room)
              && inner.stream.capacity == room - |Sent(box, room)|
    {
      sendSeq := Next(sendSeq);
      var nonce := MakeNonce(sendSeq);
      var ciphertext := Seal(key, nonce, plain);
      r := inner.Send(ciphertext);
    }

    method SendHeartbeat() returns (r: Result<(), SendError>)
      modifies inner.stream`outbound, inner.stream`capacity
      ensures r == SendResult([], old(inner.stream.capacity))
      ensures inner.stream.outbound == old(inner.stream.outbound) + Sent([], old(inner.stream.capacity))
      ensures inner.stream.capacity == old(inner.stream.capacity) - |Sent([], old(inner.stream.capacity))|
    {
      r := inner.Send([]);
    }

    method Recv(now: int) returns (r: Result<Bytes, StreamError>)
      requires Valid()
      modifies this`recvSeq, this`lastRecvAt, inner.stream`inbound
      ensures Valid()
      ensures Receipt(r, recvSeq, inner.stream.inbound) == Receive(key, old(recvSeq), old(inner.stream.inbound))
      ensures lastRecvAt == if r.Err? && r.error.Transport? then old(lastRecvAt) else now
    {
      var frame := inner.Recv();
      if frame.Err? { return Err(Transport(frame.error)); }
      lastRecvAt := now;
      if frame.value == [] { return Ok([]); }
      recvSeq := Next(recvSeq);
      var nonce := MakeNonce(recvSeq);
      var box := Open(key, nonce, frame.value);
      if box.None? { return Err(DecryptionFailed); }
      return Ok(box.value);
    }
  }
}
