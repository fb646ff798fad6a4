/** One direction of the encrypted link over a network that delivers copies of what was sent: any message, any
    number of times, in any order, and heartbeats in between. */
module FaultyLink {
  import opened Common
  import opened BytesCodec
  import opened SecureStream

  /** What the network delivers next: a heartbeat, or a copy of the message with that number. */
  datatype Delivery = Beat | Copy(number: nat)

  predicate Sendable(sent: seq<Bytes>, d: Delivery) {
    d.Copy? ==> 1 <= d.number <= |sent| && |sent[d.number - 1]| + TAG_LENGTH <= MAX_RECEIVABLE
  }

  predicate AllSendable(sent: seq<Bytes>, ds: seq<Delivery>) {
    forall i :: 0 <= i < |ds| ==> Sendable(sent, ds[i])
  }

  function FrameOf(key: Bytes, sent: seq<Bytes>, d: Delivery): seq<Octet>
    requires Sendable(sent, d)
  {
    if d.Beat? then Frame([]) else Letter(key, Wrapped(d.number), sent[d.number - 1])
  }

  /** The bytes the receiver finds. */
  function Delivered(key: Bytes, sent: seq<Bytes>, ds: seq<Delivery>): seq<Octet>
    requires AllSendable(sent, ds)
  {
    if ds == [] then [] else FrameOf(key, sent, ds[0]) + Delivered(key, sent, ds[1..])
  }

  /** What `n` receives decrypt; a moved counter tells an encrypted frame from a heartbeat. */
  function Decrypted(key: Bytes, counter: nat, s: seq<Octet>, n: nat): seq<Bytes>
    decreases n
  {
    if n == 0 then []
    else
      var r := Receive(key, counter, s);
      (if r.counter != counter && r.result.Ok? then [r.result.value] else [])
      + Decrypted(key, r.counter, r.unread, n - 1)
  }

  /** The receiver object does just that. */
  method ReceiveAll(stream: EncryptedStream, n: nat) returns (got: seq<Bytes>)
    requires stream.Valid()
    modifies stream`recvSeq, stream`lastRecvAt, stream.inner.stream`inbound
    ensures got == Decrypted(stream.key, old(stream.recvSeq), old(stream.inner.stream.inbound), n)
  {
    hide Receive;
    got := [];
    ghost var all := Decrypted(stream.key, stream.recvSeq, stream.inner.stream.inbound, n);
    for i := 0 to n
      invariant stream.Valid()
      invariant all == got + Decrypted(stream.key, stream.recvSeq, stream.inner.stream.inbound, n - i)
    {
      var before := stream.recvSeq;
      var r := stream.Recv(i);
      if stream.recvSeq != before && r.Ok? { got := got + [r.value]; }
    }
  }

  /** The numbers of the copies, in the order of arrival. */
  function Numbers(ds: seq<Delivery>): seq<nat> {
    if ds == [] then [] else (if ds[0].Copy? then [ds[0].number] else []) + Numbers(ds[1..])
  }

  /** The numbers that arrive in their own place, `before` encrypted frames having arrived already. */
  function InPlace(ns: seq<nat>, before: nat): seq<nat> {
    if ns == [] then [] else (if ns[0] == before + 1 then [ns[0]] else []) + InPlace(ns[1..], before + 1)
  }

  predicate Known(sent: seq<Bytes>, ns: seq<nat>) {
    forall i :: 0 <= i < |ns| ==> 1 <= ns[i] <= |sent|
  }

  function Messages(sent: seq<Bytes>, ns: seq<nat>): seq<Bytes>
    requires Known(sent, ns)
  {
    seq(|ns|, i requires 0 <= i < |ns| => sent[ns[i] - 1])
  }

  /** Numbers in place are numbers that arrived, and each the number of arrivals up to it. */
  lemma {:induction false} InPlaceIff(ns: seq<nat>, before: nat, n: nat)
    ensures n in InPlace(ns, before) <==> before < n <= before + |ns| && ns[n - before - 1] == n
  {
    if ns != [] {
      InPlaceIff(ns[1..], before + 1, n);
      assert before + 1 < n <= before + |ns| ==> ns[1..][n - before - 2] == ns[n - before - 1];
    }
  }

  lemma InPlaceStep(ns: seq<nat>, before: nat)
    requires ns != []
    ensures var ps := InPlace(ns[1..], before + 1);
            InPlace(ns, before) == if ns[0] == before + 1 then [ns[0]] + ps else ps
  {
    assert [] + InPlace(ns[1..], before + 1) == InPlace(ns[1..], before + 1);
  }

  /** Strictly increasing, from above `low` to `high`. */
  predicate Increasing(ps: seq<nat>, low: nat, high: nat) {
    && (forall i, j :: 0 <= i < j < |ps| ==> ps[i] < ps[j])
    && (forall i :: 0 <= i < |ps| ==> low < ps[i] <= high)
  }

  lemma IncreasingMore(ps: seq<nat>, low: nat, high: nat)
    requires Increasing(ps, low + 1, high) && low < high
    ensures Increasing(ps, low, high) && Increasing([low + 1] + ps, low, high)
  {
  }

  /** The decrypted messages keep the order of sending, without repetition. */
  lemma {:induction false} InPlaceIncreases(ns: seq<nat>, before: nat)
    ensures Increasing(InPlace(ns, before), before, before + |ns|)
  {
    if ns != [] {
      hide InPlace, Increasing;
      InPlaceIncreases(ns[1..], before + 1);
      IncreasingMore(InPlace(ns[1..], before + 1), before, before + |ns|);
      InPlaceStep(ns, before);
    }
  }

  lemma ReceiveNext(key: Bytes, sent: seq<Bytes>, d: Delivery, before: nat, tail: seq<Octet>)
    requires Sendable(sent, d) && |sent| <= U64_VALUES && before < U64_VALUES
    ensures Receive(key, Wrapped(before), FrameOf(key, sent, d) + tail)
         == if d.Beat? then Receipt(Ok([]), Wrapped(before), tail)
            else Receipt(if d.number == before + 1 then Ok(sent[d.number - 1]) else Err(DecryptionFailed),
                         Wrapped(before + 1), tail)
    ensures Wrapped(before + 1) != Wrapped(before)
  {
    hide Receive, Letter, Wrapped;
    WrappedNext(before);
    if d.Beat? {
      ReceiveHeartbeat(key, Wrapped(before), tail);
    } else {
      ReceiveLetter(key, Wrapped(before), Wrapped(d.number), sent[d.number - 1], tail);
      SameNumber(d.number, before + 1);
    }
  }

  lemma WrappedNext(n: nat)
    ensures Next(Wrapped(n)) == Wrapped(n + 1) != Wrapped(n)
  {
  }

  lemma SameNumber(a: nat, b: nat)
    requires 1 <= a <= U64_VALUES && 1 <= b <= U64_VALUES
    ensures Wrapped(a) == Wrapped(b) <==> a == b
  {
  }

  /** The first delivery, and what the rest then gives. */
  lemma FirstDecrypted(key: Bytes, sent: seq<Bytes>, d: Delivery, tail: seq<Octet>, before: nat, n: nat)
    requires Sendable(sent, d) && n > 0
    requires d.Copy? ==> |sent| <= U64_VALUES && before < U64_VALUES
    ensures Decrypted(key, Wrapped(before), FrameOf(key, sent, d) + tail, n)
         == if d.Beat? then Decrypted(key, Wrapped(before), tail, n - 1)
            else if d.number == before + 1 then
              [sent[d.number - 1]] + Decrypted(key, Wrapped(before + 1), tail, n - 1)
            else Decrypted(key, Wrapped(before + 1), tail, n - 1)
  {
    hide Receive, FrameOf, Wrapped, Decrypted;
    OneMoreDecrypted(key, before, FrameOf(key, sent, d) + tail, n);
    NothingFirst(Decrypted(key, Wrapped(before), tail, n - 1));
    NothingFirst(Decrypted(key, Wrapped(before + 1), tail, n - 1));
    if d.Beat? {
      BeatNext(key, sent, d, before, tail);
    } else {
      ReceiveNext(key, sent, d, before, tail);
    }
  }

  lemma NoneDelivered(key: Bytes, sent: seq<Bytes>, before: nat)
    ensures Known(sent, InPlace(Numbers([]), before))
    ensures Decrypted(key, Wrapped(before), Delivered(key, sent, []), 0)
         == Messages(sent, InPlace(Numbers([]), before))
  {
  }

  lemma DeliveredStep(key: Bytes, sent: seq<Bytes>, ds: seq<Delivery>)
    requires ds != [] && AllSendable(sent, ds)
    ensures AllSendable(sent, ds[1..]) && Sendable(sent, ds[0])
    ensures Delivered(key, sent, ds) == FrameOf(key, sent, ds[0]) + Delivered(key, sent, ds[1..])
    ensures Numbers(ds) == if ds[0].Copy? then [ds[0].number] + Numbers(ds[1..]) else Numbers(ds[1..])
  {
    NothingFirst(Numbers(ds[1..]));
  }

  /** However the messages sent are copied and reordered on the way, the receiver decrypts exactly those that
      arrive in their own place: message n as the n-th encrypted frame. */
  lemma {:induction false} DecryptsInPlace(key: Bytes, sent: seq<Bytes>, ds: seq<Delivery>, before: nat)
    requires AllSendable(sent, ds) && |sent| <= U64_VALUES && before + |Numbers(ds)| <= U64_VALUES
    ensures Known(sent, InPlace(Numbers(ds), before))
    ensures Decrypted(key, Wrapped(before), Delivered(key, sent, ds), |ds|)
         == Messages(sent, InPlace(Numbers(ds), before))
  {
    hide AllSendable, Numbers, Delivered, FrameOf, Wrapped, Decrypted, InPlace, Known, Messages;
    if ds == [] {
      NoneDelivered(key, sent, before);
    } else {
      var d, rest := ds[0], ds[1..];
      var ns := Numbers(rest);
      DeliveredStep(key, sent, ds);
      FirstDecrypted(key, sent, d, Delivered(key, sent, rest), before, |ds|);
      if d.Beat? {
        DecryptsInPlace(key, sent, rest, before);
      } else {
        DecryptsInPlace(key, sent, rest, before + 1);
        assert ([d.number] + ns)[1..] == ns;
        InPlaceStep(Numbers(ds), before);
        MessagesMore(sent, d.number, InPlace(ns, before + 1));
      }
    }
  }

  lemma NothingFirst<T>(s: seq<T>)
    ensures [] + s == s
  {
  }

  lemma MessagesMore(sent: seq<Bytes>, n: nat, ps: seq<nat>)
    requires Known(sent, ps) && 1 <= n <= |sent|
    ensures Known(sent, [n] + ps) && Messages(sent, [n] + ps) == [sent[n - 1]] + Messages(sent, ps)
  {
  }

  lemma BeatNext(key: Bytes, sent: seq<Bytes>, d: Delivery, before: nat, tail: seq<Octet>)
    requires d.Beat?
    ensures Receive(key, Wrapped(before), FrameOf(key, sent, d) + tail) == Receipt(Ok([]), Wrapped(before), tail)
  {
    hide Receive, Wrapped;
    ReceiveHeartbeat(key, Wrapped(before), tail);
  }

  lemma OneMoreDecrypted(key: Bytes, before: nat, s: seq<Octet>, n: nat)
    requires n > 0
    ensures var r := Receive(key, Wrapped(before), s);
            var first := if r.counter != Wrapped(before) && r.result.Ok? then [r.result.value] else [];
            Decrypted(key, Wrapped(before), s, n) == first + Decrypted(key, r.counter, r.unread, n - 1)
  {
    hide Receive, Wrapped;
  }

  /** The decrypted messages are the first ones sent, without a gap. */
  predicate IsPrefix(ps: seq<nat>, before: nat) {
    forall i :: 0 <= i < |ps| ==> ps[i] == before + i + 1
  }

  /** No message arrives in its place behind one that does not. */
  predicate NoneBehindGap(ns: seq<nat>, before: nat) {
    forall i, j :: 0 <= i < j < |ns| && ns[j] == before + j + 1 ==> ns[i] == before + i + 1
  }

  /** They are a prefix of those sent if and only if no message arrives in its place after an arrival out of
      place. */
  lemma {:induction false} PrefixIff(ns: seq<nat>, before: nat)
    ensures IsPrefix(InPlace(ns, before), before) <==> NoneBehindGap(ns, before)
  {
    if ns != [] {
      hide InPlace, IsPrefix, NoneBehindGap;
      var rest := ns[1..];
      var ps := InPlace(rest, before + 1);
      PrefixIff(rest, before + 1);
      InPlaceStep(ns, before);
      if ns[0] == before + 1 {
        FirstInPlace(ns, before, ps);
      } else {
        FirstOutOfPlace(ns, before, ps);
      }
    }
  }

  lemma FirstInPlace(ns: seq<nat>, before: nat, ps: seq<nat>)
    requires ns != [] && ns[0] == before + 1
    ensures NoneBehindGap(ns, before) <==> NoneBehindGap(ns[1..], before + 1)
    ensures IsPrefix([ns[0]] + ps, before) <==> IsPrefix(ps, before + 1)
  {
    assert forall i :: 0 <= i < |ps| ==> ([ns[0]] + ps)[i + 1] == ps[i];
    assert forall i :: 0 <= i < |ns| - 1 ==> ns[1..][i] == ns[i + 1];
  }

  lemma FirstOutOfPlace(ns: seq<nat>, before: nat, ps: seq<nat>)
    requires ns != [] && ns[0] != before + 1 && ps == InPlace(ns[1..], before + 1)
    ensures IsPrefix(ps, before) <==> ps == []
    ensures NoneBehindGap(ns, before) <==> ps == []
  {
    InPlaceIncreases(ns[1..], before + 1);
    hide InPlace;
    forall j | 0 < j < |ns| ensures ns[j] == before + j + 1 ==> ps != [] {
      InPlaceIff(ns[1..], before + 1, before + j + 1);
    }
    if ps != [] {
      InPlaceIff(ns[1..], before + 1, ps[0]);
      var j := ps[0] - before - 1;
      assert ns[1..][j - 1] == ns[j];
    }
  }

  /** Two copies of the second message: the first is refused and the second decrypted. */
  lemma SecondCopyAccepted()
    ensures InPlace([2, 2], 0) == [2] && !IsPrefix([2], 0)
  {
    assert [2, 2][1..] == [2] && [2][1..] == [];
    assert InPlace([2], 1) == [2] + InPlace([], 2);
  }
}
