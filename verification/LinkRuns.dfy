/** Whole runs of the encrypted link. One direction is a sender, a byte pipe and a receiver; a duplex
    link is two of them. Every interleaving of sends, failed sends, heartbeats, receives and dropped
    frames is a sequence of actions; a send may fail after any part of its frame has gone out, and the
    theorems hold after every such sequence. */
module LinkRuns {
  import opened Common
  import opened BytesCodec
  import opened SecureStream

  /** What a frame on the wire is: a heartbeat, or the `number`-th message ever sent. */
  datatype Packet = Beat | Post(number: nat, plain: Bytes)

  /** `sendSeq`, `recvSeq` and `wire` are the live state. The rest is history: every message handed to
      `send`, every message decrypted, the packets on the wire, the front of a frame at its end after which
      the pipe broke, the numbers of the messages that were lost, and how many encrypted frames arrived. */
  datatype Channel = Channel(
    key: Bytes, sendSeq: nat, recvSeq: nat, wire: seq<Octet>,
    sent: seq<Bytes>, got: seq<Bytes>, flight: seq<Packet>, torn: seq<Octet>, lost: set<nat>, arrived: nat)

  /** `SendFails` says how many bytes of the frame went out before the send failed. */
  datatype Action = Send(plain: Bytes) | SendFails(plain: Bytes, written: nat) | Heartbeat | Recv | Drop(index: nat)

  function Start(key: Bytes): Channel {
    Channel(key, 0, 0, [], [], [], [], [], {}, 0)
  }

  /** The messages the receiver's limit lets through. */
  predicate Deliverable(plain: Bytes) {
    |plain| + TAG_LENGTH <= MAX_RECEIVABLE
  }

  /** The wire with its `k`-th frame cut out. */
  function DropFrame(wire: seq<Octet>, k: nat): seq<Octet> {
    match ReadFrame(wire)
    case Complete(_, rest) =>
      if k == 0 then rest else wire[..|wire| - |rest|] + DropFrame(rest, k - 1)
    case _ => wire
  }

  /** The channel after a frame was read; a moved counter tells an encrypted frame from a heartbeat. */
  function Took(c: Channel, receipt: Receipt): Channel {
    var moved := receipt.counter != c.recvSeq;
    c.(recvSeq := receipt.counter, wire := receipt.unread,
       got := c.got + if moved && receipt.result.Ok? then [receipt.result.value] else [],
       flight := if c.flight == [] then [] else c.flight[1..],
       arrived := c.arrived + if moved then 1 else 0)
  }

  predicate Permitted(a: Action) {
    a.Send? || (a.SendFails? && a.written > 0) ==> Deliverable(a.plain)
  }

  /** The first `k` octets of a frame, but never all of it. */
  function Front(frame: seq<Octet>, k: nat): seq<Octet>
    requires frame != []
  {
    frame[..Min(k, |frame| - 1)]
  }

  /** A send that failed: the number is used up, and `bits` went out. */
  function Lose(c: Channel, plain: Bytes, bits: seq<Octet>): Channel {
    c.(sendSeq := Next(c.sendSeq), wire := c.wire + bits, torn := c.torn + bits,
       sent := c.sent + [plain], lost := c.lost + {|c.sent| + 1})
  }

  /** Once a frame was torn, the pipe is broken and nothing more goes out. */
  function Step(c: Channel, a: Action): Channel
    requires Permitted(a)
  {
    match a
    case Send(plain) =>
      if c.torn != [] then Lose(c, plain, [])
      else
        c.(sendSeq := Next(c.sendSeq), wire := c.wire + Letter(c.key, Next(c.sendSeq), plain),
           sent := c.sent + [plain], flight := c.flight + [Post(|c.sent| + 1, plain)])
    case SendFails(plain, k) =>
      Lose(c, plain, if c.torn == [] && k > 0 then Front(Letter(c.key, Next(c.sendSeq), plain), k) else [])
    case Heartbeat =>
      if c.torn != [] then c else c.(wire := c.wire + Frame([]), flight := c.flight + [Beat])
    case Recv =>
      if !ReadFrame(c.wire).Complete? then c // blocks until a whole frame is there
      else Took(c, Receive(c.key, c.recvSeq, c.wire))
    case Drop(k) =>
      if k >= |c.flight| then c.(wire := DropFrame(c.wire, k))
      else
        c.(wire := DropFrame(c.wire, k), flight := c.flight[..k] + c.flight[k + 1..],
           lost := c.lost + if c.flight[k].Post? then {c.flight[k].number} else {})
  }

  predicate Allowed(actions: seq<Action>) {
    forall a <- actions :: Permitted(a)
  }

  function Run(key: Bytes, actions: seq<Action>): Channel
    requires Allowed(actions)
  {
    if actions == [] then Start(key)
    else Step(Run(key, actions[..|actions| - 1]), actions[|actions| - 1])
  }

  // ----- The ledger: what the numbers in flight, received and lost have to do with each other -----

  function NumberOf(p: Packet): seq<nat> {
    if p.Post? then [p.number] else []
  }

  function Numbers(flight: seq<Packet>): seq<nat> {
    if flight == [] then []
    else NumberOf(flight[0]) + Numbers(flight[1..])
  }

  predicate NoneBelow(lost: set<nat>, n: nat) {
    forall l <- lost :: n <= l
  }

  /** `ns` are the numbers in flight, of `total` sent; `arrived` frames were received and `taken` of
      them decrypted. A number in flight stands where its receiver expects it exactly when nothing
      numbered below it was lost. */
  ghost predicate Ledger(ns: seq<nat>, total: nat, arrived: nat, taken: nat, lost: set<nat>) {
    && (forall i, j :: 0 <= i < j < |ns| ==> ns[i] < ns[j])
    && (forall i :: 0 <= i < |ns| ==> arrived + i + 1 <= ns[i] <= total && ns[i] !in lost)
    && (forall i :: 0 <= i < |ns| ==> (arrived + i + 1 == ns[i] <==> NoneBelow(lost, ns[i])))
    && arrived + |ns| <= total
    && (arrived + |ns| == total <==> lost == {})
    && taken <= arrived
    && (forall l <- lost :: taken < l <= total)
    && (taken < arrived ==> exists l <- lost :: forall i :: 0 <= i < |ns| ==> l < ns[i])
  }

  lemma LedgerSend(ns: seq<nat>, total: nat, arrived: nat, taken: nat, lost: set<nat>)
    requires Ledger(ns, total, arrived, taken, lost)
    ensures Ledger(ns + [total + 1], total + 1, arrived, taken, lost)
  {
  }

  lemma LedgerSendFails(ns: seq<nat>, total: nat, arrived: nat, taken: nat, lost: set<nat>)
    requires Ledger(ns, total, arrived, taken, lost)
    ensures Ledger(ns, total + 1, arrived, taken, lost + {total + 1})
  {
  }

  lemma LedgerDrop(ns: seq<nat>, k: nat, total: nat, arrived: nat, taken: nat, lost: set<nat>)
    requires Ledger(ns, total, arrived, taken, lost)
    requires k < |ns|
    ensures Ledger(ns[..k] + ns[k + 1..], total, arrived, taken, lost + {ns[k]})
  {
  }

  lemma LedgerArrive(ns: seq<nat>, total: nat, arrived: nat, taken: nat, lost: set<nat>)
    requires Ledger(ns, total, arrived, taken, lost)
    requires ns != []
    ensures arrived + 1 <= ns[0] <= total
    ensures NoneBelow(lost, ns[0]) <==> ns[0] == arrived + 1
    ensures NoneBelow(lost, ns[0]) ==> taken == arrived
    ensures Ledger(ns[1..], total, arrived + 1, if NoneBelow(lost, ns[0]) then taken + 1 else taken, lost)
  {
  }

  // ----- The wire holds exactly the packets in flight -----

  function PacketBytes(key: Bytes, p: Packet): seq<Octet>
    requires p.Post? ==> Deliverable(p.plain)
  {
    if p.Beat? then Frame([]) else Letter(key, Wrapped(p.number), p.plain)
  }

  predicate AllDeliverable(flight: seq<Packet>) {
    forall p <- flight :: p.Post? ==> Deliverable(p.plain)
  }

  function WireOf(key: Bytes, flight: seq<Packet>): seq<Octet>
    requires AllDeliverable(flight)
  {
    if flight == [] then [] else PacketBytes(key, flight[0]) + WireOf(key, flight[1..])
  }

  lemma {:induction false} WireOfAppend(key: Bytes, f: seq<Packet>, p: Packet)
    requires AllDeliverable(f) && AllDeliverable([p])
    ensures AllDeliverable(f + [p])
    ensures WireOf(key, f + [p]) == WireOf(key, f) + PacketBytes(key, p)
  {
    hide PacketBytes;
    if f == [] {
      assert f + [p] == [p];
      assert WireOf(key, []) == [];
      assert WireOf(key, [p]) == PacketBytes(key, p) + WireOf(key, []);
    } else {
      WireOfAppend(key, f[1..], p);
      assert (f + [p])[1..] == f[1..] + [p];
    }
  }

  lemma ReadPacket(key: Bytes, p: Packet, tail: seq<Octet>)
    requires AllDeliverable([p])
    ensures ReadFrame(PacketBytes(key, p) + tail).Complete?
    ensures ReadFrame(PacketBytes(key, p) + tail).rest == tail
  {
    hide Wrapped;
    assert p in [p];
    if p.Beat? {
      ReadBack([], tail);
    } else {
      ReadBack(Seal(key, Nonce(Wrapped(p.number)), p.plain), tail);
    }
  }

  lemma {:induction false} DropFromWire(key: Bytes, f: seq<Packet>, torn: seq<Octet>, k: nat)
    requires AllDeliverable(f) && k < |f|
    ensures AllDeliverable(f[..k] + f[k + 1..])
    ensures DropFrame(WireOf(key, f) + torn, k) == WireOf(key, f[..k] + f[k + 1..]) + torn
  {
    hide Wrapped, PacketBytes, ReadFrame;
    var front, back := PacketBytes(key, f[0]), WireOf(key, f[1..]);
    var rest := back + torn;
    ReadPacket(key, f[0], rest);
    ConcatAssociative(front, back, torn);
    if k == 0 {
      assert f[..0] + f[1..] == f[1..];
    } else {
      DropFromWire(key, f[1..], torn, k - 1);
      var f' := f[..k] + f[k + 1..];
      assert f'[1..] == f[1..][..k - 1] + f[1..][k..];
      assert f'[0] == f[0];
      DropLater(front, rest, k);
      ConcatAssociative(front, WireOf(key, f'[1..]), torn);
    }
  }

  lemma DropLater(front: seq<Octet>, rest: seq<Octet>, k: nat)
    requires ReadFrame(front + rest).Complete? && ReadFrame(front + rest).rest == rest && k > 0
    ensures DropFrame(front + rest, k) == front + DropFrame(rest, k - 1)
  {
    hide ReadFrame;
    assert (front + rest)[..|front + rest| - |rest|] == front;
  }

  /** There is nothing to drop beyond the frames in flight. */
  lemma {:induction false} DropBeyond(key: Bytes, f: seq<Packet>, torn: seq<Octet>, k: nat)
    requires AllDeliverable(f) && k >= |f| && ReadFrame(torn) == Partial
    ensures DropFrame(WireOf(key, f) + torn, k) == WireOf(key, f) + torn
  {
    hide Wrapped, PacketBytes, ReadFrame;
    if f == [] {
      assert WireOf(key, f) + torn == torn;
    } else {
      var front, back := PacketBytes(key, f[0]), WireOf(key, f[1..]);
      var rest := back + torn;
      ReadPacket(key, f[0], rest);
      ConcatAssociative(front, back, torn);
      DropBeyond(key, f[1..], torn, k - 1);
      DropLater(front, rest, k);
    }
  }

  lemma NumbersCons(p: Packet, f: seq<Packet>)
    ensures Numbers([p] + f) == NumberOf(p) + Numbers(f)
  {
    assert ([p] + f)[1..] == f;
  }

  lemma {:induction false} NumbersConcat(f: seq<Packet>, g: seq<Packet>)
    ensures Numbers(f + g) == Numbers(f) + Numbers(g)
  {
    if f == [] {
      assert f + g == g;
    } else {
      hide Numbers, NumberOf;
      NumbersConcat(f[1..], g);
      NumbersCons(f[0], f[1..]);
      NumbersCons(f[0], f[1..] + g);
      assert f == [f[0]] + f[1..];
      ConcatAssociative([f[0]], f[1..], g);
      ConcatAssociative(NumberOf(f[0]), Numbers(f[1..]), Numbers(g));
    }
  }

  // ----- The invariant of every run -----

  predicate CountersOk(c: Channel) {
    c.sendSeq == Wrapped(|c.sent|) && c.recvSeq == Wrapped(c.arrived)
  }

  predicate WireOk(c: Channel) {
    && AllDeliverable(c.flight)
    && c.wire == WireOf(c.key, c.flight) + c.torn
    && ReadFrame(c.torn) == Partial
    && (forall p <- c.flight :: p.Post? ==> 1 <= p.number <= |c.sent| && p.plain == c.sent[p.number - 1])
  }

  ghost predicate LedgerOk(c: Channel) {
    Ledger(Numbers(c.flight), |c.sent|, c.arrived, |c.got|, c.lost)
  }

  ghost predicate Inv(c: Channel) {
    CountersOk(c) && WireOk(c) && LedgerOk(c) && c.got <= c.sent && (c.torn != [] ==> c.lost != {})
  }

  lemma NextOf(n: nat)
    ensures Next(Wrapped(n)) == Wrapped(n + 1)
    ensures Next(Wrapped(n)) != Wrapped(n)
  {
  }

  lemma SendKeepsWire(c: Channel, plain: Bytes)
    requires CountersOk(c) && WireOk(c) && Deliverable(plain) && c.torn == []
    ensures CountersOk(Step(c, Send(plain))) && WireOk(Step(c, Send(plain)))
  {
    hide Wrapped, Next, ReadFrame, Letter;
    NextOf(|c.sent|);
    var post := Post(|c.sent| + 1, plain);
    WireOfAppend(c.key, c.flight, post);
    assert WireOf(c.key, c.flight) + [] == WireOf(c.key, c.flight);
    assert WireOf(c.key, c.flight + [post]) + [] == WireOf(c.key, c.flight + [post]);
  }

  lemma LoseKeepsWire(c: Channel, plain: Bytes, bits: seq<Octet>)
    requires CountersOk(c) && WireOk(c) && ReadFrame(c.torn + bits) == Partial
    ensures CountersOk(Lose(c, plain, bits)) && WireOk(Lose(c, plain, bits))
  {
    hide Wrapped, Next, ReadFrame, WireOf, AllDeliverable;
    NextOf(|c.sent|);
    ConcatAssociative(WireOf(c.key, c.flight), c.torn, bits);
  }

  /** A torn frame is never read. */
  lemma TornIsPartial(key: Bytes, number: nat, plain: Bytes, k: nat)
    requires Deliverable(plain)
    ensures ReadFrame(Front(Letter(key, number, plain), k)) == Partial
  {
    hide ReadFrame;
    var box := Seal(key, Nonce(number), plain);
    StrictPrefixIsPartial(box, Min(k, |Frame(box)| - 1));
  }

  lemma LoseKeepsInv(c: Channel, plain: Bytes, bits: seq<Octet>)
    requires Inv(c) && ReadFrame(c.torn + bits) == Partial
    ensures Inv(Lose(c, plain, bits))
  {
    hide WireOk, CountersOk, Ledger;
    LoseKeepsWire(c, plain, bits);
    LedgerSendFails(Numbers(c.flight), |c.sent|, c.arrived, |c.got|, c.lost);
  }

  lemma SendKeepsLedger(f: seq<Packet>, post: Packet, total: nat, arrived: nat, taken: nat, lost: set<nat>)
    requires Ledger(Numbers(f), total, arrived, taken, lost)
    requires post.Post? && post.number == total + 1
    ensures Ledger(Numbers(f + [post]), total + 1, arrived, taken, lost)
  {
    assert Numbers([post]) == [total + 1];
    hide Numbers, Ledger;
    NumbersConcat(f, [post]);
    LedgerSend(Numbers(f), total, arrived, taken, lost);
  }

  lemma HeartbeatKeepsInv(c: Channel)
    requires Inv(c)
    ensures Inv(Step(c, Heartbeat))
  {
    hide Wrapped, Ledger, Frame, ReadFrame;
    if c.torn == [] {
      WireOfAppend(c.key, c.flight, Beat);
      NumbersConcat(c.flight, [Beat]);
      assert Numbers([Beat]) == [];
      assert Numbers(c.flight + [Beat]) == Numbers(c.flight);
      assert WireOf(c.key, c.flight) + [] == WireOf(c.key, c.flight);
      assert WireOf(c.key, c.flight + [Beat]) + [] == WireOf(c.key, c.flight + [Beat]);
    }
  }

  /** Cutting one packet out of the flight takes its number, if it has one, out of the list. */
  lemma NumbersWithout(f: seq<Packet>, k: nat)
    requires k < |f|
    ensures var ns := Numbers(f); var j := |Numbers(f[..k])|;
            if f[k].Post?
            then j < |ns| && ns[j] == f[k].number && Numbers(f[..k] + f[k + 1..]) == ns[..j] + ns[j + 1..]
            else Numbers(f[..k] + f[k + 1..]) == ns
  {
    hide Numbers;
    var front, p, back := f[..k], f[k], f[k + 1..];
    assert f == front + ([p] + back);
    NumbersConcat(front, [p] + back);
    NumbersCons(p, back);
    NumbersConcat(front, back);
    if p.Post? {
      CutOne(Numbers(front), p.number, Numbers(back));
    } else {
      assert [] + Numbers(back) == Numbers(back);
    }
  }

  lemma CutOne(x: seq<nat>, n: nat, z: seq<nat>)
    ensures var s := x + ([n] + z); s[|x|] == n && s[..|x|] + s[|x| + 1..] == x + z
  {
  }

  lemma DropKeepsLedger(f: seq<Packet>, k: nat, total: nat, arrived: nat, taken: nat, lost: set<nat>)
    requires k < |f|
    requires Ledger(Numbers(f), total, arrived, taken, lost)
    ensures Ledger(Numbers(f[..k] + f[k + 1..]), total, arrived, taken, lost + if f[k].Post? then {f[k].number} else {})
  {
    NumbersWithout(f, k);
    if f[k].Post? {
      LedgerDrop(Numbers(f), |Numbers(f[..k])|, total, arrived, taken, lost);
    } else {
      assert lost + {} == lost;
    }
  }

  lemma DropKeepsWire(c: Channel, k: nat)
    requires WireOk(c)
    ensures WireOk(Step(c, Drop(k)))
  {
    hide Wrapped, PacketBytes, ReadFrame, DropFrame, WireOf;
    if k < |c.flight| {
      DropFromWire(c.key, c.flight, c.torn, k);
    } else {
      DropBeyond(c.key, c.flight, c.torn, k);
    }
  }

  /** The first packet in flight is what `Receive` finds on the wire. */
  lemma ReceiveFirst(c: Channel)
    requires CountersOk(c) && WireOk(c) && c.flight != []
    ensures ReadFrame(c.wire).Complete?
    ensures var p := c.flight[0]; var tail := WireOf(c.key, c.flight[1..]) + c.torn;
            Receive(c.key, c.recvSeq, c.wire) ==
            if p.Beat? then Receipt(Ok([]), c.recvSeq, tail)
            else Receipt(if Wrapped(p.number) == Next(c.recvSeq) then Ok(p.plain) else Err(DecryptionFailed),
                         Next(c.recvSeq), tail)
  {
    hide Wrapped, ReadFrame, Receive, Letter, Next;
    var p, tail := c.flight[0], WireOf(c.key, c.flight[1..]) + c.torn;
    ConcatAssociative(PacketBytes(c.key, p), WireOf(c.key, c.flight[1..]), c.torn);
    ReadPacket(c.key, p, tail);
    if p.Beat? {
      ReceiveHeartbeat(c.key, c.recvSeq, tail);
    } else {
      ReceiveLetter(c.key, c.recvSeq, Wrapped(p.number), p.plain, tail);
    }
  }

  /** The channel once its first packet has been read. */
  function Popped(c: Channel): Channel
    requires WireOk(c) && c.flight != []
  {
    var p := c.flight[0];
    var rest := c.(wire := WireOf(c.key, c.flight[1..]) + c.torn, flight := c.flight[1..]);
    if p.Beat? then rest
    else
      var next := Wrapped(c.arrived + 1);
      rest.(recvSeq := next, arrived := c.arrived + 1,
            got := c.got + if Wrapped(p.number) == next then [p.plain] else [])
  }

  lemma RecvPops(c: Channel)
    requires CountersOk(c) && WireOk(c) && c.flight != []
    ensures Step(c, Recv) == Popped(c)
  {
    hide Wrapped, Next, ReadFrame, Receive, PacketBytes, AllDeliverable;
    ReceiveFirst(c);
    NextOf(c.arrived);
    RecvTakes(c, Receive(c.key, c.recvSeq, c.wire));
    hide WireOf, WireOk, CountersOk, Step;
    assert c.got + [] == c.got;
  }

  lemma RecvTakes(c: Channel, receipt: Receipt)
    requires ReadFrame(c.wire).Complete? && Receive(c.key, c.recvSeq, c.wire) == receipt
    ensures Step(c, Recv) == Took(c, receipt)
  {
    hide ReadFrame, Receive;
  }

  /** A receive finds the first packet in flight. If that is a message, it is decrypted exactly when no
      earlier message was lost. */
  lemma RecvStep(c: Channel)
    requires Inv(c)
    requires |c.sent| <= U64_VALUES || c.lost == {}
    ensures Inv(Step(c, Recv))
    ensures c.flight != [] && c.flight[0].Post? ==>
              var c' := Step(c, Recv); var p := c.flight[0];
              if NoneBelow(c.lost, p.number)
              then c'.got == c.got + [p.plain] && |c.got| + 1 == p.number
              else c'.got == c.got && Receive(c.key, c.recvSeq, c.wire).result == Err(DecryptionFailed)
  {
    hide Wrapped, Next, ReadFrame, Receive, PacketBytes, Ledger, NoneBelow;
    if c.flight == [] {
      NothingToReceive(c);
    } else {
      RecvPops(c);
      PoppedKeepsInv(c);
      PopKeepsLedger(c.flight, |c.sent|, c.arrived, |c.got|, c.lost);
      ReceiveFirst(c);
      NextOf(c.arrived);
      hide WireOf, WireOk, Step;
    }
  }

  lemma NothingToReceive(c: Channel)
    requires c.flight == [] && WireOk(c)
    ensures Step(c, Recv) == c
  {
    hide ReadFrame;
    assert [] + c.torn == c.torn;
  }

  lemma PopKeepsLedger(f: seq<Packet>, total: nat, arrived: nat, taken: nat, lost: set<nat>)
    requires f != []
    requires Ledger(Numbers(f), total, arrived, taken, lost)
    requires total <= U64_VALUES || lost == {}
    ensures f[0].Beat? ==> Numbers(f[1..]) == Numbers(f)
    ensures f[0].Post? ==>
              var inTurn := NoneBelow(lost, f[0].number);
              && Ledger(Numbers(f[1..]), total, arrived + 1, if inTurn then taken + 1 else taken, lost)
              && (inTurn <==> Wrapped(f[0].number) == Wrapped(arrived + 1))
              && (inTurn ==> taken + 1 == f[0].number)
  {
    hide Wrapped;
    assert lost == {} ==> NoneBelow(lost, if f[0].Post? then f[0].number else 0);
    hide Ledger;
    hide NoneBelow;
    if f[0].Post? {
      var ns := Numbers(f);
      assert ns == [f[0].number] + Numbers(f[1..]);
      assert ns[1..] == Numbers(f[1..]);
      LedgerArrive(ns, total, arrived, taken, lost);
      SameRemainder(f[0].number, arrived + 1, total, lost == {});
    }
  }

  lemma PoppedKeepsInv(c: Channel)
    requires Inv(c) && c.flight != []
    requires |c.sent| <= U64_VALUES || c.lost == {}
    ensures Inv(Popped(c))
  {
    hide Wrapped;
    hide PacketBytes;
    hide Ledger;
    PopKeepsLedger(c.flight, |c.sent|, c.arrived, |c.got|, c.lost);
    assert c.flight[0] in c.flight;
    assert forall p <- c.flight[1..] :: p in c.flight;
  }

  /** Within one round of the counter, equal remainders mean equal numbers. */
  lemma SameRemainder(n: nat, m: nat, total: nat, exact: bool)
    requires 1 <= m <= n <= total
    requires total <= U64_VALUES || (exact && n == m)
    ensures Wrapped(n) == Wrapped(m) <==> n == m
  {
  }

  lemma SendKeepsInv(c: Channel, plain: Bytes)
    requires Inv(c) && Deliverable(plain) && c.torn == []
    ensures Inv(Step(c, Send(plain)))
  {
    hide WireOk, CountersOk, Ledger;
    SendKeepsWire(c, plain);
    SendKeepsLedger(c.flight, Post(|c.sent| + 1, plain), |c.sent|, c.arrived, |c.got|, c.lost);
  }

  lemma StepKeepsInv(c: Channel, a: Action)
    requires Inv(c) && Permitted(a)
    requires |c.sent| <= U64_VALUES || c.lost == {}
    ensures Inv(Step(c, a))
  {
    hide Wrapped, Next, Ledger, PacketBytes, ReadFrame, Letter, Front, DropFrame, Receive, WireOf;
    assert c.torn + [] == c.torn;
    match a
    case Send(plain) =>
      if c.torn == [] { SendKeepsInv(c, plain); } else { LoseKeepsInv(c, plain, []); }
    case SendFails(plain, k) =>
      if c.torn == [] && k > 0 {
        TornIsPartial(c.key, Next(c.sendSeq), plain, k);
        var bits := Front(Letter(c.key, Next(c.sendSeq), plain), k);
        assert [] + bits == bits;
        LoseKeepsInv(c, plain, bits);
      } else {
        LoseKeepsInv(c, plain, []);
      }
    case Heartbeat => HeartbeatKeepsInv(c);
    case Recv => RecvStep(c);
    case Drop(k) =>
      if k < |c.flight| { DropKeepsLedger(c.flight, k, |c.sent|, c.arrived, |c.got|, c.lost); }
      DropKeepsWire(c, k);
  }

  /** Losses and sends are only ever added to. */
  lemma HistoryGrows(c: Channel, a: Action)
    requires Permitted(a)
    ensures c.lost <= Step(c, a).lost && |c.sent| <= |Step(c, a).sent|
  {
  }

  /** The invariant holds after every run in which nothing was lost, and after every run of at most 2^64
      sends whatever was lost. */
  lemma {:induction false} RunKeepsInv(key: Bytes, actions: seq<Action>)
    requires Allowed(actions)
    requires var c := Run(key, actions); |c.sent| <= U64_VALUES || c.lost == {}
    ensures Inv(Run(key, actions))
  {
    if actions != [] {
      var before, a := actions[..|actions| - 1], actions[|actions| - 1];
      var c := Run(key, before);
      HistoryGrows(c, a);
      assert c.lost <= Run(key, actions).lost;
      RunKeepsInv(key, before);
      StepKeepsInv(c, a);
    }
  }

  // ----- The theorems -----

  function SendCount(actions: seq<Action>): nat {
    if actions == [] then 0
    else
      var a := actions[|actions| - 1];
      SendCount(actions[..|actions| - 1]) + if a.Send? || a.SendFails? then 1 else 0
  }

  /** The messages handed to `send`, whether or not it succeeds. */
  function Handed(actions: seq<Action>): seq<Bytes> {
    if actions == [] then []
    else
      var a := actions[|actions| - 1];
      Handed(actions[..|actions| - 1]) + if a.Send? || a.SendFails? then [a.plain] else []
  }

  lemma {:induction false} SentIsHanded(key: Bytes, actions: seq<Action>)
    requires Allowed(actions)
    ensures Run(key, actions).sent == Handed(actions) && |Handed(actions)| == SendCount(actions)
  {
    hide Front, DropFrame, Receive, ReadFrame, Letter, Next;
    if actions != [] { SentIsHanded(key, actions[..|actions| - 1]); }
  }

  /** What was decrypted is a prefix of what was sent, the rest is in flight in order, and the two
      counters differ by exactly the number of messages in flight. */
  predicate InOrder(c: Channel) {
    var ns := Numbers(c.flight);
    && c.got <= c.sent
    && WireOk(c) && c.torn == []
    && |c.got| + |ns| == |c.sent|
    && (forall i :: 0 <= i < |ns| ==> ns[i] == |c.got| + i + 1)
    && c.sendSeq == Wrapped(|c.sent|)
    && c.recvSeq == Wrapped(|c.got|)
  }

  /** As long as no message is lost, delivery is in order for any number of sends. Heartbeats, lost or
      not, change nothing about it. */
  lemma InOrderDelivery(key: Bytes, actions: seq<Action>)
    requires Allowed(actions)
    ensures Run(key, actions).lost == {} ==> InOrder(Run(key, actions))
  {
    hide Run, InOrder;
    if Run(key, actions).lost == {} {
      RunKeepsInv(key, actions);
      InvInOrder(Run(key, actions));
    }
  }

  lemma InvInOrder(c: Channel)
    requires Inv(c) && c.lost == {}
    ensures InOrder(c)
  {
    hide Wrapped, WireOk, Numbers;
  }

  /** What holds of one direction after at most 2^64 sends, whatever was lost: the decrypted messages are a
      prefix of those sent and end before the first lost one for good. Below 2^64 the difference of the
      counters is the number of messages in flight. */
  predicate Safe(c: Channel) {
    && c.got <= c.sent
    && (forall l <- c.lost :: |c.got| < l)
    && (c.lost == {} ==>
          && c.sendSeq == Wrapped(|c.sent|) && c.recvSeq == Wrapped(|c.got|)
          && |c.sent| - |c.got| == |Numbers(c.flight)|
          && (|c.sent| < U64_VALUES ==> c.sendSeq - c.recvSeq == |Numbers(c.flight)|))
  }

  lemma InvIsSafe(c: Channel)
    requires Inv(c)
    ensures Safe(c)
  {
    hide Wrapped, WireOk, Numbers;
    NotYetWrapped(|c.sent|);
    NotYetWrapped(c.arrived);
  }

  lemma NotYetWrapped(n: nat)
    ensures n < U64_VALUES ==> Wrapped(n) == n
  {
  }

  lemma PrefixDespiteLoss(key: Bytes, actions: seq<Action>)
    requires Allowed(actions)
    requires SendCount(actions) <= U64_VALUES
    ensures Safe(Run(key, actions))
  {
    hide Step;
    SentIsHanded(key, actions);
    RunKeepsInv(key, actions);
    InvIsSafe(Run(key, actions));
  }

  /** Whatever happened before, the next message to arrive is decrypted if and only if no earlier
      message was lost; otherwise it is refused. */
  lemma AcceptedIffNothingLostBefore(key: Bytes, actions: seq<Action>)
    requires Allowed(actions)
    requires SendCount(actions) <= U64_VALUES
    ensures var c := Run(key, actions);
            c.flight != [] && c.flight[0].Post? ==>
              var c' := Run(key, actions + [Recv]);
              if NoneBelow(c.lost, c.flight[0].number)
              then |c.got| < |c.sent| && c'.got == c.got + [c.sent[|c.got|]]
              else c'.got == c.got && Receive(c.key, c.recvSeq, c.wire).result == Err(DecryptionFailed)
  {
    hide Wrapped;
    SentIsHanded(key, actions);
    RunKeepsInv(key, actions);
    RecvStep(Run(key, actions));
    assert (actions + [Recv])[..|actions|] == actions;
  }

  // ----- The bound is exact -----

  /** A message too large to be framed: its send fails with nothing written, and the pipe stays as it was. */
  predicate Oversized(plain: Bytes) {
    |plain| + TAG_LENGTH > MAX_SENDABLE
  }

  /** `k` sends of one message that fail before anything goes out. */
  function Fails(big: Bytes, k: nat): seq<Action> {
    if k == 0 then [] else Fails(big, k - 1) + [SendFails(big, 0)]
  }

  /** `d` comes from `c` by `k` failed sends, which use up numbers and change nothing else. */
  predicate OnlyFailed(c: Channel, d: Channel, big: Bytes, k: nat) {
    && d.got == c.got && d.wire == c.wire && d.torn == c.torn && d.recvSeq == c.recvSeq && d.flight == c.flight
    && d.key == c.key && c.sent <= d.sent && |d.sent| == |c.sent| + k && (c.sent == [] && k > 0 ==> d.sent[0] == big)
    && (c.sendSeq == Wrapped(|c.sent|) ==> d.sendSeq == Wrapped(|d.sent|))
  }

  lemma OneFailed(c: Channel, d: Channel, big: Bytes, k: nat)
    requires OnlyFailed(c, d, big, k)
    ensures OnlyFailed(c, Step(d, SendFails(big, 0)), big, k + 1)
  {
    hide Wrapped, Next;
    NextOf(|d.sent|);
    assert d.wire + [] == d.wire && d.torn + [] == d.torn;
  }

  lemma {:induction false} FailsKeep(key: Bytes, actions: seq<Action>, big: Bytes, k: nat)
    requires Allowed(actions)
    ensures Allowed(actions + Fails(big, k)) && SendCount(actions + Fails(big, k)) == SendCount(actions) + k
    ensures OnlyFailed(Run(key, actions), Run(key, actions + Fails(big, k)), big, k)
  {
    hide Run, Step, SendCount;
    if k == 0 {
      assert actions + Fails(big, 0) == actions;
    } else {
      hide OnlyFailed;
      FailsKeep(key, actions, big, k - 1);
      var before := actions + Fails(big, k - 1);
      ConcatAssociative(actions, Fails(big, k - 1), [SendFails(big, 0)]);
      RunAppend(key, before, SendFails(big, 0));
      CountAppend(before, SendFails(big, 0));
      OneFailed(Run(key, actions), Run(key, before), big, k - 1);
    }
  }

  lemma CountAppend(actions: seq<Action>, a: Action)
    ensures SendCount(actions + [a]) == SendCount(actions) + if a.Send? || a.SendFails? then 1 else 0
  {
    assert (actions + [a])[..|actions|] == actions;
  }

  lemma FullRound(n: nat)
    ensures Wrapped(n + U64_VALUES) == Wrapped(n)
  {
  }

  /** A message that goes out when the numbers sent so far fill a whole round is taken for the first one. */
  lemma TakenForFirst(c: Channel, plain: Bytes)
    requires c.torn == [] && c.wire == [] && c.flight == [] && c.got == [] && c.recvSeq == 0
    requires c.sendSeq == Wrapped(U64_VALUES) && Deliverable(plain)
    ensures Step(Step(c, Send(plain)), Recv).got == [plain]
    ensures Step(Step(c, Send(plain)), Recv).sent == c.sent + [plain]
  {
    hide ReadFrame, Receive, Letter, Wrapped, Next;
    FullRound(0);
    NextOf(0);
    assert Wrapped(0) == 0 && Next(0) != 0 by { NotYetWrapped(0); }
    var letter := Letter(c.key, Next(0), plain);
    ReceiveLetter(c.key, 0, Next(0), plain, []);
    LetterComplete(c.key, Next(0), plain);
    assert [] + letter == letter == letter + [];
    var d := Step(c, Send(plain));
    RecvTakes(d, Receive(d.key, d.recvSeq, d.wire));
  }

  lemma LetterComplete(key: Bytes, number: nat, plain: Bytes)
    requires Deliverable(plain)
    ensures ReadFrame(Letter(key, number, plain)).Complete?
  {
    hide ReadFrame;
    ReadBack(Seal(key, Nonce(number), plain), []);
    assert Letter(key, number, plain) + [] == Letter(key, number, plain);
  }

  /** 2^64 sends of an oversized message fail, then one message gets through and is received. */
  lemma AfterRound(key: Bytes, big: Bytes, round: nat) returns (actions: seq<Action>)
    requires round == U64_VALUES && Oversized(big)
    ensures Allowed(actions) && SendCount(actions) == round + 1
    ensures var c := Run(key, actions); c.got == [[1]] && c.sent != [] && c.sent[0] == big
  {
    hide Run, Step, Fails, Allowed, SendCount, Wrapped;
    AllowedNothing();
    RunNothing(key);
    NotYetWrapped(0);
    FailsKeep(key, [], big, round);
    var a := [] + Fails(big, round);
    var c := Run(key, a);
    TakenForFirst(c, [1]);
    hide OnlyFailed;
    RunAppend(key, a, Send([1]));
    CountAppend(a, Send([1]));
    RunAppend(key, a + [Send([1])], Recv);
    CountAppend(a + [Send([1])], Recv);
    actions := a + [Send([1])] + [Recv];
  }

  /** With more than 2^64 sends there are runs, of any such length, in which the receiver decrypts a message
      in the place of another: after a full round of failed sends, one gets through and is received. */
  lemma CounterComesRound(key: Bytes, n: nat)
    requires n > U64_VALUES
    ensures exists actions: seq<Action> ::
              && Allowed(actions) && SendCount(actions) == n
              && !(Run(key, actions).got <= Run(key, actions).sent)
  {
    hide Run, Fails, Allowed, SendCount, Wrapped;
    var big: Bytes := seq(MAX_SENDABLE, _ => 0);
    assert Oversized(big);
    var start := AfterRound(key, big, U64_VALUES);
    FailsKeep(key, start, big, n - U64_VALUES - 1);
    var actions := start + Fails(big, n - U64_VALUES - 1);
    var end := Run(key, actions);
    assert end.got[0] == [1] && end.sent[0] == big != [1];
  }

  lemma AllowedNothing()
    ensures Allowed([]) && SendCount([]) == 0
  {
  }

  /** Every run of `n` sends decrypts a prefix of what was sent if and only if `n` is at most 2^64. */
  lemma PrefixHoldsIff(key: Bytes, n: nat)
    ensures (forall actions: seq<Action> ::
               Allowed(actions) && SendCount(actions) == n ==> Run(key, actions).got <= Run(key, actions).sent)
       <==> n <= U64_VALUES
  {
    hide Run, Allowed, SendCount;
    if n <= U64_VALUES {
      forall actions: seq<Action> | Allowed(actions) && SendCount(actions) == n
        ensures Run(key, actions).got <= Run(key, actions).sent
      {
        PrefixDespiteLoss(key, actions);
      }
    } else {
      CounterComesRound(key, n);
    }
  }

  lemma RunAppend(key: Bytes, actions: seq<Action>, a: Action)
    requires Allowed(actions) && Permitted(a)
    ensures Allowed(actions + [a]) && Run(key, actions + [a]) == Step(Run(key, actions), a)
  {
    hide Step;
    assert (actions + [a])[..|actions|] == actions;
  }

  // ----- Both directions at once -----

  datatype Side = Up | Down

  datatype Duplex = Duplex(up: Channel, down: Channel)

  predicate AllowedDuplex(actions: seq<(Side, Action)>) {
    forall a <- actions :: Permitted(a.1)
  }

  function RunDuplex(key: Bytes, actions: seq<(Side, Action)>): Duplex
    requires AllowedDuplex(actions)
  {
    if actions == [] then Duplex(Start(key), Start(key))
    else
      StepSide(RunDuplex(key, actions[..|actions| - 1]), actions[|actions| - 1])
  }

  function StepSide(d: Duplex, action: (Side, Action)): Duplex
    requires Permitted(action.1)
  {
    if action.0.Up? then d.(up := Step(d.up, action.1)) else d.(down := Step(d.down, action.1))
  }

  function OnSide(actions: seq<(Side, Action)>, side: Side): (r: seq<Action>)
    ensures AllowedDuplex(actions) ==> Allowed(r)
  {
    if actions == [] then []
    else
      var (s, a) := actions[|actions| - 1];
      OnSide(actions[..|actions| - 1], side) + if s == side then [a] else []
  }

  /** The directions do not disturb each other: after any interleaving each one is where its own
      actions alone would have brought it, so the theorems above hold of both. */
  lemma {:induction false} DirectionsIndependent(key: Bytes, actions: seq<(Side, Action)>)
    requires AllowedDuplex(actions)
    ensures var d := RunDuplex(key, actions);
            d.up == Run(key, OnSide(actions, Up)) && d.down == Run(key, OnSide(actions, Down))
  {
    hide Run, Step;
    if actions == [] {
      RunNothing(key);
    } else {
      var before, last := actions[..|actions| - 1], actions[|actions| - 1];
      DirectionsIndependent(key, before);
      var mine, other := OnSide(before, last.0), OnSide(before, if last.0.Up? then Down else Up);
      RunAppend(key, mine, last.1);
      assert other + [] == other;
    }
  }

  /** Safety of the whole link, for every interleaving of both sides. */
  lemma DuplexSafety(key: Bytes, actions: seq<(Side, Action)>)
    requires AllowedDuplex(actions)
    requires SendCount(OnSide(actions, Up)) <= U64_VALUES && SendCount(OnSide(actions, Down)) <= U64_VALUES
    ensures var d := RunDuplex(key, actions); Safe(d.up) && Safe(d.down)
  {
    DirectionsIndependent(key, actions);
    PrefixDespiteLoss(key, OnSide(actions, Up));
    PrefixDespiteLoss(key, OnSide(actions, Down));
  }

  lemma RunNothing(key: Bytes)
    ensures Run(key, []) == Start(key)
  {
  }

  // ----- The runs are those of the stream objects -----

  /** Moves what the sender has written to the end of what the receiver has not read. */
  method Carry(from: ByteStream, to: ByteStream)
    requires from != to
    modifies from`outbound, to`inbound
    ensures to.inbound == old(to.inbound) + old(from.outbound) && from.outbound == []
  {
    to.inbound := to.inbound + from.outbound;
    from.outbound := [];
  }

  /** One side sends to the other as the channel says. */
  ghost predicate Carries(c: Channel, sender: EncryptedStream, receiver: EncryptedStream, broken: bool)
    reads sender, receiver, sender.inner.stream, receiver.inner.stream
  {
    && sender.Valid() && receiver.Valid()
    && sender.inner.stream != receiver.inner.stream
    && sender.key == c.key == receiver.key
    && sender.sendSeq == c.sendSeq && receiver.recvSeq == c.recvSeq
    && sender.inner.stream.outbound == [] && receiver.inner.stream.inbound == c.wire
    && broken == (c.torn != [])
  }

  /** How many bytes the pipe takes during an action. */
  function Room(key: Bytes, sendSeq: nat, a: Action, broken: bool): nat
    requires Permitted(a)
  {
    if broken then 0
    else
      match a
      case Send(plain) => |plain| + TAG_LENGTH + 4
      case SendFails(plain, k) => if k == 0 then 0 else Min(k, |Letter(key, Next(sendSeq), plain)| - 1)
      case _ => 4
  }

  /** What the send of an action puts on the pipe. */
  lemma SendWrites(c: Channel, a: Action, plain: Bytes, broken: bool)
    requires Permitted(a) && broken == (c.torn != []) && (a == Send(plain) || (a.SendFails? && a.plain == plain))
    ensures var out := Sent(Seal(c.key, Nonce(Next(c.sendSeq)), plain), Room(c.key, c.sendSeq, a, broken));
            && Step(c, a).wire == c.wire + out && Step(c, a).sendSeq == Next(c.sendSeq)
            && Step(c, a).recvSeq == c.recvSeq && Step(c, a).got == c.got && Step(c, a).key == c.key
            && (Step(c, a).torn != [] <==> broken || (a.SendFails? && out != []))
  {
    hide Frame, Next, Seal, Nonce, Wrapped;
    assert c.torn + [] == c.torn;
  }

  lemma BeatWrites(c: Channel, broken: bool)
    requires broken == (c.torn != [])
    ensures Step(c, Heartbeat).wire == c.wire + Sent([], Room(c.key, c.sendSeq, Heartbeat, broken))
  {
    hide Header;
    assert c.wire + [] == c.wire;
    assert Frame([])[..|Frame([])|] == Frame([]);
  }

  /** Performs one action on the objects. */
  method Act(sender: EncryptedStream, receiver: EncryptedStream, a: Action, was: bool, ghost c: Channel)
    returns (got: seq<Bytes>, broken: bool)
    requires Permitted(a) && sender != receiver && Carries(c, sender, receiver, was)
    modifies sender`sendSeq, sender.inner.stream`outbound, sender.inner.stream`capacity
    modifies receiver`recvSeq, receiver`lastRecvAt, receiver.inner.stream`inbound
    ensures Carries(Step(c, a), sender, receiver, broken)
    ensures Step(c, a).got == c.got + got
  {
    hide Frame, ReadFrame, Receive, Wrapped, Next, Letter, Front, DropFrame, Seal, Nonce, Sent, SendResult;
    var near, far := sender.inner.stream, receiver.inner.stream;
    got, broken := [], was;
    assert c.got + [] == c.got;
    match a {
      case Send(plain) =>
        near.capacity := Room(sender.key, sender.sendSeq, a, was);
        SendWrites(c, a, plain, was);
        var r := sender.Send(plain);
        Carry(near, far);
      case SendFails(plain, k) =>
        near.capacity := Room(sender.key, sender.sendSeq, a, was);
        SendWrites(c, a, plain, was);
        var r := sender.Send(plain);
        broken := was || near.outbound != [];
        Carry(near, far);
      case Heartbeat =>
        near.capacity := Room(sender.key, sender.sendSeq, a, was);
        BeatWrites(c, was);
        var r := sender.SendHeartbeat();
        Carry(near, far);
      case Recv =>
        if ReadFrame(far.inbound).Complete? {
          var before := receiver.recvSeq;
          var r := receiver.Recv(0);
          if receiver.recvSeq != before && r.Ok? { got := [r.value]; }
        }
      case Drop(k) =>
        far.inbound := DropFrame(far.inbound, k);
    }
  }

  /** What both sides have decrypted, and which pipes are broken. */
  datatype Link = Link(upGot: seq<Bytes>, downGot: seq<Bytes>, upBroken: bool, downBroken: bool)

  ghost predicate Joined(d: Duplex, a: EncryptedStream, b: EncryptedStream, link: Link)
    reads a, b, a.inner.stream, b.inner.stream
  {
    && a != b && Carries(d.up, a, b, link.upBroken) && Carries(d.down, b, a, link.downBroken)
    && link.upGot == d.up.got && link.downGot == d.down.got
  }

  /** Performs one action of either side. */
  method Turn(a: EncryptedStream, b: EncryptedStream, action: (Side, Action), link: Link, ghost d: Duplex)
    returns (next: Link)
    requires Permitted(action.1) && Joined(d, a, b, link)
    modifies a, b, a.inner.stream, b.inner.stream
    ensures Joined(StepSide(d, action), a, b, next)
  {
    hide Step;
    match action.0 {
      case Up =>
        var got, broken := Act(a, b, action.1, link.upBroken, d.up);
        next := link.(upGot := link.upGot + got, upBroken := broken);
      case Down =>
        var got, broken := Act(b, a, action.1, link.downBroken, d.down);
        next := link.(downGot := link.downGot + got, downBroken := broken);
    }
  }

  /** What one side of a link shows: its two counters, the bytes it has not read, and what it decrypted. */
  datatype End = End(sendSeq: nat, recvSeq: nat, unread: seq<Octet>, got: seq<Bytes>)

  lemma DuplexOneMore(key: Bytes, actions: seq<(Side, Action)>, i: nat)
    requires AllowedDuplex(actions) && i < |actions|
    ensures AllowedDuplex(actions[..i]) && AllowedDuplex(actions[..i + 1]) && Permitted(actions[i].1)
    ensures RunDuplex(key, actions[..i + 1]) == StepSide(RunDuplex(key, actions[..i]), actions[i])
  {
    hide StepSide;
    assert actions[..i + 1][..i] == actions[..i];
  }

  /** Performs any interleaving on two encrypted streams, each of which sends and receives with its own two
      counters over one transport. Counters, unread bytes and decrypted messages are those of the duplex run,
      so the theorems hold of the objects. */
  method Perform(key: Bytes, actions: seq<(Side, Action)>) returns (near: End, far: End)
    requires AllowedDuplex(actions)
    ensures var d := RunDuplex(key, actions);
            && near == End(d.up.sendSeq, d.down.recvSeq, d.down.wire, d.down.got)
            && far == End(d.down.sendSeq, d.up.recvSeq, d.up.wire, d.up.got)
    ensures SendCount(OnSide(actions, Up)) <= U64_VALUES ==> far.got <= Handed(OnSide(actions, Up))
    ensures SendCount(OnSide(actions, Down)) <= U64_VALUES ==> near.got <= Handed(OnSide(actions, Down))
  {
    hide StepSide, RunDuplex, Permitted, OnSide, SendCount, Handed;
    DuplexNothing(key);
    DuplexPrefix(key, actions);
    var nearStream := new ByteStream([], 0);
    var farStream := new ByteStream([], 0);
    var nearTransport := new FramedTransport(nearStream);
    var farTransport := new FramedTransport(farStream);
    var a := new EncryptedStream(nearTransport, key, 0);
    var b := new EncryptedStream(farTransport, key, 0);
    var link := Link([], [], false, false);
    ghost var d := Duplex(Start(key), Start(key));
    for i := 0 to |actions|
      invariant a.inner.stream == nearStream && b.inner.stream == farStream
      invariant d == RunDuplex(key, actions[..i]) && Joined(d, a, b, link)
    {
      DuplexOneMore(key, actions, i);
      link := Turn(a, b, actions[i], link, d);
      d := StepSide(d, actions[i]);
    }
    assert actions[..|actions|] == actions;
    near := End(a.sendSeq, a.recvSeq, nearStream.inbound, link.downGot);
    far := End(b.sendSeq, b.recvSeq, farStream.inbound, link.upGot);
  }

  lemma DuplexPrefix(key: Bytes, actions: seq<(Side, Action)>)
    requires AllowedDuplex(actions)
    ensures var d := RunDuplex(key, actions); var up, down := OnSide(actions, Up), OnSide(actions, Down);
            && (SendCount(up) <= U64_VALUES ==> d.up.got <= Handed(up))
            && (SendCount(down) <= U64_VALUES ==> d.down.got <= Handed(down))
  {
    hide Run, RunDuplex, OnSide, SendCount, Handed;
    var up, down := OnSide(actions, Up), OnSide(actions, Down);
    DirectionsIndependent(key, actions);
    SentIsHanded(key, up);
    SentIsHanded(key, down);
    if SendCount(up) <= U64_VALUES { PrefixDespiteLoss(key, up); }
    if SendCount(down) <= U64_VALUES { PrefixDespiteLoss(key, down); }
  }

  lemma DuplexNothing(key: Bytes)
    ensures RunDuplex(key, []) == Duplex(Start(key), Start(key))
  {
  }
}
