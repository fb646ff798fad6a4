/** Pushing a local file to the peer: agreeing on a resume offset, sending the rest in blocks, and reporting
    progress to the client. The local file does not change meanwhile. */
module Push {
  import opened Common

  const BLOCK_SIZE: nat := 131072

  const REPORT_STEP: nat := 1048576

  /** What a confirmation of the peer says. */
  datatype Choice = Skip(skip: bool) | OffsetBlk(offset: nat) | Unset

  datatype Incoming =
    | Heartbeat
    | Undecodable
    | ReadFails
    | Confirm(id: int, choice: Choice)
    | Digest(id: int, fileNum: int, identical: bool, transferred: nat)
    | Finished(id: int)
    | Refused(id: int)
    | TestDelay(time: int, lastDelay: int)
    | CloseReason
    | Unrelated

  datatype Outgoing =
    | ReceiveRequest(id: int, size: nat)
    | LocalDigest(id: int, size: nat)
    | SendConfirm(id: int, fileNum: int, offset: nat)
    | Block(id: int, data: Bytes, compressed: bool)
    | Done(id: int)
    | DelayEcho(time: int, lastDelay: int)

  /** The connection to the peer: the messages still to come, those sent, and which attempts to send succeed. */
  class Link {
    var inbox: seq<Incoming>
    var outbox: seq<Outgoing>
    var attempts: nat
    const accepts: nat -> bool

    constructor (inbox: seq<Incoming>, accepts: nat -> bool)
      ensures this.inbox == inbox && outbox == [] && attempts == 0 && this.accepts == accepts
    {
      this.inbox, this.outbox, this.attempts, this.accepts := inbox, [], 0, accepts;
    }

    method Send(m: Outgoing) returns (ok: bool)
      modifies this
      ensures ok == accepts(old(attempts)) && attempts == old(attempts) + 1 && inbox == old(inbox)
      ensures outbox == if ok then old(outbox) + [m] else old(outbox)
    {
      ok := accepts(attempts);
      attempts := attempts + 1;
      if ok { outbox := outbox + [m]; }
    }
  }

  // ----- Waiting for a file event -----

  /** A message about this job that the transfer waits for. */
  predicate IsEvent(m: Incoming, job: int) {
    (m.Confirm? || m.Digest? || m.Finished? || m.Refused?) && m.id == job
  }

  predicate IsFatal(m: Incoming) {
    m.ReadFails? || m.Undecodable? || m.CloseReason?
  }

  /** Everything in `ms` is passed over, test delays being echoed. */
  predicate PassedOver(ms: seq<Incoming>, job: int) {
    forall m <- ms :: !IsEvent(m, job) && !IsFatal(m)
  }

  function Echoes(ms: seq<Incoming>): seq<Outgoing> {
    if ms == [] then []
    else
      var m := ms[|ms| - 1];
      Echoes(ms[..|ms| - 1]) + if m.TestDelay? then [DelayEcho(m.time, m.lastDelay)] else []
  }

  lemma PassStep(all: seq<Incoming>, n: nat, job: int)
    requires n < |all| && PassedOver(all[..n], job)
    ensures Echoes(all[..n + 1])
         == Echoes(all[..n]) + if all[n].TestDelay? then [DelayEcho(all[n].time, all[n].lastDelay)] else []
    ensures !IsEvent(all[n], job) && !IsFatal(all[n]) ==> PassedOver(all[..n + 1], job)
  {
    assert all[..n + 1] == all[..n] + [all[n]];
    assert all[..n + 1][..n] == all[..n];
  }

  /** Of the messages `all`, the first `n` were read and `sent` went out meanwhile. A success read up to the
      first event of this job; a failure ran out of messages, met a fatal one, or could not send an echo. */
  ghost predicate EventRead(
    all: seq<Incoming>, n: nat, job: int, sent: seq<Outgoing>, event: Option<Incoming>, refused: bool)
  {
    || (event.None? && n == |all| && PassedOver(all, job) && sent == Echoes(all))
    || (&& 0 < n <= |all| && PassedOver(all[..n - 1], job) && sent == Echoes(all[..n - 1])
        && match event {
             case Some(e) => e == all[n - 1] && IsEvent(e, job)
             case None => IsFatal(all[n - 1]) || (all[n - 1].TestDelay? && refused)
           })
  }

  method RecvFileEvent(link: Link, job: int)
    returns (event: Option<Incoming>, ghost n: nat, ghost echoes: seq<Outgoing>)
    modifies link
    ensures n <= |old(link.inbox)| && link.inbox == old(link.inbox)[n..]
    ensures link.outbox == old(link.outbox) + echoes
    ensures link.attempts >= old(link.attempts)
    ensures EventRead(old(link.inbox), n, job, echoes, event, link.attempts > 0 && !link.accepts(link.attempts - 1))
  {
    hide Echoes, PassedOver;
    ghost var all := link.inbox;
    n, echoes := 0, [];
    PassNothing(all, job);
    while link.inbox != []
      invariant n <= |all| && link.inbox == all[n..]
      invariant PassedOver(all[..n], job) && echoes == Echoes(all[..n])
      invariant link.outbox == old(link.outbox) + echoes
      invariant link.attempts >= old(link.attempts)
      decreases |link.inbox|
    {
      var m := link.inbox[0];
      link.inbox := link.inbox[1..];
      PassStep(all, n, job);
      n := n + 1;
      match m {
        case Heartbeat =>
        case ReadFails => return None, n, echoes;
        case Undecodable => return None, n, echoes;
        case Confirm(id, _) => if id == job { return Some(m), n, echoes; }
        case Digest(id, _, _, _) => if id == job { return Some(m), n, echoes; }
        case Finished(id) => if id == job { return Some(m), n, echoes; }
        case Refused(id) => if id == job { return Some(m), n, echoes; }
        case TestDelay(time, lastDelay) =>
          var ok := link.Send(DelayEcho(time, lastDelay));
          if !ok { return None, n, echoes; }
          echoes := echoes + [DelayEcho(time, lastDelay)];
        case CloseReason => return None, n, echoes;
        case Unrelated =>
      }
    }
    assert all[..n] == all;
    return None, n, echoes;
  }

  lemma PassNothing(all: seq<Incoming>, job: int)
    ensures PassedOver(all[..0], job) && Echoes(all[..0]) == []
  {
  }

  /** The wait for a file event, message by message: a read error, an undecodable message and a close reason fail
      it; a confirmation, digest, completion or error of the job ends it; a test delay is echoed first thing or, if
      that cannot be sent, fails it; heartbeats, other messages and those of other jobs are passed over. */
  lemma ReadOneByOne(
    m: Incoming, rest: seq<Incoming>, n: nat, job: int, sent: seq<Outgoing>, event: Option<Incoming>, refused: bool)
    requires EventRead([m] + rest, n, job, sent, event, refused)
    ensures m == ReadFails || m == Undecodable || m == CloseReason ==> event == None && n == 1 && sent == []
    ensures (m.Confirm? || m.Digest? || m.Finished? || m.Refused?) && m.id == job ==>
              event == Some(m) && n == 1 && sent == []
    ensures (m == Heartbeat || m == Unrelated
             || ((m.Confirm? || m.Digest? || m.Finished? || m.Refused?) && m.id != job)) ==>
              n > 0 && EventRead(rest, n - 1, job, sent, event, refused)
    ensures m.TestDelay? && !(n == 1 && event == None && refused && sent == []) ==>
              && n > 0 && sent != [] && sent[0] == DelayEcho(m.time, m.lastDelay)
              && EventRead(rest, n - 1, job, sent[1..], event, refused)
  {
    var all := [m] + rest;
    PassedOne(m, rest, job);
    EchoesFirst(m, rest);
    if n > 1 {
      assert n <= |all|;
      assert all[..n - 1] == [m] + rest[..n - 2] && all[n - 1] == rest[n - 2];
      PassedOne(m, rest[..n - 2], job);
      EchoesFirst(m, rest[..n - 2]);
    }
    hide Echoes, PassedOver;
    assert all[..0] == [];
    PassNothing(all, job);
  }

  lemma PassedOne(m: Incoming, rest: seq<Incoming>, job: int)
    ensures PassedOver([m] + rest, job) <==> !IsEvent(m, job) && !IsFatal(m) && PassedOver(rest, job)
  {
    assert m in [m] + rest;
    assert forall x <- rest :: x in [m] + rest;
    assert forall x <- [m] + rest :: x == m || x in rest;
  }

  lemma {:induction false} EchoesFirst(m: Incoming, rest: seq<Incoming>)
    ensures Echoes([m] + rest) == (if m.TestDelay? then [DelayEcho(m.time, m.lastDelay)] else []) + Echoes(rest)
  {
    if rest == [] {
      assert [m] + rest == [m] && [m][..0] == [];
      assert Echoes([]) == [];
    } else {
      EchoesFirst(m, rest[..|rest| - 1]);
      assert ([m] + rest)[..|rest|] == [m] + rest[..|rest| - 1];
    }
  }

  lemma {:induction false} EchoesQuiet(ms: seq<Incoming>)
    ensures Quiet(Echoes(ms))
  {
    if ms != [] { EchoesQuiet(ms[..|ms| - 1]); }
  }

  // ----- Agreeing on where to resume -----

  /** A message that leaves the negotiation open. */
  predicate Waits(m: Incoming, job: int) {
    !IsFatal(m) && (IsEvent(m, job) ==> m.Finished?)
  }

  /** The message at `k` settles the negotiation. */
  ghost predicate Settles(all: seq<Incoming>, job: int, k: nat) {
    && k < |all| && (all[k].Confirm? || all[k].Digest?) && all[k].id == job
    && forall i :: 0 <= i < k ==> Waits(all[i], job)
  }

  function Min(a: nat, b: nat): nat {
    if a <= b then a else b
  }

  /** The resume offset, and whether the file is to be skipped. */
  function Agreed(m: Incoming, total: nat): (r: (nat, bool))
    ensures r.0 <= total && (r.1 ==> r.0 == total)
    ensures m.Digest? ==> r.0 <= U32_MAX && !r.1
  {
    match m
    case Digest(_, _, identical, transferred) =>
      (if identical then Min(Min(transferred, total), U32_MAX) else 0, false)
    case Confirm(_, Skip(true)) => (total, true)
    case Confirm(_, OffsetBlk(offset)) => (Min(offset, total), false)
    case _ => (0, false)
  }

  /** The cast of a `u64` to a `u32`. */
  function ToU32(n: nat): nat {
    n % (U32_MAX + 1)
  }

  /** No block and no completion among the messages. */
  predicate Quiet(ms: seq<Outgoing>) {
    forall m <- ms :: !m.Block? && !m.Done?
  }

  ghost predicate Smooth(accepts: nat -> bool) {
    forall n: nat :: accepts(n)
  }

  /** What the disk does: whether the file opens, and what a read at an offset yields, a failure or a wish for
      so many bytes. */
  datatype Disk = Disk(opens: bool, readAt: nat -> Option<nat>)

  ghost predicate AllWait(all: seq<Incoming>, n: nat, job: int) {
    n <= |all| && forall i :: 0 <= i < n ==> Waits(all[i], job)
  }

  lemma WaitOn(
    all: seq<Incoming>, n: nat, k: nat, job: int, sent: seq<Outgoing>, event: Option<Incoming>, refused: bool)
    requires n + k <= |all| && AllWait(all, n, job)
    requires EventRead(all[n..], k, job, sent, event, refused)
    ensures Quiet(sent)
    ensures event.Some? ==> k > 0 && event.value == all[n + k - 1] && IsEvent(event.value, job)
    ensures event.Some? ==> AllWait(all, n + k - 1, job)
    ensures event.None? && !refused ==> forall j :: !Settles(all, job, j)
  {
    var rest := all[n..];
    EchoesQuiet(rest);
    if k > 0 {
      EchoesQuiet(rest[..k - 1]);
      assert forall i :: n <= i < n + k - 1 ==> all[i] == rest[..k - 1][i - n] && all[i] in rest[..k - 1];
      assert all[n + k - 1] == rest[k - 1];
      assert PassedOver(rest[..k - 1], job) ==> AllWait(all, n + k - 1, job);
    }
    if event.None? && !refused && PassedOver(rest, job) {
      assert forall i :: n <= i < |all| ==> all[i] == rest[i - n] && rest[i - n] in rest;
    }
  }

  lemma SettlesHere(all: seq<Incoming>, job: int, k: nat)
    requires k < |all| && IsEvent(all[k], job) && AllWait(all, k, job)
    ensures all[k].Finished? ==> AllWait(all, k + 1, job)
    ensures all[k].Refused? ==> forall j :: !Settles(all, job, j)
    ensures all[k].Confirm? || all[k].Digest? ==> forall j :: Settles(all, job, j) <==> j == k
  {
  }

  lemma QuietMore(ms: seq<Outgoing>, m: Outgoing)
    requires Quiet(ms) && !m.Block? && !m.Done?
    ensures Quiet(ms + [m])
  {
  }

  // ----- Blocks -----

  /** The compressor and decompressor, either of which may refuse. */
  datatype Zstd = Zstd(zip: Bytes -> Option<Bytes>, unzip: Bytes -> Option<Bytes>)

  ghost predicate RoundTrips(z: Zstd) {
    forall b :: z.zip(b).Some? ==> z.unzip(z.zip(b).value) == Some(b)
  }

  /** The data of a block, and whether it is compressed: whichever form is shorter. */
  function CompressChunk(z: Zstd, chunk: Bytes): (r: Option<(Bytes, bool)>)
    requires RoundTrips(z)
    ensures r.None? <==> z.zip(chunk).None?
    ensures r.Some? ==> forall job :: Unpack(z, Block(job, r.value.0, r.value.1)) == Some(chunk)
    ensures r.Some? ==> |r.value.0| <= |chunk|
  {
    match z.zip(chunk)
    case None => None
    case Some(data) => if |data| < |chunk| then Some((data, true)) else Some((chunk, false))
  }

  /** What the peer takes out of a block. */
  function Unpack(z: Zstd, block: Outgoing): Option<Bytes>
    requires block.Block?
  {
    if block.compressed then z.unzip(block.data) else Some(block.data)
  }

  /** What the peer's copy holds after the messages: it began as `held`, and every block of the job is
      unpacked and appended. */
  function Stored(z: Zstd, job: int, held: Bytes, msgs: seq<Outgoing>): Option<Bytes> {
    if msgs == [] then Some(held)
    else
      var last := msgs[|msgs| - 1];
      match Stored(z, job, held, msgs[..|msgs| - 1])
      case None => None
      case Some(stored) =>
        if last.Block? && last.id == job then
          match Unpack(z, last) { case None => None case Some(data) => Some(stored + data) }
        else Some(stored)
  }

  lemma StoredBlock(z: Zstd, job: int, held: Bytes, msgs: seq<Outgoing>, block: Outgoing)
    requires block.Block? && block.id == job
    requires Stored(z, job, held, msgs).Some? && Unpack(z, block).Some?
    ensures Stored(z, job, held, msgs + [block])
         == Some(Stored(z, job, held, msgs).value + Unpack(z, block).value)
  {
    assert (msgs + [block])[..|msgs|] == msgs;
  }

  lemma {:induction false} StoredQuiet(z: Zstd, job: int, held: Bytes, msgs: seq<Outgoing>, more: seq<Outgoing>)
    requires forall m <- more :: !m.Block?
    ensures Stored(z, job, held, msgs + more) == Stored(z, job, held, msgs)
  {
    if more == [] {
      assert msgs + more == msgs;
    } else {
      var shorter := more[..|more| - 1];
      assert (msgs + more)[..|msgs + more| - 1] == msgs + shorter;
      assert more[|more| - 1] in more;
      StoredQuiet(z, job, held, msgs, shorter);
    }
  }

  datatype BlockResult = Sent | AtEnd | Failed

  /** The next event of the job is an error report. */
  ghost predicate Complains(inbox: seq<Incoming>, job: int) {
    exists k :: 0 <= k < |inbox| && inbox[k] == Refused(job) && PassedOver(inbox[..k], job)
  }

  lemma ComplaintRead(
    all: seq<Incoming>, n: nat, job: int, sent: seq<Outgoing>, event: Option<Incoming>, refused: bool)
    requires EventRead(all, n, job, sent, event, refused) && n <= |all|
    ensures Quiet(sent)
    ensures !refused ==> (event == Some(Refused(job)) <==> Complains(all, job))
    ensures event.Some? && event.value.Refused? ==> Complains(all, job)
  {
    EchoesQuiet(all);
    if n > 0 { EchoesQuiet(all[..n - 1]); }
    forall k | 0 <= k < |all| && all[k] == Refused(job) && PassedOver(all[..k], job) && !refused
      ensures event == Some(Refused(job))
    {
      assert all[k] in all;
      assert n > 0;
      assert forall i :: 0 <= i < k ==> all[i] in all[..k];
      assert forall i :: 0 <= i < n - 1 ==> all[i] in all[..n - 1];
    }
  }

  // ----- The transfer -----

  class PushTransfer {
    const file: Bytes
    const job: int
    const resumed: nat
    const skip: bool
    var position: nat
    var sent: nat
    var transferred: nat

    constructor (file: Bytes, job: int, resumed: nat, skip: bool)
      ensures this.file == file && this.job == job && this.resumed == resumed && this.skip == skip
      ensures position == sent == resumed && transferred == 0
    {
      this.file, this.job, this.resumed, this.skip := file, job, resumed, skip;
      position := 0;
      sent, transferred := resumed, 0;
      new;
      if resumed > 0 { position := resumed; }
    }

    /** The accounting that holds at every point of a push. */
    predicate Valid()
      reads this
    {
      && resumed <= sent <= |file|
      && transferred <= sent - resumed
      && sent <= position <= |file|
      && (skip ==> resumed == |file|)
    }

    /** Sends the next block of the file. The counters move before the send, so a failed send leaves them
        ahead of what the peer got. */
    method SendNextBlock(link: Link, disk: Disk, zstd: Zstd) returns (r: BlockResult, ghost out: seq<Outgoing>)
      requires Valid() && position == sent && RoundTrips(zstd)
      modifies this, link
      ensures Valid() && (r != Failed ==> position == sent)
      ensures link.inbox == old(link.inbox) && link.outbox == old(link.outbox) + out
      ensures old(sent) <= sent <= old(sent) + BLOCK_SIZE
      ensures match r {
                case Sent =>
                  && !skip && old(sent) < sent && |out| == 1 && out[0].Block? && out[0].id == job
                  && Unpack(zstd, out[0]) == Some(file[old(sent)..sent])
                  && transferred == old(transferred) + |out[0].data|
                case AtEnd => sent == |file| && unchanged(this) && unchanged(link) && out == []
                case Failed =>
                  && !skip && out == []
                  && (disk.readAt(old(sent)).None? || zstd.zip(file[old(sent)..position]).None?
                      || (link.attempts > 0 && !link.accepts(link.attempts - 1)))
              }
    {
      out := [];
      if skip { return AtEnd, out; }
      var wish := disk.readAt(position);
      if wish.None? { return Failed, out; }
      var read := Min(if wish.value > 0 then wish.value else 1, Min(BLOCK_SIZE, |file| - position));
      if read == 0 { return AtEnd, out; }
      var chunk := file[position..position + read];
      position := position + read;
      var packed := CompressChunk(zstd, chunk);
      if packed.None? { return Failed, out; }
      var (data, compressed) := packed.value;
      sent := sent + read;
      transferred := transferred + |data|;
      var ok := link.Send(Block(job, data, compressed));
      if !ok { return Failed, out; }
      return Sent, [Block(job, data, compressed)];
    }

    /** Announces the end and waits for the peer's complaint, if any; a skipped file needs neither. */
    method WaitForDone(link: Link) returns (ok: bool, ghost out: seq<Outgoing>)
      modifies link
      ensures link.outbox == old(link.outbox) + out
      ensures skip ==> ok && out == []
      ensures !skip && ok ==> out != [] && out[0] == Done(job)
      ensures out == [] || (out[0] == Done(job) && Quiet(out[1..]))
      ensures !skip && Smooth(link.accepts) ==> (ok <==> !Complains(old(link.inbox), job))
    {
      out := [];
      if skip { return true, out; }
      ok := link.Send(Done(job));
      if !ok { return false, out; }
      var event, n, echoes := RecvFileEvent(link, job);
      ComplaintRead(old(link.inbox), n, job, echoes, event, link.attempts > 0 && !link.accepts(link.attempts - 1));
      out := [Done(job)] + echoes;
      assert out[1..] == echoes;
      return event.None? || !event.value.Refused?, out;
    }
  }

  /** Of the messages `all`, the first `n` were read, the last of them settling the negotiation; `out` went
      out meanwhile. The offset a digest is confirmed with is the one agreed on. */
  ghost predicate SettledAs(all: seq<Incoming>, n: nat, job: int, total: nat, out: seq<Outgoing>, agreed: (nat, bool)) {
    && n > 0 && Settles(all, job, n - 1) && agreed == Agreed(all[n - 1], total)
    && (all[n - 1].Digest? ==>
          out != [] && out[|out| - 1] == SendConfirm(job, all[n - 1].fileNum, agreed.0))
  }

  lemma SettledMore(
    all: seq<Incoming>, n: nat, job: int, total: nat, before: seq<Outgoing>, out: seq<Outgoing>, agreed: (nat, bool))
    requires SettledAs(all, n, job, total, out, agreed)
    ensures SettledAs(all, n, job, total, before + out, agreed)
    ensures agreed.0 <= total && (agreed.1 ==> agreed.0 == total)
  {
  }

  /** Waits until the peer settles where to resume. With sends that succeed it fails only if no message ever
      settles the matter. */
  method Negotiate(link: Link, total: nat, job: int)
    returns (r: Option<(nat, bool)>, ghost n: nat, ghost out: seq<Outgoing>)
    modifies link
    ensures n <= |old(link.inbox)| && link.inbox == old(link.inbox)[n..]
    ensures link.outbox == old(link.outbox) + out && Quiet(out)
    ensures r.Some? ==> SettledAs(old(link.inbox), n, job, total, out, r.value)
    ensures r.None? && Smooth(link.accepts) ==> forall k :: !Settles(old(link.inbox), job, k)
  {
    hide Quiet, EventRead, Settles, Waits, IsFatal;
    ghost var all := link.inbox;
    n, out := 0, [];
    QuietEmpty();
    while true
      invariant n <= |all| && link.inbox == all[n..]
      invariant link.outbox == old(link.outbox) + out && Quiet(out)
      invariant AllWait(all, n, job)
      decreases |link.inbox|
    {
      var event, k, echoes := RecvFileEvent(link, job);
      WaitOn(all, n, k, job, echoes, event, link.attempts > 0 && !link.accepts(link.attempts - 1));
      QuietJoin(out, echoes);
      n, out := n + k, out + echoes;
      if event.None? { return None, n, out; }
      SettlesHere(all, job, n - 1);
      match event.value {
        case Digest(_, fileNum, identical, transferred) =>
          var resumed := if identical then Min(Min(transferred, total), U32_MAX) else 0;
          var confirm := SendConfirm(job, fileNum, ToU32(resumed));
          var ok := link.Send(confirm);
          if !ok { return None, n, out; }
          QuietMore(out, confirm);
          return Some((resumed, false)), n, out + [confirm];
        case Confirm(_, choice) =>
          var resumed, skip := 0, false;
          if choice == Skip(true) {
            resumed, skip := total, true;
          } else if choice.OffsetBlk? {
            resumed := Min(choice.offset, total);
          }
          return Some((resumed, skip)), n, out;
        case Refused(_) => return None, n, out;
        case Finished(_) =>
      }
    }
  }

  /** Sends the request and the local digest, negotiates, and seeks to the agreed offset. With sends that
      succeed and a file that opens, it succeeds exactly when some message settles the negotiation. */
  method Begin(link: Link, disk: Disk, file: Bytes, job: int)
    returns (r: Option<PushTransfer>, ghost n: nat, ghost out: seq<Outgoing>)
    modifies link
    ensures n <= |old(link.inbox)| && link.inbox == old(link.inbox)[n..]
    ensures link.outbox == old(link.outbox) + out && Quiet(out)
    ensures match r {
              case None => Smooth(link.accepts) && disk.opens ==> forall k :: !Settles(old(link.inbox), job, k)
              case Some(t) =>
                && fresh(t) && t.Valid() && t.file == file && t.job == job
                && SettledAs(old(link.inbox), n, job, |file|, out, (t.resumed, t.skip))
                && t.position == t.sent == t.resumed
                && |out| >= 2 && out[0] == ReceiveRequest(job, |file|) && out[1] == LocalDigest(job, |file|)
            }
  {
    hide Quiet, Settles, SettledAs;
    QuietEmpty();
    n, out := 0, [];
    var ok := link.Send(ReceiveRequest(job, |file|));
    if !ok { return None, n, out; }
    QuietMore(out, ReceiveRequest(job, |file|));
    out := out + [ReceiveRequest(job, |file|)];
    ok := link.Send(LocalDigest(job, |file|));
    if !ok { return None, n, out; }
    QuietMore(out, LocalDigest(job, |file|));
    out := out + [LocalDigest(job, |file|)];
    var agreed, k, more := Negotiate(link, |file|, job);
    QuietJoin(out, more);
    if agreed.Some? { SettledMore(old(link.inbox), k, job, |file|, out, more, agreed.value); }
    n, out := k, out + more;
    if agreed.None? || !disk.opens { return None, n, out; }
    var t := new PushTransfer(file, job, agreed.value.0, agreed.value.1);
    return Some(t), n, out;
  }

  lemma QuietEmpty()
    ensures Quiet([])
  {
  }

  lemma QuietJoin(a: seq<Outgoing>, b: seq<Outgoing>)
    requires Quiet(a) && Quiet(b)
    ensures Quiet(a + b)
  {
  }

  // ----- The whole push -----

  datatype Progress = Progress(sent: nat, total: nat, transferred: nat, resumed: nat)

  predicate ReportFits(p: Progress, t: PushTransfer) {
    p.total == |t.file| && p.resumed == t.resumed <= p.sent <= p.total && p.transferred <= p.sent - p.resumed
  }

  /** Report `q` comes after `p`: with more sent, by at least a step unless all is sent, and by less than a step
      and a block. */
  predicate Follows(p: Progress, q: Progress) {
    && p.sent < q.sent < p.sent + REPORT_STEP + BLOCK_SIZE
    && (p.sent + REPORT_STEP <= q.sent || q.sent == q.total)
  }

  /** The progress reports, which begin at the resume offset. */
  ghost predicate Spaced(reports: seq<Progress>, t: PushTransfer) {
    && (forall i :: 0 <= i < |reports| ==> ReportFits(reports[i], t))
    && (reports != [] ==> reports[0].sent == t.resumed)
    && (forall i, j :: 0 <= i && j == i + 1 && j < |reports| ==> Follows(reports[i], reports[j]))
  }

  /** Few reports: two, and one more per step. */
  lemma FewReports(reports: seq<Progress>, t: PushTransfer)
    requires Spaced(reports, t) && t.resumed <= |t.file|
    ensures |reports| <= 2 + (|t.file| - t.resumed) / REPORT_STEP
  {
    if |reports| > 2 { StepsAdd(reports, t, |reports| - 2); }
  }

  lemma {:induction false} StepsAdd(reports: seq<Progress>, t: PushTransfer, i: nat)
    requires Spaced(reports, t) && i + 1 < |reports|
    ensures t.resumed + i * REPORT_STEP <= reports[i].sent < |t.file|
  {
    assert ReportFits(reports[i], t) && ReportFits(reports[i + 1], t);
    assert Follows(reports[i], reports[i + 1]);
    if i > 0 {
      StepsAdd(reports, t, i - 1);
      assert Follows(reports[i - 1], reports[i]);
    }
  }

  /** The one completion message follows every block. */
  ghost predicate EndsInDone(out: seq<Outgoing>, job: int) {
    exists d :: 0 <= d < |out| && out[d] == Done(job) && Quiet(out[d + 1..]) && forall i :: 0 <= i < d ==> !out[i].Done?
  }

  /** Nothing around the transfer fails: sends, disk, compressor, and reports to the client. */
  ghost predicate Healthy(accepts: nat -> bool, disk: Disk, z: Zstd, writes: nat -> bool) {
    && Smooth(accepts) && disk.opens && (forall n: nat :: disk.readAt(n).Some?)
    && (forall b :: z.zip(b).Some?) && (forall n: nat :: writes(n))
  }

  /** The peer's messages let a push go through. */
  ghost predicate PeerAgrees(inbox: seq<Incoming>, job: int, total: nat) {
    exists k: nat :: Settles(inbox, job, k) && (Agreed(inbox[k], total).1 || !Complains(inbox[k + 1..], job))
  }

  /** The first message to settle the negotiation asked for this offset and for skipping or not. */
  ghost predicate AgreedIn(inbox: seq<Incoming>, job: int, total: nat, resumed: nat, skip: bool) {
    exists k: nat :: Settles(inbox, job, k) && Agreed(inbox[k], total) == (resumed, skip)
  }

  predicate NoDone(out: seq<Outgoing>) {
    forall m <- out :: !m.Done?
  }

  lemma NoDoneBlock(out: seq<Outgoing>, block: Outgoing)
    requires NoDone(out) && block.Block?
    ensures NoDone(out + [block])
  {
  }

  lemma FinishWithDone(out: seq<Outgoing>, more: seq<Outgoing>, job: int)
    requires NoDone(out) && more != [] && more[0] == Done(job) && Quiet(more[1..])
    ensures EndsInDone(out + more, job)
    ensures forall m <- more :: !m.Block?
  {
    var all, d := out + more, |out|;
    assert all[d] == Done(job) && all[d + 1..] == more[1..];
    assert forall m <- more :: m == more[0] || m in more[1..];
  }

  lemma SpacedStart(p: Progress, t: PushTransfer)
    requires t.resumed <= |t.file| && p == Progress(t.resumed, |t.file|, 0, t.resumed)
    ensures Spaced([], t) && Spaced([p], t)
  {
  }

  lemma SpacedMore(reports: seq<Progress>, p: Progress, t: PushTransfer)
    requires Spaced(reports, t) && reports != []
    requires ReportFits(p, t) && Follows(reports[|reports| - 1], p)
    ensures Spaced(reports + [p], t)
  {
  }

  lemma StoredMore(z: Zstd, job: int, held: Bytes, out: seq<Outgoing>, block: Outgoing, file: Bytes, i: nat, j: nat)
    requires i <= j <= |file| && Stored(z, job, held, out) == Some(file[..i])
    requires block.Block? && block.id == job && Unpack(z, block) == Some(file[i..j])
    ensures Stored(z, job, held, out + [block]) == Some(file[..j])
  {
    StoredBlock(z, job, held, out, block);
    assert file[..i] + file[i..j] == file[..j];
  }

  /** The loop over blocks, with its progress reports. Between blocks the peer's copy is exactly the part of
      the file sent so far, and less than a step of it is unreported. */
  method SendBlocks(t: PushTransfer, link: Link, disk: Disk, zstd: Zstd, writes: nat -> bool)
    returns (ok: bool, reports: seq<Progress>, ghost out: seq<Outgoing>)
    requires RoundTrips(zstd) && t.Valid() && t.position == t.sent == t.resumed && t.transferred == 0
    modifies link, t
    ensures t.Valid() && (ok ==> t.sent == |t.file|)
    ensures link.inbox == old(link.inbox) && link.outbox == old(link.outbox) + out && NoDone(out)
    ensures t.skip ==> out == []
    ensures Stored(zstd, t.job, t.file[..t.resumed], out).Some?
    ensures exists m :: t.resumed <= m <= t.sent && Stored(zstd, t.job, t.file[..t.resumed], out) == Some(t.file[..m])
    ensures ok ==> Stored(zstd, t.job, t.file[..t.resumed], out) == Some(t.file)
    ensures Spaced(reports, t) && (ok ==> reports != [] && reports[|reports| - 1].sent == |t.file|)
    ensures Healthy(link.accepts, disk, zstd, writes) ==> ok
  {
    hide Spaced, Stored, RoundTrips, NoDone, Unpack;
    ghost var held, more := t.file[..t.resumed], [];
    out, reports := [], [];
    StoredNothing(zstd, t.job, held);
    SpacedStart(Progress(t.sent, |t.file|, t.transferred, t.resumed), t);
    if !writes(0) { return false, reports, out; }
    reports := [Progress(t.sent, |t.file|, t.transferred, t.resumed)];
    var last := t.sent;
    var block := Sent;
    while block == Sent
      invariant t.Valid() && t.position == t.sent
      invariant link.outbox == old(link.outbox) + out && link.inbox == old(link.inbox) && NoDone(out)
      invariant t.skip ==> out == []
      invariant Stored(zstd, t.job, held, out) == Some(t.file[..t.sent])
      invariant Spaced(reports, t) && reports != [] && last == reports[|reports| - 1].sent <= t.sent
      invariant t.sent - last < REPORT_STEP && (t.sent == |t.file| ==> last == |t.file|)
      invariant block != Failed && (block == AtEnd ==> t.sent == |t.file|)
      decreases |t.file| - t.sent, block == Sent
    {
      ghost var was := t.sent;
      block, more := t.SendNextBlock(link, disk, zstd);
      if block == Failed { return false, reports, out; }
      if block == Sent {
        StoredMore(zstd, t.job, held, out, more[0], t.file, was, t.sent);
        NoDoneBlock(out, more[0]);
        assert more == [more[0]];
        out := out + more;
        if t.sent == |t.file| || t.sent - last >= REPORT_STEP {
          if !writes(|reports|) { return false, reports, out; }
          SpacedMore(reports, Progress(t.sent, |t.file|, t.transferred, t.resumed), t);
          reports := reports + [Progress(t.sent, |t.file|, t.transferred, t.resumed)];
          last := t.sent;
        }
      }
    }
    assert t.file[..t.sent] == t.file;
    return true, reports, out;
  }

  lemma StoredNothing(z: Zstd, job: int, held: Bytes)
    ensures Stored(z, job, held, []) == Some(held) && NoDone([])
  {
  }

  /** Messages without blocks before the blocks change nothing for the peer's copy. */
  lemma {:induction false} StoredBehind(z: Zstd, job: int, held: Bytes, quiet: seq<Outgoing>, msgs: seq<Outgoing>)
    requires Quiet(quiet)
    ensures Stored(z, job, held, quiet + msgs) == Stored(z, job, held, msgs)
  {
    if msgs == [] {
      assert [] + quiet == quiet == quiet + msgs;
      StoredQuiet(z, job, held, [], quiet);
    } else {
      var shorter := msgs[..|msgs| - 1];
      assert (quiet + msgs)[..|quiet + msgs| - 1] == quiet + shorter;
      StoredBehind(z, job, held, quiet, shorter);
    }
  }

  lemma NoDoneBehind(quiet: seq<Outgoing>, msgs: seq<Outgoing>)
    requires Quiet(quiet) && NoDone(msgs)
    ensures NoDone(quiet + msgs)
  {
  }

  lemma AgreesAt(inbox: seq<Incoming>, n: nat, job: int, total: nat, out: seq<Outgoing>, agreed: (nat, bool))
    requires SettledAs(inbox, n, job, total, out, agreed)
    ensures AgreedIn(inbox, job, total, agreed.0, agreed.1)
    ensures PeerAgrees(inbox, job, total) <==> agreed.1 || !Complains(inbox[n..], job)
  {
    var k := n - 1;
    assert IsEvent(inbox[k], job);
    SettlesHere(inbox, job, k);
  }

  /** Pushes the file; `writes` says which progress reports reach the client. A peer that holds the first
      `resumed` bytes ends up with the whole file, and at any failure with some part of it from the start. */
  method PushFile(link: Link, disk: Disk, zstd: Zstd, writes: nat -> bool, file: Bytes, job: int)
    returns (ok: bool, r: Option<PushTransfer>, reports: seq<Progress>, ghost out: seq<Outgoing>)
    requires RoundTrips(zstd)
    modifies link
    ensures link.outbox == old(link.outbox) + out
    ensures ok ==> r.Some?
    ensures match r {
              case None => Quiet(out) && reports == []
              case Some(t) =>
                && t.Valid() && t.file == file && Spaced(reports, t)
                && AgreedIn(old(link.inbox), job, |file|, t.resumed, t.skip)
                && (exists m ::
                      t.resumed <= m <= t.sent && Stored(zstd, job, file[..t.resumed], out) == Some(file[..m]))
                && (t.skip ==> Quiet(out) && t.sent == |file| && t.transferred == 0)
                && (ok ==>
                      && Stored(zstd, job, file[..t.resumed], out) == Some(file) && t.sent == |file|
                      && reports != [] && reports[|reports| - 1].sent == |file|
                      && (!t.skip ==> EndsInDone(out, job)))
            }
    ensures Healthy(link.accepts, disk, zstd, writes) ==> (ok <==> PeerAgrees(old(link.inbox), job, |file|))
  {
    hide Spaced, Stored, RoundTrips, NoDone, Settles, SettledAs, PeerAgrees, AgreedIn, Complains, EndsInDone, Quiet;
    ghost var n, blocks, end;
    r, n, out := Begin(link, disk, file, job);
    reports := [];
    if r.None? {
      NoAgreement(old(link.inbox), job, |file|);
      return false, r, reports, out;
    }
    var t := r.value;
    AgreesAt(old(link.inbox), n, job, |file|, out, (t.resumed, t.skip));
    ok, reports, blocks := SendBlocks(t, link, disk, zstd, writes);
    StoredBehind(zstd, job, file[..t.resumed], out, blocks);
    NoDoneBehind(out, blocks);
    assert blocks == [] ==> out + blocks == out;
    out := out + blocks;
    if !ok { return false, r, reports, out; }
    ok, end := t.WaitForDone(link);
    if end != [] { FinishWithDone(out, end, job); }
    StoredQuiet(zstd, job, file[..t.resumed], out, end);
    out := out + end;
    return ok, r, reports, out;
  }

  lemma NoAgreement(inbox: seq<Incoming>, job: int, total: nat)
    ensures (forall k :: !Settles(inbox, job, k)) ==> !PeerAgrees(inbox, job, total)
  {
  }

  // ----- What the peer ends with -----

  /** `n` is the least of the three. */
  predicate IsLeast(n: nat, a: nat, b: nat, c: nat) {
    n <= a && n <= b && n <= c && (n == a || n == b || n == c)
  }

  /** Where a push resumes, message by message. */
  lemma ResumesAt(m: Incoming, total: nat)
    ensures m.Digest? && m.identical ==> IsLeast(Agreed(m, total).0, m.transferred, total, 0xFFFF_FFFF)
    ensures m.Digest? && !m.identical ==> Agreed(m, total).0 == 0
    ensures m.Confirm? && m.choice.OffsetBlk? ==> IsLeast(Agreed(m, total).0, m.choice.offset, total, total)
    ensures m.Confirm? && m.choice == Skip(true) ==> Agreed(m, total) == (total, true)
    ensures m.Confirm? && (m.choice == Skip(false) || m.choice == Unset) ==> Agreed(m, total) == (0, false)
    ensures !(m.Confirm? && m.choice == Skip(true)) ==> !Agreed(m, total).1
  {
  }

  /** After a digest, an identical one lets the push resume at the least of what was transferred, the size and the
      greatest 32-bit number, another one at the start. */
  ghost predicate ResumesAsDigest(inbox: seq<Incoming>, job: int, total: nat, resumed: nat) {
    forall k: nat :: Settles(inbox, job, k) && inbox[k].Digest? ==>
                       if inbox[k].identical then IsLeast(resumed, inbox[k].transferred, total, 0xFFFF_FFFF)
                       else resumed == 0
  }

  lemma DigestDecides(inbox: seq<Incoming>, job: int, total: nat, resumed: nat, skip: bool)
    requires AgreedIn(inbox, job, total, resumed, skip)
    ensures ResumesAsDigest(inbox, job, total, resumed)
  {
    var k: nat :| Settles(inbox, job, k) && Agreed(inbox[k], total) == (resumed, skip);
    ResumesAt(inbox[k], total);
    SettlesHere(inbox, job, k);
  }

  /** What a message claims about the peer's copy is so: an identical digest or an offset, that it begins with so
      much of the file; a skip, that it is the file. */
  predicate Truthful(m: Incoming, copy: Bytes, file: Bytes) {
    match m
    case Digest(_, _, identical, n) => identical ==> n <= |copy| && n <= |file| && copy[..n] == file[..n]
    case Confirm(_, OffsetBlk(n)) => n <= |copy| && n <= |file| && copy[..n] == file[..n]
    case Confirm(_, Skip(skip)) => skip ==> copy == file
    case _ => true
  }

  /** The message that settles the negotiation is truthful. */
  ghost predicate TruthfulPeer(inbox: seq<Incoming>, job: int, copy: Bytes, file: Bytes) {
    forall k: nat :: Settles(inbox, job, k) ==> Truthful(inbox[k], copy, file)
  }

  /** A truthful peer, whatever its copy is, holds what the push resumes from. */
  lemma HoldsWhatIsResumed(
    inbox: seq<Incoming>, job: int, copy: Bytes, file: Bytes, resumed: nat, skip: bool)
    requires AgreedIn(inbox, job, |file|, resumed, skip) && TruthfulPeer(inbox, job, copy, file)
    ensures resumed <= |copy| && resumed <= |file| && copy[..resumed] == file[..resumed]
    ensures skip ==> copy == file
  {
    var k: nat :| Settles(inbox, job, k) && Agreed(inbox[k], |file|) == (resumed, skip);
    var m := inbox[k];
    ResumesAt(m, |file|);
    if m.Digest? && m.identical {
      PrefixOfPrefix(copy, file, m.transferred, resumed);
    } else if m.Confirm? && m.choice.OffsetBlk? {
      PrefixOfPrefix(copy, file, m.choice.offset, resumed);
    }
  }

  lemma PrefixOfPrefix(copy: Bytes, file: Bytes, n: nat, k: nat)
    requires k <= n <= |copy| && n <= |file| && copy[..n] == file[..n]
    ensures copy[..k] == file[..k]
  {
    assert copy[..n][..k] == copy[..k] && file[..n][..k] == file[..k];
  }

  /** What the blocks carry does not depend on what they are appended to. */
  lemma {:induction false} StoredOnto(z: Zstd, job: int, held: Bytes, msgs: seq<Outgoing>)
    ensures match Stored(z, job, [], msgs) {
              case None => Stored(z, job, held, msgs) == None
              case Some(sent) => Stored(z, job, held, msgs) == Some(held + sent)
            }
  {
    hide Unpack;
    if msgs == [] {
      assert held + [] == held;
    } else {
      StoredOnto(z, job, held, msgs[..|msgs| - 1]);
      var last, before := msgs[|msgs| - 1], Stored(z, job, [], msgs[..|msgs| - 1]);
      if before.Some? && last.Block? && last.id == job && Unpack(z, last).Some? {
        ConcatAssociative(held, before.value, Unpack(z, last).value);
      }
    }
  }

  /** A push that completes the file from `n` on sent exactly the rest. */
  lemma SentTheRest(z: Zstd, job: int, file: Bytes, n: nat, out: seq<Outgoing>)
    requires n <= |file| && Stored(z, job, file[..n], out) == Some(file)
    ensures Stored(z, job, [], out) == Some(file[n..])
  {
    hide Stored;
    StoredOnto(z, job, file[..n], out);
    var sent := Stored(z, job, [], out).value;
    assert (file[..n] + sent)[n..] == sent;
  }
}
