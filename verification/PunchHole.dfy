/** Asking the rendezvous server over TCP for a hole punch or a relay. The server may first demand a key
    exchange, after which the request is sent again on the encrypted stream. */
module PunchHole {
  import opened Common

  /** How far answering a key exchange gets: the server's key is refused, the reply cannot be sent, the
      request cannot be sent again, or everything goes through. */
  datatype Exchange = KeyRefused | ReplyFails | ResendFails | Completes

  /** What the next read before the deadline brings. */
  datatype Inbound =
    | Punch(response: int)
    | Relay(response: int)
    | KeyExchange(exchange: Exchange)
    | RegisterPeer
    | Unexpected
    | Undecodable
    | ReadFails

  datatype Answer =
    | PunchHoleAnswer(response: int)
    | RelayAnswer(response: int)
    | TimedOut
    | RequestNotSent
    | ReadError
    | DecodeError
    | UnexpectedMessage
    | RepeatedKeyExchange
    | ExchangeFailed
    | ResendFailed

  /** An attempt to send or read, and the transport it is made on. */
  datatype Use = PlainRequest | PlainKeyReply | PlainRead | SealedRequest | SealedRead

  predicate OnSealed(u: Use) {
    u.SealedRequest? || u.SealedRead?
  }

  // ----- The answer, read off the trace -----

  /** The event at `i` ends the wait if the ones before it did not. */
  predicate Stops(trace: seq<Inbound>, i: nat)
    requires i < |trace|
  {
    match trace[i]
    case Punch(_) => false
    case RegisterPeer => false
    case KeyExchange(exchange) => exchange != Completes || exists j :: 0 <= j < i && trace[j].KeyExchange?
    case _ => true
  }

  /** The first event that ends the wait, or the end of the trace, which is the deadline. */
  ghost predicate StopsAt(trace: seq<Inbound>, n: nat) {
    && n <= |trace|
    && (n < |trace| ==> Stops(trace, n))
    && forall i :: 0 <= i < n ==> !Stops(trace, i)
  }

  ghost predicate LastPunch(trace: seq<Inbound>, r: Option<int>) {
    if r.None? then forall i :: 0 <= i < |trace| ==> !trace[i].Punch?
    else exists i :: 0 <= i < |trace| && trace[i] == Punch(r.value) && forall j :: i < j < |trace| ==> !trace[j].Punch?
  }

  /** Given where the wait ended: the relay response that ended it, the last punch-hole response if it was
      the deadline, or the error. */
  ghost predicate Answers(trace: seq<Inbound>, n: nat, a: Answer) {
    && n <= |trace|
    && if n == |trace| then
         || (a == TimedOut && LastPunch(trace, None))
         || (a.PunchHoleAnswer? && LastPunch(trace, Some(a.response)))
       else
         match trace[n]
         case Relay(r) => a == RelayAnswer(r)
         case KeyExchange(exchange) =>
           if exists j :: 0 <= j < n && trace[j].KeyExchange? then a == RepeatedKeyExchange
           else a == if exchange == ResendFails then ResendFailed else ExchangeFailed
         case Unexpected => a == UnexpectedMessage
         case Undecodable => a == DecodeError
         case _ => a == ReadError
  }

  /** The deadline, the stopping event and the answer are each determined by the trace. */
  lemma AnswerUnique(trace: seq<Inbound>, n: nat, a: Answer, n': nat, a': Answer)
    requires StopsAt(trace, n) && Answers(trace, n, a) && StopsAt(trace, n') && Answers(trace, n', a')
    ensures n == n' && a == a'
  {
    StopsAtUnique(trace, n, n');
    if n == |trace| && a.PunchHoleAnswer? && a'.PunchHoleAnswer? {
      LastPunchUnique(trace, a.response, a'.response);
    }
  }

  lemma LastPunchUnique(trace: seq<Inbound>, r: int, r': int)
    requires LastPunch(trace, Some(r)) && LastPunch(trace, Some(r'))
    ensures r == r'
  {
    var i :| 0 <= i < |trace| && trace[i] == Punch(r) && forall j :: i < j < |trace| ==> !trace[j].Punch?;
    var i' :| 0 <= i' < |trace| && trace[i'] == Punch(r') && forall j :: i' < j < |trace| ==> !trace[j].Punch?;
    assert trace[i].Punch? && trace[i'].Punch?;
  }

  function Times(log: seq<Use>, u: Use): nat {
    if log == [] then 0 else Times(log[..|log| - 1], u) + if log[|log| - 1] == u then 1 else 0
  }

  lemma TimesAppend(log: seq<Use>, v: Use)
    ensures forall u: Use :: Times(log + [v], u) == Times(log, u) + if u == v then 1 else 0
  {
    assert (log + [v])[..|log|] == log;
  }

  /** Once the encrypted stream is in use, the plain one is not. */
  predicate NeverBack(log: seq<Use>) {
    forall i, j :: 0 <= i < j < |log| && OnSealed(log[i]) ==> OnSealed(log[j])
  }

  /** The encrypted stream is first used for the request, right after the reply to the key exchange. */
  predicate RequestOpensSealed(log: seq<Use>) {
    && (forall i :: 0 <= i < |log| && log[i] == SealedRequest ==> i > 0 && log[i - 1] == PlainKeyReply)
    && (forall i :: 0 <= i < |log| && log[i] == SealedRead ==> i > 0 && OnSealed(log[i - 1]))
  }

  /** The event at `i` is the first key exchange, and the reply to it goes out. */
  ghost predicate Exchanged(trace: seq<Inbound>, i: nat) {
    && i < |trace| && trace[i].KeyExchange? && trace[i].exchange in {ResendFails, Completes}
    && forall j :: 0 <= j < i ==> !trace[j].KeyExchange?
  }

  /** The wait ended at `n`, and a key exchange completed by then. */
  ghost predicate Switched(trace: seq<Inbound>, n: nat) {
    exists i :: 0 <= i <= n && Exchanged(trace, i)
  }

  lemma StopsAtUnique(trace: seq<Inbound>, n: nat, n': nat)
    requires StopsAt(trace, n) && StopsAt(trace, n')
    ensures n == n'
  {
    assert n < |trace| ==> Stops(trace, n);
    assert n' < |trace| ==> Stops(trace, n');
  }

  lemma KeepPunch(trace: seq<Inbound>, i: nat, r: Option<int>)
    requires i < |trace| && LastPunch(trace[..i], r) && !trace[i].Punch?
    ensures LastPunch(trace[..i + 1], r)
  {
    var before, after := trace[..i], trace[..i + 1];
    assert after == before + [trace[i]];
    if r.Some? {
      var k :| 0 <= k < |before| && before[k] == Punch(r.value) && forall j :: k < j < |before| ==> !before[j].Punch?;
      assert after[k] == Punch(r.value);
    }
  }

  lemma NewPunch(trace: seq<Inbound>, i: nat, r: int)
    requires i < |trace| && trace[i] == Punch(r)
    ensures LastPunch(trace[..i + 1], Some(r))
  {
    assert trace[..i + 1][i] == Punch(r);
  }

  /** What the log says at the head of the loop. */
  predicate LogFits(log: seq<Use>, sealed: bool) {
    && log != [] && log[0] == PlainRequest
    && Times(log, PlainRequest) == 1
    && Times(log, SealedRequest) == (if sealed then 1 else 0)
    && NeverBack(log) && RequestOpensSealed(log)
    && OnSealed(log[|log| - 1]) == sealed
  }

  lemma LogStart(trace: seq<Inbound>)
    ensures LogFits([PlainRequest], false)
    ensures Times([PlainRequest], PlainRead) == Times([PlainRequest], SealedRead) == 0
    ensures LastPunch(trace[..0], None)
  {
    assert [PlainRequest][..0] == [];
  }

  /** A read on the transport that is held keeps the log's shape. */
  lemma LogRead(log: seq<Use>, sealed: bool, read: Use)
    requires LogFits(log, sealed) && read == (if sealed then SealedRead else PlainRead)
    ensures LogFits(log + [read], sealed)
    ensures Times(log + [read], SealedRead) + Times(log + [read], PlainRead)
         == Times(log, SealedRead) + Times(log, PlainRead) + 1
  {
    TimesAppend(log, read);
  }

  lemma LogReply(log: seq<Use>)
    requires LogFits(log, false)
    ensures LogFits(log + [PlainKeyReply], false)
    ensures LogFits(log + [PlainKeyReply] + [SealedRequest], true)
    ensures forall u: Use | u.PlainRead? || u.SealedRead? ::
              Times(log + [PlainKeyReply], u) == Times(log, u) == Times(log + [PlainKeyReply] + [SealedRequest], u)
  {
    TimesAppend(log, PlainKeyReply);
    TimesAppend(log + [PlainKeyReply], SealedRequest);
  }

  // ----- The loop -----

  /** `plain` and `sealed` say which transport is held. The log records every use before the deadline. */
  method PunchHoleViaTcp(trace: seq<Inbound>, requestSent: bool) returns (answer: Answer, log: seq<Use>)
    ensures !requestSent ==> answer == RequestNotSent && log == [PlainRequest]
    ensures requestSent ==> exists n: nat :: StopsAt(trace, n) && Answers(trace, n, answer)
    ensures log != [] && log[0] == PlainRequest && Times(log, PlainRequest) == 1
    ensures requestSent ==>
              forall n: nat :: StopsAt(trace, n) ==>
                && Times(log, SealedRequest) == (if Switched(trace, n) then 1 else 0)
                && Times(log, PlainRead) + Times(log, SealedRead) == if n < |trace| then n + 1 else n
    ensures NeverBack(log) && RequestOpensSealed(log)
  {
    hide Times, NeverBack, RequestOpensSealed, LastPunch;
    var plain, sealed := true, false;
    log := [PlainRequest];
    LogStart(trace);
    if !requestSent { return RequestNotSent, log; }
    var response: Option<int> := None;
    var resent := false;
    var i := 0;
    while i < |trace|
      invariant i <= |trace|
      invariant plain != sealed && sealed == resent
      invariant sealed <==> exists j :: 0 <= j < i && trace[j].KeyExchange?
      invariant sealed <==> exists j :: 0 <= j < i && Exchanged(trace, j)
      invariant forall j :: 0 <= j < i ==> !Stops(trace, j)
      invariant LastPunch(trace[..i], response)
      invariant LogFits(log, sealed)
      invariant Times(log, PlainRead) + Times(log, SealedRead) == i
    {
      assert plain || sealed;
      var read := if sealed then SealedRead else PlainRead;
      LogRead(log, sealed, read);
      log := log + [read];
      assert Stops(trace, i) ==> StopsAt(trace, i);
      forall n: nat | Stops(trace, i) && StopsAt(trace, n) ensures n == i { StopsAtUnique(trace, n, i); }
      assert Switched(trace, i) <==> sealed || Exchanged(trace, i);
      match trace[i] {
        case ReadFails => return ReadError, log;
        case Undecodable => return DecodeError, log;
        case Unexpected => return UnexpectedMessage, log;
        case Relay(r) => return RelayAnswer(r), log;
        case RegisterPeer =>
          KeepPunch(trace, i, response);
        case Punch(r) =>
          NewPunch(trace, i, r);
          response := Some(r);
        case KeyExchange(exchange) =>
          if sealed || resent { return RepeatedKeyExchange, log; }
          assert plain;
          plain := false;
          if exchange == KeyRefused { return ExchangeFailed, log; }
          LogReply(log);
          log := log + [PlainKeyReply];
          if exchange == ReplyFails { return ExchangeFailed, log; }
          sealed := true;
          log := log + [SealedRequest];
          if exchange == ResendFails { return ResendFailed, log; }
          resent := true;
          assert Exchanged(trace, i);
          KeepPunch(trace, i, response);
      }
      i := i + 1;
    }
    assert trace[..i] == trace;
    assert StopsAt(trace, i);
    forall n: nat | StopsAt(trace, n) ensures n == i { StopsAtUnique(trace, n, i); }
    assert Switched(trace, i) <==> sealed;
    if response.Some? { return PunchHoleAnswer(response.value), log; }
    return TimedOut, log;
  }
}
