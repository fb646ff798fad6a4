/** The daemon: one live stream to the peer, requests of local clients served over it, reconnects when it is
    lost, and the modes the stream is opened in. */
module DaemonLoop {
  import opened Common
  import Sentinel
  import S = SessionState
  import T = Terminals
  import X = ExecOutput
  import P = Push

  const RECONNECT_BACKOFFS: seq<nat> := [1, 2, 4, 8, 16, 30]

  datatype ConnType = DefaultConn | Terminal

  datatype InitMessage = OptionMessage | CaptureDisplays | RefreshVideo

  /** A stream: the mode it was opened in, the service id its login named, and what was sent to set it up. */
  datatype Stream = Stream(mode: ConnType, login: Option<string>, setup: seq<InitMessage>)

  /** What the network does during one reconnect: each connection attempt gives the peer's information or an
      error, and each message that sets up the stream is sent or not. */
  datatype Network = Network(connect: nat -> Result<string, string>, sends: nat -> bool)

  // ----- Reconnecting -----

  datatype Notice = Notice(attempt: nat, total: nat, backoff: nat)

  /** One attempt per backoff, stopping at the first success; a failure reports the last error, if there was an
      attempt at all. Each attempt is announced with its number and backoff. */
  method ReconnectWithRetryBackoffs<V, E>(backoffs: seq<nat>, connect: nat -> Result<V, E>)
    returns (r: Result<V, Option<E>>, attempts: nat, notices: seq<Notice>)
    ensures attempts <= |backoffs| && |notices| == attempts
    ensures forall i :: 0 <= i < attempts ==> notices[i] == Notice(i + 1, |backoffs|, backoffs[i])
    ensures forall i :: 0 <= i < attempts - 1 ==> connect(i).Err?
    ensures r.Ok? ==> attempts > 0 && connect(attempts - 1) == Ok(r.value)
    ensures r.Err? ==> attempts == |backoffs| && forall i :: 0 <= i < attempts ==> connect(i).Err?
    ensures r.Err? ==> r.error == if attempts == 0 then None else Some(connect(attempts - 1).error)
  {
    var lastError: Option<E> := None;
    notices := [];
    for i := 0 to |backoffs|
      invariant |notices| == i && forall j :: 0 <= j < i ==> notices[j] == Notice(j + 1, |backoffs|, backoffs[j])
      invariant forall j :: 0 <= j < i ==> connect(j).Err?
      invariant lastError == if i == 0 then None else Some(connect(i - 1).error)
    {
      notices := notices + [Notice(i + 1, |backoffs|, backoffs[i])];
      match connect(i) {
        case Ok(value) => return Ok(value), i + 1, notices;
        case Err(error) => lastError := Some(error);
      }
    }
    return Err(lastError), |backoffs|, notices;
  }

  function SetupFor(mode: ConnType): seq<InitMessage> {
    if mode == DefaultConn then [OptionMessage, CaptureDisplays, RefreshVideo] else []
  }

  method InitializeStreamForMode(mode: ConnType, sends: nat -> bool) returns (ok: bool, sent: seq<InitMessage>)
    ensures ok <==> forall i :: 0 <= i < |SetupFor(mode)| ==> sends(i)
    ensures sent <= SetupFor(mode) && (ok ==> sent == SetupFor(mode))
    ensures ok && mode == DefaultConn ==> sent == [OptionMessage, CaptureDisplays, RefreshVideo]
    ensures mode == Terminal ==> ok && sent == []
  {
    sent := [];
    if mode == DefaultConn {
      if !sends(0) { return false, sent; }
      sent := [OptionMessage];
      if !sends(1) { return false, sent; }
      sent := sent + [CaptureDisplays];
      if !sends(2) { return false, sent; }
      sent := sent + [RefreshVideo];
    }
    return true, sent;
  }

  /** The login names a service only in terminal mode, and then an empty one if there is none. */
  function LoginFor(mode: ConnType, id: Option<string>): Option<string> {
    if mode == Terminal then Some(if id.Some? then id.value else "") else None
  }

  /** A reconnect gets through: some attempt in time connects, and the setup of the stream is sent. */
  predicate GetsThrough(net: Network, mode: ConnType) {
    && (exists i :: 0 <= i < |RECONNECT_BACKOFFS| && net.connect(i).Ok?)
    && forall i :: 0 <= i < |SetupFor(mode)| ==> net.sends(i)
  }

  /** The number of connection attempts: up to the first that connects. */
  function Tries(net: Network, from: nat): (n: nat)
    requires from < |RECONNECT_BACKOFFS|
    ensures from < n <= |RECONNECT_BACKOFFS|
    ensures forall i :: from <= i < n - 1 ==> net.connect(i).Err?
    ensures n < |RECONNECT_BACKOFFS| ==> net.connect(n - 1).Ok?
    decreases |RECONNECT_BACKOFFS| - from
  {
    if net.connect(from).Ok? || from + 1 == |RECONNECT_BACKOFFS| then from + 1 else Tries(net, from + 1)
  }

  /** What the successful attempt tells about the peer. */
  function PeerInfoOf(net: Network): string {
    match net.connect(Tries(net, 0) - 1)
    case Ok(info) => info
    case Err(_) => ""
  }

  /** Opens and sets up a stream. Only a success touches the session. */
  method ReconnectEncryptedStream(session: S.Session, mode: ConnType, id: Option<string>, net: Network)
    returns (r: Option<Stream>, attempts: nat)
    modifies session
    ensures r.Some? <==> GetsThrough(net, mode)
    ensures r.Some? ==> r.value == Stream(mode, LoginFor(mode, id), SetupFor(mode))
    ensures r.Some? && mode == DefaultConn ==>
              r.value.login == None && r.value.setup == [OptionMessage, CaptureDisplays, RefreshVideo]
    ensures r.Some? && mode == Terminal ==>
              r.value.setup == [] && r.value.login == if id.Some? then id else Some("")
    ensures r.Some? ==>
              session.Value() == old(session.Value()).(state := S.Connected, peerInfo := Some(PeerInfoOf(net)))
    ensures r.None? ==> unchanged(session)
    ensures attempts == Tries(net, 0)
  {
    var conn, notices;
    conn, attempts, notices := ReconnectWithRetryBackoffs(RECONNECT_BACKOFFS, net.connect);
    if conn.Err? { return None, attempts; }
    var ok, sent := InitializeStreamForMode(mode, net.sends);
    if !ok { return None, attempts; }
    session.state := S.Connected;
    session.peerInfo := Some(conn.value);
    return Some(Stream(mode, LoginFor(mode, id), sent)), attempts;
  }

  // ----- Requests -----

  /** One run of a push: the progress lines the client gets, and the failure, if any. Failures say whether they
      read like a lost connection. */
  datatype PushRun = PushRun(lines: nat, failure: Option<bool>)

  /** A client's request, with what happens on its first and second run. `ids` are the sentinel ids. */
  datatype Request =
    | Unreadable
    | Garbled
    | Shell(script: T.ShellScript)
    | Push(pushes: nat -> PushRun)
    | Exec(execs: nat -> T.ExecScript, ids: nat -> string)
    | Clipboard(setting: Option<string>, execs: nat -> T.ExecScript, ids: nat -> string)
    | Capture(failures: nat -> Option<bool>)
    | Session(command: S.Command)

  datatype Response =
    | Progress
    | Chunk(text: string)
    | Pushed
    | Executed(result: T.ExecReply)
    | ClipboardText(text: string)
    | ClipboardUpdated(chars: nat)
    | Captured
    | Answered(reply: S.Reply)
    | Failure

  /** What the daemon does for a request: it runs the command, writes a progress or chunk line, reconnects with
      so many attempts, or writes the final response. */
  datatype Act = Ran | Wrote(line: Response) | Reconnected(ok: bool, attempts: nat) | Final(response: Response)

  function ConnTypeFor(q: Request): ConnType {
    if q.Shell? || q.Exec? then Terminal else DefaultConn
  }

  predicate IsDisconnect(q: Request) {
    q.Session? && q.command.Disconnect?
  }

  /** How one run of a command ends: with a response, or with a failure that reads like a lost connection or
      not; and the lines it wrote. */
  datatype RunEnd = RunEnd(failure: Option<bool>, response: Response, lines: seq<Act>)

  function Lines(chunks: seq<string>): (acts: seq<Act>)
    ensures |acts| == |chunks| && forall i :: 0 <= i < |chunks| ==> acts[i] == Wrote(Chunk(chunks[i]))
  {
    if chunks == [] then [] else [Wrote(Chunk(chunks[0]))] + Lines(chunks[1..])
  }

  function ProgressLines(n: nat): (acts: seq<Act>)
    ensures |acts| == n && forall i :: 0 <= i < n ==> acts[i] == Wrote(Progress)
  {
    if n == 0 then [] else [Wrote(Progress)] + ProgressLines(n - 1)
  }

  function ClipboardReply(setting: Option<string>, reply: T.ExecReply): Response {
    if setting.Some? then ClipboardUpdated(|setting.value|) else ClipboardText(reply.stdout)
  }

  /** The end of run `n` of a command, in a session with these fields. */
  function EndOf(q: Request, n: nat, v: S.View): RunEnd {
    match q
    case Push(pushes) => RunEnd(pushes(n).failure, Pushed, ProgressLines(pushes(n).lines))
    case Exec(execs, ids) =>
      var marker := Sentinel.MarkerFor(ids(n));
      var lines := Lines(T.Streamed(execs(n), marker, true));
      match T.Outcome(execs(n), marker, true) {
        case Ok(reply) => RunEnd(None, Executed(reply), lines)
        case Err(fault) => RunEnd(Some(T.ShouldReconnect(fault)), Failure, lines)
      }
    case Clipboard(setting, execs, ids) =>
      match T.Outcome(execs(n), Sentinel.MarkerFor(ids(n)), false) {
        case Ok(reply) => RunEnd(None, ClipboardReply(setting, reply), [])
        case Err(fault) => RunEnd(Some(T.ShouldReconnect(fault)), Failure, [])
      }
    case Capture(failures) => RunEnd(failures(n), Captured, [])
    case Session(c) =>
      var reply := S.Answer(v, c);
      RunEnd(if reply.NoSession? then Some(false) else None, Answered(reply), [])
    case _ => RunEnd(Some(false), Failure, [])
  }

  function IdAfterRun(q: Request, n: nat, id: Option<string>): Option<string> {
    if q.Exec? then T.IdAfter(id, q.execs(n).opening, T.Outcome(q.execs(n), Sentinel.MarkerFor(q.ids(n)), true)) else id
  }

  /** Runs a command once. Only an exec touches the daemon's service id; clipboard commands use their own. */
  method RunOnce(q: Request, n: nat, session: S.Session, slot: T.ServiceSlot) returns (end: RunEnd)
    requires !q.Unreadable? && !q.Garbled? && !q.Shell?
    modifies session, slot
    ensures end == EndOf(q, n, old(session.Value()))
    ensures slot.id == IdAfterRun(q, n, old(slot.id))
    ensures session.Value() == if q.Session? then S.After(old(session.Value()), q.command) else old(session.Value())
  {
    match q
    case Push(pushes) => return RunEnd(pushes(n).failure, Pushed, ProgressLines(pushes(n).lines));
    case Exec(execs, ids) =>
      var r, chunks := T.ExecCommandInner(slot, execs(n), Sentinel.MarkerFor(ids(n)), true);
      match r {
        case Ok(reply) => return RunEnd(None, Executed(reply), Lines(chunks));
        case Err(fault) => return RunEnd(Some(T.ShouldReconnect(fault)), Failure, Lines(chunks));
      }
    case Clipboard(setting, execs, ids) =>
      var own := new T.ServiceSlot();
      var r, chunks := T.ExecCommandInner(own, execs(n), Sentinel.MarkerFor(ids(n)), false);
      match r {
        case Ok(reply) => return RunEnd(None, ClipboardReply(setting, reply), []);
        case Err(fault) => return RunEnd(Some(T.ShouldReconnect(fault)), Failure, []);
      }
    case Capture(failures) => return RunEnd(failures(n), Captured, []);
    case Session(c) =>
      var reply, dropped := session.Dispatch(c);
      return RunEnd(if reply.NoSession? then Some(false) else None, Answered(reply), []);
  }

  /** The acts of a request in the mode `mode`, from its first run on. */
  function RunActs(q: Request, v: S.View, mode: ConnType, retrying: Network): seq<Act> {
    var first := EndOf(q, 0, v);
    if first.failure != Some(true) then
      [Ran] + first.lines + [Final(if first.failure.None? then first.response else Failure)]
    else if !GetsThrough(retrying, mode) then
      [Ran] + first.lines + [Reconnected(false, Tries(retrying, 0)), Final(Failure)]
    else
      var second := EndOf(q, 1, v);
      [Ran] + first.lines + [Reconnected(true, Tries(retrying, 0)), Ran] + second.lines
      + [Final(if second.failure.None? then second.response else Failure)]
  }

  /** The acts of a request that is not for a shell, from a session with fields `v` in the mode `mode`. */
  function Acts(q: Request, v: S.View, mode: ConnType, switching: Network, retrying: Network): seq<Act>
    requires !q.Shell?
  {
    var desired := ConnTypeFor(q);
    if q.Unreadable? then []
    else if q.Garbled? then [Final(Failure)]
    else if desired == mode then RunActs(q, v, mode, retrying)
    else
      var n := Tries(switching, 0);
      if GetsThrough(switching, desired) then [Reconnected(true, n)] + RunActs(q, v, desired, retrying)
      else [Reconnected(false, n), Final(Failure)]
  }

  // ----- What a client gets -----

  /** The command is run at `a` and `b` and nowhere else; if these differ, the second run comes right after a
      reconnect that got through. */
  ghost predicate RunsAt(acts: seq<Act>, a: nat, b: nat) {
    && a <= b < |acts|
    && (forall i :: 0 <= i < |acts| ==> (acts[i].Ran? <==> i == a || i == b))
    && (a < b ==> acts[b - 1].Reconnected? && acts[b - 1].ok)
  }

  /** One final response, after everything else; at most two runs, the second only after a reconnect; and at
      most one connection attempt per backoff. */
  ghost predicate Served(acts: seq<Act>) {
    && acts != [] && acts[|acts| - 1].Final? && (forall i :: 0 <= i < |acts| - 1 ==> !acts[i].Final?)
    && ((forall i :: 0 <= i < |acts| ==> !acts[i].Ran?) || exists a: nat, b: nat :: RunsAt(acts, a, b))
    && (forall i :: 0 <= i < |acts| && acts[i].Reconnected? ==> 0 < acts[i].attempts <= |RECONNECT_BACKOFFS|)
  }

  predicate OnlyLines(acts: seq<Act>) {
    forall i :: 0 <= i < |acts| ==> acts[i].Wrote?
  }

  lemma ServedOnce(before: seq<Act>, lines: seq<Act>, after: seq<Act>, response: Response)
    requires OnlyLines(lines) && |before| <= 1 && |after| <= 1
    requires forall act <- before + after :: act.Reconnected? && 0 < act.attempts <= |RECONNECT_BACKOFFS|
    ensures Served(before + ([Ran] + lines + after + [Final(response)]))
  {
    var acts := before + ([Ran] + lines + after + [Final(response)]);
    assert forall i :: 0 <= i < |before| ==> acts[i] in before + after;
    assert forall i :: 0 <= i < |after| ==> acts[|before| + 1 + |lines| + i] == after[i] && after[i] in before + after;
    assert RunsAt(acts, |before|, |before|);
  }

  lemma ServedTwice(
    before: seq<Act>, lines: seq<Act>, between: Act, more: seq<Act>, response: Response)
    requires OnlyLines(lines) && OnlyLines(more) && |before| <= 1 && between.Reconnected? && between.ok
    requires forall act <- before + [between] :: act.Reconnected? && 0 < act.attempts <= |RECONNECT_BACKOFFS|
    ensures Served(before + ([Ran] + lines + [between, Ran] + more + [Final(response)]))
  {
    var acts := before + ([Ran] + lines + [between, Ran] + more + [Final(response)]);
    var b := |before| + |lines| + 2;
    assert between in before + [between];
    assert forall i :: 0 <= i < |before| ==> acts[i] in before + [between];
    assert acts[b - 1] == between && acts[b] == Ran;
    assert forall i :: 0 <= i < |more| ==> acts[b + 1 + i] == more[i];
    assert RunsAt(acts, |before|, b);
  }

  lemma EndOfLines(q: Request, n: nat, v: S.View)
    ensures OnlyLines(EndOf(q, n, v).lines)
  {
  }

  lemma RunActsServed(q: Request, v: S.View, mode: ConnType, retrying: Network, before: seq<Act>)
    requires |before| <= 1 && forall act <- before :: act.Reconnected? && 0 < act.attempts <= |RECONNECT_BACKOFFS|
    ensures Served(before + RunActs(q, v, mode, retrying))
  {
    hide Served, EndOf, GetsThrough, OnlyLines, Tries;
    var first, second := EndOf(q, 0, v), EndOf(q, 1, v);
    var n := Tries(retrying, 0);
    EndOfLines(q, 0, v);
    EndOfLines(q, 1, v);
    if first.failure != Some(true) {
      ServedOnce(before, first.lines, [], if first.failure.None? then first.response else Failure);
      assert [Ran] + first.lines + [] == [Ran] + first.lines;
    } else if !GetsThrough(retrying, mode) {
      ServedOnce(before, first.lines, [Reconnected(false, n)], Failure);
      assert [Ran] + first.lines + [Reconnected(false, n)] + [Final(Failure)]
          == [Ran] + first.lines + [Reconnected(false, n), Final(Failure)];
    } else {
      ServedTwice(before, first.lines, Reconnected(true, n), second.lines,
                  if second.failure.None? then second.response else Failure);
    }
  }

  /** Every request that is not for a shell and whose line was read is served. */
  lemma ActsServed(q: Request, v: S.View, mode: ConnType, switching: Network, retrying: Network)
    requires !q.Shell? && !q.Unreadable?
    ensures Served(Acts(q, v, mode, switching, retrying))
  {
    hide RunActs, GetsThrough, Tries;
    var n := Tries(switching, 0);
    RunActsServed(q, v, mode, retrying, []);
    assert [] + RunActs(q, v, mode, retrying) == RunActs(q, v, mode, retrying);
    RunActsServed(q, v, ConnTypeFor(q), retrying, [Reconnected(true, n)]);
  }

  /** What the client of a command is answered, kind by kind, when its first run does not lose the connection. */
  lemma AnsweredAs(q: Request, v: S.View, mode: ConnType, net: Network)
    requires !q.Unreadable? && !q.Garbled? && !q.Shell? && v.state == S.Connected
    requires EndOf(q, 0, v).failure != Some(true)
    ensures q.Capture? ==> RunActs(q, v, mode, net) == [Ran, Final(if q.failures(0).None? then Captured else Failure)]
    ensures q.Push? && q.pushes(0).failure.None? ==>
              RunActs(q, v, mode, net) == [Ran] + ProgressLines(q.pushes(0).lines) + [Final(Pushed)]
    ensures q.Exec? || q.Clipboard? ==>
              var marker := Sentinel.MarkerFor(q.ids(0));
              var r := T.Outcome(q.execs(0), marker, q.Exec?);
              var last := RunActs(q, v, mode, net)[|RunActs(q, v, mode, net)| - 1];
              && (r.Err? ==> last == Final(Failure))
              && (r.Ok? && q.Exec? ==> last == Final(Executed(r.value)))
              && (r.Ok? && q.Clipboard? && q.setting.None? ==> last == Final(ClipboardText(r.value.stdout)))
              && (r.Ok? && q.Clipboard? && q.setting.Some? ==> last == Final(ClipboardUpdated(|q.setting.value|)))
    ensures q.Exec? ==>
              var chunks := T.Streamed(q.execs(0), Sentinel.MarkerFor(q.ids(0)), true);
              forall i :: 0 <= i < |chunks| ==> RunActs(q, v, mode, net)[1 + i] == Wrote(Chunk(chunks[i]))
    ensures q.Session? ==>
              RunActs(q, v, mode, net)
              == [Ran, Final(Answered(match q.command {
                               case Connect(_) => S.AlreadyConnected
                               case Disconnect =>
                                 S.DisconnectedFrom(if v.config.Some? then v.config.value.peerId else "")
                               case _ => S.Done
                             }))]
  {
    hide GetsThrough, Tries, T.Outcome, T.Streamed, ProgressLines, Lines;
    assert [Ran] + [] == [Ran];
  }

  /** When the first run loses the connection, the answer is that of the second run if the reconnect gets through,
      and a failure otherwise. */
  lemma AnsweredAfterRetry(q: Request, v: S.View, mode: ConnType, net: Network)
    requires EndOf(q, 0, v).failure == Some(true)
    ensures var last := RunActs(q, v, mode, net)[|RunActs(q, v, mode, net)| - 1];
            && (!GetsThrough(net, mode) ==> last == Final(Failure))
            && (GetsThrough(net, mode) && q.Push? ==>
                  last == Final(if q.pushes(1).failure.None? then Pushed else Failure))
            && (GetsThrough(net, mode) && q.Capture? ==>
                  last == Final(if q.failures(1).None? then Captured else Failure))
            && (GetsThrough(net, mode) && q.Exec? ==>
                  var r := T.Outcome(q.execs(1), Sentinel.MarkerFor(q.ids(1)), true);
                  last == Final(if r.Ok? then Executed(r.value) else Failure))
            && (GetsThrough(net, mode) && q.Clipboard? ==>
                  var r := T.Outcome(q.execs(1), Sentinel.MarkerFor(q.ids(1)), false);
                  last == Final(if r.Err? then Failure
                                else if q.setting.Some? then ClipboardUpdated(|q.setting.value|)
                                else ClipboardText(r.value.stdout)))
  {
    hide GetsThrough, Tries, T.Outcome, T.Streamed, ProgressLines, Lines;
  }

  lemma SameEnd(q: Request, n: nat, v: S.View, w: S.View)
    requires v.state == w.state && v.config == w.config
    ensures EndOf(q, n, v) == EndOf(q, n, w)
  {
  }

  /** The peer's information plays no part in what is done. */
  lemma SameActs(q: Request, v: S.View, w: S.View, mode: ConnType, net: Network)
    requires v.state == w.state && v.config == w.config
    ensures RunActs(q, v, mode, net) == RunActs(q, w, mode, net)
  {
    hide GetsThrough, Tries, EndOf;
    SameEnd(q, 0, v, w);
    SameEnd(q, 1, v, w);
  }

  // ----- A push, run on the stream -----

  /** What a push finds: the disk, the compressor, which progress lines reach the client, the file, the job ids of
      its runs, and which of their failures read like a lost connection. */
  datatype PushScript = PushScript(
    disk: P.Disk, zstd: P.Zstd, writes: nat -> bool, file: Bytes, jobs: nat -> int, lost: nat -> bool)

  /** One run of a push on the wire: what the peer settled on, an offset and whether to skip, if it got that far,
      and what was sent. */
  datatype Round = Round(agreed: Option<(nat, bool)>, out: seq<P.Outgoing>)

  /** The peer's copy after a round: it keeps its copy up to the offset agreed on and appends what is sent. */
  function CopyAfter(copy: Bytes, z: P.Zstd, job: int, round: Round): Bytes {
    if round.agreed.None? || round.agreed.value.1 || round.agreed.value.0 > |copy| then copy
    else match P.Stored(z, job, copy[..round.agreed.value.0], round.out)
         case None => copy
         case Some(stored) => stored
  }

  /** The round is that of a link with these messages. */
  ghost predicate RoundOn(round: Round, inbox: seq<P.Incoming>, job: int, total: nat) {
    match round.agreed
    case None => P.Quiet(round.out)
    case Some((n, skip)) => P.AgreedIn(inbox, job, total, n, skip)
  }

  function PushRequest(first: PushRun, second: PushRun): Request {
    Push(n => if n == 0 then first else second)
  }

  /** One run of a push to a peer with any copy. After a success a truthful peer has exactly the file, and the
      blocks were exactly the file from the offset agreed on. */
  method PushOnce(link: P.Link, s: PushScript, n: nat, ghost copy: Bytes) returns (run: PushRun, ghost round: Round)
    requires P.RoundTrips(s.zstd)
    modifies link
    ensures link.outbox == old(link.outbox) + round.out
    ensures RoundOn(round, old(link.inbox), s.jobs(n), |s.file|)
    ensures run.failure.None? ==>
              && round.agreed.Some? && round.agreed.value.0 <= |s.file|
              && P.Stored(s.zstd, s.jobs(n), [], round.out) == Some(s.file[round.agreed.value.0..])
              && P.ResumesAsDigest(old(link.inbox), s.jobs(n), |s.file|, round.agreed.value.0)
    ensures round.agreed.None? ==> CopyAfter(copy, s.zstd, s.jobs(n), round) == copy
    ensures round.agreed.Some? && P.TruthfulPeer(old(link.inbox), s.jobs(n), copy, s.file) ==>
              CopyAfter(copy, s.zstd, s.jobs(n), round) <= s.file
    ensures run.failure.None? && P.TruthfulPeer(old(link.inbox), s.jobs(n), copy, s.file) ==>
              CopyAfter(copy, s.zstd, s.jobs(n), round) == s.file
    ensures run.failure == None || run.failure == Some(s.lost(n))
  {
    hide P.Spaced, P.Stored, P.RoundTrips, P.AgreedIn, P.EndsInDone, P.Quiet, P.Healthy, P.PeerAgrees, P.TruthfulPeer;
    hide P.ResumesAsDigest;
    ghost var inbox := link.inbox;
    var ok, r, reports, out := P.PushFile(link, s.disk, s.zstd, s.writes, s.file, s.jobs(n));
    run := PushRun(|reports|, if ok then None else Some(s.lost(n)));
    round := Round(if r.Some? then Some((r.value.resumed, r.value.skip)) else None, out);
    if ok { P.SentTheRest(s.zstd, s.jobs(n), s.file, r.value.resumed, out); }
    if r.Some? {
      P.DigestDecides(inbox, s.jobs(n), |s.file|, r.value.resumed, r.value.skip);
      if P.TruthfulPeer(inbox, s.jobs(n), copy, s.file) {
        P.HoldsWhatIsResumed(inbox, s.jobs(n), copy, s.file, r.value.resumed, r.value.skip);
      }
    }
  }

  /** The peer's copy after the rounds of a push. */
  function CopyAfterAll(copy: Bytes, s: PushScript, rounds: seq<Round>): Bytes {
    if rounds == [] then copy
    else
      var n := |rounds| - 1;
      CopyAfter(CopyAfterAll(copy, s, rounds[..n]), s.zstd, s.jobs(n), rounds[n])
  }

  lemma CopyAfterTwo(copy: Bytes, s: PushScript, a: Round, b: Round)
    ensures CopyAfterAll(copy, s, [a]) == CopyAfter(copy, s.zstd, s.jobs(0), a)
    ensures CopyAfterAll(copy, s, [a, b]) == CopyAfter(CopyAfterAll(copy, s, [a]), s.zstd, s.jobs(1), b)
  {
    assert [a, b][..1] == [a] && [a][..0] == [];
    assert CopyAfterAll(copy, s, []) == copy;
  }

  /** In the last of the rounds the peer is truthful about the copy it then has. */
  ghost predicate Honest(
    rounds: seq<Round>, first: seq<P.Incoming>, second: seq<P.Incoming>, s: PushScript, copy: Bytes)
    requires rounds != []
  {
    var n := |rounds| - 1;
    P.TruthfulPeer(if n == 0 then first else second, s.jobs(n), CopyAfterAll(copy, s, rounds[..n]), s.file)
  }

  lemma HonestRounds(a: Round, b: Round, first: seq<P.Incoming>, second: seq<P.Incoming>, s: PushScript, copy: Bytes)
    ensures Honest([a], first, second, s, copy) <==> P.TruthfulPeer(first, s.jobs(0), copy, s.file)
    ensures Honest([a, b], first, second, s, copy)
       <==> P.TruthfulPeer(second, s.jobs(1), CopyAfterAll(copy, s, [a]), s.file)
    ensures [a, b][..1] == [a] == [a][..1]
  {
    assert [a][..0] == [] && [a, b][..1] == [a];
    assert CopyAfterAll(copy, s, []) == copy;
  }

  /** Serving a push, as the daemon serves any command: its acts are those of a request with these two runs. If
      the client is told that the file was pushed, be it after a reconnect, and the peer was truthful about its copy
      in the last round, whatever that copy was, the peer has exactly the file. */
  method ServePush(first: P.Link, second: P.Link, s: PushScript, retrying: Network, v: S.View, ghost copy: Bytes)
    returns (acts: seq<Act>, runs: (PushRun, PushRun), ghost rounds: seq<Round>)
    requires P.RoundTrips(s.zstd) && first != second
    modifies first, second
    ensures acts == RunActs(PushRequest(runs.0, runs.1), v, DefaultConn, retrying) && acts != []
    ensures 1 <= |rounds| <= 2 && first.outbox == old(first.outbox) + rounds[0].out
    ensures RoundOn(rounds[0], old(first.inbox), s.jobs(0), |s.file|)
    ensures |rounds| == 2 ==>
              && second.outbox == old(second.outbox) + rounds[1].out
              && RoundOn(rounds[1], old(second.inbox), s.jobs(1), |s.file|)
    ensures |rounds| == 2 <==> runs.0.failure == Some(true) && GetsThrough(retrying, DefaultConn)
    ensures acts[|acts| - 1] == Final(Pushed) && Honest(rounds, old(first.inbox), old(second.inbox), s, copy) ==>
              CopyAfterAll(copy, s, rounds) == s.file
    ensures (&& copy <= s.file
             && Honest(rounds[..1], old(first.inbox), old(second.inbox), s, copy)
             && Honest(rounds, old(first.inbox), old(second.inbox), s, copy))
            ==> CopyAfterAll(copy, s, rounds) <= s.file
  {
    hide P.RoundTrips, P.TruthfulPeer, P.Stored, P.ResumesAsDigest, GetsThrough, Tries, ProgressLines;
    hide CopyAfter, CopyAfterAll, RoundOn, Honest;
    var run;
    ghost var round;
    run, round := PushOnce(first, s, 0, copy);
    CopyAfterTwo(copy, s, round, round);
    HonestRounds(round, round, old(first.inbox), old(second.inbox), s, copy);
    runs, rounds := (run, PushRun(0, None)), [round];
    acts := [Ran] + ProgressLines(run.lines);
    if run.failure == Some(true) {
      var ok, attempts := Reconnects(retrying, DefaultConn);
      if !ok {
        acts := acts + [Reconnected(false, attempts), Final(Failure)];
        return;
      }
      ghost var between := CopyAfterAll(copy, s, rounds);
      run, round := PushOnce(second, s, 1, between);
      CopyAfterTwo(copy, s, rounds[0], round);
      HonestRounds(rounds[0], round, old(first.inbox), old(second.inbox), s, copy);
      runs, rounds := (runs.0, run), [rounds[0], round];
      acts := acts + [Reconnected(true, attempts), Ran] + ProgressLines(run.lines);
    }
    acts := acts + [Final(if run.failure.None? then Pushed else Failure)];
  }

  /** Whether a reconnect gets through, and its attempts. */
  method Reconnects(net: Network, mode: ConnType) returns (ok: bool, attempts: nat)
    ensures ok == GetsThrough(net, mode) && attempts == Tries(net, 0)
  {
    var conn, notices;
    conn, attempts, notices := ReconnectWithRetryBackoffs(RECONNECT_BACKOFFS, net.connect);
    if conn.Err? { return false, attempts; }
    var sent;
    ok, sent := InitializeStreamForMode(mode, net.sends);
  }

  // ----- The client's end -----

  datatype ClientLine = Blank | Good(response: Response) | Bad

  predicate IsLastGood(lines: seq<ClientLine>, i: nat) {
    i < |lines| && lines[i].Good? && forall j :: i < j < |lines| ==> !lines[j].Good?
  }

  /** The streaming client: it answers with the last line that holds a response, and fails on a line it cannot
      read or if there is none. `shown` is what it reports on the way. */
  method ReceiveStreaming(lines: seq<ClientLine>) returns (r: Option<Response>, shown: seq<Response>)
    ensures r.None? <==>
              || (exists i :: 0 <= i < |lines| && lines[i].Bad?)
              || (forall i :: 0 <= i < |lines| ==> lines[i].Blank?)
    ensures r.Some? ==> exists i: nat :: IsLastGood(lines, i) && r.value == lines[i].response
    ensures r.Some? ==> shown == Responses(lines)
  {
    var last: Option<Response> := None;
    ghost var at: nat := 0;
    shown := [];
    for i := 0 to |lines|
      invariant forall j :: 0 <= j < i ==> !lines[j].Bad?
      invariant last.None? ==> forall j :: 0 <= j < i ==> lines[j].Blank?
      invariant last.Some? ==> at < i && IsLastGood(lines[..i], at) && last.value == lines[at].response
      invariant shown == Responses(lines[..i])
    {
      assert lines[..i + 1][..i] == lines[..i];
      match lines[i] {
        case Blank =>
        case Good(response) =>
          shown := shown + [response];
          last := Some(response);
          at := i;
        case Bad => return None, shown;
      }
    }
    assert lines[..|lines|] == lines;
    return last, shown;
  }

  function Responses(lines: seq<ClientLine>): seq<Response> {
    if lines == [] then []
    else
      var last := lines[|lines| - 1];
      Responses(lines[..|lines| - 1]) + if last.Good? then [last.response] else []
  }

  /** The lines the acts put on the wire when every write succeeds. */
  function Wire(acts: seq<Act>): (lines: seq<ClientLine>)
    ensures forall i :: 0 <= i < |lines| ==> lines[i].Good?
  {
    if acts == [] then []
    else
      var act := acts[|acts| - 1];
      Wire(acts[..|acts| - 1])
      + match act { case Wrote(line) => [Good(line)] case Final(response) => [Good(response)] case _ => [] }
  }

  /** The client's answer is the final response. */
  lemma LastLineIsFinal(acts: seq<Act>, i: nat)
    requires Served(acts) && IsLastGood(Wire(acts), i)
    ensures acts[|acts| - 1] == Final(Wire(acts)[i].response)
  {
    assert |Wire(acts)| == |Wire(acts[..|acts| - 1])| + 1;
    assert Wire(acts)[|Wire(acts)| - 1].Good?;
  }

  lemma {:induction false} WireConcat(a: seq<Act>, b: seq<Act>)
    ensures Wire(a + b) == Wire(a) + Wire(b)
  {
    if b == [] {
      assert a + b == a;
    } else {
      WireConcat(a, b[..|b| - 1]);
      assert (a + b)[..|a + b| - 1] == a + b[..|b| - 1];
    }
  }

  lemma WireOne(act: Act)
    ensures Wire([act]) == match act {
              case Wrote(line) => [Good(line)] case Final(response) => [Good(response)] case _ => [] }
  {
    assert [act][..0] == [];
    assert Wire([]) == [];
  }

  lemma WireNothing()
    ensures Wire([]) == []
  {
  }

  lemma {:induction false} WireOfLines(chunks: seq<string>)
    ensures |Wire(Lines(chunks))| == |chunks|
    ensures forall i :: 0 <= i < |chunks| ==> Wire(Lines(chunks))[i] == Good(Chunk(chunks[i]))
  {
    hide Wire;
    WireNothing();
    if chunks != [] {
      WireConcat([Wrote(Chunk(chunks[0]))], Lines(chunks[1..]));
      WireOne(Wrote(Chunk(chunks[0])));
      WireOfLines(chunks[1..]);
    }
  }

  /** From the remote shell to the client: an exec whose transcript arrives, in any chunks, is answered with
      the complete output lines, and with the exit code if and only if no chunk ends inside its digits; the
      client was shown before exactly the text that was parsed, chunk by chunk. The daemon was in terminal
      mode or got there. */
  lemma ExecEndToEnd(
    q: Request, v: S.View, mode: ConnType, switching: Network, retrying: Network,
    command: string, output: string, code: nat, prompt: string)
    requires mode == Terminal || GetsThrough(switching, Terminal)
    requires q.Exec? && forall c <- q.ids(0) :: Sentinel.IsDigit(c) || 'a' <= c <= 'f'
    requires X.Clean(output, Sentinel.MarkerFor(q.ids(0))) && code <= I32_MAX
    requires forall k :: 0 <= k <= |command| ==> !Sentinel.OccursAt(command, Sentinel.MarkerFor(q.ids(0)), k)
    requires q.execs(0).opening.Opens? && |T.DataRun(q.execs(0).drain)| == |q.execs(0).drain|
    requires q.execs(0).sending.None? && |q.execs(0).collect| <= q.execs(0).written
    requires Sentinel.Join(T.DataRun(q.execs(0).collect))
          == X.Transcript(command, Sentinel.MarkerFor(q.ids(0)), output, code, prompt)
    ensures var marker := Sentinel.MarkerFor(q.ids(0));
            var datas := T.DataRun(q.execs(0).collect);
            var chunks := T.Streamed(q.execs(0), marker, true);
            var lines := Wire(Acts(q, v, mode, switching, retrying));
            var p := X.DigitsStart(command, marker, output);
            && Sentinel.Join(chunks) == Sentinel.Collected([], datas, marker)
            && |lines| == |chunks| + 1
            && (forall i :: 0 <= i < |chunks| ==> lines[i] == Good(Chunk(chunks[i])))
            && lines[|chunks|].response.Executed?
            && var result := lines[|chunks|].response.result;
               && result.stdout == X.TrimEnd(X.CompleteLines(output)) && !result.timedOut
               && (result.exitCode == code <==> !Sentinel.ChunkEndsInside(datas, p, p + |X.Decimal(code)|))
  {
    hide T.Outcome, T.Streamed, X.Clean, X.TrimEnd, X.Decimal, X.DigitsStart, Sentinel.Collected, Sentinel.Join;
    hide Wire, Lines, GetsThrough, Tries, Sentinel.ChunkEndsInside;
    var marker := Sentinel.MarkerFor(q.ids(0));
    X.SourceMarker(q.ids(0));
    T.ExecDelivers(q.execs(0), command, marker, output, code, prompt);
    var chunks := T.Streamed(q.execs(0), marker, true);
    var final := Final(Executed(T.Outcome(q.execs(0), marker, true).value));
    ExecOnWire(chunks, final, Tries(switching, 0));
  }

  /** Reconnects and runs put nothing on the wire. */
  lemma ExecOnWire(chunks: seq<string>, final: Act, attempts: nat)
    requires final.Final?
    ensures var acts := [Ran] + Lines(chunks) + [final];
            && Wire([Reconnected(true, attempts)] + acts) == Wire(acts)
            && |Wire(acts)| == |chunks| + 1 && Wire(acts)[|chunks|] == Good(final.response)
            && forall i :: 0 <= i < |chunks| ==> Wire(acts)[i] == Good(Chunk(chunks[i]))
  {
    hide Wire, Lines;
    var acts := [Ran] + Lines(chunks) + [final];
    WireConcat([Reconnected(true, attempts)], acts);
    WireOne(Reconnected(true, attempts));
    WireConcat([Ran] + Lines(chunks), [final]);
    WireConcat([Ran], Lines(chunks));
    WireOne(Ran);
    WireOne(final);
    WireOfLines(chunks);
  }

  // ----- The loop -----

  /** What handling a message of the peer comes to. */
  datatype Handling = Empty | Continue | HandlerFails | PeerCloses

  datatype Event =
    | PeerMessage(handling: Handling)
    | PeerFails(net: Network)
    | HeartbeatTick(sent: bool, expired: bool, net: Network)
    | Accept(request: Request, switching: Network, retrying: Network)
    | AcceptFails
    | IdleTimeout
    | Signal

  datatype Exit = Shutdown | ReconnectFailed

  /** The daemon's variables at one head of its loop. `serial` counts the streams that were opened. */
  datatype Head = Head(session: S.View, stream: Stream, mode: ConnType, id: Option<string>, serial: nat)

  /** The session is connected under its configuration, the live stream was opened and set up for the active
      mode, and a service id is stored only in terminal mode. */
  predicate HeadFits(h: Head, config: S.Config) {
    && h.session.state == S.Connected && h.session.config == Some(config) && h.session.peerInfo.Some?
    && h.stream.mode == h.mode && h.stream.setup == SetupFor(h.mode) && (h.stream.login.Some? <==> h.mode == Terminal)
    && (h.id.Some? ==> h.mode == Terminal)
  }

  // ----- The loop as a state machine -----

  /** The variables after a reconnect that got through. */
  function Renewed(h: Head, mode: ConnType, id: Option<string>, net: Network): Head {
    Head(h.session.(state := S.Connected, peerInfo := Some(PeerInfoOf(net))),
         Stream(mode, LoginFor(mode, id), SetupFor(mode)), mode, id, h.serial + 1)
  }

  /** A reconnect in the active mode; `None` is the end of the daemon. */
  function Renew(h: Head, net: Network): Option<Head> {
    if GetsThrough(net, h.mode) then Some(Renewed(h, h.mode, h.id, net)) else None
  }

  function AfterRun(h: Head, q: Request, n: nat): Head {
    h.(id := IdAfterRun(q, n, h.id), session := if q.Session? then S.After(h.session, q.command) else h.session)
  }

  /** Serving a request on a stream of its mode. */
  function AfterServing(h: Head, q: Request, net: Network): Option<Head> {
    if q.Shell? then
      var after := h.(id := T.IdAfterShell(h.id, q.script));
      var r := T.ShellOutcome(q.script);
      if r.Err? && T.ShouldReconnect(r.error) then Renew(after, net) else Some(after)
    else if EndOf(q, 0, h.session).failure == Some(true) then
      match Renew(AfterRun(h, q, 0), net)
      case None => None
      case Some(renewed) => Some(AfterRun(renewed, q, 1))
    else if IsDisconnect(q) then None
    else Some(AfterRun(h, q, 0))
  }

  function AfterRequest(h: Head, q: Request, switching: Network, retrying: Network): Option<Head> {
    var desired := ConnTypeFor(q);
    var id := if desired != Terminal then None else h.id;
    if q.Unreadable? || q.Garbled? then Some(h)
    else if desired == h.mode then AfterServing(h, q, retrying)
    else if GetsThrough(switching, desired) then AfterServing(Renewed(h, desired, id, switching), q, retrying)
    else Some(h.(id := id))
  }

  /** One turn of the loop. */
  function NextHead(h: Head, e: Event): Option<Head> {
    match e
    case PeerMessage(handling) => if handling == PeerCloses then None else Some(h)
    case PeerFails(net) => Renew(h, net)
    case HeartbeatTick(sent, expired, net) => if !sent || expired then Renew(h, net) else Some(h)
    case Accept(q, switching, retrying) => AfterRequest(h, q, switching, retrying)
    case AcceptFails => Some(h)
    case IdleTimeout => None
    case Signal => None
  }

  lemma ServingFits(h: Head, q: Request, net: Network, config: S.Config)
    requires HeadFits(h, config) && h.mode == ConnTypeFor(q)
    ensures AfterServing(h, q, net).Some? ==> HeadFits(AfterServing(h, q, net).value, config)
    ensures q.Exec? && EndOf(q, 0, h.session).failure.None? ==>
              AfterServing(h, q, net).Some? && AfterServing(h, q, net).value.id == None
    ensures q.Exec? && EndOf(q, 0, h.session).failure == Some(true) && GetsThrough(net, h.mode)
            && EndOf(q, 1, h.session).failure.None? ==>
              AfterServing(h, q, net).Some? && AfterServing(h, q, net).value.id == None
    ensures q.Shell? && T.ShellOutcome(q.script).Ok? ==>
              AfterServing(h, q, net).Some? && AfterServing(h, q, net).value.id == None
  {
    hide GetsThrough, Tries, PeerInfoOf;
  }

  /** Every event keeps the invariant, or ends the daemon. */
  lemma NextHeadFits(h: Head, e: Event, config: S.Config)
    requires HeadFits(h, config)
    ensures NextHead(h, e).Some? ==> HeadFits(NextHead(h, e).value, config)
  {
    hide GetsThrough, Tries, PeerInfoOf, AfterServing;
    if e.Accept? {
      var q, desired := e.request, ConnTypeFor(e.request);
      if desired == h.mode {
        ServingFits(h, q, e.retrying, config);
      } else {
        var id := if desired != Terminal then None else h.id;
        ServingFits(Renewed(h, desired, id, e.switching), q, e.retrying, config);
      }
    }
  }

  /** The variables after a run of the loop, if it is still going. */
  function HeadAfter(h: Head, events: seq<Event>): Option<Head> {
    if events == [] then Some(h)
    else
      match HeadAfter(h, events[..|events| - 1])
      case None => None
      case Some(before) => NextHead(before, events[|events| - 1])
  }

  /** On every run, at every head of the loop, the invariant holds. */
  lemma {:induction false} EveryHeadFits(h: Head, events: seq<Event>, config: S.Config)
    requires HeadFits(h, config)
    ensures HeadAfter(h, events).Some? ==> HeadFits(HeadAfter(h, events).value, config)
  {
    hide HeadFits, NextHead;
    if events != [] {
      EveryHeadFits(h, events[..|events| - 1], config);
      var before := HeadAfter(h, events[..|events| - 1]);
      if before.Some? { NextHeadFits(before.value, events[|events| - 1], config); }
    }
  }

  /** The heads are those of a run from `h`, and the invariant holds at each. */
  ghost predicate IsTrace(heads: seq<Head>, h: Head, events: seq<Event>, config: S.Config) {
    && |heads| <= |events| + 1
    && forall i :: 0 <= i < |heads| ==> HeadFits(heads[i], config) && HeadAfter(h, events[..i]) == Some(heads[i])
  }

  lemma TraceMore(heads: seq<Head>, next: Head, h: Head, events: seq<Event>, config: S.Config)
    requires IsTrace(heads, h, events, config) && |heads| <= |events|
    requires HeadFits(next, config) && HeadAfter(h, events[..|heads|]) == Some(next)
    ensures IsTrace(heads + [next], h, events, config)
  {
    hide HeadFits, HeadAfter;
  }

  // ----- When a stream is replaced and when the loop ends, event by event -----

  predicate Heard(q: Request) {
    !q.Unreadable? && !q.Garbled?
  }

  /** Shell and exec need terminal mode, everything else the default mode. */
  predicate RightMode(q: Request, mode: ConnType) {
    (q.Shell? || q.Exec?) <==> mode == Terminal
  }

  function OtherMode(mode: ConnType): ConnType {
    if mode == Terminal then DefaultConn else Terminal
  }

  /** The request needed the other mode, and the switch got through. */
  predicate Switched(q: Request, mode: ConnType, switching: Network) {
    Heard(q) && !RightMode(q, mode) && GetsThrough(switching, OtherMode(mode))
  }

  /** The request is served, in a stream of its mode. */
  predicate IsServed(q: Request, mode: ConnType, switching: Network) {
    Heard(q) && (RightMode(q, mode) || Switched(q, mode, switching))
  }

  /** Serving it, the connection is lost. */
  predicate LosesConnection(q: Request, v: S.View) {
    if q.Shell? then
      var r := T.ShellOutcome(q.script);
      r.Err? && T.ShouldReconnect(r.error)
    else EndOf(q, 0, v).failure == Some(true)
  }

  function ModeAfter(q: Request, mode: ConnType, switching: Network): ConnType {
    if Switched(q, mode, switching) then OtherMode(mode) else mode
  }

  /** The peer failed, the heartbeat could not be sent, or the keepalive time expired. */
  predicate StreamFails(e: Event) {
    e.PeerFails? || (e.HeartbeatTick? && (!e.sent || e.expired))
  }

  /** How many reconnects of a turn get through: one for a stream that failed, one for a mode switch, one for a
      connection lost while serving. */
  function Renewals(e: Event, mode: ConnType, v: S.View): nat {
    if StreamFails(e) then (if GetsThrough(e.net, mode) then 1 else 0)
    else if e.Accept? then
      (if Switched(e.request, mode, e.switching) then 1 else 0)
      + if IsServed(e.request, mode, e.switching) && LosesConnection(e.request, v)
           && GetsThrough(e.retrying, ModeAfter(e.request, mode, e.switching))
        then 1 else 0
    else 0
  }

  /** A closing peer, the idle timeout, a signal, or a disconnect. */
  predicate ShutsDown(e: Event, mode: ConnType) {
    || e == PeerMessage(PeerCloses) || e == IdleTimeout || e == Signal
    || (e.Accept? && e.request == Session(S.Disconnect) && IsServed(e.request, mode, e.switching))
  }

  /** A reconnect that was no mode switch failed. */
  predicate LosesPeer(e: Event, mode: ConnType, v: S.View) {
    || (StreamFails(e) && !GetsThrough(e.net, mode))
    || (e.Accept? && IsServed(e.request, mode, e.switching) && LosesConnection(e.request, v)
        && !GetsThrough(e.retrying, ModeAfter(e.request, mode, e.switching)))
  }

  /** One turn from `h`: it ends exactly on a shutdown or a lost peer, and otherwise the serial number of the stream
      moves by the reconnects that got through; without any the stream is the same; the mode changes only by a
      switch. */
  ghost predicate TurnIs(h: Head, e: Event, next: Option<Head>) {
    && (next.None? <==> ShutsDown(e, h.mode) || LosesPeer(e, h.mode, h.session))
    && (next.Some? ==>
          && next.value.serial == h.serial + Renewals(e, h.mode, h.session)
          && (Renewals(e, h.mode, h.session) == 0 ==> next.value.stream == h.stream)
          && next.value.mode == if e.Accept? then ModeAfter(e.request, h.mode, e.switching) else h.mode)
  }

  /** So it goes from each head to the next. */
  ghost predicate TurnByTurn(heads: seq<Head>, events: seq<Event>) {
    && |heads| <= |events| + 1
    && forall i, j :: 0 <= i && j == i + 1 && j < |heads| ==> TurnIs(heads[i], events[i], Some(heads[j]))
  }

  lemma TurnMore(heads: seq<Head>, next: Head, events: seq<Event>)
    requires TurnByTurn(heads, events) && |heads| <= |events|
    requires heads != [] ==> TurnIs(heads[|heads| - 1], events[|heads| - 1], Some(next))
    ensures TurnByTurn(heads + [next], events)
  {
    hide TurnIs;
  }

  lemma ServingTurns(h: Head, q: Request, net: Network)
    requires Heard(q)
    ensures var next := AfterServing(h, q, net); var lost := LosesConnection(q, h.session);
            && (next.None? <==> q == Session(S.Disconnect) || (lost && !GetsThrough(net, h.mode)))
            && (next.Some? ==> next.value.mode == h.mode && next.value.serial == h.serial + if lost then 1 else 0)
            && (next.Some? && !lost ==> next.value.stream == h.stream)
  {
    hide GetsThrough, Tries, PeerInfoOf;
  }

  /** The state machine turns so, from every head that fits. */
  lemma TurnsExactly(h: Head, e: Event, config: S.Config)
    requires HeadFits(h, config)
    ensures TurnIs(h, e, NextHead(h, e))
  {
    hide GetsThrough, Tries, PeerInfoOf, AfterServing, EndOf;
    if e.Accept? && Heard(e.request) {
      var q, mode := e.request, ModeAfter(e.request, h.mode, e.switching);
      var id := if mode != Terminal then None else h.id;
      var served := if RightMode(q, h.mode) then h else Renewed(h, mode, id, e.switching);
      SameLoss(q, h.session, served.session);
      ServingTurns(served, q, e.retrying);
      NeverLost(q, h.session);
    }
  }

  lemma SameLoss(q: Request, v: S.View, w: S.View)
    requires v.state == w.state && v.config == w.config
    ensures LosesConnection(q, v) == LosesConnection(q, w)
  {
    hide EndOf;
    SameEnd(q, 0, v, w);
  }

  /** A disconnect never loses the peer. */
  lemma EndsOneWay(e: Event, mode: ConnType, v: S.View)
    ensures !(ShutsDown(e, mode) && LosesPeer(e, mode, v))
    ensures e.Accept? && ShutsDown(e, mode) ==> IsDisconnect(e.request)
    ensures e.Accept? && LosesPeer(e, mode, v) ==> !IsDisconnect(e.request)
  {
    hide GetsThrough, EndOf;
    if e.Accept? { NeverLost(e.request, v); }
  }

  lemma NeverLost(q: Request, v: S.View)
    ensures q.Session? ==> !LosesConnection(q, v)
  {
  }

  // ----- The daemon object -----

  /** A request and what was done for it. */
  datatype Service = Service(request: Request, acts: seq<Act>)

  /** A shell talks to its client itself; the daemon writes a response only if it could not switch modes. */
  predicate ShellServed(acts: seq<Act>) {
    || (forall i :: 0 <= i < |acts| ==> acts[i].Reconnected?)
    || (|acts| == 2 && acts[0].Reconnected? && !acts[0].ok && acts[1] == Final(Failure))
  }

  ghost predicate WellServed(s: Service) {
    if s.request.Unreadable? then s.acts == []
    else if s.request.Shell? then ShellServed(s.acts)
    else Served(s.acts)
  }

  class Daemon {
    const config: S.Config
    const session: S.Session
    const slot: T.ServiceSlot
    var stream: Stream
    var mode: ConnType
    var exit: Option<Exit>
    var serial: nat

    constructor (config: S.Config, peerInfo: string, stream: Stream)
      requires stream == Stream(DefaultConn, None, SetupFor(DefaultConn))
      ensures this.config == config && fresh(session) && fresh(slot) && exit == None && Valid()
    {
      this.config := config;
      var s := new S.Session();
      s.state := S.Connected;
      s.config := Some(config);
      s.peerInfo := Some(peerInfo);
      session := s;
      slot := new T.ServiceSlot();
      this.stream, mode, exit, serial := stream, DefaultConn, None, 0;
    }

    function Now(): Head
      reads this, session, slot
    {
      Head(session.Value(), stream, mode, slot.id, serial)
    }

    predicate Valid()
      reads this, session, slot
    {
      HeadFits(Now(), config)
    }

    /** Replaces a lost stream in the active mode; if that fails, the daemon ends. */
    method Reconnect(net: Network) returns (ok: bool, attempts: nat)
      requires exit == None
      modifies this, session
      ensures ok == GetsThrough(net, mode) && attempts == Tries(net, 0)
      ensures exit == (if ok then None else Some(ReconnectFailed))
      ensures Now() == if ok then Renewed(old(Now()), old(mode), old(slot.id), net) else old(Now())
    {
      var r;
      r, attempts := ReconnectEncryptedStream(session, mode, slot.id, net);
      if r.None? {
        exit := Some(ReconnectFailed);
        return false, attempts;
      }
      stream, serial := r.value, serial + 1;
      return true, attempts;
    }

    /** Switches to the mode a request needs. A failure leaves the daemon running on its old stream. */
    method SwitchMode(desired: ConnType, net: Network) returns (ok: bool, attempts: nat)
      requires exit == None
      modifies this, session, slot
      ensures ok == GetsThrough(net, desired) && attempts == Tries(net, 0) && exit == None
      ensures var id := if desired != Terminal then None else old(slot.id);
              Now() == if ok then Renewed(old(Now()), desired, id, net) else old(Now()).(id := id)
    {
      if desired != Terminal { slot.id := None; }
      var r;
      r, attempts := ReconnectEncryptedStream(session, desired, slot.id, net);
      if r.None? { return false, attempts; }
      stream, mode, serial := r.value, desired, serial + 1;
      return true, attempts;
    }

    method ServeShell(script: T.ShellScript, net: Network) returns (acts: seq<Act>)
      requires exit == None
      modifies this, session, slot
      ensures var next := AfterServing(old(Now()), Shell(script), net);
              (exit.None? <==> next.Some?) && (exit.None? ==> Now() == next.value)
      ensures exit.None? || exit == Some(ReconnectFailed)
      ensures forall i :: 0 <= i < |acts| ==> acts[i].Reconnected?
    {
      hide GetsThrough, Tries;
      var r := T.ShellSession(slot, script);
      acts := [];
      if r.Err? && T.ShouldReconnect(r.error) {
        var ok, attempts := Reconnect(net);
        acts := [Reconnected(ok, attempts)];
      }
    }

    /** Runs a command, once more after a reconnect if the connection was lost, and writes the response. */
    method ServeCommand(q: Request, net: Network) returns (acts: seq<Act>)
      requires !q.Unreadable? && !q.Garbled? && !q.Shell?
      requires exit == None && session.state == S.Connected
      modifies this, session, slot
      ensures acts == RunActs(q, old(session.Value()), old(mode), net)
      ensures exit.Some? ==> exit.value == if IsDisconnect(q) then Shutdown else ReconnectFailed
      ensures var next := AfterServing(old(Now()), q, net);
              (exit.None? <==> next.Some?) && (exit.None? ==> Now() == next.value)
    {
      hide GetsThrough, Tries, IdAfterRun, S.After;
      ghost var v := session.Value();
      var end := RunOnce(q, 0, session, slot);
      acts := [Ran] + end.lines;
      if end.failure == Some(true) {
        var ok, attempts := Reconnect(net);
        if !ok {
          acts := acts + [Reconnected(false, attempts), Final(Failure)];
          return;
        }
        SameEnd(q, 1, v, session.Value());
        end := RunOnce(q, 1, session, slot);
        acts := acts + [Reconnected(true, attempts), Ran] + end.lines;
      }
      acts := acts + [Final(if end.failure.None? then end.response else Failure)];
      if IsDisconnect(q) { exit := Some(Shutdown); }
    }

    /** Serves one client. */
    method HandleRequest(q: Request, switching: Network, retrying: Network) returns (acts: seq<Act>)
      requires exit == None && session.state == S.Connected
      modifies this, session, slot
      ensures !q.Shell? ==> acts == Acts(q, old(session.Value()), old(mode), switching, retrying)
      ensures WellServed(Service(q, acts))
      ensures exit.Some? ==> exit.value == if IsDisconnect(q) then Shutdown else ReconnectFailed
      ensures var next := AfterRequest(old(Now()), q, switching, retrying);
              (exit.None? <==> next.Some?) && (exit.None? ==> Now() == next.value)
    {
      hide RunActs, Served, EndOf, GetsThrough, Tries, PeerInfoOf, AfterServing;
      if !q.Shell? && !q.Unreadable? { ActsServed(q, session.Value(), mode, switching, retrying); }
      if q.Unreadable? { return []; }
      if q.Garbled? { return [Final(Failure)]; }
      acts := [];
      if ConnTypeFor(q) != mode {
        var ok, attempts := SwitchMode(ConnTypeFor(q), switching);
        acts := [Reconnected(ok, attempts)];
        if !ok {
          acts := acts + [Final(Failure)];
          return;
        }
      }
      var more;
      SameActs(q, old(session.Value()), session.Value(), mode, retrying);
      if q.Shell? {
        more := ServeShell(q.script, retrying);
      } else {
        more := ServeCommand(q, retrying);
      }
      acts := acts + more;
    }

    /** One turn of the loop does what the state machine says. */
    method Step(e: Event) returns (service: Option<Service>)
      requires exit == None && Valid()
      modifies this, session, slot
      ensures var next := NextHead(old(Now()), e);
              (exit.None? <==> next.Some?) && (exit.None? ==> Now() == next.value)
      ensures TurnIs(old(Now()), e, if exit.None? then Some(Now()) else None)
      ensures exit == Some(ReconnectFailed) <==> LosesPeer(e, old(mode), old(session.Value()))
      ensures service.Some? <==> e.Accept?
      ensures service.Some? ==> service.value.request == e.request && WellServed(service.value)
    {
      hide WellServed, GetsThrough, Tries, PeerInfoOf, AfterRequest;
      TurnsExactly(Now(), e, config);
      EndsOneWay(e, mode, session.Value());
      match e
      case PeerMessage(handling) =>
        if handling == PeerCloses { exit := Some(Shutdown); }
        return None;
      case PeerFails(net) =>
        var ok, attempts := Reconnect(net);
        return None;
      case HeartbeatTick(sent, expired, net) =>
        if !sent || expired {
          var ok, attempts := Reconnect(net);
        }
        return None;
      case Accept(request, switching, retrying) =>
        var acts := HandleRequest(request, switching, retrying);
        return Some(Service(request, acts));
      case AcceptFails => return None;
      case IdleTimeout =>
        exit := Some(Shutdown);
        return None;
      case Signal =>
        exit := Some(Shutdown);
        return None;
    }

    /** The loop: on every run, the variables fit at every head and go from head to head as the state machine
        says, the loop ends at the first event that ends it, and every request accepted is served, in order. */
    method Run(events: seq<Event>) returns (heads: seq<Head>, services: seq<Service>, turns: nat)
      requires Valid() && exit == None
      modifies this, session, slot
      ensures turns <= |events| && |heads| > 0 && heads[0] == old(Now())
      ensures if exit.None? then turns == |events| == |heads| - 1 else turns == |heads|
      ensures IsTrace(heads, old(Now()), events, config)
      ensures TurnByTurn(heads, events)
      ensures exit.Some? ==> TurnIs(heads[turns - 1], events[turns - 1], None)
      ensures exit.Some? ==> HeadAfter(old(Now()), events[..turns]) == None
      ensures forall s <- services :: WellServed(s)
      ensures Requests(services) == Accepted(events[..turns])
    {
      hide HeadFits, WellServed, NextHead, HeadAfter, IsTrace, TurnIs, TurnByTurn;
      heads, services, turns := [], [], 0;
      ghost var start := Now();
      NoEvents(start, events, config);
      while true
        invariant turns <= |events| && exit.None? && Valid()
        invariant |heads| == turns && (turns > 0 ==> heads[0] == start)
        invariant turns == 0 ==> Now() == start
        invariant HeadAfter(start, events[..turns]) == Some(Now())
        invariant IsTrace(heads, start, events, config)
        invariant TurnByTurn(heads, events)
        invariant turns > 0 ==> TurnIs(heads[turns - 1], events[turns - 1], Some(Now()))
        invariant forall s <- services :: WellServed(s)
        invariant Requests(services) == Accepted(events[..turns])
        decreases |events| - turns
      {
        TraceMore(heads, Now(), start, events, config);
        TurnMore(heads, Now(), events);
        heads := heads + [Now()];
        if turns == |events| { break; }
        OneMoreEvent(start, events, turns);
        NextHeadFits(Now(), events[turns], config);
        AcceptedStep(events, turns);
        var service := Step(events[turns]);
        turns := turns + 1;
        if service.Some? {
          RequestsStep(services, service.value);
          services := services + [service.value];
        }
        if exit.Some? { break; }
      }
    }
  }

  lemma NoEvents(h: Head, events: seq<Event>, config: S.Config)
    ensures HeadAfter(h, events[..0]) == Some(h) && Accepted(events[..0]) == []
    ensures IsTrace([], h, events, config) && TurnByTurn([], events)
  {
  }

  lemma OneMoreEvent(h: Head, events: seq<Event>, n: nat)
    requires n < |events| && HeadAfter(h, events[..n]).Some?
    ensures HeadAfter(h, events[..n + 1]) == NextHead(HeadAfter(h, events[..n]).value, events[n])
  {
    hide NextHead;
    assert events[..n + 1][..n] == events[..n];
  }

  function Requests(services: seq<Service>): seq<Request> {
    if services == [] then []
    else Requests(services[..|services| - 1]) + [services[|services| - 1].request]
  }

  function Accepted(events: seq<Event>): seq<Request> {
    if events == [] then []
    else
      var e := events[|events| - 1];
      Accepted(events[..|events| - 1]) + if e.Accept? then [e.request] else []
  }

  lemma RequestsStep(services: seq<Service>, s: Service)
    ensures Requests(services + [s]) == Requests(services) + [s.request]
  {
    assert (services + [s])[..|services|] == services;
  }

  lemma AcceptedStep(events: seq<Event>, n: nat)
    requires n < |events|
    ensures Accepted(events[..n + 1]) == Accepted(events[..n]) + if events[n].Accept? then [events[n].request] else []
  {
    assert events[..n + 1][..n] == events[..n];
  }

  /** Starting up: one connection attempt in the default mode, then the setup of the stream. */
  method Start(config: S.Config, net: Network) returns (daemon: Option<Daemon>)
    ensures daemon.Some? <==> net.connect(0).Ok? && forall i :: 0 <= i < |SetupFor(DefaultConn)| ==> net.sends(i)
    ensures daemon.Some? ==>
              var d := daemon.value;
              fresh(d) && fresh(d.session) && fresh(d.slot) && d.config == config && d.exit == None && d.Valid()
  {
    var conn := net.connect(0);
    if conn.Err? { return None; }
    var ok, sent := InitializeStreamForMode(DefaultConn, net.sends);
    if !ok { return None; }
    var d := new Daemon(config, conn.value, Stream(DefaultConn, LoginFor(DefaultConn, None), sent));
    return Some(d);
  }
}
