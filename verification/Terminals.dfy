/** Running a command, or an interactive shell, in a terminal of the peer, and what becomes of the stored id of
    the terminal's service. Where a list of readings ends, the wait for the next one times out. */
module Terminals {
  import opened Common
  import opened Sentinel
  import opened ExecOutput

  /** What opening a terminal gives. `lost` says whether the error reads like a lost connection. */
  datatype Opening = Opens(serviceId: string) | OpenFails(lost: bool) | OpenTimesOut

  datatype Reading = Data(text: string) | Closed(exitCode: int) | TerminalError(lost: bool) | RecvFails(lost: bool)

  /** Everything the peer and the client do during one exec: `sending` is the failure to send the command, if
      any, and `written` the number of chunk lines the client takes. */
  datatype ExecScript = ExecScript(
    opening: Opening, drain: seq<Reading>, sending: Option<bool>, collect: seq<Reading>, written: nat, writeLost: bool)

  datatype Fault =
    | OpenFailed(lost: bool)
    | OpenTimedOut
    | DrainTerminalError(lost: bool)
    | DrainRecvFailed(lost: bool)
    | SendFailed(lost: bool)
    | WriteFailed(lost: bool)
    | ExecTerminalError(lost: bool)
    | ExecRecvFailed(lost: bool)

  datatype ExecReply = Executed(stdout: string, exitCode: int, timedOut: bool)

  /** The reconnect test on the error text: a timeout always reads like a lost connection. */
  predicate ShouldReconnect(f: Fault) {
    f.OpenTimedOut? || f.lost
  }

  /** The variable that holds the id of the open terminal's service. */
  class ServiceSlot {
    var id: Option<string>

    constructor ()
      ensures id == None
    {
      id := None;
    }
  }

  // ----- What an exec amounts to -----

  /** The data that arrives before anything else does. */
  function DataRun(rs: seq<Reading>): (ds: seq<string>)
    ensures |ds| <= |rs| && forall i :: 0 <= i < |ds| ==> rs[i] == Data(ds[i])
    ensures |ds| < |rs| ==> !rs[|ds|].Data?
  {
    if rs == [] || !rs[0].Data? then [] else [rs[0].text] + DataRun(rs[1..])
  }

  /** The outcome of an exec, without its loops. */
  function Outcome(s: ExecScript, marker: string, streaming: bool): Result<ExecReply, Fault>
    requires marker != []
  {
    match s.opening
    case OpenFails(lost) => Err(OpenFailed(lost))
    case OpenTimesOut => Err(OpenTimedOut)
    case Opens(_) =>
      var banner := |DataRun(s.drain)|;
      if banner < |s.drain| then
        match s.drain[banner] {
          case Closed(code) => Ok(Executed([], code, false))
          case TerminalError(lost) => Err(DrainTerminalError(lost))
          case RecvFails(lost) => Err(DrainRecvFailed(lost))
        }
      else if s.sending.Some? then Err(SendFailed(s.sending.value))
      else
        var datas := DataRun(s.collect);
        var raw := Collected([], datas, marker);
        if streaming && s.written < Taken([], datas, marker) then Err(WriteFailed(s.writeLost))
        else if Scan(raw, marker, 0).Some? || |datas| == |s.collect| then
          var (stdout, code) := ParseExecOutput(raw, marker);
          Ok(Executed(stdout, code, Scan(raw, marker, 0).None?))
        else
          match s.collect[|datas|]
          case Closed(code) => Ok(Executed(Trim(raw), code, false))
          case TerminalError(lost) => Err(ExecTerminalError(lost))
          case RecvFails(lost) => Err(ExecRecvFailed(lost))
  }

  /** The chunk lines the client gets. */
  function Streamed(s: ExecScript, marker: string, streaming: bool): seq<string>
    requires marker != []
  {
    var datas := DataRun(s.collect);
    var n := Taken([], datas, marker);
    if !streaming || !s.opening.Opens? || |DataRun(s.drain)| < |s.drain| || s.sending.Some? then []
    else datas[..if s.written < n then s.written else n]
  }

  /** A failure that leaves the id of the terminal just opened in place. */
  predicate LeavesId(f: Fault) {
    f.DrainRecvFailed? || f.SendFailed? || f.WriteFailed?
  }

  predicate FailedToOpen(f: Fault) {
    f.OpenFailed? || f.OpenTimedOut?
  }

  function IdAfter(before: Option<string>, opening: Opening, r: Result<ExecReply, Fault>): Option<string> {
    if r.Err? && FailedToOpen(r.error) then before
    else if r.Err? && LeavesId(r.error) && opening.Opens? then Some(opening.serviceId)
    else None
  }

  /** The loop is at chunk `i`, has collected `raw`, and no sentinel is in it yet. */
  ghost predicate Collecting(datas: seq<string>, marker: string, i: nat, raw: string)
    requires marker != []
  {
    && i <= |datas|
    && Collected([], datas, marker) == Collected(raw, datas[i..], marker)
    && Taken([], datas, marker) == i + Taken(raw, datas[i..], marker)
    && Scan(raw, marker, 0).None?
  }

  lemma CollectStep(datas: seq<string>, marker: string, i: nat, raw: string)
    requires marker != [] && i < |datas| && Collecting(datas, marker, i, raw)
    ensures Scan(raw + datas[i], marker, 0).None? ==> Collecting(datas, marker, i + 1, raw + datas[i])
    ensures Scan(raw + datas[i], marker, 0).Some? ==>
              Collected([], datas, marker) == raw + datas[i] && Taken([], datas, marker) == i + 1
    ensures i < Taken([], datas, marker)
  {
    hide Scan;
    assert datas[i..][0] == datas[i] && datas[i..][1..] == datas[i + 1..];
  }

  lemma CollectStart(datas: seq<string>, marker: string)
    requires marker != []
    ensures Collecting(datas, marker, 0, [])
  {
    assert datas[0..] == datas;
  }

  lemma CollectEnd(datas: seq<string>, marker: string, raw: string)
    requires marker != [] && Collecting(datas, marker, |datas|, raw)
    ensures Collected([], datas, marker) == raw && Taken([], datas, marker) == |datas|
    ensures Scan(raw, marker, 0).None?
  {
  }

  /** Why the collection of output ended: the sentinel came, the deadline passed, the terminal had something
      else to say, or the client took no more chunks. */
  datatype Stop = Found | Deadline | Other(reading: Reading) | Unwritten

  /** Collects output up to the sentinel, writing each chunk to the client first if asked to. */
  method CollectOutput(collect: seq<Reading>, marker: string, streaming: bool, written: nat)
    returns (stop: Stop, raw: string, chunks: seq<string>)
    requires marker != []
    ensures var datas := DataRun(collect);
            var n := Taken([], datas, marker);
            && (stop == Unwritten <==> streaming && written < n)
            && (stop != Unwritten ==> raw == Collected([], datas, marker))
            && (stop == Found ==> Scan(raw, marker, 0).Some?)
            && (stop == Deadline ==> |datas| == |collect| && Scan(raw, marker, 0).None?)
            && (stop.Other? ==> |datas| < |collect| && stop.reading == collect[|datas|] && Scan(raw, marker, 0).None?)
            && chunks == if streaming then datas[..if written < n then written else n] else []
  {
    hide Scan, Collecting, Collected, Taken, DataRun;
    ghost var datas := DataRun(collect);
    raw, chunks := [], [];
    CollectStart(datas, marker);
    var i := 0;
    while i < |collect|
      invariant i <= |datas| && (streaming ==> i <= written)
      invariant chunks == if streaming then datas[..i] else []
      invariant Collecting(datas, marker, i, raw)
    {
      if !collect[i].Data? {
        CollectEnd(datas, marker, raw);
        return Other(collect[i]), raw, chunks;
      }
      CollectStep(datas, marker, i, raw);
      if streaming {
        if i == written { return Unwritten, raw, chunks; }
        assert datas[..i + 1] == datas[..i] + [collect[i].text];
        chunks := chunks + [collect[i].text];
      }
      raw := raw + collect[i].text;
      var hit := FindSentinelOutput(raw, marker);
      if hit.Some? { return Found, raw, chunks; }
      i := i + 1;
    }
    CollectEnd(datas, marker, raw);
    return Deadline, raw, chunks;
  }

  /** Runs a command in a new terminal. A success leaves no service id; a failure to open leaves the id as it
      was. The chunks written to the client are, in order, the ones the parsed text is made of. */
  method ExecCommandInner(slot: ServiceSlot, s: ExecScript, marker: string, streaming: bool)
    returns (r: Result<ExecReply, Fault>, chunks: seq<string>)
    requires marker != []
    modifies slot
    ensures r == Outcome(s, marker, streaming)
    ensures slot.id == IdAfter(old(slot.id), s.opening, r)
    ensures chunks == Streamed(s, marker, streaming)
  {
    hide Scan, Collected, Taken, ParseExecOutput, Trim;
    chunks := [];
    match s.opening {
      case OpenFails(lost) => return Err(OpenFailed(lost)), chunks;
      case OpenTimesOut => return Err(OpenTimedOut), chunks;
      case Opens(serviceId) => slot.id := Some(serviceId);
    }
    var i := 0;
    while i < |s.drain|
      invariant i <= |DataRun(s.drain)| && slot.id == Some(s.opening.serviceId)
    {
      match s.drain[i] {
        case Data(_) =>
        case Closed(code) =>
          slot.id := None;
          return Ok(Executed([], code, false)), chunks;
        case TerminalError(lost) =>
          slot.id := None;
          return Err(DrainTerminalError(lost)), chunks;
        case RecvFails(lost) => return Err(DrainRecvFailed(lost)), chunks;
      }
      i := i + 1;
    }
    if s.sending.Some? { return Err(SendFailed(s.sending.value)), chunks; }
    var stop, raw;
    stop, raw, chunks := CollectOutput(s.collect, marker, streaming, s.written);
    if stop == Unwritten { return Err(WriteFailed(s.writeLost)), chunks; }
    slot.id := None;
    if stop.Other? {
      match stop.reading {
        case Closed(code) => return Ok(Executed(Trim(raw), code, false)), chunks;
        case TerminalError(lost) => return Err(ExecTerminalError(lost)), chunks;
        case RecvFails(lost) => return Err(ExecRecvFailed(lost)), chunks;
      }
    }
    var (stdout, exitCode) := ParseExecOutput(raw, marker);
    return Ok(Executed(stdout, exitCode, stop == Deadline)), chunks;
  }

  /** The whole exec, from terminal to reply: a transcript that arrives in any chunks gives back the complete
      output lines, did not time out, and gives the right exit code if and only if no chunk ends inside its
      digits; the client has then been shown exactly the text that was parsed. */
  lemma ExecDelivers(s: ExecScript, command: string, marker: string, output: string, code: nat, prompt: string)
    requires IsMarker(marker) && Clean(output, marker) && code <= I32_MAX
    requires forall k :: 0 <= k <= |command| ==> !OccursAt(command, marker, k)
    requires s.opening.Opens? && |DataRun(s.drain)| == |s.drain| && s.sending.None?
    requires |s.collect| <= s.written && Join(DataRun(s.collect)) == Transcript(command, marker, output, code, prompt)
    ensures var r := Outcome(s, marker, true); var chunks := DataRun(s.collect);
            var p := DigitsStart(command, marker, output);
            && r.Ok? && r.value.stdout == TrimEnd(CompleteLines(output)) && !r.value.timedOut
            && (r.value.exitCode == code <==> !ChunkEndsInside(chunks, p, p + |Decimal(code)|))
            && Join(Streamed(s, marker, true)) == Collected([], chunks, marker)
  {
    hide Scan, Collected, Taken, ParseExecOutput, Trim, TrimEnd, Clean, Decimal, Join, ChunkEndsInside, DigitsStart;
    var datas := DataRun(s.collect);
    ExecAnswer(command, marker, output, code, prompt, datas);
    CollectedAnswer(command, marker, output, code, prompt, datas);
    ChunkingIrrelevant(datas, marker);
    TakenJoins([], datas, marker);
  }

  // ----- How an exec ends, script by script -----

  function AsData(ds: seq<string>): (rs: seq<Reading>)
    ensures |rs| == |ds| && forall i :: 0 <= i < |ds| ==> rs[i] == Data(ds[i])
  {
    if ds == [] then [] else [Data(ds[0])] + AsData(ds[1..])
  }

  lemma {:induction false} DataBefore(ds: seq<string>, rest: seq<Reading>)
    requires rest != [] ==> !rest[0].Data?
    ensures DataRun(AsData(ds) + rest) == ds
  {
    if ds == [] {
      assert AsData(ds) + rest == rest;
    } else {
      DataBefore(ds[1..], rest);
      var more := AsData(ds[1..]);
      assert AsData(ds) == [Data(ds[0])] + more;
      hide AsData;
      ConcatAssociative([Data(ds[0])], more, rest);
      DataFirst(ds[0], more + rest);
      assert [ds[0]] + ds[1..] == ds;
    }
  }

  lemma DataFirst(d: string, rest: seq<Reading>)
    ensures DataRun([Data(d)] + rest) == [d] + DataRun(rest)
  {
    assert ([Data(d)] + rest)[1..] == rest;
  }

  /** `text` is `raw` without the white space at its ends. */
  ghost predicate Stripped(raw: string, text: string) {
    exists i, j :: 0 <= i <= j <= |raw| && StrippedAt(raw, text, i, j)
  }

  predicate StrippedAt(raw: string, text: string, i: nat, j: nat)
    requires i <= j <= |raw|
  {
    && text == raw[i..j]
    && (forall k :: 0 <= k < i ==> IsSpace(raw[k])) && (forall k :: j <= k < |raw| ==> IsSpace(raw[k]))
    && (text != [] ==> !IsSpace(text[0]) && !IsSpace(text[|text| - 1]))
  }

  lemma StripFront(raw: string, text: string)
    requires raw != [] && IsSpace(raw[0]) && Stripped(raw[1..], text)
    ensures Stripped(raw, text)
  {
    hide IsSpace;
    var rest := raw[1..];
    var i, j :| 0 <= i <= j <= |rest| && StrippedAt(rest, text, i, j);
    assert forall k :: 0 < k < |raw| ==> raw[k] == rest[k - 1];
    assert raw[i + 1..j + 1] == rest[i..j];
    assert StrippedAt(raw, text, i + 1, j + 1);
  }

  lemma StripBack(raw: string, text: string)
    requires raw != [] && IsSpace(raw[|raw| - 1]) && Stripped(raw[..|raw| - 1], text)
    ensures Stripped(raw, text)
  {
    hide IsSpace;
    var rest := raw[..|raw| - 1];
    var i, j :| 0 <= i <= j <= |rest| && StrippedAt(rest, text, i, j);
    assert raw[i..j] == rest[i..j];
    assert StrippedAt(raw, text, i, j);
  }

  lemma StripNothing(raw: string)
    requires raw != [] ==> !IsSpace(raw[0]) && !IsSpace(raw[|raw| - 1])
    ensures Stripped(raw, raw)
  {
    assert raw[0..|raw|] == raw;
    assert StrippedAt(raw, raw, 0, |raw|);
  }

  lemma {:induction false} TrimStrips(raw: string)
    ensures Stripped(raw, Trim(raw))
  {
    hide Stripped, IsSpace;
    if raw == [] || (!IsSpace(raw[0]) && !IsSpace(raw[|raw| - 1])) {
      StripNothing(raw);
    } else if IsSpace(raw[0]) {
      TrimStrips(raw[1..]);
      StripFront(raw, Trim(raw[1..]));
    } else {
      TrimStrips(raw[..|raw| - 1]);
      StripBack(raw, Trim(raw[..|raw| - 1]));
    }
  }

  /** The terminal opened under `id`, its banner passed, and the command went out. */
  predicate CommandSent(s: ExecScript, id: string, banner: seq<string>) {
    s.opening == Opens(id) && s.drain == AsData(banner) && s.sending == None
  }

  /** The data shows no sentinel, so all of it is collected; `rest` begins with something else. */
  lemma CollectsAll(s: ExecScript, marker: string, id: string, banner: seq<string>, ds: seq<string>, rest: seq<Reading>)
    requires marker != [] && CommandSent(s, id, banner) && s.collect == AsData(ds) + rest
    requires (rest != [] ==> !rest[0].Data?) && Scan(Join(ds), marker, 0).None?
    ensures DataRun(s.drain) == banner && DataRun(s.collect) == ds
    ensures |s.drain| == |banner| && |s.collect| == |ds| + |rest|
    ensures Collected([], ds, marker) == Join(ds) && Taken([], ds, marker) == |ds|
    ensures rest != [] ==> s.collect[|ds|] == rest[0]
  {
    hide Scan, Taken, Collected, Join, AsData, DataRun;
    DataBefore(ds, rest);
    DataBefore(banner, []);
    AsDataLength(ds, banner);
    assert AsData(banner) + [] == AsData(banner);
    ChunkingIrrelevant(ds, marker);
    NeverShown(ds, marker);
  }

  lemma NeverShown(ds: seq<string>, marker: string)
    requires marker != [] && Scan(Join(ds), marker, 0).None?
    ensures Taken([], ds, marker) == |ds|
  {
    hide Scan, Taken, Collected, Join;
    var n := Taken([], ds, marker);
    if n < |ds| {
      ShownWhenStopped([], ds, marker);
      JoinGrows(ds, n, |ds|);
      assert ds[..|ds|] == ds;
      var part, all := Join(ds[..n]), Join(ds);
      assert [] + part == part && part + all[|part|..] == all;
      ScanStable(part, all[|part|..], marker, 0);
    }
  }

  /** Stopping early means that the sentinel is there. */
  lemma {:induction false} ShownWhenStopped(held: string, chunks: seq<string>, marker: string)
    requires marker != [] && Taken(held, chunks, marker) < |chunks|
    ensures Scan(held + Join(chunks[..Taken(held, chunks, marker)]), marker, 0).Some?
    decreases |chunks|
  {
    hide Scan;
    var more, n := held + chunks[0], Taken(held, chunks, marker);
    JoinFirst(chunks, n);
    ConcatAssociative(held, chunks[0], Join(chunks[1..][..n - 1]));
    if Scan(more, marker, 0).Some? {
      assert chunks[1..][..0] == [] && more + [] == more;
    } else {
      ShownWhenStopped(more, chunks[1..], marker);
    }
  }

  /** The terminal closes before the sentinel: the reply has its exit code and the text so far without the white
      space around it, and no service id stays. */
  lemma ExecClosed(
    s: ExecScript, marker: string, streaming: bool, id: string, banner: seq<string>, ds: seq<string>, code: int,
    rest: seq<Reading>, before: Option<string>)
    requires marker != [] && CommandSent(s, id, banner) && s.collect == AsData(ds) + ([Closed(code)] + rest)
    requires Scan(Join(ds), marker, 0).None? && (streaming ==> |ds| <= s.written)
    ensures var r := Outcome(s, marker, streaming);
            && r.Ok? && r.value.exitCode == code && !r.value.timedOut && Stripped(Join(ds), r.value.stdout)
            && IdAfter(before, s.opening, r) == None
    ensures Streamed(s, marker, streaming) == if streaming then ds else []
  {
    hide Scan, Taken, Collected, Join, AsData, DataRun, ParseExecOutput, Trim;
    CollectsAll(s, marker, id, banner, ds, [Closed(code)] + rest);
    TrimStrips(Join(ds));
    assert ds[..|ds|] == ds;
  }

  lemma AsDataLength(ds: seq<string>, banner: seq<string>)
    ensures |AsData(ds)| == |ds| && |AsData(banner)| == |banner|
  {
  }

  /** The deadline passes before the sentinel: a timeout, the code -1, and the text so far. */
  lemma ExecTimedOut(
    s: ExecScript, marker: string, streaming: bool, id: string, banner: seq<string>, ds: seq<string>,
    before: Option<string>)
    requires marker != [] && CommandSent(s, id, banner) && s.collect == AsData(ds)
    requires Scan(Join(ds), marker, 0).None? && (streaming ==> |ds| <= s.written)
    ensures var r := Outcome(s, marker, streaming);
            && r.Ok? && r.value.exitCode == -1 && r.value.timedOut && Stripped(Join(ds), r.value.stdout)
            && IdAfter(before, s.opening, r) == None
  {
    hide Scan, Taken, Collected, Join, AsData, DataRun, Trim;
    assert AsData(ds) + [] == AsData(ds);
    CollectsAll(s, marker, id, banner, ds, []);
    TrimStrips(Join(ds));
  }

  /** The terminal reports an error after the command was sent, or receiving fails: the error of that phase, and no
      service id stays. */
  lemma ExecFails(
    s: ExecScript, marker: string, streaming: bool, id: string, banner: seq<string>, ds: seq<string>, lost: bool,
    rest: seq<Reading>, before: Option<string>)
    requires marker != [] && CommandSent(s, id, banner)
    requires Scan(Join(ds), marker, 0).None? && (streaming ==> |ds| <= s.written)
    ensures s.collect == AsData(ds) + ([TerminalError(lost)] + rest) ==>
              && Outcome(s, marker, streaming) == Err(ExecTerminalError(lost))
              && IdAfter(before, s.opening, Outcome(s, marker, streaming)) == None
    ensures s.collect == AsData(ds) + ([RecvFails(lost)] + rest) ==>
              && Outcome(s, marker, streaming) == Err(ExecRecvFailed(lost))
              && IdAfter(before, s.opening, Outcome(s, marker, streaming)) == None
  {
    hide Scan, Taken, Collected, Join, AsData, DataRun, ParseExecOutput, Trim;
    if s.collect == AsData(ds) + ([TerminalError(lost)] + rest) {
      CollectsAll(s, marker, id, banner, ds, [TerminalError(lost)] + rest);
    }
    if s.collect == AsData(ds) + ([RecvFails(lost)] + rest) {
      CollectsAll(s, marker, id, banner, ds, [RecvFails(lost)] + rest);
    }
  }

  /** The client takes no more chunks: the exec fails and leaves the id. */
  lemma ExecNotWritten(
    s: ExecScript, marker: string, id: string, banner: seq<string>, ds: seq<string>, rest: seq<Reading>,
    before: Option<string>)
    requires marker != [] && CommandSent(s, id, banner) && s.collect == AsData(ds) + rest
    requires (rest != [] ==> !rest[0].Data?) && Scan(Join(ds), marker, 0).None? && s.written < |ds|
    ensures var r := Outcome(s, marker, true);
            r == Err(WriteFailed(s.writeLost)) && IdAfter(before, s.opening, r) == Some(id)
    ensures Streamed(s, marker, true) == ds[..s.written]
  {
    hide Scan, Taken, Collected, Join, AsData, DataRun, ParseExecOutput, Trim;
    CollectsAll(s, marker, id, banner, ds, rest);
  }

  /** During the drain: a close ends the exec with its code and no text; a terminal error clears the id, a receive
      error leaves it. */
  lemma ExecEndsInDrain(
    s: ExecScript, marker: string, streaming: bool, id: string, banner: seq<string>, stop: Reading,
    rest: seq<Reading>, before: Option<string>)
    requires marker != [] && s.opening == Opens(id) && s.drain == AsData(banner) + ([stop] + rest) && !stop.Data?
    ensures var r := Outcome(s, marker, streaming); var after := IdAfter(before, s.opening, r);
            match stop {
              case Closed(code) => r == Ok(Executed([], code, false)) && after == None
              case TerminalError(lost) => r == Err(DrainTerminalError(lost)) && after == None
              case RecvFails(lost) => r == Err(DrainRecvFailed(lost)) && after == Some(id)
            }
    ensures Streamed(s, marker, streaming) == []
  {
    hide Scan, Taken, Collected, Join, AsData, DataRun, ParseExecOutput, Trim;
    DataBefore(banner, [stop] + rest);
    AsDataLength(banner, banner);
    assert s.drain[|banner|] == stop;
  }

  /** A terminal that does not open leaves the id as it was, and a timeout counts as a lost connection; a command
      that cannot be sent leaves the new id. */
  lemma ExecNotStarted(s: ExecScript, marker: string, streaming: bool, before: Option<string>)
    requires marker != []
    ensures var r := Outcome(s, marker, streaming); var after := IdAfter(before, s.opening, r);
            match s.opening {
              case OpenFails(lost) => r == Err(OpenFailed(lost)) && ShouldReconnect(r.error) == lost && after == before
              case OpenTimesOut => r == Err(OpenTimedOut) && ShouldReconnect(r.error) && after == before
              case Opens(id) =>
                (forall i :: 0 <= i < |s.drain| ==> s.drain[i].Data?) && s.sending.Some? ==>
                  && r == Err(SendFailed(s.sending.value)) && ShouldReconnect(r.error) == s.sending.value
                  && after == Some(id)
            }
  {
    hide Scan, Taken, Collected, ParseExecOutput, Trim;
  }

  // ----- The interactive shell -----

  /** A line of the client to be sent on, the end of its lines, output to be written to it, or the end of the
      terminal. A failure says whether it reads like a lost connection. */
  datatype ShellEvent =
    | Line(failure: Option<bool>)
    | LinesEnd
    | Output(failure: Option<bool>)
    | TerminalEnds

  datatype ShellScript = ShellScript(opening: Opening, ack: Option<bool>, events: seq<ShellEvent>)

  predicate GoesOn(e: ShellEvent) {
    (e.Line? || e.Output?) && e.failure.None?
  }

  /** How the shell ends: by the first event that does not go on, or with the client's lines. */
  function EventsEnd(events: seq<ShellEvent>): Result<(), Fault> {
    if events == [] || events[0].LinesEnd? || events[0].TerminalEnds? then Ok(())
    else if GoesOn(events[0]) then EventsEnd(events[1..])
    else if events[0].Line? then Err(SendFailed(events[0].failure.value))
    else Err(WriteFailed(events[0].failure.value))
  }

  function ShellOutcome(s: ShellScript): Result<(), Fault> {
    match s.opening
    case OpenFails(lost) => Err(OpenFailed(lost))
    case OpenTimesOut => Err(OpenTimedOut)
    case Opens(_) => if s.ack.Some? then Err(WriteFailed(s.ack.value)) else EventsEnd(s.events)
  }

  function IdAfterShell(before: Option<string>, s: ShellScript): Option<string> {
    if ShellOutcome(s).Ok? then None
    else if s.opening.Opens? then Some(s.opening.serviceId)
    else before
  }

  /** The first event that ends the shell, if any. */
  ghost predicate ShellEndsAt(events: seq<ShellEvent>, n: nat) {
    n <= |events| && (n < |events| ==> !GoesOn(events[n])) && forall i :: 0 <= i < n ==> GoesOn(events[i])
  }

  /** A shell ends well if and only if what ends it is the end of lines or of the terminal; what fails before
      that, fails it. */
  lemma {:induction false} ShellEndsWellIff(events: seq<ShellEvent>, n: nat)
    requires ShellEndsAt(events, n)
    ensures EventsEnd(events).Ok? <==> n < |events| ==> events[n].LinesEnd? || events[n].TerminalEnds?
    ensures n < |events| && (events[n].Line? || events[n].Output?) ==>
              EventsEnd(events).Err? && ShouldReconnect(EventsEnd(events).error) == events[n].failure.value
  {
    if n > 0 {
      assert GoesOn(events[0]);
      assert forall i :: 0 <= i < n - 1 ==> events[1..][i] == events[i + 1];
      ShellEndsWellIff(events[1..], n - 1);
    }
  }

  /** The shell session. A success leaves no service id; a failure after the terminal was opened leaves that
      terminal's id. */
  method ShellSession(slot: ServiceSlot, s: ShellScript) returns (r: Result<(), Fault>)
    modifies slot
    ensures r == ShellOutcome(s)
    ensures slot.id == IdAfterShell(old(slot.id), s)
    ensures r.Ok? ==> slot.id == None
    ensures r.Err? ==> slot.id == if s.opening.Opens? then Some(s.opening.serviceId) else old(slot.id)
  {
    match s.opening {
      case OpenFails(lost) => return Err(OpenFailed(lost));
      case OpenTimesOut => return Err(OpenTimedOut);
      case Opens(serviceId) => slot.id := Some(serviceId);
    }
    if s.ack.Some? { return Err(WriteFailed(s.ack.value)); }
    var i := 0;
    assert s.events[0..] == s.events;
    while i < |s.events|
      invariant i <= |s.events| && EventsEnd(s.events) == EventsEnd(s.events[i..])
      invariant slot.id == Some(s.opening.serviceId)
    {
      assert s.events[i..][1..] == s.events[i + 1..];
      match s.events[i] {
        case Line(failure) => if failure.Some? { return Err(SendFailed(failure.value)); }
        case Output(failure) => if failure.Some? { return Err(WriteFailed(failure.value)); }
        case LinesEnd =>
          slot.id := None;
          return Ok(());
        case TerminalEnds =>
          slot.id := None;
          return Ok(());
      }
      i := i + 1;
    }
    slot.id := None;
    return Ok(());
  }
}
