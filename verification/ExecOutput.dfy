/** Parsing the terminal transcript of a remote command into its output and exit code. */
module ExecOutput {
  import opened Common
  import opened Sentinel

  // ----- Decimal numbers -----

  predicate AllDigits(ds: string) {
    forall i :: 0 <= i < |ds| ==> IsDigit(ds[i])
  }

  /** The number a string of decimal digits denotes. */
  function Value(ds: string): nat
    requires AllDigits(ds)
  {
    if ds == [] then 0
    else 10 * Value(ds[..|ds| - 1]) + (ds[|ds| - 1] - '0') as nat
  }

  /** How the shell prints a number: no leading zero. */
  function Decimal(n: nat): (ds: string)
    ensures ds != [] && AllDigits(ds)
  {
    var last := ('0' as int + n % 10) as char;
    if n < 10 then [last] else Decimal(n / 10) + [last]
  }

  lemma {:induction false} DecimalDenotes(n: nat)
    ensures Value(Decimal(n)) == n
    ensures n > 0 ==> Decimal(n)[0] != '0'
    ensures |Decimal(n)| == 1 <==> n < 10
  {
    var ds := Decimal(n);
    var last := ('0' as int + n % 10) as char;
    if n >= 10 {
      DecimalDenotes(n / 10);
      assert ds[..|ds| - 1] == Decimal(n / 10);
    } else {
      assert ds[..0] == [];
    }
  }

  /** Without a leading zero, every digit cut off the end makes the number smaller. */
  lemma {:induction false} CutDigitsShrink(ds: string, k: nat)
    requires AllDigits(ds) && 0 < k < |ds| && ds[0] != '0'
    ensures AllDigits(ds[..k]) && 0 < Value(ds[..k]) < Value(ds)
  {
    var shorter := ds[..|ds| - 1];
    if k == |ds| - 1 {
      FirstDigitCounts(shorter);
    } else {
      CutDigitsShrink(shorter, k);
      assert shorter[..k] == ds[..k];
    }
  }

  lemma {:induction false} FirstDigitCounts(ds: string)
    requires AllDigits(ds) && ds != [] && ds[0] != '0'
    ensures Value(ds) > 0
  {
    if |ds| > 1 {
      FirstDigitCounts(ds[..|ds| - 1]);
    } else {
      assert ds[..0] == [];
    }
  }

  // ----- The parser -----

  /** `take_while(is_ascii_digit)`. */
  function LeadingDigits(s: string): (ds: string)
    ensures AllDigits(ds) && ds <= s
    ensures |ds| < |s| ==> !IsDigit(s[|ds|])
  {
    if s == [] || !IsDigit(s[0]) then [] else [s[0]] + LeadingDigits(s[1..])
  }

  /** `parse::<i32>().unwrap_or(-1)` of a digit string. */
  function CodeOf(ds: string): int
    requires AllDigits(ds)
  {
    if ds != [] && Value(ds) <= I32_MAX then Value(ds) else -1
  }

  predicate IsSpace(c: char) {
    c == ' ' || '\t' <= c <= '\r'
  }

  function Trim(s: string): string {
    if s == [] then []
    else if IsSpace(s[0]) then Trim(s[1..])
    else if IsSpace(s[|s| - 1]) then Trim(s[..|s| - 1])
    else s
  }

  /** `trim_end_matches(['\r', '\n'])`. */
  function TrimEnd(s: string): string {
    if s != [] && (s[|s| - 1] == '\r' || s[|s| - 1] == '\n') then TrimEnd(s[..|s| - 1]) else s
  }

  /** One past the last newline, or zero: where the last line begins. */
  function LastLineStart(s: string): (n: nat)
    ensures n <= |s|
  {
    if s == [] then 0 else if s[|s| - 1] == '\n' then |s| else LastLineStart(s[..|s| - 1])
  }

  function EchoCommand(marker: string): string {
    "echo '" + marker + "'"
  }

  /** Where the real output begins: after the line that echoes the marker command. */
  function OutputStart(raw: string, marker: string): (n: nat)
    ensures n <= |raw|
  {
    match Find(raw, EchoCommand(marker), 0)
    case None => 0
    case Some(pos) => (match Find(raw, "\n", pos) case None => 0 case Some(newline) => newline + 1)
  }

  function ParseExecOutput(raw: string, marker: string): (string, int)
    requires marker != []
  {
    match Scan(raw, marker, 0)
    case None => (Trim(raw), -1)
    case Some(p) =>
      var code := CodeOf(LeadingDigits(raw[p + |marker|..]));
      var start, lineStart := OutputStart(raw, marker), LastLineStart(raw[..p]);
      (if start < lineStart then TrimEnd(raw[start..lineStart]) else [], code)
  }

  // ----- When more text can no longer change the exit code -----

  lemma {:induction false} LeadingDigitsExtend(s: string, ext: string)
    ensures |LeadingDigits(s)| < |s| ==> LeadingDigits(s + ext) == LeadingDigits(s)
    ensures |LeadingDigits(s)| == |s| ==> LeadingDigits(s + ext) == s + LeadingDigits(ext)
  {
    if s == [] {
      assert s + ext == ext;
    } else {
      assert (s + ext)[1..] == s[1..] + ext;
      LeadingDigitsExtend(s[1..], ext);
    }
  }

  /** Digits at the front of a text keep their value under every extension exactly when a non-digit follows
      them, or they already overflow 32 bits. */
  lemma DigitsSettledIff(after: string)
    requires after != [] && IsDigit(after[0])
    ensures (forall ext: string :: CodeOf(LeadingDigits(after + ext)) == CodeOf(LeadingDigits(after)))
       <==> |LeadingDigits(after)| < |after| || Value(LeadingDigits(after)) > I32_MAX
  {
    var ds := LeadingDigits(after);
    hide CodeOf, LeadingDigits, Value;
    assert ds != [];
    assert |ds| == |after| ==> ds == after;
    if |ds| < |after| || Value(ds) > I32_MAX {
      forall ext: string ensures CodeOf(LeadingDigits(after + ext)) == CodeOf(ds) {
        LeadingDigitsExtend(after, ext);
        if |ds| == |after| { StaysTooLarge(ds, LeadingDigits(ext)); }
      }
    } else {
      OneMoreNine(ds);
      assert CodeOf(LeadingDigits(after + "9")) != CodeOf(ds);
    }
  }

  /** The exit code is the number of the digits behind the sentinel, or -1 if that exceeds 32 bits or there is no
      sentinel. */
  lemma ExitCodeOf(raw: string, marker: string)
    requires marker != []
    ensures ParseExecOutput(raw, marker).1
         == match Scan(raw, marker, 0) {
              case None => -1
              case Some(p) =>
                var ds := LeadingDigits(raw[p + |marker|..]);
                if Value(ds) <= 0x7FFF_FFFF then Value(ds) else -1
            }
  {
    hide Scan, OutputStart, LastLineStart, TrimEnd, Trim, Value;
  }

  /** The exit code of a text that shows the sentinel stays the same under every extension exactly when a
      non-digit follows its digits, or they already overflow 32 bits. */
  lemma ExitCodeSettledIff(raw: string, marker: string)
    requires marker != [] && Scan(raw, marker, 0).Some?
    ensures var after := raw[Scan(raw, marker, 0).value + |marker|..]; var ds := LeadingDigits(after);
            (forall ext: string :: ParseExecOutput(raw + ext, marker).1 == ParseExecOutput(raw, marker).1)
            <==> |ds| < |after| || Value(ds) > I32_MAX
  {
    hide ParseExecOutput, Scan, CodeOf, LeadingDigits, Value;
    var after := raw[Scan(raw, marker, 0).value + |marker|..];
    ExitAfterExtension(raw, [], marker);
    assert raw + [] == raw && after + [] == after;
    DigitsSettledIff(after);
    forall ext: string
      ensures ParseExecOutput(raw + ext, marker).1 == CodeOf(LeadingDigits(after + ext))
    {
      ExitAfterExtension(raw, ext, marker);
    }
  }

  lemma StaysTooLarge(ds: string, more: string)
    requires AllDigits(ds) && AllDigits(more) && Value(ds) > I32_MAX
    ensures CodeOf(ds + more) == CodeOf(ds)
  {
    ValueGrows(ds, more);
  }

  lemma ExitAfterExtension(raw: string, ext: string, marker: string)
    requires marker != [] && Scan(raw, marker, 0).Some?
    ensures var after := raw[Scan(raw, marker, 0).value + |marker|..];
            ParseExecOutput(raw + ext, marker).1 == CodeOf(LeadingDigits(after + ext))
  {
    hide Scan, OutputStart, LastLineStart, LeadingDigits;
    ScanStable(raw, ext, marker, 0);
    var n := Scan(raw, marker, 0).value + |marker|;
    assert (raw + ext)[n..] == raw[n..] + ext;
  }

  /** A digit that arrives late changes the code. */
  lemma OneMoreNine(ds: string)
    requires AllDigits(ds) && LeadingDigits(ds) == ds != [] && Value(ds) <= I32_MAX
    ensures CodeOf(LeadingDigits(ds + "9")) != CodeOf(ds)
  {
    LeadingDigitsExtend(ds, "9");
    assert LeadingDigits("9") == "9" by { assert "9"[1..] == []; }
    assert (ds + "9")[..|ds|] == ds;
  }

  lemma {:induction false} ValueGrows(ds: string, more: string)
    requires AllDigits(ds) && AllDigits(more)
    ensures AllDigits(ds + more) && Value(ds) <= Value(ds + more)
  {
    if more == [] {
      assert ds + more == ds;
    } else {
      ValueGrows(ds, more[..|more| - 1]);
      assert (ds + more)[..|ds + more| - 1] == ds + more[..|more| - 1];
    }
  }

  // ----- The transcript and its inverse -----

  /** The shape of a marker: it begins with an underscore and consists of word characters. */
  predicate IsMarker(m: string) {
    && m != [] && m[0] == '_'
    && forall c <- m :: c == '_' || 'A' <= c <= 'Z' || 'a' <= c <= 'z' || IsDigit(c)
  }

  /** `text` holds no copy of the marker, not even one that the marker after it would complete. */
  predicate Clean(text: string, marker: string) {
    forall k :: 0 <= k < |text| ==> !OccursAt(text + marker, marker, k)
  }

  function BeforeEcho(command: string): string {
    command + "\r\n" + "echo '"
  }

  function AfterEcho(output: string): string {
    "'$?\r\n" + output
  }

  /** What the terminal shows: the echoed command, the echoed marker command, the command's output, the
      marker with the exit code, and the next prompt. */
  function Transcript(command: string, marker: string, output: string, code: nat, prompt: string): string {
    BeforeEcho(command) + marker + (AfterEcho(output) + marker + (Decimal(code) + "\r\n" + prompt))
  }

  lemma FindAfterClean(text: string, pat: string, rest: string)
    requires Clean(text, pat) && pat != []
    ensures Find(text + pat + rest, pat, 0) == Some(|text|)
  {
    var raw := text + pat + rest;
    assert raw == (text + pat) + rest;
    assert raw[|text|..|text| + |pat|] == pat;
    forall q | 0 <= q < |text| ensures !OccursAt(raw, pat, q) {
      OccursInExtension(text + pat, rest, pat, q);
    }
    FindUnique(raw, pat, 0, |text|);
  }

  lemma OccursShifted(front: string, raw: string, pat: string, q: nat)
    ensures OccursAt(front + raw, pat, |front| + q) <==> OccursAt(raw, pat, q)
  {
    if q + |pat| <= |raw| {
      assert (front + raw)[|front| + q..|front| + q + |pat|] == raw[q..q + |pat|];
    }
  }

  lemma FindShifted(front: string, raw: string, pat: string)
    requires Find(raw, pat, 0).Some?
    ensures Find(front + raw, pat, |front|) == Some(|front| + Find(raw, pat, 0).value)
  {
    hide Find, OccursAt;
    var p := Find(raw, pat, 0).value;
    OccursShifted(front, raw, pat, p);
    forall q | |front| <= q < |front| + p ensures !OccursAt(front + raw, pat, q) {
      OccursShifted(front, raw, pat, q - |front|);
      FindIsLeftmost(raw, pat, 0, q - |front|);
    }
    FindUnique(front + raw, pat, |front|, |front| + p);
  }

  lemma FindBehind(raw: string, front: string, b: string, back: string, rest: string, marker: string)
    requires marker != [] && Clean(b, marker)
    requires back == b + marker + rest && raw == front + back
    ensures Find(raw, marker, |front|) == Some(|front| + |b|)
  {
    hide Find, OccursAt, Clean;
    FindAfterClean(b, marker, rest);
    FindShifted(front, back, marker);
  }

  /** A marker without a digit after it, then one with: the scan answers the second. */
  lemma ScanSecond(raw: string, a: string, b: string, back: string, rest: string, marker: string)
    requires marker != [] && Clean(a, marker) && Clean(b, marker)
    requires b != [] && !IsDigit(b[0]) && rest != [] && IsDigit(rest[0])
    requires back == b + marker + rest && raw == a + marker + back
    ensures Scan(raw, marker, 0) == Some(|a| + |marker| + |b|)
  {
    hide Scan, Find, OccursAt, Clean;
    FindAfterClean(a, marker, back);
    FindBehind(raw, a + marker, b, back, rest, marker);
    ScanTwice(raw, marker, |a|, |a| + |marker| + |b|);
  }

  lemma ScanTwice(raw: string, marker: string, p: nat, q: nat)
    requires marker != [] && p + |marker| <= q && q + |marker| < |raw|
    requires Find(raw, marker, 0) == Some(p) && Find(raw, marker, p + |marker|) == Some(q)
    requires !IsDigit(raw[p + |marker|]) && IsDigit(raw[q + |marker|])
    ensures Scan(raw, marker, 0) == Some(q)
  {
    hide Scan, Find, OccursAt;
    ScanStep(raw, marker, 0);
    ScanStep(raw, marker, p + |marker|);
  }

  lemma Differs(raw: string, pat: string, k: nat, i: nat)
    requires i < |pat| && k + i < |raw| && raw[k + i] != pat[i]
    ensures !OccursAt(raw, pat, k)
  {
    if k + |pat| <= |raw| { assert raw[k..k + |pat|][i] == raw[k + i]; }
  }

  lemma BeforeEchoClean(command: string, marker: string)
    requires IsMarker(marker)
    requires forall k :: 0 <= k <= |command| ==> !OccursAt(command, marker, k)
    ensures Clean(BeforeEcho(command), marker)
  {
    var a := BeforeEcho(command);
    var tail := "\r\n" + "echo '";
    assert a == command + tail && forall c <- tail :: c != '_';
    assert forall c <- marker :: c != '\r';
    forall k | 0 <= k < |a| ensures !OccursAt(a + marker, marker, k) {
      if k >= |command| {
        assert a[k] == tail[k - |command|] && tail[k - |command|] in tail;
        Differs(a + marker, marker, k, 0);
      } else if k + |marker| <= |command| {
        assert a + marker == command + (tail + marker);
        OccursInExtension(command, tail + marker, marker, k);
      } else {
        var i := |command| - k;
        assert (a + marker)[k + i] == '\r' && marker[i] in marker;
        Differs(a + marker, marker, k, i);
      }
    }
  }

  lemma AfterEchoClean(output: string, marker: string)
    requires IsMarker(marker) && Clean(output, marker)
    ensures Clean(AfterEcho(output), marker)
  {
    var head := "'$?\r\n";
    var b := AfterEcho(output);
    assert forall c <- head :: c != '_';
    assert b + marker == head + (output + marker);
    forall k | 0 <= k < |b| ensures !OccursAt(b + marker, marker, k) {
      if k < |head| {
        assert (b + marker)[k] == head[k] && head[k] in head;
        Differs(b + marker, marker, k, 0);
      } else {
        OccursShifted(head, output + marker, marker, k - |head|);
      }
    }
  }

  predicate IsBreak(c: char) {
    c == '\r' || c == '\n'
  }

  /** Output that ends in a line break cannot run into the marker: nothing but the marker's own text is a copy
      of it. */
  lemma CompleteLinesClean(output: string, marker: string)
    requires IsMarker(marker)
    requires forall k :: 0 <= k <= |output| ==> !OccursAt(output, marker, k)
    requires output == [] || IsBreak(output[|output| - 1])
    ensures Clean(output, marker)
  {
    forall k | 0 <= k < |output| ensures !OccursAt(output + marker, marker, k) {
      if k + |marker| <= |output| {
        OccursInExtension(output, marker, marker, k);
      } else {
        var i := |output| - 1 - k;
        assert IsBreak((output + marker)[k + i]) && marker[i] in marker;
        Differs(output + marker, marker, k, i);
      }
    }
  }

  /** The echoed marker command cannot stand before its place: it would bring the marker with it. */
  lemma EchoCommandFirst(raw: string, command: string, marker: string, rest: string)
    requires marker != [] && Clean(BeforeEcho(command), marker)
    requires raw == command + "\r\n" + EchoCommand(marker) + rest
    ensures Find(raw, EchoCommand(marker), 0) == Some(|command| + 2)
  {
    var text, pat := command + "\r\n", EchoCommand(marker);
    var whole := text + pat;
    assert whole == (BeforeEcho(command) + marker) + "'";
    forall k | 0 <= k < |text| ensures !OccursAt(whole, pat, k) {
      OccursInExtension(BeforeEcho(command) + marker, "'", marker, k + 6);
      if k + |pat| <= |whole| {
        assert pat[6..6 + |marker|] == marker;
        assert whole[k + 6..k + 6 + |marker|] == whole[k..k + |pat|][6..6 + |marker|];
      }
    }
    FindAfterClean(text, pat, rest);
  }

  /** The marker command's line ends right before the output. */
  lemma OutputStartsAfterEcho(raw: string, command: string, marker: string, output: string, rest: string)
    requires IsMarker(marker) && Clean(BeforeEcho(command), marker)
    requires raw == BeforeEcho(command) + marker + (AfterEcho(output) + rest)
    ensures OutputStart(raw, marker) == |BeforeEcho(command)| + |marker| + 5
  {
    hide Clean, Find;
    var end := "$?\r\n" + output + rest;
    assert raw == command + "\r\n" + EchoCommand(marker) + end;
    EchoCommandFirst(raw, command, marker, end);
    var front, line := command + "\r\n", EchoCommand(marker) + "$?\r";
    assert raw == front + line + ("\n" + (output + rest));
    FirstNewline(raw, front, line, output + rest, marker);
  }

  lemma FirstNewline(raw: string, front: string, line: string, rest: string, marker: string)
    requires IsMarker(marker) && line == EchoCommand(marker) + "$?\r"
    requires raw == front + line + ("\n" + rest)
    ensures Find(raw, "\n", |front|) == Some(|front| + |line|)
  {
    var n := |front| + |line|;
    forall q | |front| <= q < n ensures !OccursAt(raw, "\n", q) {
      var i := q - |front|;
      assert raw[q] == line[i];
      assert 6 <= i < 6 + |marker| ==> line[i] == marker[i - 6] && line[i] in marker;
      Differs(raw, "\n", q, 0);
    }
    assert raw[n..n + 1] == "\n";
    FindUnique(raw, "\n", |front|, n);
  }

  lemma {:induction false} LastLineStartAfter(front: string, s: string)
    requires front != [] && front[|front| - 1] == '\n'
    ensures LastLineStart(front + s) == |front| + LastLineStart(s)
  {
    if s == [] {
      assert front + s == front;
    } else {
      LastLineStartAfter(front, s[..|s| - 1]);
      assert (front + s)[..|front + s| - 1] == front + s[..|s| - 1];
    }
  }

  /** The part of the output that is made of complete lines. */
  function CompleteLines(output: string): string {
    output[..LastLineStart(output)]
  }

  /** What the parser makes of a transcript, of which at least one exit digit has arrived: the complete
      lines of the output without the line breaks that end them, and the number its digits denote. */
  lemma ParseTranscript(raw: string, command: string, marker: string, output: string, tail: string)
    requires IsMarker(marker) && Clean(output, marker)
    requires forall k :: 0 <= k <= |command| ==> !OccursAt(command, marker, k)
    requires tail != [] && IsDigit(tail[0])
    requires raw == BeforeEcho(command) + marker + (AfterEcho(output) + marker + tail)
    ensures Scan(raw, marker, 0) == Some(|BeforeEcho(command)| + |marker| + |AfterEcho(output)|)
    ensures ParseExecOutput(raw, marker) == (TrimEnd(CompleteLines(output)), CodeOf(LeadingDigits(tail)))
  {
    hide Scan, Clean, LastLineStart, OutputStart, LeadingDigits, ParseExecOutput;
    var a, b := BeforeEcho(command), AfterEcho(output);
    var after, back, front := marker + tail, b + marker + tail, a + marker + "'$?\r\n";
    BeforeEchoClean(command, marker);
    AfterEchoClean(output, marker);
    ScanSecond(raw, a, b, back, tail, marker);
    assert back == b + after;
    OutputStartsAfterEcho(raw, command, marker, output, after);
    assert raw == front + output + after;
    assert front[|front| - 1] == '\n';
    ParseParts(raw, front, output, marker, tail);
  }

  lemma ParseParts(raw: string, front: string, output: string, marker: string, tail: string)
    requires marker != [] && front != [] && front[|front| - 1] == '\n'
    requires raw == front + output + (marker + tail)
    requires Scan(raw, marker, 0) == Some(|front| + |output|) && OutputStart(raw, marker) == |front|
    ensures ParseExecOutput(raw, marker) == (TrimEnd(CompleteLines(output)), CodeOf(LeadingDigits(tail)))
  {
    hide Scan, LastLineStart, OutputStart, LeadingDigits, ParseExecOutput, TrimEnd, CodeOf;
    var n := LastLineStart(output);
    SplitTranscript(raw, front, output, marker, tail, n);
    LastLineStartAfter(front, output);
    ParseWith(raw, marker, |front| + |output|, |front|, |front| + n);
  }

  /** A terminal that does not echo: without the echoed marker command the output is taken from the start. */
  lemma WithoutEcho(raw: string, output: string, marker: string, tail: string)
    requires IsMarker(marker) && Clean(output, marker) && tail != [] && IsDigit(tail[0])
    requires raw == output + marker + tail
    requires forall k :: 0 <= k <= |raw| ==> !OccursAt(raw, EchoCommand(marker), k)
    ensures ParseExecOutput(raw, marker) == (TrimEnd(CompleteLines(output)), CodeOf(LeadingDigits(tail)))
  {
    hide Clean, LastLineStart, LeadingDigits, TrimEnd, CodeOf, Scan, Find, ParseExecOutput;
    FindAfterClean(output, marker, tail);
    ScanStep(raw, marker, 0);
    assert raw[|output| + |marker|..] == tail && raw[..|output|] == output;
    var n := LastLineStart(output);
    assert raw[0..n] == output[..n];
    ParseWith(raw, marker, |output|, 0, n);
  }

  lemma SplitTranscript(raw: string, front: string, output: string, marker: string, tail: string, n: nat)
    requires raw == front + output + (marker + tail) && n <= |output|
    ensures var p := |front| + |output|;
            && raw[p + |marker|..] == tail && raw[..p] == front + output
            && raw[|front|..|front| + n] == output[..n]
  {
  }

  lemma ParseWith(raw: string, marker: string, p: nat, start: nat, lineStart: nat)
    requires marker != [] && Scan(raw, marker, 0) == Some(p)
    requires OutputStart(raw, marker) == start <= lineStart == LastLineStart(raw[..p])
    ensures ParseExecOutput(raw, marker)
         == (TrimEnd(raw[start..lineStart]), CodeOf(LeadingDigits(raw[p + |marker|..])))
  {
    hide Scan, OutputStart, LastLineStart, TrimEnd, LeadingDigits, CodeOf;
    TrimEndNothing();
    assert start == lineStart ==> raw[start..lineStart] == [];
  }

  lemma TrimEndNothing()
    ensures TrimEnd([]) == []
  {
  }

  lemma {:induction false} DigitsThenBreak(ds: string, prompt: string)
    requires AllDigits(ds)
    ensures LeadingDigits(ds + "\r\n" + prompt) == ds
  {
    if ds != [] {
      DigitsThenBreak(ds[1..], prompt);
      assert (ds + "\r\n" + prompt)[1..] == ds[1..] + "\r\n" + prompt;
    }
  }

  /** The parser inverts the transcript: it gives back the complete lines and exactly the exit code. */
  lemma TranscriptInverted(command: string, marker: string, output: string, code: nat, prompt: string)
    requires IsMarker(marker) && Clean(output, marker) && code <= I32_MAX
    requires forall k :: 0 <= k <= |command| ==> !OccursAt(command, marker, k)
    ensures ParseExecOutput(Transcript(command, marker, output, code, prompt), marker)
         == (TrimEnd(CompleteLines(output)), code)
  {
    var tail := Decimal(code) + "\r\n" + prompt;
    ParseTranscript(Transcript(command, marker, output, code, prompt), command, marker, output, tail);
    DigitsThenBreak(Decimal(code), prompt);
    DecimalDenotes(code);
  }

  predicate OnlyReturns(s: string) {
    forall c <- s :: c == '\r'
  }

  lemma {:induction false} TrimEndOfPartialLine(lines: string, rest: string)
    requires forall c <- rest :: c != '\n'
    ensures TrimEnd(lines + rest) == TrimEnd(lines) <==> OnlyReturns(rest)
  {
    if rest == [] {
      assert lines + rest == lines;
    } else {
      var shorter := rest[..|rest| - 1];
      assert (lines + rest)[..|lines + rest| - 1] == lines + shorter;
      if rest[|rest| - 1] == '\r' {
        assert forall c <- shorter :: c in rest;
        TrimEndOfPartialLine(lines, shorter);
        assert forall c <- rest :: c in shorter || c == '\r';
      } else {
        TrimEndShorter(lines);
        assert rest[|rest| - 1] in rest;
      }
    }
  }

  lemma {:induction false} TrimEndShorter(s: string)
    ensures |TrimEnd(s)| <= |s|
  {
    if s != [] { TrimEndShorter(s[..|s| - 1]); }
  }

  lemma {:induction false} AfterLastLineStart(s: string)
    ensures forall c <- s[LastLineStart(s)..] :: c != '\n'
  {
    if s != [] && s[|s| - 1] != '\n' {
      var shorter := s[..|s| - 1];
      AfterLastLineStart(shorter);
      var n := LastLineStart(shorter);
      assert s[n..] == shorter[n..] + [s[|s| - 1]];
    }
  }

  /** The whole output survives, up to its final line breaks, exactly when nothing but carriage returns
      follows its last newline; a last line without a newline is dropped. */
  lemma OutputKeptIff(output: string)
    ensures TrimEnd(CompleteLines(output)) == TrimEnd(output) <==> OnlyReturns(output[LastLineStart(output)..])
  {
    var n := LastLineStart(output);
    AfterLastLineStart(output);
    assert output[..n] + output[n..] == output;
    TrimEndOfPartialLine(output[..n], output[n..]);
  }

  lemma {:induction false} TrimEndReaches(s: string, i: nat)
    requires i < |s| && !IsBreak(s[i])
    ensures |TrimEnd(s)| > i
  {
    if i < |s| - 1 { TrimEndReaches(s[..|s| - 1], i); }
  }

  lemma {:induction false} LineStartsAfterNewline(s: string)
    ensures LastLineStart(s) > 0 ==> s[LastLineStart(s) - 1] == '\n'
  {
    if s != [] && s[|s| - 1] != '\n' { LineStartsAfterNewline(s[..|s| - 1]); }
  }

  lemma NoNewlineAfter(s: string)
    ensures forall i :: LastLineStart(s) <= i < |s| ==> s[i] != '\n'
  {
    hide LastLineStart;
    AfterLastLineStart(s);
    var n := LastLineStart(s);
    assert forall i :: n <= i < |s| ==> s[n..][i - n] == s[i] && s[i] in s[n..];
  }

  lemma UnfinishedLineCounts(output: string)
    requires !OnlyReturns(output[LastLineStart(output)..])
    ensures |TrimEnd(output)| > LastLineStart(output)
  {
    hide TrimEnd, LastLineStart;
    var n := LastLineStart(output);
    var line := output[n..];
    AfterLastLineStart(output);
    var i :| 0 <= i < |line| && line[i] != '\r';
    assert line[i] in line && output[n + i] == line[i];
    TrimEndReaches(output, n + i);
  }

  /** An unfinished last line is lost wherever the sentinel is taken to be: the text up to the start of a line
      is too short if that line begins within the output, and too long if it begins behind the marker. */
  lemma UnfinishedLineLost(raw: string, front: string, output: string, rest: string, lineStart: nat)
    requires raw == front + output + rest && rest != [] && rest[0] == '_'
    requires |front| < lineStart <= |raw| && raw[lineStart - 1] == '\n'
    requires !OnlyReturns(output[LastLineStart(output)..])
    ensures TrimEnd(raw[|front|..lineStart]) != TrimEnd(output)
  {
    hide TrimEnd, LastLineStart;
    var n, part := LastLineStart(output), raw[|front|..lineStart];
    NoNewlineAfter(output);
    UnfinishedLineCounts(output);
    TrimEndShorter(output);
    TrimEndShorter(part);
    if lineStart <= |front| + |output| {
      var k := lineStart - 1 - |front|;
      assert output[k] == '\n';
      assert k < n;
    } else {
      assert raw[|front| + |output|] == '_';
      TrimEndReaches(part, |output|);
    }
  }

  lemma EndsInBreak(output: string)
    requires OnlyReturns(output[LastLineStart(output)..])
    ensures output == [] || IsBreak(output[|output| - 1])
  {
    hide LastLineStart;
    var n := LastLineStart(output);
    LineStartsAfterNewline(output);
    if n < |output| {
      var line := output[n..];
      assert line[|line| - 1] in line && output[|output| - 1] == line[|line| - 1];
    }
  }

  lemma NotRecovered(command: string, marker: string, output: string, tail: string, raw: string, code: nat)
    requires IsMarker(marker) && raw == BeforeEcho(command) + marker + (AfterEcho(output) + marker + tail)
    requires forall k :: 0 <= k <= |command| ==> !OccursAt(command, marker, k)
    requires !OnlyReturns(output[LastLineStart(output)..])
    ensures ParseExecOutput(raw, marker) != (TrimEnd(output), code)
  {
    hide Clean, LastLineStart, OutputStart, ParseExecOutput, TrimEnd, OnlyReturns;
    var a, rest := BeforeEcho(command), marker + tail;
    var front := a + marker + "'$?\r\n";
    BeforeEchoClean(command, marker);
    assert AfterEcho(output) + marker + tail == AfterEcho(output) + rest;
    OutputStartsAfterEcho(raw, command, marker, output, rest);
    assert raw == front + output + rest;
    NotRecoveredBetween(raw, front, output, rest, marker, code);
  }

  lemma NotRecoveredBetween(raw: string, front: string, output: string, rest: string, marker: string, code: nat)
    requires marker != [] && raw == front + output + rest && rest != [] && rest[0] == '_'
    requires OutputStart(raw, marker) == |front| && !OnlyReturns(output[LastLineStart(output)..])
    ensures ParseExecOutput(raw, marker) != (TrimEnd(output), code)
  {
    hide Scan, LastLineStart, OutputStart, LeadingDigits, TrimEnd, Trim, CodeOf, OnlyReturns;
    UnfinishedLineCounts(output);
    var hit := Scan(raw, marker, 0);
    if hit.Some? {
      var lineStart := LastLineStart(raw[..hit.value]);
      LineStartsAfterNewline(raw[..hit.value]);
      if |front| < lineStart { UnfinishedLineLost(raw, front, output, rest, lineStart); }
    }
  }

  /** The parser gives back the whole output, up to its final line breaks, and the exit code, if and only if
      nothing but carriage returns follows the output's last newline. This holds for every output that does
      not itself show the marker, also one that runs into it. */
  lemma WholeOutputRecoveredIff(command: string, marker: string, output: string, code: nat, prompt: string)
    requires IsMarker(marker) && code <= I32_MAX
    requires forall k :: 0 <= k <= |command| ==> !OccursAt(command, marker, k)
    requires forall k :: 0 <= k <= |output| ==> !OccursAt(output, marker, k)
    ensures ParseExecOutput(Transcript(command, marker, output, code, prompt), marker) == (TrimEnd(output), code)
       <==> OnlyReturns(output[LastLineStart(output)..])
  {
    hide ParseExecOutput, TrimEnd, LastLineStart, Clean, BeforeEcho, AfterEcho, Decimal, OnlyReturns, IsBreak;
    if OnlyReturns(output[LastLineStart(output)..]) {
      EndsInBreak(output);
      CompleteLinesClean(output, marker);
      TranscriptInverted(command, marker, output, code, prompt);
      OutputKeptIff(output);
    } else {
      NotRecovered(command, marker, output, Decimal(code) + "\r\n" + prompt,
                   Transcript(command, marker, output, code, prompt), code);
    }
  }

  /** The promise as the program states it: neither the command nor the output shows the sentinel, and the
      output is empty or ends in a newline. */
  lemma NewlineTerminatedRecovered(command: string, marker: string, output: string, code: nat, prompt: string)
    requires IsMarker(marker) && code <= I32_MAX
    requires forall k :: 0 <= k <= |command| ==> !OccursAt(command, marker, k)
    requires forall k :: 0 <= k <= |output| ==> !OccursAt(output, marker, k)
    requires output == [] || output[|output| - 1] == '\n'
    ensures ParseExecOutput(Transcript(command, marker, output, code, prompt), marker) == (TrimEnd(output), code)
  {
    hide ParseExecOutput, Transcript, TrimEnd;
    WholeOutputRecoveredIff(command, marker, output, code, prompt);
  }

  // ----- From chunks to answer -----

  /** Where the exit digits of a transcript begin. */
  function DigitsStart(command: string, marker: string, output: string): nat {
    |BeforeEcho(command)| + |marker| + |AfterEcho(output)| + |marker|
  }

  lemma CollectedAnswer(command: string, marker: string, output: string, code: nat, prompt: string, chunks: seq<string>)
    requires IsMarker(marker) && Clean(output, marker) && code <= I32_MAX
    requires forall k :: 0 <= k <= |command| ==> !OccursAt(command, marker, k)
    requires Join(chunks) == Transcript(command, marker, output, code, prompt)
    ensures Scan(Join(chunks), marker, 0).Some?
    ensures Scan(Join(chunks), marker, 0).value + |marker| == DigitsStart(command, marker, output)
    ensures var c := Collected([], chunks, marker); var (stdout, exit) := ParseExecOutput(c, marker);
            && stdout == TrimEnd(CompleteLines(output))
            && (exit == code <==> |c| >= DigitsStart(command, marker, output) + |Decimal(code)|)
  {
    hide Scan, Clean, ParseExecOutput, TrimEnd, CodeOf, LeadingDigits, Decimal;
    var c, all := Collected([], chunks, marker), Join(chunks);
    var end := Decimal(code) + "\r\n" + prompt;
    DecimalDenotes(code);
    ParseTranscript(all, command, marker, output, end);
    ChunkingIrrelevant(chunks, marker);
    var x, y := BeforeEcho(command) + marker, AfterEcho(output) + marker;
    var k := |c| - |x| - |y|;
    CutTranscript(all, x, y, end, |c|);
    ParseTranscript(c, command, marker, output, end[..k]);
    ExitOfCutDigits(code, prompt, k);
  }

  /** End to end: however the transcript is cut into chunks, the collected text parses to the complete
      output lines, and to the right exit code if and only if no chunk ends inside the digits. */
  lemma ExecAnswer(command: string, marker: string, output: string, code: nat, prompt: string, chunks: seq<string>)
    requires IsMarker(marker) && Clean(output, marker) && code <= I32_MAX
    requires forall k :: 0 <= k <= |command| ==> !OccursAt(command, marker, k)
    requires Join(chunks) == Transcript(command, marker, output, code, prompt)
    ensures var (stdout, exit) := ParseExecOutput(Collected([], chunks, marker), marker);
            var p := DigitsStart(command, marker, output);
            && stdout == TrimEnd(CompleteLines(output))
            && (exit == code <==> !ChunkEndsInside(chunks, p, p + |Decimal(code)|))
  {
    hide Scan, Clean, ParseExecOutput, TrimEnd, Decimal, Collected, ChunkEndsInside, Transcript, DigitsStart;
    CollectedAnswer(command, marker, output, code, prompt, chunks);
    CollectedReachesIff(chunks, marker, DigitsStart(command, marker, output), |Decimal(code)|);
  }

  lemma CutTranscript(all: string, x: string, y: string, end: string, n: nat)
    requires all == x + (y + end) && |x| + |y| <= n <= |all|
    ensures all[..n] == x + (y + end[..n - |x| - |y|])
  {
  }

  lemma ExitOfCutDigits(code: nat, prompt: string, k: nat)
    requires code <= I32_MAX
    requires 0 < k <= |Decimal(code) + "\r\n" + prompt|
    ensures CodeOf(LeadingDigits((Decimal(code) + "\r\n" + prompt)[..k])) == code <==> k >= |Decimal(code)|
  {
    var ds := Decimal(code);
    var end := ds + "\r\n" + prompt;
    DecimalDenotes(code);
    if k < |ds| {
      assert end[..k] == ds[..k];
      AllLeading(ds[..k]);
      CutDigitsShrink(ds, k);
    } else {
      assert end[..k] + end[k..] == end;
      DigitsThenBreak(ds, prompt);
      LeadingDigitsOfPrefix(end, k);
    }
  }

  lemma {:induction false} AllLeading(ds: string)
    requires AllDigits(ds)
    ensures LeadingDigits(ds) == ds
  {
    if ds != [] {
      AllLeading(ds[1..]);
    }
  }

  lemma {:induction false} LeadingDigitsOfPrefix(s: string, k: nat)
    requires |LeadingDigits(s)| <= k <= |s|
    ensures LeadingDigits(s[..k]) == LeadingDigits(s)
  {
    if k > 0 && IsDigit(s[0]) {
      LeadingDigitsOfPrefix(s[1..], k - 1);
      assert s[..k][1..] == s[1..][..k - 1];
    }
  }

  /** The source's own sentinel is a marker in this sense. */
  lemma SourceMarker(hex: string)
    requires forall c <- hex :: IsDigit(c) || 'a' <= c <= 'f'
    ensures IsMarker(MarkerFor(hex))
  {
    var head, tail := "__RDCLI_", "__";
    forall c | c in MarkerFor(hex) ensures c == '_' || 'A' <= c <= 'Z' || 'a' <= c <= 'z' || IsDigit(c) {
      if c in hex {
      } else if c in tail {
      } else {
        assert c in head;
      }
    }
  }
}
