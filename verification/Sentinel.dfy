/** The search for the sentinel that ends a remote command: the marker text followed by a digit. The
    shell first echoes the command that prints the marker, so occurrences not followed by a digit are
    passed over, a whole marker length at a time. */
module Sentinel {
  import opened Common

  predicate IsDigit(c: char) {
    '0' <= c <= '9'
  }

  predicate OccursAt(raw: string, pat: string, p: nat) {
    p + |pat| <= |raw| && raw[p..p + |pat|] == pat
  }

  /** `str::find` on the text from `from` on, as an absolute position: the leftmost occurrence. */
  function Find(raw: string, pat: string, from: nat): (r: Option<nat>)
    requires from <= |raw|
    ensures r.Some? ==> from <= r.value <= |raw| - |pat| && OccursAt(raw, pat, r.value)
    decreases |raw| - from
  {
    if OccursAt(raw, pat, from) then Some(from)
    else if from < |raw| then Find(raw, pat, from + 1)
    else None
  }

  lemma {:induction false} FindIsLeftmost(raw: string, pat: string, from: nat, q: nat)
    requires from <= q && from <= |raw|
    requires Find(raw, pat, from).Some? ==> q < Find(raw, pat, from).value
    ensures !OccursAt(raw, pat, q)
    decreases |raw| - from
  {
    if from < q && from < |raw| { FindIsLeftmost(raw, pat, from + 1, q); }
  }

  /** An occurrence of the marker with a digit right after it. */
  predicate HitAt(raw: string, marker: string, p: nat) {
    OccursAt(raw, marker, p) && p + |marker| < |raw| && IsDigit(raw[p + |marker|])
  }

  /** The left-to-right scan that resumes after each occurrence it rejects. */
  function Scan(raw: string, marker: string, from: nat): (r: Option<nat>)
    requires marker != [] && from <= |raw|
    ensures r.Some? ==> from <= r.value < |raw| - |marker| && HitAt(raw, marker, r.value)
    decreases |raw| - from
  {
    match Find(raw, marker, from)
    case None => None
    case Some(p) => if HitAt(raw, marker, p) then Some(p) else Scan(raw, marker, p + |marker|)
  }

  lemma ScanStep(raw: string, marker: string, from: nat)
    requires marker != [] && from <= |raw|
    ensures var f := Find(raw, marker, from);
            Scan(raw, marker, from) ==
            if f.None? || HitAt(raw, marker, f.value) then f else Scan(raw, marker, f.value + |marker|)
  {
    hide Find, OccursAt;
  }

  method FindSentinelOutput(raw: string, marker: string) returns (r: Option<nat>)
    requires marker != []
    ensures r == Scan(raw, marker, 0)
  {
    hide Scan, Find, OccursAt;
    var searchFrom := 0;
    var pos := Find(raw, marker, searchFrom);
    while pos.Some?
      invariant searchFrom <= |raw| && pos == Find(raw, marker, searchFrom)
      invariant Scan(raw, marker, searchFrom) == Scan(raw, marker, 0)
      decreases |raw| - searchFrom
    {
      ScanStep(raw, marker, searchFrom);
      var after := raw[pos.value + |marker|..];
      if after != [] && IsDigit(after[0]) { return Some(pos.value); }
      searchFrom := pos.value + |marker|;
      pos := Find(raw, marker, searchFrom);
    }
    ScanStep(raw, marker, searchFrom);
    return None;
  }

  // ----- The answer does not depend on how the text arrives -----

  lemma {:induction false} FindUnique(raw: string, pat: string, from: nat, p: nat)
    requires from <= p && OccursAt(raw, pat, p)
    requires forall q :: from <= q < p ==> !OccursAt(raw, pat, q)
    ensures Find(raw, pat, from) == Some(p)
    decreases p - from
  {
    if from < p { FindUnique(raw, pat, from + 1, p); }
  }

  lemma OccursInExtension(raw: string, ext: string, pat: string, p: nat)
    requires p + |pat| <= |raw|
    ensures OccursAt(raw + ext, pat, p) <==> OccursAt(raw, pat, p)
  {
    assert (raw + ext)[p..p + |pat|] == raw[p..p + |pat|];
  }

  lemma FindExtends(raw: string, ext: string, pat: string, from: nat)
    requires from <= |raw| && Find(raw, pat, from).Some?
    ensures Find(raw + ext, pat, from) == Find(raw, pat, from)
  {
    var p := Find(raw, pat, from).value;
    hide Find, OccursAt;
    OccursInExtension(raw, ext, pat, p);
    forall q | from <= q < p ensures !OccursAt(raw + ext, pat, q) {
      OccursInExtension(raw, ext, pat, q);
      FindIsLeftmost(raw, pat, from, q);
    }
    FindUnique(raw + ext, pat, from, p);
  }

  lemma HitInExtension(raw: string, ext: string, marker: string, p: nat)
    requires p + |marker| < |raw|
    ensures HitAt(raw + ext, marker, p) <==> HitAt(raw, marker, p)
  {
    OccursInExtension(raw, ext, marker, p);
  }

  /** Once found, the sentinel stays found at the same place whatever text follows. */
  lemma {:induction false} ScanStable(raw: string, ext: string, marker: string, from: nat)
    requires marker != [] && from <= |raw|
    requires Scan(raw, marker, from).Some?
    ensures Scan(raw + ext, marker, from) == Scan(raw, marker, from)
    decreases |raw| - from
  {
    hide Scan, Find, OccursAt, HitAt;
    ScanStep(raw, marker, from);
    ScanStep(raw + ext, marker, from);
    var p := Find(raw, marker, from).value;
    assert p + |marker| < |raw|;
    FindExtends(raw, ext, marker, from);
    HitInExtension(raw, ext, marker, p);
    if !HitAt(raw, marker, p) {
      ScanStable(raw, ext, marker, p + |marker|);
    }
  }

  lemma {:induction false} ScanOfPrefix(raw: string, m: nat, marker: string, from: nat)
    requires marker != [] && from <= m <= |raw|
    requires Scan(raw, marker, from).Some? && Scan(raw, marker, from).value + |marker| < m
    ensures Scan(raw[..m], marker, from) == Scan(raw, marker, from)
    decreases |raw| - from
  {
    hide Scan, Find, OccursAt, HitAt;
    ScanStep(raw, marker, from);
    ScanStep(raw[..m], marker, from);
    var q := Find(raw, marker, from).value;
    assert raw[..m] + raw[m..] == raw;
    forall k | from <= k < q ensures !OccursAt(raw[..m], marker, k) {
      OccursInExtension(raw[..m], raw[m..], marker, k);
      FindIsLeftmost(raw, marker, from, k);
    }
    OccursInExtension(raw[..m], raw[m..], marker, q);
    FindUnique(raw[..m], marker, from, q);
    HitInExtension(raw[..m], raw[m..], marker, q);
    if !HitAt(raw, marker, q) {
      ScanOfPrefix(raw, m, marker, q + |marker|);
    }
  }

  /** A prefix of the text shows the sentinel exactly when it reaches past the marker to the digit, and
      then at the same position. */
  lemma PrefixShowsSentinel(raw: string, m: nat, marker: string)
    requires marker != [] && m <= |raw|
    ensures var whole := Scan(raw, marker, 0);
            Scan(raw[..m], marker, 0) == if whole.Some? && whole.value + |marker| < m then whole else None
  {
    var part := Scan(raw[..m], marker, 0);
    if part.Some? {
      assert raw[..m] + raw[m..] == raw;
      ScanStable(raw[..m], raw[m..], marker, 0);
    }
    if Scan(raw, marker, 0).Some? && Scan(raw, marker, 0).value + |marker| < m {
      ScanOfPrefix(raw, m, marker, 0);
    }
  }

  function Join(chunks: seq<string>): string {
    if chunks == [] then [] else chunks[0] + Join(chunks[1..])
  }

  /** The text collected from arriving chunks: the loop stops after the chunk that completes the sentinel. */
  function Collected(held: string, chunks: seq<string>, marker: string): string
    requires marker != []
    decreases |chunks|
  {
    if chunks == [] then held
    else
      var more := held + chunks[0];
      if Scan(more, marker, 0).Some? then more else Collected(more, chunks[1..], marker)
  }

  lemma {:induction false} CollectedIsPrefix(held: string, chunks: seq<string>, marker: string)
    requires marker != [] && Scan(held, marker, 0).None?
    ensures var c := Collected(held, chunks, marker); var all := held + Join(chunks);
            && c <= all
            && (Scan(c, marker, 0).None? ==> c == all)
    decreases |chunks|
  {
    if chunks == [] {
      assert held + Join(chunks) == held;
    } else {
      var more := held + chunks[0];
      assert held + Join(chunks) == more + Join(chunks[1..]);
      if Scan(more, marker, 0).None? { CollectedIsPrefix(more, chunks[1..], marker); }
    }
  }

  /** However the same text is cut into chunks, the collected text is a prefix of it in which the sentinel
      stands where it stands in the whole text; without a sentinel everything is collected. */
  lemma ChunkingIrrelevant(chunks: seq<string>, marker: string)
    requires marker != []
    ensures var all := Join(chunks); var c := Collected([], chunks, marker);
            && c <= all
            && Scan(c, marker, 0) == Scan(all, marker, 0)
            && (Scan(all, marker, 0).None? ==> c == all)
  {
    var all, c := Join(chunks), Collected([], chunks, marker);
    assert Scan([], marker, 0).None?;
    CollectedIsPrefix([], chunks, marker);
    assert [] + all == all;
    assert c == all[..|c|];
    PrefixShowsSentinel(all, |c|, marker);
  }

  /** How many chunks the collection takes before it sees the sentinel. */
  function Taken(held: string, chunks: seq<string>, marker: string): (n: nat)
    requires marker != []
    ensures n <= |chunks|
    decreases |chunks|
  {
    if chunks == [] then 0
    else
      var more := held + chunks[0];
      if Scan(more, marker, 0).Some? then 1 else 1 + Taken(more, chunks[1..], marker)
  }

  lemma {:induction false} TakenJoins(held: string, chunks: seq<string>, marker: string)
    requires marker != []
    ensures Collected(held, chunks, marker) == held + Join(chunks[..Taken(held, chunks, marker)])
    decreases |chunks|
  {
    if chunks != [] {
      var more := held + chunks[0];
      var n := Taken(held, chunks, marker);
      assert chunks[..n][0] == chunks[0] && chunks[..n][1..] == chunks[1..][..n - 1];
      if Scan(more, marker, 0).None? { TakenJoins(more, chunks[1..], marker); }
    }
  }

  /** Before the last chunk taken the sentinel is not there. */
  lemma {:induction false} NotYetShown(held: string, chunks: seq<string>, marker: string, i: nat)
    requires marker != [] && i < Taken(held, chunks, marker) && Scan(held, marker, 0).None?
    ensures Scan(held + Join(chunks[..i]), marker, 0).None?
    decreases |chunks|
  {
    hide Scan;
    if i == 0 {
      assert held + Join(chunks[..0]) == held;
    } else {
      var more := held + chunks[0];
      NotYetShown(more, chunks[1..], marker, i - 1);
      JoinFirst(chunks, i);
      ConcatAssociative(held, chunks[0], Join(chunks[1..][..i - 1]));
    }
  }

  lemma JoinFirst(chunks: seq<string>, i: nat)
    requires 0 < i <= |chunks|
    ensures Join(chunks[..i]) == chunks[0] + Join(chunks[1..][..i - 1])
  {
    assert chunks[..i][0] == chunks[0] && chunks[..i][1..] == chunks[1..][..i - 1];
  }

  /** Fewer chunks make a prefix of the text of more chunks. */
  lemma {:induction false} JoinGrows(chunks: seq<string>, i: nat, j: nat)
    requires i <= j <= |chunks|
    ensures Join(chunks[..i]) <= Join(chunks[..j])
  {
    if i > 0 {
      JoinFirst(chunks, i);
      JoinFirst(chunks, j);
      JoinGrows(chunks[1..], i - 1, j - 1);
    }
  }

  /** Some chunk ends inside the text between `p` and `q`. */
  predicate ChunkEndsInside(chunks: seq<string>, p: nat, q: nat) {
    exists i :: 0 <= i <= |chunks| && p < |Join(chunks[..i])| < q
  }

  /** The collected text reaches `d` characters past the sentinel if and only if no chunk ends inside these. */
  lemma CollectedReachesIff(chunks: seq<string>, marker: string, p: nat, d: nat)
    requires marker != [] && Scan(Join(chunks), marker, 0).Some?
    requires p == Scan(Join(chunks), marker, 0).value + |marker|
    ensures |Collected([], chunks, marker)| >= p + d <==> !ChunkEndsInside(chunks, p, p + d)
  {
    hide Scan, Collected, Taken, Join;
    var all, n, c := Join(chunks), Taken([], chunks, marker), Collected([], chunks, marker);
    TakenJoins([], chunks, marker);
    assert [] + Join(chunks[..n]) == Join(chunks[..n]);
    ChunkingIrrelevant(chunks, marker);
    assert all[..|c|] == c;
    PrefixShowsSentinel(all, |c|, marker);
    assert p < |c|;
    forall i | 0 <= i <= |chunks| ensures if i < n then |Join(chunks[..i])| <= p else |Join(chunks[..i])| >= |c| {
      if i < n {
        ShortOfSentinel(chunks, marker, i);
      } else {
        JoinGrows(chunks, n, i);
      }
    }
  }

  lemma ShortOfSentinel(chunks: seq<string>, marker: string, i: nat)
    requires marker != [] && i < Taken([], chunks, marker) && Scan(Join(chunks), marker, 0).Some?
    ensures |Join(chunks[..i])| <= Scan(Join(chunks), marker, 0).value + |marker|
  {
    hide Scan, Taken, Join;
    ScanNothing(marker);
    var all, part := Join(chunks), Join(chunks[..i]);
    NotYetShown([], chunks, marker, i);
    assert [] + part == part;
    JoinGrows(chunks, i, |chunks|);
    assert chunks[..|chunks|] == chunks;
    assert all[..|part|] == part;
    PrefixShowsSentinel(all, |part|, marker);
  }

  lemma ScanNothing(marker: string)
    requires marker != []
    ensures Scan([], marker, 0).None?
  {
  }

  // ----- When the scan finds the least hit -----

  ghost predicate IsLeastHit(raw: string, marker: string, r: Option<nat>) {
    && (r.Some? ==> HitAt(raw, marker, r.value))
    && (forall q :: 0 <= q && (r.Some? ==> q < r.value) ==> !HitAt(raw, marker, q))
  }

  /** A proper border: the last `b` characters of the marker are also its first `b`. */
  predicate Border(marker: string, b: nat) {
    0 < b < |marker| && marker[|marker| - b..] == marker[..b]
  }

  /** Wherever the marker overlaps itself, the overlapping copy continues with a digit. */
  predicate BordersEndInDigit(marker: string) {
    forall b :: 0 < b < |marker| ==> Border(marker, b) ==> IsDigit(marker[b])
  }

  /** A hit inside a rejected occurrence would be an overlap that continues without a digit. */
  lemma NoHitInsideRejected(raw: string, marker: string, p: nat, h: nat)
    requires OccursAt(raw, marker, p) && !HitAt(raw, marker, p)
    requires p < h < p + |marker| && HitAt(raw, marker, h)
    ensures !BordersEndInDigit(marker)
  {
    var b := p + |marker| - h;
    assert marker[|marker| - b..] == raw[h..p + |marker|];
    assert marker[..b] == raw[h..h + |marker|][..b];
    assert Border(marker, b);
    assert raw[p + |marker|] == raw[h..h + |marker|][b] == marker[b];
  }

  lemma {:induction false} ScanIsLeastFrom(raw: string, marker: string, from: nat)
    requires marker != [] && from <= |raw| && BordersEndInDigit(marker)
    requires forall q :: 0 <= q < from ==> !HitAt(raw, marker, q)
    ensures IsLeastHit(raw, marker, Scan(raw, marker, from))
    decreases |raw| - from
  {
    hide Scan, Find, OccursAt, BordersEndInDigit;
    ScanStep(raw, marker, from);
    var f := Find(raw, marker, from);
    forall q | from <= q && (f.Some? ==> q < f.value) ensures !HitAt(raw, marker, q) {
      FindIsLeftmost(raw, marker, from, q);
    }
    if f.Some? && !HitAt(raw, marker, f.value) {
      var next := f.value + |marker|;
      forall q | f.value < q < next ensures !HitAt(raw, marker, q) {
        if HitAt(raw, marker, q) { NoHitInsideRejected(raw, marker, f.value, q); }
      }
      ScanIsLeastFrom(raw, marker, next);
    }
  }

  /** The marker, preceded by the part of it that makes an overlapping copy, followed by a digit. */
  function Overlapped(marker: string, b: nat): string
    requires Border(marker, b)
  {
    marker[..|marker| - b] + marker + "0"
  }

  lemma OverlappedOccurrences(marker: string, b: nat)
    requires Border(marker, b)
    ensures var raw := Overlapped(marker, b);
            && OccursAt(raw, marker, 0) && raw[|marker|] == marker[b]
            && HitAt(raw, marker, |marker| - b)
  {
    var raw, d := Overlapped(marker, b), |marker| - b;
    assert marker == marker[..d] + marker[d..];
    assert raw[..|marker|] == marker[..d] + marker[..b];
    assert raw[d..d + |marker|] == marker;
  }

  /** A marker that overlaps itself without a digit hides a hit behind a rejected occurrence. */
  lemma OverlapHidesHit(marker: string, b: nat)
    requires Border(marker, b) && !IsDigit(marker[b])
    ensures var raw := Overlapped(marker, b); !IsLeastHit(raw, marker, Scan(raw, marker, 0))
  {
    var raw := Overlapped(marker, b);
    OverlappedOccurrences(marker, b);
    FindUnique(raw, marker, 0, 0);
    hide Overlapped, OccursAt, Border;
    assert Scan(raw, marker, 0) == Scan(raw, marker, |marker|);
  }

  /** The scan gives the least hit on every text if and only if the marker overlaps itself only where the
      overlap continues with a digit; in particular whenever it does not overlap itself at all. */
  lemma ScanLeastIff(marker: string)
    requires marker != []
    ensures (forall raw: string :: IsLeastHit(raw, marker, Scan(raw, marker, 0))) <==> BordersEndInDigit(marker)
  {
    if BordersEndInDigit(marker) {
      forall raw: string ensures IsLeastHit(raw, marker, Scan(raw, marker, 0)) {
        ScanIsLeastFrom(raw, marker, 0);
      }
    } else {
      var b :| 0 < b < |marker| && Border(marker, b) && !IsDigit(marker[b]);
      OverlapHidesHit(marker, b);
    }
  }

  /** The sentinel of the source: a fixed head, hexadecimal digits of a timestamp, two underscores. */
  function MarkerFor(hex: string): string {
    "__RDCLI_" + hex + "__"
  }

  /** Every sentinel the source makes overlaps itself by its underscores, so its scan can miss the least
      hit: a stray first part of the marker in front of the real one hides it. */
  lemma SourceMarkerOverlaps(hex: string)
    ensures Border(MarkerFor(hex), 2) && !BordersEndInDigit(MarkerFor(hex))
    ensures exists raw: string :: !IsLeastHit(raw, MarkerFor(hex), Scan(raw, MarkerFor(hex), 0))
  {
    var m := MarkerFor(hex);
    assert m[|m| - 2..] == "__" == m[..2];
    assert m[2] == 'R';
    assert Border(m, 2);
    OverlapHidesHit(m, 2);
  }
}
