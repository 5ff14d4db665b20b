/**
 From a plan to the finished file: the loop that fetches a segment, the run over all segments, and
 the merge (internal/service/runner.go:96-351, internal/filestore/filestore.go:50-150).
 */
module Reassembly {
  import opened Text
  import opened Models
  import opened Planner
  import opened ContentRange
  import opened SegmentRunner
  import opened FileStore

  function JobOf(temp: Files, s: Segment, maxRetries: nat): Job
    requires s.start >= 0
  {
    Job(s.start, s.end, |PartOf(temp, s.index)|, maxRetries)
  }

  /** The part file of a segment after a run over a script of replies. */
  function PartAfter(temp: Files, s: Segment, maxRetries: nat, script: seq<Turn>): string
    requires s.start >= 0
  {
    PartOf(temp, s.index) + Flat(Run(JobOf(temp, s, maxRetries), script).chunks)
  }

  /** The run of this segment over this script reports success. */
  predicate Succeeds(temp: Files, s: Segment, maxRetries: nat, script: seq<Turn>)
    requires s.start >= 0
  {
    Run(JobOf(temp, s, maxRetries), script).verdict.Succeeded?
  }

  lemma FlatAppend(before: string, chunks: seq<string>, chunk: string)
    ensures before + Flat(chunks) + chunk == before + Flat(chunks + [chunk])
  {
    assert (chunks + [chunk])[..|chunks|] == chunks;
  }

  /** Fetches a segment. `start` and `existing` are read once, before the loop; the part file is opened
      anew in every pass and written at its end. */
  method DownloadSegment(store: LocalFileStore, s: Segment, maxRetries: nat, probeOpens: bool, script: seq<Turn>)
    returns (verdict: Verdict)
    requires s.start >= 0
    modifies store`temp
    ensures if probeOpens
            then && verdict == Run(JobOf(old(store.temp), s, maxRetries), script).verdict
                 && store.temp == old(store.temp)[PartName(s.index) := PartAfter(old(store.temp), s, maxRetries, script)]
            else verdict == GaveUp && store.temp == old(store.temp)
  {
    ghost var part, was := PartOf(store.temp, s.index), store.temp;
    var start := s.start;
    var probe := store.OpenSegmentWriter(s.index, probeOpens);
    if probe.None? {
      return GaveUp;
    }
    var existing := probe.value;
    if existing > 0 {
      start := start + existing;
    }
    verdict := Attempts(store, s, existing, start, maxRetries, script, part);
    assert store.temp == was[PartName(s.index) := PartAfter(was, s, maxRetries, script)];
  }

  /** The loop over the replies. */
  method Attempts(store: LocalFileStore, s: Segment, existing: nat, start: nat, maxRetries: nat, script: seq<Turn>,
                  ghost part: string) returns (verdict: Verdict)
    requires s.start >= 0 && start == s.start + existing
    requires PartName(s.index) in store.temp && store.temp[PartName(s.index)] == part
    modifies store`temp
    ensures var p := Run(Job(s.start, s.end, existing, maxRetries), script);
            verdict == p.verdict && store.temp == old(store.temp)[PartName(s.index) := part + Flat(p.chunks)]
  {
    ghost var was := store.temp;
    ghost var job := Job(s.start, s.end, existing, maxRetries);
    var p := Progress(Running, 0, []);
    assert part + Flat([]) == part;
    var i := 0;
    while i < |script| && p.verdict.Running?
      invariant i <= |script| && PartName(s.index) in store.temp
      invariant store.temp == was[PartName(s.index) := part + Flat(p.chunks)]
      invariant Run(job, script[..i]) == p
      decreases |script| - i
    {
      assert script[..i + 1] == script[..i] + [script[i]];
      RunStep(job, script[..i], script[i]);
      p := OnePass(store, s, existing, start, maxRetries, p, script[i], part, job);
      i := i + 1;
    }
    assert script[..|script|] == script;
    if !p.verdict.Running? {
      StoppedStays(job, script, i);
    }
    verdict := p.verdict;
  }

  /** One pass of the loop; of the chunks, the part file keeps only what they add up to. */
  method OnePass(store: LocalFileStore, s: Segment, existing: nat, start: nat, maxRetries: nat, p: Progress,
                 turn: Turn, ghost part: string, ghost job: Job) returns (q: Progress)
    requires s.start >= 0 && start == s.start + existing && job == Job(s.start, s.end, existing, maxRetries)
    requires PartName(s.index) in store.temp && store.temp[PartName(s.index)] == part + Flat(p.chunks)
    modifies store`temp
    ensures q == Pass(job, p, turn)
    ensures store.temp == old(store.temp)[PartName(s.index) := part + Flat(q.chunks)]
  {
    if turn.ContextDone? {
      return p.(verdict := Interrupted);
    }
    var attempts := p.attempts;
    if turn.reply.NetworkError? || turn.reply.OddStatus? {
      attempts := attempts + 1;
      if attempts > maxRetries {
        // `return err`, and the error is nil for an odd status
        return p.(attempts := attempts, verdict := if turn.reply.NetworkError? then GaveUp else Succeeded);
      }
      return p.(attempts := attempts, verdict := Running);
    }
    if turn.reply.Partial? && Mismatch(turn.reply.contentRange, start, s.end) {
      attempts := attempts + 1;
      return p.(attempts := attempts);
    }
    var writer := store.OpenSegmentWriter(s.index, turn.opens);
    if writer.None? {
      return p.(verdict := GaveUp);
    }
    q := AppendReply(store, s, existing, start, maxRetries, p, turn.reply, part, job);
  }

  /** The part of a pass that reaches the part file. */
  method AppendReply(store: LocalFileStore, s: Segment, existing: nat, start: nat, maxRetries: nat, p: Progress,
                     reply: Reply, ghost part: string, ghost job: Job) returns (q: Progress)
    requires s.start >= 0 && start == s.start + existing && job == Job(s.start, s.end, existing, maxRetries)
    requires PartName(s.index) in store.temp && store.temp[PartName(s.index)] == part + Flat(p.chunks)
    requires reply.Whole? || reply.Partial?
    modifies store`temp
    ensures q == if SkipFails(job, reply) then Retry(job, p) else Append(job, p, reply)
    ensures store.temp == old(store.temp)[PartName(s.index) := part + Flat(q.chunks)]
  {
    var attempts, chunks := p.attempts, p.chunks;
    var copy := CopyBody(store, s.index, start, s.end, reply, job);
    if copy.Copied? {
      FlatAppend(part, chunks, copy.chunk);
      chunks := chunks + [copy.chunk];
      if !copy.broken && (s.end < 0 || existing + |copy.chunk| == s.end - s.start + 1) {
        return p.(chunks := chunks, verdict := Succeeded);
      }
    }
    attempts := attempts + 1;
    q := Progress(if attempts > maxRetries then GaveUp else Running, attempts, chunks);
  }

  datatype Copy = SkipFailed | Copied(chunk: string, broken: bool)

  /** Skips a whole response forward to the start, cuts it at the end, and writes the rest. */
  method CopyBody(store: LocalFileStore, index: nat, start: nat, end: int, reply: Reply, ghost job: Job)
    returns (copy: Copy)
    requires PartName(index) in store.temp && (reply.Whole? || reply.Partial?) && start == job.Start() && end == job.end
    modifies store`temp
    ensures if SkipFails(job, reply) then copy == SkipFailed && store.temp == old(store.temp)
            else && copy == Copied(Chunk(job, reply), CopyFails(job, reply))
                 && store.temp == old(store.temp)[PartName(index) := old(store.temp)[PartName(index)] + Chunk(job, reply)]
  {
    var reader := reply.body;
    if reply.Whole? {
      if start > 0 && |reader.data| < start {
        return SkipFailed;
      }
      reader := reader.(data := reader.data[start..]);
      if end >= 0 {
        var span := if end - start + 1 < 0 then 0 else end - start + 1;
        if span <= |reader.data| {
          reader := Body(reader.data[..span], false);
        }
      }
    }
    store.Write(index, reader.data);
    copy := Copied(reader.data, reader.broken);
  }

  // ---- All segments ----

  /** What the segments' runs make of their part files. */
  function PartsAfter(temp: Files, segs: seq<Segment>, maxRetries: nat, scripts: seq<seq<Turn>>): (r: seq<string>)
    requires |segs| == |scripts| && forall i | 0 <= i < |segs| :: segs[i].start >= 0
    ensures |r| == |segs| && forall i | 0 <= i < |segs| :: r[i] == PartAfter(temp, segs[i], maxRetries, scripts[i])
  {
    seq(|segs|, i requires 0 <= i < |segs| => PartAfter(temp, segs[i], maxRetries, scripts[i]))
  }

  function PartNames(n: nat): (r: seq<string>)
    ensures |r| == n && forall i | 0 <= i < n :: r[i] == PartName(i)
  {
    seq(n, i requires 0 <= i < n => PartName(i))
  }

  /** A directory after its first k files have been written. */
  function Overlay(files: Files, names: seq<string>, values: seq<string>, k: nat): Files
    requires k <= |names| == |values|
  {
    if k == 0 then files else Overlay(files, names, values, k - 1)[names[k - 1] := values[k - 1]]
  }

  lemma {:induction false} OverlayElsewhere(files: Files, names: seq<string>, values: seq<string>, k: nat, f: string)
    requires k <= |names| == |values| && forall i | 0 <= i < k :: names[i] != f
    ensures f in Overlay(files, names, values, k) <==> f in files
    ensures f in files ==> Overlay(files, names, values, k)[f] == files[f]
  {
    if k > 0 {
      OverlayElsewhere(files, names, values, k - 1, f);
    }
  }

  lemma {:induction false} OverlayAt(files: Files, names: seq<string>, values: seq<string>, k: nat, i: nat)
    requires i < k <= |names| == |values| && forall a, b | 0 <= a < b < |names| :: names[a] != names[b]
    ensures names[i] in Overlay(files, names, values, k) && Overlay(files, names, values, k)[names[i]] == values[i]
  {
    if i < k - 1 {
      OverlayAt(files, names, values, k - 1, i);
    }
  }

  lemma PartNamesDistinct(n: nat)
    ensures forall a, b | 0 <= a < b < n :: PartNames(n)[a] != PartNames(n)[b]
  {
    forall a, b | 0 <= a < b < n ensures PartNames(n)[a] != PartNames(n)[b] { PartNamesDiffer(a, b); }
  }

  lemma PartNamesDiffer(i: nat, j: nat)
    ensures PartName(i) == PartName(j) ==> i == j
  {
    assert PartName(i)[..|PartName(i)| - |PART_SUFFIX|] == Padded(i, NAME_WIDTH);
    assert PartName(j)[..|PartName(j)| - |PART_SUFFIX|] == Padded(j, NAME_WIDTH);
    PaddedInjective(i, j, NAME_WIDTH);
  }

  lemma {:induction false} DigitsValue(zeros: nat, n: nat)
    ensures ParseDigits(Zeros(zeros) + Decimal(n)) == Some(n)
  {
    var s := Zeros(zeros) + Decimal(n);
    if n >= 10 {
      DigitsValue(zeros, n / 10);
      assert s[..|s| - 1] == Zeros(zeros) + Decimal(n / 10);
    } else {
      ZerosValue(zeros);
      assert s[..|s| - 1] == Zeros(zeros);
    }
  }

  lemma {:induction false} ZerosValue(n: nat)
    ensures ParseDigits(Zeros(n)) == Some(0)
  {
    if n > 0 {
      ZerosValue(n - 1);
      assert Zeros(n)[..n - 1] == Zeros(n - 1);
    }
  }

  lemma PaddedInjective(m: nat, n: nat, w: nat)
    ensures Padded(m, w) == Padded(n, w) ==> m == n
  {
    DigitsValue(if |Decimal(m)| < w then w - |Decimal(m)| else 0, m);
    DigitsValue(if |Decimal(n)| < w then w - |Decimal(n)| else 0, n);
    assert Zeros(0) + Decimal(m) == Decimal(m) && Zeros(0) + Decimal(n) == Decimal(n);
  }

  // ---- The order of the parts ----

  const MAX_PARTS := 1_000_000_000

  /** The directory has the first n part files and no other part file. */
  ghost predicate ExactParts(temp: Files, n: nat) {
    && (forall i: nat | i < n :: PartName(i) in temp)
    && (forall f | f in temp && HasSuffix(f, PART_SUFFIX) :: exists i: nat | i < n :: f == PartName(i))
  }

  lemma PartNameOrder(i: nat, j: nat)
    requires i < j < MAX_PARTS
    ensures Less(PartName(i), PartName(j))
  {
    assert Pow10(9) == MAX_PARTS;
    PaddedOrder(i, j, NAME_WIDTH);
    LessByHead(Padded(i, NAME_WIDTH), Padded(j, NAME_WIDTH), PART_SUFFIX, PART_SUFFIX);
  }

  /** Sorting the names puts the parts in index order. */
  lemma PartsInOrder(temp: Files, n: nat)
    requires n <= MAX_PARTS && ExactParts(temp, n)
    ensures Parts(temp) == PartNames(n)
  {
    forall i, j | 0 <= i < j < n ensures Less(PartNames(n)[i], PartNames(n)[j]) { PartNameOrder(i, j); }
    forall f ensures f in Parts(temp) <==> f in PartNames(n) {
      if f in PartNames(n) {
        var i :| 0 <= i < n && PartNames(n)[i] == f;
        assert PartName(i) in temp;
        assert PartName(i)[|PartName(i)| - |PART_SUFFIX|..] == PART_SUFFIX;
      }
      if f in Parts(temp) {
        var i: nat :| i < n && f == PartName(i);
        assert PartNames(n)[i] == f;
      }
    }
    AscendingUnique(Parts(temp), PartNames(n));
  }

  /** From ten digits on the order of the names is no longer the order of the indexes. */
  lemma TenDigitsSortFirst()
    ensures Less(PartName(MAX_PARTS), PartName(MAX_PARTS - 1))
  {
    assert Decimal(1_000_000_000) == "1000000000";
    assert Decimal(999_999_999) == "999999999";
  }

  /** The names of the n part files sort into index order iff there are at most 10^9 of them. */
  lemma PartsInOrderIff(temp: Files, n: nat)
    requires ExactParts(temp, n)
    ensures Parts(temp) == PartNames(n) <==> n <= MAX_PARTS
  {
    if n <= MAX_PARTS {
      PartsInOrder(temp, n);
    } else {
      TenDigitsSortFirst();
      LessTotal(PartName(MAX_PARTS), PartName(MAX_PARTS - 1));
      assert Ascending(Parts(temp));
      assert PartNames(n)[MAX_PARTS - 1] == PartName(MAX_PARTS - 1) && PartNames(n)[MAX_PARTS] == PartName(MAX_PARTS);
    }
  }

  // ---- The merged file ----

  /** The first k parts, one after the other. */
  function PartsUpTo(temp: Files, k: nat): string {
    if k == 0 then "" else PartsUpTo(temp, k - 1) + PartOf(temp, k - 1)
  }

  lemma {:induction false} JoinPartNames(temp: Files, k: nat)
    requires forall i | 0 <= i < k :: PartName(i) in temp
    ensures JoinParts(temp, PartNames(k)) == PartsUpTo(temp, k)
  {
    if k > 0 {
      JoinPartNames(temp, k - 1);
      assert PartNames(k)[..k - 1] == PartNames(k - 1);
    }
  }

  lemma JoinedInOrder(temp: Files, n: nat)
    requires n <= MAX_PARTS && ExactParts(temp, n)
    ensures Joined(temp) == PartsUpTo(temp, n)
  {
    PartsInOrder(temp, n);
    JoinPartNames(temp, n);
  }

  // ---- What each segment is due ----

  lemma SegmentBounds(id: string, length: nat, n: nat, i: nat)
    requires length > 0 && i < n
    ensures var s := SegmentAt(id, length, n, i);
            && s.start >= 0
            && (s.end >= 0 ==> s.start <= s.end < length)
            && (n <= length ==> s.end >= 0)
            && (length < n ==> s.start == 0 && s.end == if i == n - 1 then length - 1 else -1)
  {
    ProductsBounded(length, n, i);
    if n <= length {
      PlanIsTiling(id, length, n, i);
    } else {
      assert length / n == 0;
    }
  }

  /** What the part of the i-th segment has to hold for the merge to be right: its slice, or nothing at
      all when its end is unknown, for then the last segment is to fetch everything. */
  function Due(content: string, id: string, n: nat, i: nat): string
    requires content != "" && i < n
  {
    SegmentBounds(id, |content|, n, i);
    var s := SegmentAt(id, |content|, n, i);
    if s.end >= 0 then Slice(content, s) else ""
  }

  function Dues(content: string, id: string, n: nat, k: nat): string
    requires content != "" && k <= n
  {
    if k == 0 then "" else Dues(content, id, n, k - 1) + Due(content, id, n, k - 1)
  }

  lemma {:induction false} DuesOfLongContent(content: string, id: string, n: nat, k: nat)
    requires k <= n <= |content| && content != ""
    ensures Dues(content, id, n, k) == Slices(content, id, n, k)
  {
    if k > 0 {
      DuesOfLongContent(content, id, n, k - 1);
      SegmentBounds(id, |content|, n, k - 1);
    }
  }

  lemma {:induction false} DuesOfShortContent(content: string, id: string, n: nat, k: nat)
    requires k < n && 0 < |content| < n
    ensures Dues(content, id, n, k) == ""
  {
    if k > 0 {
      DuesOfShortContent(content, id, n, k - 1);
      SegmentBounds(id, |content|, n, k - 1);
    }
  }

  /** For every length and every number of connections, the dues in index order are the content. */
  lemma DuesCoverContent(content: string, id: string, n: nat)
    requires content != "" && n > 0
    ensures Dues(content, id, n, n) == content
  {
    if n <= |content| {
      DuesOfLongContent(content, id, n, n);
      PlanCoversContent(content, id, n);
    } else {
      DuesOfShortContent(content, id, n, n - 1);
      SegmentBounds(id, |content|, n, n - 1);
      assert content[0..|content|] == content;
    }
  }

  /** Parts that are at least as long as their dues and join to the content are the dues. */
  lemma {:induction false} PartsAreDues(content: string, id: string, n: nat, temp: Files, k: nat)
    requires k <= n && content != ""
    requires forall i | 0 <= i < n :: |PartOf(temp, i)| >= |Due(content, id, n, i)|
    ensures |PartsUpTo(temp, k)| >= |Dues(content, id, n, k)|
    ensures |PartsUpTo(temp, k)| == |Dues(content, id, n, k)| ==>
            forall i | 0 <= i < k :: |PartOf(temp, i)| == |Due(content, id, n, i)|
    ensures (forall i | 0 <= i < k :: PartOf(temp, i) == Due(content, id, n, i)) ==>
            PartsUpTo(temp, k) == Dues(content, id, n, k)
  {
    if k > 0 {
      PartsAreDues(content, id, n, temp, k - 1);
    }
  }

  // ---- End to end ----

  /** No part file but those of the plan. */
  ghost predicate NoForeignParts(temp: Files, n: nat) {
    forall f | f in temp && HasSuffix(f, PART_SUFFIX) :: exists i: nat | i < n :: f == PartName(i)
  }

  lemma ExactAfter(temp: Files, values: seq<string>, n: nat)
    requires n == |values| && NoForeignParts(temp, n)
    ensures ExactParts(Overlay(temp, PartNames(n), values, n), n)
    ensures forall i: nat | i < n :: PartOf(Overlay(temp, PartNames(n), values, n), i) == values[i]
  {
    var names := PartNames(n);
    var after := Overlay(temp, names, values, n);
    PartNamesDistinct(n);
    forall i: nat | i < n ensures PartName(i) in after && after[PartName(i)] == values[i] {
      OverlayAt(temp, names, values, n, i);
      assert names[i] == PartName(i);
    }
    forall f | f in after && HasSuffix(f, PART_SUFFIX) ensures exists i: nat | i < n :: f == PartName(i) {
      if forall i | 0 <= i < n :: names[i] != f {
        OverlayElsewhere(temp, names, values, n, f);
      } else {
        var i :| 0 <= i < n && names[i] == f;
        assert f == PartName(i);
      }
    }
  }

  /** A download of this content over n connections: every part file of a segment with a known end starts
      as a correct prefix of its slice, and the server answers its requests truthfully. */
  ghost predicate Ready(content: string, id: string, n: nat, temp: Files, maxRetries: nat, scripts: seq<seq<Turn>>) {
    && |scripts| == n && 0 < n <= MAX_PARTS && 0 < |content| <= MAX_INT64 && NoForeignParts(temp, n)
    && forall i | 0 <= i < n :: SegmentReady(content, id, n, temp, maxRetries, scripts[i], i)
  }

  ghost predicate SegmentReady(content: string, id: string, n: nat, temp: Files, maxRetries: nat, script: seq<Turn>, i: nat)
    requires i < n && 0 < |content| <= MAX_INT64
  {
    var job := JobAt(content, id, n, temp, maxRetries, i);
    job.end >= 0 ==>
      && PartOf(temp, i) <= Due(content, id, n, i)
      && Fits(content, job) && AllTruthful(content, job, script)
  }

  function JobAt(content: string, id: string, n: nat, temp: Files, maxRetries: nat, i: nat): (job: Job)
    requires content != "" && i < n
  {
    SegmentBounds(id, |content|, n, i);
    JobOf(temp, SegmentAt(id, |content|, n, i), maxRetries)
  }

  function RunOf(content: string, id: string, n: nat, temp: Files, maxRetries: nat, script: seq<Turn>, i: nat): Progress
    requires content != "" && i < n
  {
    Run(JobAt(content, id, n, temp, maxRetries, i), script)
  }

  predicate SegmentSucceeded(content: string, id: string, n: nat, temp: Files, maxRetries: nat, script: seq<Turn>, i: nat)
    requires content != "" && i < n
  {
    RunOf(content, id, n, temp, maxRetries, script, i).verdict.Succeeded?
  }

  function FinalParts(content: string, id: string, n: nat, temp: Files, maxRetries: nat, scripts: seq<seq<Turn>>): Files
    requires |scripts| == n && content != ""
  {
    PlanStarts(id, |content|, n);
    Overlay(temp, PartNames(n), PartsAfter(temp, PlanOf(id, |content|, n), maxRetries, scripts), n)
  }

  lemma PlanStarts(id: string, length: nat, n: nat)
    ensures forall i | 0 <= i < n :: PlanOf(id, length, n)[i].start >= 0 && PlanOf(id, length, n)[i].index == i
  {
    forall i | 0 <= i < n ensures PlanOf(id, length, n)[i].start >= 0 { ProductsBounded(length, n, i); }
  }

  lemma FinalPart(content: string, id: string, n: nat, temp: Files, maxRetries: nat, scripts: seq<seq<Turn>>, i: nat)
    requires |scripts| == n && content != "" && NoForeignParts(temp, n) && i < n
    ensures PartOf(FinalParts(content, id, n, temp, maxRetries, scripts), i)
         == PartOf(temp, i) + Flat(RunOf(content, id, n, temp, maxRetries, scripts[i], i).chunks)
  {
    PlanStarts(id, |content|, n);
    ExactAfter(temp, PartsAfter(temp, PlanOf(id, |content|, n), maxRetries, scripts), n);
  }

  /** The success of a segment with a known end is not that of an odd status. */
  predicate EndsWell(content: string, id: string, n: nat, temp: Files, maxRetries: nat, script: seq<Turn>, i: nat)
    requires content != "" && i < n
  {
    var job := JobAt(content, id, n, temp, maxRetries, i);
    job.end >= 0 ==> !DecidedOdd(job, script)
  }

  /** With a known end, no reply before the deciding one brings anything; without one, the part was empty
      and no reply brings anything at all. */
  predicate Right(content: string, id: string, n: nat, temp: Files, maxRetries: nat, script: seq<Turn>, i: nat)
    requires content != "" && i < n
  {
    var job := JobAt(content, id, n, temp, maxRetries, i);
    if job.end >= 0 then SilentBefore(job, script) else PartOf(temp, i) == "" && Silent(job, script)
  }

  lemma SegmentOutcome(content: string, id: string, n: nat, temp: Files, maxRetries: nat, scripts: seq<seq<Turn>>, i: nat)
    requires Ready(content, id, n, temp, maxRetries, scripts) && i < n
    requires SegmentSucceeded(content, id, n, temp, maxRetries, scripts[i], i)
    requires EndsWell(content, id, n, temp, maxRetries, scripts[i], i)
    ensures var part := PartOf(FinalParts(content, id, n, temp, maxRetries, scripts), i);
            && |part| >= |Due(content, id, n, i)|
            && (part == Due(content, id, n, i) <==> Right(content, id, n, temp, maxRetries, scripts[i], i))
            && (|part| == |Due(content, id, n, i)| ==> Right(content, id, n, temp, maxRetries, scripts[i], i))
  {
    assert SegmentReady(content, id, n, temp, maxRetries, scripts[i], i);
    FinalPart(content, id, n, temp, maxRetries, scripts, i);
    PartOutcome(content, id, n, temp, maxRetries, scripts[i], i);
  }

  lemma DueIsSlice(content: string, id: string, n: nat, temp: Files, maxRetries: nat, i: nat)
    requires content != "" && i < n
    ensures var job := JobAt(content, id, n, temp, maxRetries, i);
            if job.end < 0 then Due(content, id, n, i) == ""
            else Fits(content, job) ==> Due(content, id, n, i) == SliceOf(content, job)
  {
  }

  lemma PartOutcome(content: string, id: string, n: nat, temp: Files, maxRetries: nat, script: seq<Turn>, i: nat)
    requires 0 < |content| <= MAX_INT64 && i < n && SegmentReady(content, id, n, temp, maxRetries, script, i)
    requires SegmentSucceeded(content, id, n, temp, maxRetries, script, i)
    requires EndsWell(content, id, n, temp, maxRetries, script, i)
    ensures var part := PartOf(temp, i) + Flat(RunOf(content, id, n, temp, maxRetries, script, i).chunks);
            && |part| >= |Due(content, id, n, i)|
            && (part == Due(content, id, n, i) <==> Right(content, id, n, temp, maxRetries, script, i))
            && (|part| == |Due(content, id, n, i)| ==> Right(content, id, n, temp, maxRetries, script, i))
  {
    var job := JobAt(content, id, n, temp, maxRetries, i);
    DueIsSlice(content, id, n, temp, maxRetries, i);
    if job.end >= 0 {
      SuccessIsWholeIff(content, job, script, PartOf(temp, i));
    } else {
      SilentIff(job, script);
    }
  }

  /** For every content and every number of connections: when every segment reports success, the merged
      file is the content, byte for byte, if and only if no reply before the deciding one of any segment with a
      known end brings anything, and the parts of segments without one were empty and are brought nothing. */
  lemma EndToEndIff(content: string, id: string, n: nat, temp: Files, maxRetries: nat, scripts: seq<seq<Turn>>)
    requires Ready(content, id, n, temp, maxRetries, scripts)
    requires forall i | 0 <= i < n :: SegmentSucceeded(content, id, n, temp, maxRetries, scripts[i], i)
    requires forall i | 0 <= i < n :: EndsWell(content, id, n, temp, maxRetries, scripts[i], i)
    ensures Joined(FinalParts(content, id, n, temp, maxRetries, scripts)) == content <==>
            forall i | 0 <= i < n :: Right(content, id, n, temp, maxRetries, scripts[i], i)
  {
    var after := FinalParts(content, id, n, temp, maxRetries, scripts);
    PlanStarts(id, |content|, n);
    ExactAfter(temp, PartsAfter(temp, PlanOf(id, |content|, n), maxRetries, scripts), n);
    JoinedInOrder(after, n);
    DuesCoverContent(content, id, n);
    forall i | 0 <= i < n
      ensures |PartOf(after, i)| >= |Due(content, id, n, i)|
      ensures PartOf(after, i) == Due(content, id, n, i) <==> Right(content, id, n, temp, maxRetries, scripts[i], i)
      ensures |PartOf(after, i)| == |Due(content, id, n, i)| ==> Right(content, id, n, temp, maxRetries, scripts[i], i)
    {
      SegmentOutcome(content, id, n, temp, maxRetries, scripts, i);
    }
    PartsAreDues(content, id, n, after, n);
  }

  // ---- Servers that deliver whole bodies ----

  /** The server never breaks off: a 200 response carries the content, and a 206 response that is not
      turned away carries all the bytes asked for. */
  predicate WholeBodies(content: string, job: Job, turn: Turn)
    requires Fits(content, job)
  {
    match turn
    case Answered(Whole(body), _) => body == Body(content, false)
    case Answered(Partial(header, body), _) =>
      Mismatch(header, job.Start(), job.end) || body == Body(Requested(content, job), false)
    case _ => true
  }

  predicate AllWhole(content: string, job: Job, script: seq<Turn>)
    requires Fits(content, job)
  {
    forall i | 0 <= i < |script| :: WholeBodies(content, job, script[i])
  }

  lemma WholePass(content: string, job: Job, p: Progress, turn: Turn)
    requires Fits(content, job) && WholeBodies(content, job, turn) && p.verdict.Running?
    ensures var q := Pass(job, p, turn);
            || (q.chunks == p.chunks && (q.verdict.Succeeded? ==> IsOdd(turn)))
            || (q.chunks == p.chunks + [Requested(content, job)] && q.verdict.Succeeded?)
  {
    if turn.Answered? && turn.reply.Whole? && turn.opens {
      var rest := content[job.Start()..];
      assert job.end >= 0 ==> rest[..job.end - job.Start() + 1] == content[job.Start()..job.end + 1];
      assert Chunk(job, turn.reply) == Requested(content, job);
    }
  }

  /** With whole bodies a run appends at most once, and a success is all that was asked for. */
  lemma {:induction false} WholeRun(content: string, job: Job, script: seq<Turn>)
    requires Fits(content, job) && AllWhole(content, job, script)
    ensures var p := Run(job, script);
            && (p.verdict.Running? ==> p.chunks == [])
            && (p.verdict.Succeeded? && !DecidedOdd(job, script) ==> p.chunks == [Requested(content, job)])
  {
    if script != [] {
      var n := |script| - 1;
      WholeRun(content, job, script[..n]);
      if Run(job, script[..n]).verdict.Running? {
        assert WholeBodies(content, job, script[n]);
        WholePass(content, job, Run(job, script[..n]), script[n]);
      }
    }
  }

  /** The part starts as a correct prefix, every reply is whole, and the run does not end on an odd status. */
  predicate WholeSegment(content: string, job: Job, part: string, script: seq<Turn>) {
    && Fits(content, job) && |part| == job.existing && part <= content[job.segStart..]
    && AllWhole(content, job, script) && !DecidedOdd(job, script)
  }

  lemma WholeSegmentChunks(content: string, job: Job, part: string, script: seq<Turn>)
    requires WholeSegment(content, job, part, script) && Run(job, script).verdict.Succeeded?
    ensures Run(job, script).chunks == [Requested(content, job)] && Flat(Run(job, script).chunks) == Requested(content, job)
  {
    WholeRun(content, job, script);
    assert [Requested(content, job)][..0] == [];
  }

  lemma WholeSegmentPart(content: string, job: Job, part: string, script: seq<Turn>)
    requires WholeSegment(content, job, part, script) && Run(job, script).verdict.Succeeded?
    ensures SilentBefore(job, script)
    ensures Silent(job, script) <==> Requested(content, job) == ""
    ensures job.segStart == 0 && (job.end < 0 || job.end == |content| - 1) ==> part + Flat(Run(job, script).chunks) == content
  {
    WholeSegmentChunks(content, job, part, script);
    SilentBeforeIff(job, script);
    SilentIff(job, script);
    PrefixAndRest(content, job, part);
  }

  lemma PrefixAndRest(content: string, job: Job, part: string)
    requires Fits(content, job) && |part| == job.existing && part <= content[job.segStart..]
    ensures job.segStart == 0 && (job.end < 0 || job.end == |content| - 1) ==> part + Requested(content, job) == content
  {
  }

  ghost predicate WholeServer(content: string, id: string, n: nat, temp: Files, maxRetries: nat, scripts: seq<seq<Turn>>)
    requires |scripts| == n && content != ""
  {
    forall i | 0 <= i < n :: WholeSegment(content, JobAt(content, id, n, temp, maxRetries, i), PartOf(temp, i), scripts[i])
  }

  lemma WholePart(content: string, id: string, n: nat, temp: Files, maxRetries: nat, scripts: seq<seq<Turn>>, i: nat)
    requires Ready(content, id, n, temp, maxRetries, scripts) && i < n
    requires WholeServer(content, id, n, temp, maxRetries, scripts)
    requires SegmentSucceeded(content, id, n, temp, maxRetries, scripts[i], i)
    ensures Right(content, id, n, temp, maxRetries, scripts[i], i) <==> n <= |content| || i == n - 1
    ensures |content| < n ==> PartOf(FinalParts(content, id, n, temp, maxRetries, scripts), i) == content
  {
    var job := JobAt(content, id, n, temp, maxRetries, i);
    SegmentBounds(id, |content|, n, i);
    assert WholeSegment(content, job, PartOf(temp, i), scripts[i]);
    WholeSegmentPart(content, job, PartOf(temp, i), scripts[i]);
    FinalPart(content, id, n, temp, maxRetries, scripts, i);
  }

  /** When the server delivers whole bodies, the merged file is the content iff there are no more
      connections than bytes. */
  lemma WholeBodiesIff(content: string, id: string, n: nat, temp: Files, maxRetries: nat, scripts: seq<seq<Turn>>)
    requires Ready(content, id, n, temp, maxRetries, scripts)
    requires WholeServer(content, id, n, temp, maxRetries, scripts)
    requires forall i | 0 <= i < n :: SegmentSucceeded(content, id, n, temp, maxRetries, scripts[i], i)
    ensures Joined(FinalParts(content, id, n, temp, maxRetries, scripts)) == content <==> n <= |content|
  {
    forall i | 0 <= i < n
      ensures Right(content, id, n, temp, maxRetries, scripts[i], i) <==> n <= |content| || i == n - 1
      ensures EndsWell(content, id, n, temp, maxRetries, scripts[i], i)
    {
      WholePart(content, id, n, temp, maxRetries, scripts, i);
      assert WholeSegment(content, JobAt(content, id, n, temp, maxRetries, i), PartOf(temp, i), scripts[i]);
    }
    EndToEndIff(content, id, n, temp, maxRetries, scripts);
    assert |content| < n ==> !Right(content, id, n, temp, maxRetries, scripts[0], 0);
  }

  function Repeat(s: string, k: nat): string { if k == 0 then "" else Repeat(s, k - 1) + s }

  /** With more connections than bytes, such a server makes the merged file repeat the content once for
      each connection. */
  lemma ShortContentRepeats(content: string, id: string, n: nat, temp: Files, maxRetries: nat, scripts: seq<seq<Turn>>)
    requires |content| < n && Ready(content, id, n, temp, maxRetries, scripts)
    requires WholeServer(content, id, n, temp, maxRetries, scripts)
    requires forall i | 0 <= i < n :: SegmentSucceeded(content, id, n, temp, maxRetries, scripts[i], i)
    ensures Joined(FinalParts(content, id, n, temp, maxRetries, scripts)) == Repeat(content, n)
  {
    var after := FinalParts(content, id, n, temp, maxRetries, scripts);
    PlanStarts(id, |content|, n);
    ExactAfter(temp, PartsAfter(temp, PlanOf(id, |content|, n), maxRetries, scripts), n);
    JoinedInOrder(after, n);
    forall i | 0 <= i < n ensures PartOf(after, i) == content {
      WholePart(content, id, n, temp, maxRetries, scripts, i);
    }
    RepeatedParts(content, after, n, n);
  }

  lemma {:induction false} RepeatedParts(content: string, temp: Files, n: nat, k: nat)
    requires k <= n && forall i | 0 <= i < n :: PartOf(temp, i) == content
    ensures PartsUpTo(temp, k) == Repeat(content, k)
  {
    if k > 0 {
      RepeatedParts(content, temp, n, k - 1);
    }
  }

  /** A server that has nothing to say to an open-ended request, and the whole content otherwise. */
  function ShyReply(content: string, n: nat, i: nat): Turn {
    Answered(Whole(Body(if i == n - 1 then content else "", false)), true)
  }

  function ShyScripts(content: string, n: nat): (r: seq<seq<Turn>>)
    ensures |r| == n && forall i | 0 <= i < n :: r[i] == [ShyReply(content, n, i)]
  {
    seq(n, i requires 0 <= i < n => [ShyReply(content, n, i)])
  }

  lemma ShyRun(content: string, job: Job, turn: Turn)
    requires 0 < |content| <= MAX_INT64 && job.segStart == job.existing == 0
    requires if job.end < 0 then job.end == -1 && turn == Answered(Whole(Body("", false)), true)
             else job.end == |content| - 1 && turn == Answered(Whole(Body(content, false)), true)
    ensures Run(job, [turn]) == Progress(Succeeded, 0, [if job.end < 0 then "" else content])
    ensures Fits(content, job) && AllTruthful(content, job, [turn]) && !DecidedOdd(job, [turn])
    ensures SilentBefore(job, [turn]) && (job.end < 0 ==> Silent(job, [turn]))
  {
    OnePassRun(job, turn);
    assert content[0..] == content && content[..|content|] == content;
    assert AllTruthful(content, job, [turn]);
    ShySilence(job, turn, if job.end < 0 then "" else content);
  }

  lemma ShySilence(job: Job, turn: Turn, chunk: string)
    requires Run(job, [turn]) == Progress(Succeeded, 0, [chunk]) && !DecidedOdd(job, [turn])
    ensures SilentBefore(job, [turn]) && (chunk == "" ==> Silent(job, [turn]))
  {
    SilentBeforeIff(job, [turn]);
    SilentIff(job, [turn]);
    assert Flat([chunk]) == chunk by { assert [chunk][..0] == []; }
  }

  lemma ShySegment(content: string, id: string, n: nat, maxRetries: nat, i: nat)
    requires 0 < |content| <= MAX_INT64 && |content| < n && i < n
    ensures var script := [ShyReply(content, n, i)];
            && SegmentReady(content, id, n, map[], maxRetries, script, i)
            && SegmentSucceeded(content, id, n, map[], maxRetries, script, i)
            && EndsWell(content, id, n, map[], maxRetries, script, i) && Right(content, id, n, map[], maxRetries, script, i)
  {
    var job := JobAt(content, id, n, map[], maxRetries, i);
    SegmentBounds(id, |content|, n, i);
    ShyRun(content, job, ShyReply(content, n, i));
  }

  /** More connections than bytes need not go wrong: a truthful server that brings nothing to the
      open-ended requests leaves the merged file right. */
  lemma ShortContentMayBeRight(content: string, id: string, n: nat, maxRetries: nat)
    requires 0 < |content| <= MAX_INT64 && |content| < n <= MAX_PARTS
    ensures var scripts := ShyScripts(content, n);
            && Ready(content, id, n, map[], maxRetries, scripts)
            && (forall i | 0 <= i < n :: SegmentSucceeded(content, id, n, map[], maxRetries, scripts[i], i))
            && Joined(FinalParts(content, id, n, map[], maxRetries, scripts)) == content
  {
    var scripts := ShyScripts(content, n);
    forall i | 0 <= i < n
      ensures SegmentReady(content, id, n, map[], maxRetries, scripts[i], i)
      ensures SegmentSucceeded(content, id, n, map[], maxRetries, scripts[i], i)
      ensures EndsWell(content, id, n, map[], maxRetries, scripts[i], i)
      ensures Right(content, id, n, map[], maxRetries, scripts[i], i)
    {
      ShySegment(content, id, n, maxRetries, i);
    }
    EndToEndIff(content, id, n, map[], maxRetries, scripts);
  }

  lemma OnePassRun(job: Job, turn: Turn)
    ensures Run(job, [turn]) == Pass(job, Progress(Running, 0, []), turn)
    ensures Deciding(job, [turn]) == if Run(job, [turn]).verdict.Running? then None else Some(turn)
  {
    assert [turn][..0] == [];
  }

  // ---- Concurrent segments ----

  /** The passes of one segment in an interleaving of all segments. */
  function PassesOf(schedule: seq<(nat, Turn)>, i: nat): seq<Turn> {
    if schedule == [] then []
    else
      var n := |schedule| - 1;
      PassesOf(schedule[..n], i) + (if schedule[n].0 == i then [schedule[n].1] else [])
  }

  /** Segments run side by side: each step is one pass of one segment, unless that segment has stopped. */
  function SideBySide(jobs: seq<Job>, schedule: seq<(nat, Turn)>): (ps: seq<Progress>)
    ensures |ps| == |jobs|
  {
    if schedule == [] then seq(|jobs|, i => Progress(Running, 0, []))
    else
      var ps := SideBySide(jobs, schedule[..|schedule| - 1]);
      var step := schedule[|schedule| - 1];
      if step.0 < |jobs| && ps[step.0].verdict.Running? then ps[step.0 := Pass(jobs[step.0], ps[step.0], step.1)] else ps
  }

  /** The part files that the steps leave; a step writes only its own segment's part. */
  function SideBySideFiles(jobs: seq<Job>, temp: Files, schedule: seq<(nat, Turn)>): Files {
    if schedule == [] then temp
    else
      var files := SideBySideFiles(jobs, temp, schedule[..|schedule| - 1]);
      var i := schedule[|schedule| - 1].0;
      if i < |jobs| then files[PartName(i) := PartOf(temp, i) + Flat(SideBySide(jobs, schedule)[i].chunks)] else files
  }

  /** Whatever the interleaving, each segment ends as if it had run alone over its own passes. */
  lemma {:induction false} InterleavingInvisible(jobs: seq<Job>, schedule: seq<(nat, Turn)>, i: nat)
    requires i < |jobs|
    ensures SideBySide(jobs, schedule)[i] == Run(jobs[i], PassesOf(schedule, i))
  {
    if schedule != [] {
      var n := |schedule| - 1;
      InterleavingInvisible(jobs, schedule[..n], i);
      RunStep(jobs[i], PassesOf(schedule[..n], i), schedule[n].1);
      assert PassesOf(schedule[..n], i) + [] == PassesOf(schedule[..n], i);
    }
  }

  lemma {:induction false} InterleavedParts(jobs: seq<Job>, temp: Files, schedule: seq<(nat, Turn)>, i: nat)
    requires i < |jobs|
    ensures PartOf(SideBySideFiles(jobs, temp, schedule), i)
         == PartOf(temp, i) + Flat(Run(jobs[i], PassesOf(schedule, i)).chunks)
  {
    if schedule == [] {
      assert PartOf(temp, i) + "" == PartOf(temp, i);
    } else {
      var n := |schedule| - 1;
      InterleavedParts(jobs, temp, schedule[..n], i);
      InterleavingInvisible(jobs, schedule, i);
      PartNamesDiffer(i, schedule[n].0);
      assert PassesOf(schedule[..n], i) + [] == PassesOf(schedule[..n], i);
    }
  }

  // ---- The whole run ----

  /** The runs of the first k segments report success. */
  ghost predicate FirstSucceed(temp: Files, segs: seq<Segment>, maxRetries: nat, scripts: seq<seq<Turn>>, k: nat)
    requires k <= |segs| == |scripts| && forall i | 0 <= i < |segs| :: segs[i].start >= 0
  {
    k == 0 || (FirstSucceed(temp, segs, maxRetries, scripts, k - 1) && Succeeds(temp, segs[k - 1], maxRetries, scripts[k - 1]))
  }

  lemma {:induction false} EachSucceeds(temp: Files, segs: seq<Segment>, maxRetries: nat, scripts: seq<seq<Turn>>, k: nat)
    requires k <= |segs| == |scripts| && forall i | 0 <= i < |segs| :: segs[i].start >= 0
    ensures FirstSucceed(temp, segs, maxRetries, scripts, k) <==>
            forall i | 0 <= i < k :: Succeeds(temp, segs[i], maxRetries, scripts[i])
  {
    if k > 0 {
      EachSucceeds(temp, segs, maxRetries, scripts, k - 1);
    }
  }

  lemma {:induction false} EachOpens(opens: seq<bool>, k: nat)
    requires k <= |opens|
    ensures AllOpen(opens, k) <==> forall i | 0 <= i < k :: opens[i]
  {
    if k > 0 {
      EachOpens(opens, k - 1);
    }
  }

  /** Runs every segment of a plan; the runner waits for all of them before it looks at the errors. */
  method DownloadSegments(store: LocalFileStore, segs: seq<Segment>, maxRetries: nat, opens: seq<bool>, scripts: seq<seq<Turn>>)
    returns (ok: bool)
    requires |segs| == |scripts| == |opens| && forall i | 0 <= i < |segs| :: segs[i].start >= 0 && segs[i].index == i
    modifies store`temp
    ensures ok ==> DoneUpTo(old(store.temp), store.temp, segs, maxRetries, scripts, |segs|)
    ensures ok <==> AllOpen(opens, |segs|) && FirstSucceed(old(store.temp), segs, maxRetries, scripts, |segs|)
  {
    ok := true;
    ghost var was := store.temp;
    for i := 0 to |segs|
      invariant ok ==> DoneUpTo(was, store.temp, segs, maxRetries, scripts, i)
      invariant ok <==> AllOpen(opens, i) && FirstSucceed(was, segs, maxRetries, scripts, i)
    {
      ok := RunNext(store, segs, maxRetries, opens[i], scripts, i, ok, was);
    }
  }

  /** The part files of the first k segments can be opened. */
  predicate AllOpen(opens: seq<bool>, k: nat)
    requires k <= |opens|
  {
    k == 0 || (AllOpen(opens, k - 1) && opens[k - 1])
  }

  /** The first k segments have run with success, and their parts are what their runs make of them. */
  ghost predicate DoneUpTo(was: Files, now: Files, segs: seq<Segment>, maxRetries: nat, scripts: seq<seq<Turn>>, k: nat)
    requires k <= |segs| == |scripts| && forall i | 0 <= i < |segs| :: segs[i].start >= 0
  {
    && now == Overlay(was, PartNames(|segs|), PartsAfter(was, segs, maxRetries, scripts), k)
    && FirstSucceed(was, segs, maxRetries, scripts, k)
  }

  /** The run of one segment; an error of an earlier one does not keep it from running. */
  method RunNext(store: LocalFileStore, segs: seq<Segment>, maxRetries: nat, opens: bool, scripts: seq<seq<Turn>>,
                 i: nat, soFar: bool, ghost was: Files) returns (ok: bool)
    requires i < |segs| == |scripts| && forall i | 0 <= i < |segs| :: segs[i].start >= 0 && segs[i].index == i
    requires soFar ==> DoneUpTo(was, store.temp, segs, maxRetries, scripts, i)
    modifies store`temp
    ensures ok ==> DoneUpTo(was, store.temp, segs, maxRetries, scripts, i + 1)
    ensures ok <==> soFar && opens && Succeeds(was, segs[i], maxRetries, scripts[i])
  {
    var verdict := DownloadSegment(store, segs[i], maxRetries, opens, scripts[i]);
    ok := soFar && verdict.Succeeded?;
    if soFar {
      OneMoreSegment(was, segs, maxRetries, scripts, i);
    }
  }

  /** The runs of the earlier segments leave this one's part alone. */
  lemma OneMoreSegment(temp: Files, segs: seq<Segment>, maxRetries: nat, scripts: seq<seq<Turn>>, i: nat)
    requires i < |segs| == |scripts| && forall i | 0 <= i < |segs| :: segs[i].start >= 0 && segs[i].index == i
    ensures var names, values := PartNames(|segs|), PartsAfter(temp, segs, maxRetries, scripts);
            var now := Overlay(temp, names, values, i);
            && (Succeeds(now, segs[i], maxRetries, scripts[i]) <==> Succeeds(temp, segs[i], maxRetries, scripts[i]))
            && Overlay(temp, names, values, i + 1) == now[PartName(i) := PartAfter(now, segs[i], maxRetries, scripts[i])]
  {
    var names, values := PartNames(|segs|), PartsAfter(temp, segs, maxRetries, scripts);
    PartNamesDistinct(|segs|);
    OverlayElsewhere(temp, names, values, i, names[i]);
    assert PartOf(Overlay(temp, names, values, i), i) == PartOf(temp, i);
  }

  // ---- A single open-ended segment ----

  /** The parts after a run of the one segment that is planned without ranges or without a length. */
  function SinglePart(temp: Files, maxRetries: nat, script: seq<Turn>): Files {
    temp[PartName(0) := PartOf(temp, 0) + Flat(Run(SingleJob(temp, maxRetries), script).chunks)]
  }

  function SingleJob(temp: Files, maxRetries: nat): Job { Job(0, -1, |PartOf(temp, 0)|, maxRetries) }

  lemma SingleJoined(temp: Files, part: string)
    requires NoForeignParts(temp, 1)
    ensures Joined(temp[PartName(0) := part]) == part
  {
    var after := temp[PartName(0) := part];
    assert ExactParts(after, 1);
    JoinedInOrder(after, 1);
    assert PartsUpTo(after, 1) == PartsUpTo(after, 0) + PartOf(after, 0) == part;
  }

  /** What a success of the single segment makes of a part that starts as a correct prefix: the content iff
      the appended chunks join to the rest of it. */
  lemma SingleStreamIff(content: string, temp: Files, maxRetries: nat, script: seq<Turn>)
    requires |content| <= MAX_INT64 && NoForeignParts(temp, 1) && PartOf(temp, 0) <= content
    requires var job := SingleJob(temp, maxRetries); Run(job, script).verdict.Succeeded? && !DecidedOdd(job, script)
    ensures var job := SingleJob(temp, maxRetries);
            var whole := Joined(SinglePart(temp, maxRetries, script)) == content;
            && (whole <==> Flat(Run(job, script).chunks) == content[|PartOf(temp, 0)|..])
            && (SilentBefore(job, script) ==> (whole <==> LastChunk(job, script) == Some(content[|PartOf(temp, 0)|..])))
            && (LastChunk(job, script) == Some(content[|PartOf(temp, 0)|..]) ==> (whole <==> SilentBefore(job, script)))
  {
    var job := SingleJob(temp, maxRetries);
    SingleJoined(temp, PartOf(temp, 0) + Flat(Run(job, script).chunks));
    assert content[0..] == content;
    OpenEndIsWholeIff(content, job, script, PartOf(temp, 0));
  }

  /** A reply that ends early passes for success: any first part of a content may be taken for all of it. */
  lemma TruncatedSuccess(content: string, k: nat, maxRetries: nat)
    requires k < |content| <= MAX_INT64
    ensures var script := [Answered(Whole(Body(content[..k], false)), true)];
            var job := SingleJob(map[], maxRetries);
            && AllTruthful(content, job, script) && Run(job, script).verdict.Succeeded? && !DecidedOdd(job, script)
            && Joined(SinglePart(map[], maxRetries, script)) == content[..k]
  {
    var turn, job := Answered(Whole(Body(content[..k], false)), true), SingleJob(map[], maxRetries);
    OnePassRun(job, turn);
    assert content[..k][0..] == content[..k];
    assert Pass(job, Progress(Running, 0, []), turn) == Progress(Succeeded, 0, [content[..k]]);
    assert Flat([content[..k]]) == content[..k] by { assert [content[..k]][..0] == []; }
    SingleJoined(map[], content[..k]);
  }

  /** Plans, fetches and merges a download without ranges or without a known length. */
  method DownloadSingle(store: LocalFileStore, o: FileOptions, id: string, configured: Option<int>, maxRetries: nat,
                        opens: bool, script: seq<Turn>, ghost content: string, contentLength: int, acceptRanges: bool,
                        sound: bool := false)
    returns (r: MergeResult)
    requires !acceptRanges || contentLength <= 0
    requires |content| <= MAX_INT64 && NoForeignParts(store.temp, 1) && PartOf(store.temp, 0) <= content
    modifies store
    ensures r.Merged? ==> opens && Run(SingleJob(old(store.temp), maxRetries), script).verdict.Succeeded?
    ensures (sound && HasTarget(o, id, old(store.target))
             && opens && Run(SingleJob(old(store.temp), maxRetries), script).verdict.Succeeded?) ==> r.Merged?
    ensures r.Merged? ==>
              && IsTargetFor(o, id, old(store.target), r.name)
              && (r.name in old(store.target) ==> o.overwrite)
              && r.name in store.target
              && (!DecidedOdd(SingleJob(old(store.temp), maxRetries), script) ==>
                    (store.target[r.name] == content <==>
                     Flat(Run(SingleJob(old(store.temp), maxRetries), script).chunks) == content[|PartOf(old(store.temp), 0)|..]))
    ensures r.NotMerged? ==> OnlyTemporary(o, id, old(store.target), store.target)
  {
    var segs := Plan(id, configured, contentLength, acceptRanges);
    ghost var was := store.temp;
    var verdict := DownloadSegment(store, segs[0], maxRetries, opens, script);
    if !verdict.Succeeded? {
      return NotMerged(IOError);
    }
    assert store.temp == SinglePart(was, maxRetries, script);
    if !DecidedOdd(SingleJob(was, maxRetries), script) {
      SingleStreamIff(content, was, maxRetries, script);
    }
    SinglePartIsThere(was, maxRetries, script);
    r := store.MergeSegments(o, id, sound);
  }

  lemma SinglePartIsThere(temp: Files, maxRetries: nat, script: seq<Turn>)
    requires NoForeignParts(temp, 1)
    ensures Parts(SinglePart(temp, maxRetries, script)) != []
  {
    assert ExactParts(SinglePart(temp, maxRetries, script), 1);
    PartsInOrder(SinglePart(temp, maxRetries, script), 1);
  }

  /** Plans, fetches and merges a download whose length is known and whose server accepts ranges. Nothing is
      merged unless every segment has succeeded; then, on a sound system and with a name to write to, it is. */
  method Download(store: LocalFileStore, o: FileOptions, id: string, configured: Option<int>, maxRetries: nat,
                  opens: seq<bool>, scripts: seq<seq<Turn>>, ghost content: string, contentLength: nat, sound: bool := false)
    returns (r: MergeResult)
    requires contentLength == |content| && Connections(configured) == |scripts| == |opens|
    requires Ready(content, id, |scripts|, store.temp, maxRetries, scripts)
    modifies store
    ensures r.Merged? ==> AllSucceed(content, id, |scripts|, old(store.temp), maxRetries, opens, scripts)
    ensures (sound && HasTarget(o, id, old(store.target))
             && AllSucceed(content, id, |scripts|, old(store.temp), maxRetries, opens, scripts)) ==> r.Merged?
    ensures r.Merged? ==>
              && IsTargetFor(o, id, old(store.target), r.name)
              && (r.name in old(store.target) ==> o.overwrite)
              && r.name in store.target
              && ((forall i | 0 <= i < |scripts| :: EndsWell(content, id, |scripts|, old(store.temp), maxRetries, scripts[i], i)) ==>
                    (store.target[r.name] == content <==>
                     forall i | 0 <= i < |scripts| :: Right(content, id, |scripts|, old(store.temp), maxRetries, scripts[i], i)))
    ensures r.NotMerged? ==> OnlyTemporary(o, id, old(store.target), store.target)
  {
    var segs := Plan(id, configured, contentLength, true);
    PlanStarts(id, contentLength, |scripts|);
    ghost var was := store.temp;
    AllSucceedIff(content, id, |scripts|, was, maxRetries, opens, scripts);
    var ok := DownloadSegments(store, segs, maxRetries, opens, scripts);
    if !ok {
      return NotMerged(IOError);
    }
    assert store.temp == FinalParts(content, id, |scripts|, was, maxRetries, scripts);
    PartsAreThere(content, id, |scripts|, was, maxRetries, scripts);
    if forall i | 0 <= i < |scripts| :: EndsWell(content, id, |scripts|, was, maxRetries, scripts[i], i) {
      EndToEndIff(content, id, |scripts|, was, maxRetries, scripts);
    }
    r := store.MergeSegments(o, id, sound);
  }

  /** Every part file opens, and every segment succeeds. */
  ghost predicate AllSucceed(content: string, id: string, n: nat, temp: Files, maxRetries: nat, opens: seq<bool>, scripts: seq<seq<Turn>>)
    requires |scripts| == |opens| == n && content != ""
  {
    forall i | 0 <= i < n :: opens[i] && SegmentSucceeded(content, id, n, temp, maxRetries, scripts[i], i)
  }

  lemma AllSucceedIff(content: string, id: string, n: nat, temp: Files, maxRetries: nat, opens: seq<bool>, scripts: seq<seq<Turn>>)
    requires |scripts| == |opens| == n && content != "" && forall i | 0 <= i < n :: PlanOf(id, |content|, n)[i].start >= 0
    ensures AllSucceed(content, id, n, temp, maxRetries, opens, scripts) <==>
            AllOpen(opens, n) && FirstSucceed(temp, PlanOf(id, |content|, n), maxRetries, scripts, n)
  {
    EachSucceeds(temp, PlanOf(id, |content|, n), maxRetries, scripts, n);
    EachOpens(opens, n);
    forall i | 0 <= i < n
      ensures Succeeds(temp, PlanOf(id, |content|, n)[i], maxRetries, scripts[i])
           == SegmentSucceeded(content, id, n, temp, maxRetries, scripts[i], i)
    {
    }
  }

  lemma PartsAreThere(content: string, id: string, n: nat, temp: Files, maxRetries: nat, scripts: seq<seq<Turn>>)
    requires Ready(content, id, n, temp, maxRetries, scripts)
    ensures Parts(FinalParts(content, id, n, temp, maxRetries, scripts)) != []
  {
    PlanStarts(id, |content|, n);
    ExactAfter(temp, PartsAfter(temp, PlanOf(id, |content|, n), maxRetries, scripts), n);
    PartsInOrder(FinalParts(content, id, n, temp, maxRetries, scripts), n);
  }
}
