/**
 Fetching one segment into its part file (internal/service/runner.go:129-351). The replies of the
 server are an input, one for each pass of the loop, because the loop need not end: a run over any
 finite script of replies is what has happened so far.
 */
module SegmentRunner {
  import opened Text
  import opened ContentRange

  /** The bytes a response delivers, and whether the stream breaks afterwards instead of ending. */
  datatype Body = Body(data: string, broken: bool)

  /** `OddStatus` is a status below 400 other than 200 and 206, for which no error is reported. */
  datatype Reply = NetworkError | OddStatus | Whole(body: Body) | Partial(contentRange: string, body: Body)

  /** One pass of the loop: the context is done, or the server answers and the part file opens or not. */
  datatype Turn = ContextDone | Answered(reply: Reply, opens: bool)

  datatype Verdict = Running | Interrupted | GaveUp | Succeeded

  /** What is fixed before the loop: the segment and the size that its part file had. */
  datatype Job = Job(segStart: nat, end: int, existing: nat, maxRetries: nat) {
    function Start(): nat { segStart + existing }
  }

  /** `chunks` are the bytes that each pass appended to the part file. */
  datatype Progress = Progress(verdict: Verdict, attempts: nat, chunks: seq<string>)

  // ---- One pass ----

  /** A 200 response that ends before the requested start cannot be skipped forward. */
  predicate SkipFails(job: Job, reply: Reply) {
    reply.Whole? && |reply.body.data| < job.Start()
  }

  /** The most that is read of a 200 response after the skip; partial responses are read to their end. */
  function Limit(job: Job, reply: Reply): Option<nat> {
    if reply.Whole? && job.end >= 0
    then Some(if job.end - job.Start() + 1 < 0 then 0 else job.end - job.Start() + 1)
    else None
  }

  /** The bytes that a pass appends. */
  function Chunk(job: Job, reply: Reply): string
    requires (reply.Whole? || reply.Partial?) && !SkipFails(job, reply)
  {
    var rest := if reply.Whole? then reply.body.data[job.Start()..] else reply.body.data;
    var limit := Limit(job, reply);
    if limit.Some? && limit.value <= |rest| then rest[..limit.value] else rest
  }

  predicate CopyFails(job: Job, reply: Reply)
    requires (reply.Whole? || reply.Partial?) && !SkipFails(job, reply)
  {
    var rest := if reply.Whole? then reply.body.data[job.Start()..] else reply.body.data;
    var limit := Limit(job, reply);
    reply.body.broken && !(limit.Some? && limit.value <= |rest|)
  }

  function Retry(job: Job, p: Progress): Progress {
    p.(attempts := p.attempts + 1, verdict := if p.attempts + 1 > job.maxRetries then GaveUp else Running)
  }

  function Pass(job: Job, p: Progress, turn: Turn): Progress {
    if turn.ContextDone? then p.(verdict := Interrupted)
    else if turn.reply.NetworkError? then Retry(job, p)
    else if turn.reply.OddStatus? then
      // the error that is returned after the last retry is nil
      p.(attempts := p.attempts + 1, verdict := if p.attempts + 1 > job.maxRetries then Succeeded else Running)
    else if turn.reply.Partial? && Mismatch(turn.reply.contentRange, job.Start(), job.end) then
      // never compared with the retry limit
      p.(attempts := p.attempts + 1)
    else if !turn.opens then p.(verdict := GaveUp)
    else if SkipFails(job, turn.reply) then Retry(job, p)
    else Append(job, p, turn.reply)
  }

  /** A pass that reaches the part file. */
  function Append(job: Job, p: Progress, reply: Reply): Progress
    requires (reply.Whole? || reply.Partial?) && !SkipFails(job, reply)
  {
    var chunk := Chunk(job, reply);
    var q := p.(chunks := p.chunks + [chunk]);
    if CopyFails(job, reply) then Retry(job, q)
    else if job.end >= 0 && job.existing + |chunk| != job.end - job.segStart + 1 then Retry(job, q)
    else q.(verdict := Succeeded)
  }

  function Run(job: Job, script: seq<Turn>): Progress {
    if script == [] then Progress(Running, 0, [])
    else
      var p := Run(job, script[..|script| - 1]);
      if p.verdict.Running? then Pass(job, p, script[|script| - 1]) else p
  }

  function Flat(chunks: seq<string>): string {
    if chunks == [] then "" else Flat(chunks[..|chunks| - 1]) + chunks[|chunks| - 1]
  }

  lemma {:induction false} StoppedStays(job: Job, script: seq<Turn>, i: nat)
    requires i <= |script| && !Run(job, script[..i]).verdict.Running?
    ensures Run(job, script) == Run(job, script[..i])
  {
    if i < |script| {
      var n := |script| - 1;
      assert script[..n][..i] == script[..i];
      StoppedStays(job, script[..n], i);
    } else {
      assert script[..i] == script;
    }
  }

  // ---- Servers ----

  /** The bytes that a run of this job asks for. */
  function Requested(content: string, job: Job): string
    requires Fits(content, job)
  {
    if job.end < 0 then content[job.Start()..] else content[job.Start()..job.end + 1]
  }

  /** The segment lies inside the content, and its part file is not longer than the segment. */
  predicate Fits(content: string, job: Job) {
    && |content| <= MAX_INT64
    && job.end < |content|
    && job.Start() <= (if job.end < 0 then |content| else job.end + 1)
  }

  /** A server that serves this content. A 200 response carries it from the first byte; a 206 response
      carries the bytes asked for, under any Content-Range or none, or the bytes that a well-formed
      Content-Range names, which need not be those. Any response may stop early, cleanly or not. */
  ghost predicate Truthful(content: string, job: Job, turn: Turn)
    requires Fits(content, job)
  {
    match turn
    case Answered(Whole(body), _) => body.data <= content
    case Answered(Partial(header, body), _) =>
      body.data <= Requested(content, job) || Labelled(content, header, body.data)
    case _ => true
  }

  ghost predicate Labelled(content: string, header: string, data: string) {
    exists first: nat, last: nat, total: string {:trigger Header(first, last, total)} ::
      first <= last < |content| && NoSpace(total) && header == Header(first, last, total) &&
      data <= content[first..last + 1]
  }

  // ---- The retry law ----

  /** Bytes under a well-formed Content-Range that is not turned away are a first part of those asked for. */
  lemma LabelledIsRequested(content: string, job: Job, header: string, data: string)
    requires Fits(content, job) && Labelled(content, header, data) && !Mismatch(header, job.Start(), job.end)
    ensures data <= Requested(content, job)
  {
    var first: nat, last: nat, total :| first <= last < |content| && NoSpace(total) &&
      header == Header(first, last, total) && data <= content[first..last + 1];
    CheckIsExact(first, last, total, job.Start(), job.end);
    assert content[first..last + 1] <= Requested(content, job);
  }

  /** Whatever a truthful server sends, what is appended is a first part of what was asked for. */
  lemma ChunkIsPrefix(content: string, job: Job, reply: Reply)
    requires Fits(content, job) && (reply.Whole? || reply.Partial?)
    requires Truthful(content, job, Answered(reply, true)) && !SkipFails(job, reply)
    requires reply.Partial? ==> !Mismatch(reply.contentRange, job.Start(), job.end)
    ensures Chunk(job, reply) <= Requested(content, job)
  {
    if reply.Partial? && Labelled(content, reply.contentRange, reply.body.data) {
      LabelledIsRequested(content, job, reply.contentRange, reply.body.data);
    } else if reply.Whole? {
      assert reply.body.data[job.Start()..] <= content[job.Start()..];
    }
  }

  ghost predicate AllTruthful(content: string, job: Job, script: seq<Turn>)
    requires Fits(content, job)
  {
    forall i | 0 <= i < |script| :: Truthful(content, job, script[i])
  }

  /** After any number of passes the part file has grown by chunks that are all first parts of the
      same requested bytes: every retry starts over at the offset of the first try. */
  lemma {:induction false} RetryLaw(content: string, job: Job, script: seq<Turn>)
    requires Fits(content, job) && AllTruthful(content, job, script)
    ensures forall i | 0 <= i < |Run(job, script).chunks| :: Run(job, script).chunks[i] <= Requested(content, job)
  {
    if script != [] {
      var n := |script| - 1;
      RetryLaw(content, job, script[..n]);
      var p, turn := Run(job, script[..n]), script[n];
      assert Truthful(content, job, turn);
      if p.verdict.Running? && turn.Answered? && |Pass(job, p, turn).chunks| > |p.chunks| {
        ChunkIsPrefix(content, job, turn.reply);
      }
    }
  }

  /** The turn that stopped the run, if it has stopped. */
  function Deciding(job: Job, script: seq<Turn>): Option<Turn> {
    if script == [] then None
    else if !Run(job, script[..|script| - 1]).verdict.Running? then Deciding(job, script[..|script| - 1])
    else if Run(job, script).verdict.Running? then None
    else Some(script[|script| - 1])
  }

  predicate IsOdd(turn: Turn) { turn.Answered? && turn.reply.OddStatus? }

  predicate DecidedOdd(job: Job, script: seq<Turn>) {
    Deciding(job, script).Some? && IsOdd(Deciding(job, script).value)
  }

  /** What the pass that stopped the run appended, if it came to that. */
  function LastChunk(job: Job, script: seq<Turn>): Option<string> {
    if script == [] then None
    else
      var before, after := Run(job, script[..|script| - 1]), Run(job, script);
      if !before.verdict.Running? then LastChunk(job, script[..|script| - 1])
      else if after.verdict.Running? || |after.chunks| == |before.chunks| then None
      else Some(after.chunks[|after.chunks| - 1])
  }

  lemma SuccessfulPass(content: string, job: Job, p: Progress, turn: Turn)
    requires Fits(content, job) && Truthful(content, job, turn) && job.end >= 0
    requires p.verdict.Running? && Pass(job, p, turn).verdict.Succeeded?
    ensures if IsOdd(turn) then Pass(job, p, turn).chunks == p.chunks
            else Pass(job, p, turn).chunks == p.chunks + [Requested(content, job)]
  {
    if !IsOdd(turn) {
      ChunkIsPrefix(content, job, turn.reply);
      var chunk := Chunk(job, turn.reply);
      assert |chunk| == |Requested(content, job)|;
      assert chunk == Requested(content, job)[..|chunk|] == Requested(content, job);
      assert Pass(job, p, turn) == Append(job, p, turn.reply);
    }
  }

  /** A run that reports success with a known end has appended, in the pass that decided, all that was
      missing, if and only if that pass was not one of an odd status. */
  lemma {:induction false} SuccessIsFullChunkIff(content: string, job: Job, script: seq<Turn>)
    requires Fits(content, job) && AllTruthful(content, job, script)
    requires job.end >= 0 && Run(job, script).verdict.Succeeded?
    ensures LastChunk(job, script) == Some(Requested(content, job)) <==> !DecidedOdd(job, script)
    ensures !DecidedOdd(job, script) ==>
              var chunks := Run(job, script).chunks; chunks != [] && chunks[|chunks| - 1] == Requested(content, job)
  {
    var n := |script| - 1;
    var p := Run(job, script[..n]);
    if p.verdict.Running? {
      assert Truthful(content, job, script[n]);
      SuccessfulPass(content, job, p, script[n]);
    } else {
      SuccessIsFullChunkIff(content, job, script[..n]);
    }
  }

  // ---- When the loop stops ----

  /** The server's Content-Range contradicts the request. */
  predicate IsMismatch(job: Job, turn: Turn) {
    turn.Answered? && turn.reply.Partial? && Mismatch(turn.reply.contentRange, job.Start(), job.end)
  }

  /** One pass stops the loop, or is counted; past the limit only a mismatch does not stop it. */
  lemma PassCounts(job: Job, p: Progress, turn: Turn)
    requires p.verdict.Running?
    ensures var q := Pass(job, p, turn);
            && (q.verdict.Running? ==> q.attempts == p.attempts + 1)
            && (p.attempts >= job.maxRetries ==> (q.verdict.Running? <==> IsMismatch(job, turn)))
  {
  }

  lemma {:induction false} RunningCounts(job: Job, script: seq<Turn>)
    requires Run(job, script).verdict.Running?
    ensures Run(job, script).attempts == |script|
  {
    if script != [] {
      var n := |script| - 1;
      RunningCounts(job, script[..n]);
      PassCounts(job, Run(job, script[..n]), script[n]);
    }
  }

  /** All turns past the retry limit are mismatches. */
  predicate OnlyMismatches(job: Job, script: seq<Turn>) {
    forall i | job.maxRetries <= i < |script| :: IsMismatch(job, script[i])
  }

  /** A run of more passes than the retry limit goes on iff it had not stopped within the limit and every
      pass since has been a mismatch. */
  lemma {:induction false} StillRunningIff(job: Job, script: seq<Turn>)
    requires |script| >= job.maxRetries
    ensures Run(job, script).verdict.Running? <==>
            Run(job, script[..job.maxRetries]).verdict.Running? && OnlyMismatches(job, script)
  {
    if |script| == job.maxRetries {
      assert script[..job.maxRetries] == script;
    } else {
      var n := |script| - 1;
      StillRunningIff(job, script[..n]);
      assert script[..n][..job.maxRetries] == script[..job.maxRetries];
      assert OnlyMismatches(job, script) <==> OnlyMismatches(job, script[..n]) && IsMismatch(job, script[n]);
      if Run(job, script[..n]).verdict.Running? {
        RunningCounts(job, script[..n]);
        PassCounts(job, Run(job, script[..n]), script[n]);
      }
    }
  }

  function Take(turns: nat -> Turn, n: nat): (r: seq<Turn>)
    ensures |r| == n && forall i | 0 <= i < n :: r[i] == turns(i)
  {
    seq(n, i requires 0 <= i < n => turns(i))
  }

  /** Against an endless series of replies the loop never stops iff the first passes up to the retry limit
      do not stop it and every later reply is a mismatch. */
  lemma NeverStopsIff(job: Job, turns: nat -> Turn)
    ensures (forall n: nat :: Run(job, Take(turns, n)).verdict.Running?) <==>
            Run(job, Take(turns, job.maxRetries)).verdict.Running?
            && forall i: nat | i >= job.maxRetries :: IsMismatch(job, turns(i))
  {
    var m := job.maxRetries;
    forall n: nat | n >= m ensures Take(turns, n)[..m] == Take(turns, m) {}
    if forall n: nat :: Run(job, Take(turns, n)).verdict.Running? {
      forall i: nat | i >= m ensures IsMismatch(job, turns(i)) {
        StillRunningIff(job, Take(turns, i + 1));
        assert Take(turns, i + 1)[i] == turns(i);
      }
    }
    if Run(job, Take(turns, m)).verdict.Running? && forall i: nat | i >= m :: IsMismatch(job, turns(i)) {
      forall n: nat ensures Run(job, Take(turns, n)).verdict.Running? {
        if n >= m {
          StillRunningIff(job, Take(turns, n));
        } else if !Run(job, Take(turns, n)).verdict.Running? {
          assert Take(turns, m)[..n] == Take(turns, n);
          StoppedStays(job, Take(turns, m), n);
        }
      }
    }
  }

  // ---- What each reply does ----

  /** A reply that is taken: a 200 response, or a 206 one whose Content-Range does not contradict the request. */
  predicate Taken(job: Job, turn: Turn) {
    turn.Answered? && (turn.reply.Whole? || (turn.reply.Partial? && !Mismatch(turn.reply.contentRange, job.Start(), job.end)))
  }

  /** It is taken, and the part file cannot be opened for it. */
  predicate Blocked(job: Job, turn: Turn) { Taken(job, turn) && !turn.opens }

  /** It is taken and brings all that is wanted. A 200 response has to reach the end of the segment, after which
      it may break; a 206 one has to end by itself, with exactly the bytes that are missing. Without a known
      end whatever ends by itself will do. */
  predicate Completes(job: Job, turn: Turn) {
    Taken(job, turn) && turn.opens &&
    match turn.reply
    case Whole(body) =>
      if job.end >= 0 then job.Start() <= job.end + 1 <= |body.data| else job.Start() <= |body.data| && !body.broken
    case Partial(_, body) =>
      !body.broken && (job.end >= 0 ==> job.Start() + |body.data| == job.end + 1)
    case _ => false
  }

  /** It is a failed attempt. */
  predicate Fails(job: Job, turn: Turn) { turn.Answered? && !Blocked(job, turn) && !Completes(job, turn) }

  /** The bytes that a taken reply has after the start, as far as the segment goes. */
  function Brought(job: Job, reply: Reply): string {
    match reply
    case Whole(body) =>
      if |body.data| < job.Start() then ""
      else if job.end < 0 || |body.data| <= job.end then body.data[job.Start()..]
      else if job.end + 1 <= job.Start() then ""
      else body.data[job.Start()..job.end + 1]
    case Partial(_, body) => body.data
    case _ => ""
  }

  /** What one more reply makes of a run that is still going. */
  lemma NextReply(job: Job, script: seq<Turn>, turn: Turn)
    requires Run(job, script).verdict.Running?
    ensures var before, after := Run(job, script), Run(job, script + [turn]);
            && after.verdict == (if turn.ContextDone? then Interrupted
                                 else if Blocked(job, turn) then GaveUp
                                 else if Completes(job, turn) then Succeeded
                                 else if |script| < job.maxRetries || IsMismatch(job, turn) then Running
                                 else if IsOdd(turn) then Succeeded
                                 else GaveUp)
            && after.attempts == |script| + (if Fails(job, turn) then 1 else 0)
            && Flat(after.chunks) == Flat(before.chunks) + (if Taken(job, turn) && turn.opens then Brought(job, turn.reply) else "")
  {
    RunStep(job, script, turn);
    RunningCounts(job, script);
    var before := Run(job, script);
    if Taken(job, turn) && turn.opens {
      if SkipFails(job, turn.reply) {
        assert Flat(before.chunks) + "" == Flat(before.chunks);
      } else {
        AppendedReply(job, before, turn);
      }
    }
  }

  lemma AppendedReply(job: Job, p: Progress, turn: Turn)
    requires p.verdict.Running? && Taken(job, turn) && turn.opens && !SkipFails(job, turn.reply)
    ensures var q := Append(job, p, turn.reply);
            && q.verdict == (if Completes(job, turn) then Succeeded else if p.attempts < job.maxRetries then Running else GaveUp)
            && q.attempts == p.attempts + (if Completes(job, turn) then 0 else 1)
            && Flat(q.chunks) == Flat(p.chunks) + Brought(job, turn.reply)
  {
    BroughtIsChunk(job, turn.reply);
    CompletesIff(job, turn);
    FlatSnoc(p.chunks, Chunk(job, turn.reply));
  }

  lemma FlatSnoc(chunks: seq<string>, chunk: string)
    ensures Flat(chunks + [chunk]) == Flat(chunks) + chunk
  {
    assert (chunks + [chunk])[..|chunks|] == chunks;
  }

  lemma BroughtIsChunk(job: Job, reply: Reply)
    requires (reply.Whole? || reply.Partial?) && !SkipFails(job, reply)
    ensures Chunk(job, reply) == Brought(job, reply)
  {
    if reply.Whole? && job.end >= 0 && |reply.body.data| > job.end && job.Start() <= job.end + 1 {
      var rest, n := reply.body.data[job.Start()..], job.end - job.Start() + 1;
      assert rest[..n] == reply.body.data[job.Start()..job.end + 1];
    }
  }

  lemma CompletesIff(job: Job, turn: Turn)
    requires Taken(job, turn) && turn.opens && !SkipFails(job, turn.reply)
    ensures Completes(job, turn) <==>
            !CopyFails(job, turn.reply) &&
            (job.end >= 0 ==> job.existing + |Chunk(job, turn.reply)| == job.end - job.segStart + 1)
  {
  }

  /** All replies are failed attempts, and those past the retry limit contradict the request. */
  predicate KeepsTrying(job: Job, script: seq<Turn>) {
    forall i | 0 <= i < |script| :: Fails(job, script[i]) && (i >= job.maxRetries ==> IsMismatch(job, script[i]))
  }

  /** A run is still going iff that is all it has seen. */
  lemma {:induction false} RunningIff(job: Job, script: seq<Turn>)
    ensures Run(job, script).verdict.Running? <==> KeepsTrying(job, script)
  {
    if script != [] {
      var n := |script| - 1;
      RunningIff(job, script[..n]);
      assert script[..n] + [script[n]] == script;
      assert KeepsTrying(job, script) <==>
             KeepsTrying(job, script[..n]) && Fails(job, script[n]) && (n >= job.maxRetries ==> IsMismatch(job, script[n]));
      if Run(job, script[..n]).verdict.Running? {
        NextReply(job, script[..n], script[n]);
      }
    }
  }

  /** The verdict of a run, on its replies alone: it is decided by the first one that is not a failed attempt
      within the limit or a contradiction past it. */
  lemma VerdictIs(job: Job, script: seq<Turn>, n: nat)
    requires n < |script| && KeepsTrying(job, script[..n]) && !KeepsTrying(job, script[..n + 1])
    ensures Run(job, script).verdict == if script[n].ContextDone? then Interrupted
                                        else if Blocked(job, script[n]) then GaveUp
                                        else if Completes(job, script[n]) || IsOdd(script[n]) then Succeeded
                                        else GaveUp
  {
    RunningIff(job, script[..n]);
    RunningIff(job, script[..n + 1]);
    assert script[..n] + [script[n]] == script[..n + 1];
    NextReply(job, script[..n], script[n]);
    StoppedStays(job, script, n + 1);
  }

  lemma {:induction false} FirstToStop(job: Job, script: seq<Turn>) returns (n: nat)
    requires !KeepsTrying(job, script)
    ensures n < |script| && KeepsTrying(job, script[..n]) && !KeepsTrying(job, script[..n + 1])
  {
    if KeepsTrying(job, script[..|script| - 1]) {
      n := |script| - 1;
      assert script[..n + 1] == script;
    } else {
      n := FirstToStop(job, script[..|script| - 1]);
      assert script[..|script| - 1][..n] == script[..n] && script[..|script| - 1][..n + 1] == script[..n + 1];
    }
  }

  /** As the reply after n failures, it ends the run without success. */
  predicate EndsTrying(job: Job, turn: Turn, n: nat) {
    Blocked(job, turn) || (n >= job.maxRetries && Fails(job, turn) && !IsMismatch(job, turn) && !IsOdd(turn))
  }

  /** A run gives up iff, after replies that only kept it trying, a part file did not open for a taken reply, or
      one attempt more failed than there are retries, and not by an odd status. */
  lemma GivesUpIff(job: Job, script: seq<Turn>)
    ensures Run(job, script).verdict.GaveUp? <==>
            exists n :: 0 <= n < |script| && KeepsTrying(job, script[..n]) && EndsTrying(job, script[n], n)
  {
    if n :| 0 <= n < |script| && KeepsTrying(job, script[..n]) && EndsTrying(job, script[n], n) {
      assert script[..n + 1][n] == script[n];
      VerdictIs(job, script, n);
    }
    if Run(job, script).verdict.GaveUp? {
      RunningIff(job, script);
      var n := FirstToStop(job, script);
      VerdictIs(job, script, n);
      StoppingReply(job, script, n);
    }
  }

  lemma StoppingReply(job: Job, script: seq<Turn>, n: nat)
    requires n < |script| && KeepsTrying(job, script[..n]) && !KeepsTrying(job, script[..n + 1])
    ensures Fails(job, script[n]) ==> n >= job.maxRetries && !IsMismatch(job, script[n])
  {
    forall i | 0 <= i < n ensures script[..n + 1][i] == script[..n][i] {}
    assert script[..n + 1][n] == script[n];
  }

  /** Fewer failures than the limit allows, and then a complete reply: the run succeeds. */
  lemma RetriedRunSucceeds(content: string, job: Job, script: seq<Turn>, last: Turn)
    requires Fits(content, job) && Truthful(content, job, last) && job.end >= 0
    requires |script| <= job.maxRetries && Completes(job, last)
    requires forall i | 0 <= i < |script| ::
               script[i].Answered? && (script[i].reply.NetworkError? || script[i].reply.OddStatus? || IsMismatch(job, script[i]))
    ensures var p := Run(job, script + [last]);
            p.verdict.Succeeded? && p.attempts == |script| && Flat(p.chunks) == Requested(content, job)
  {
    RunningIff(job, script);
    NextReply(job, script, last);
    NothingTaken(job, script);
    CompleteIsRequested(content, job, last);
  }

  lemma {:induction false} NothingTaken(job: Job, script: seq<Turn>)
    requires forall i | 0 <= i < |script| ::
               script[i].Answered? && (script[i].reply.NetworkError? || script[i].reply.OddStatus? || IsMismatch(job, script[i]))
    ensures Run(job, script).chunks == []
  {
    if script != [] {
      NothingTaken(job, script[..|script| - 1]);
    }
  }

  /** A complete truthful reply brings what was asked for. */
  lemma CompleteIsRequested(content: string, job: Job, turn: Turn)
    requires Fits(content, job) && Truthful(content, job, turn) && job.end >= 0 && Completes(job, turn)
    ensures Brought(job, turn.reply) == Requested(content, job)
  {
    if turn.reply.Partial? {
      var data := turn.reply.body.data;
      if Labelled(content, turn.reply.contentRange, data) {
        LabelledIsRequested(content, job, turn.reply.contentRange, data);
      }
      assert |data| == |Requested(content, job)| && data <= Requested(content, job);
    } else {
      assert turn.reply.body.data <= content;
    }
  }

  /** A run that an odd status meets while it is still going ends in success iff it has used up its
      retries; it never appends anything. */
  lemma OddStatusSucceedsIff(job: Job, script: seq<Turn>, odd: Turn)
    requires Run(job, script).verdict.Running? && IsOdd(odd)
    ensures var after := Run(job, script + [odd]);
            && (after.verdict.Succeeded? <==> |script| >= job.maxRetries)
            && (after.verdict.Running? <==> |script| < job.maxRetries)
            && after.chunks == Run(job, script).chunks
  {
    RunStep(job, script, odd);
    RunningCounts(job, script);
  }

  // ---- The part file ----

  /** The slice that the part file is meant to become. */
  function SliceOf(content: string, job: Job): string
    requires Fits(content, job) && job.end >= 0
  {
    content[job.segStart..job.end + 1]
  }

  lemma {:induction false} FlatSplit(chunks: seq<string>)
    requires chunks != []
    ensures |Flat(chunks)| == |Flat(chunks[..|chunks| - 1])| + |chunks[|chunks| - 1]|
    ensures Flat(chunks[..|chunks| - 1]) == "" <==> forall i | 0 <= i < |chunks| - 1 :: chunks[i] == ""
  {
    var n := |chunks| - 1;
    if n > 0 {
      FlatSplit(chunks[..n]);
      assert chunks[..n][..n - 1] == chunks[..n - 1];
      assert Flat(chunks[..n]) == Flat(chunks[..n - 1]) + chunks[n - 1];
    }
  }

  predicate LastPassOnly(chunks: seq<string>) { forall j | 0 <= j < |chunks| - 1 :: chunks[j] == "" }

  /** A reply that is accepted and brings at least one byte. */
  predicate Brings(job: Job, turn: Turn) {
    && turn.Answered? && turn.opens && (turn.reply.Whole? || turn.reply.Partial?)
    && !IsMismatch(job, turn) && !SkipFails(job, turn.reply) && Chunk(job, turn.reply) != ""
  }

  /** The turns that the run gets to see, up to the one that stops it. */
  function Heeded(job: Job, script: seq<Turn>): seq<Turn> {
    if script == [] then []
    else if Run(job, script[..|script| - 1]).verdict.Running? then script
    else Heeded(job, script[..|script| - 1])
  }

  /** None of these replies brings anything. */
  predicate NoneBrings(job: Job, turns: seq<Turn>) {
    turns == [] || (NoneBrings(job, turns[..|turns| - 1]) && !Brings(job, turns[|turns| - 1]))
  }

  /** No reply before the deciding one brings anything. */
  predicate SilentBefore(job: Job, script: seq<Turn>) {
    var heeded := Heeded(job, script);
    heeded == [] || NoneBrings(job, heeded[..|heeded| - 1])
  }

  /** No reply brings anything at all. */
  predicate Silent(job: Job, script: seq<Turn>) { NoneBrings(job, Heeded(job, script)) }

  lemma PassBrings(job: Job, p: Progress, turn: Turn)
    requires p.verdict.Running?
    ensures var q := Pass(job, p, turn);
            && (Flat(q.chunks) == "" <==> Flat(p.chunks) == "" && !Brings(job, turn))
            && (if Brings(job, turn) then |q.chunks| == |p.chunks| + 1 else Flat(q.chunks) == Flat(p.chunks))
            && (q.verdict.Succeeded? && !IsOdd(turn) ==> |q.chunks| == |p.chunks| + 1 && q.chunks[..|p.chunks|] == p.chunks)
  {
    var q := Pass(job, p, turn);
    if |q.chunks| > |p.chunks| {
      assert q.chunks[..|p.chunks|] == p.chunks;
    }
  }

  lemma {:induction false} RunningSilentIff(job: Job, script: seq<Turn>)
    requires Run(job, script).verdict.Running?
    ensures Flat(Run(job, script).chunks) == "" <==> NoneBrings(job, script)
  {
    if script != [] {
      RunningSilentIff(job, script[..|script| - 1]);
      PassBrings(job, Run(job, script[..|script| - 1]), script[|script| - 1]);
    }
  }

  /** A run appends nothing iff no reply that it sees brings anything. */
  lemma {:induction false} SilentIff(job: Job, script: seq<Turn>)
    ensures Flat(Run(job, script).chunks) == "" <==> Silent(job, script)
  {
    if script != [] {
      var n := |script| - 1;
      if Run(job, script[..n]).verdict.Running? {
        RunningSilentIff(job, script[..n]);
        PassBrings(job, Run(job, script[..n]), script[n]);
      } else {
        SilentIff(job, script[..n]);
      }
    }
  }

  lemma FlatOfAllButLast(chunks: seq<string>)
    requires chunks != []
    ensures LastPassOnly(chunks) <==> Flat(chunks[..|chunks| - 1]) == ""
  {
    FlatSplit(chunks);
  }

  /** Only the last pass of a successful run appended anything iff no reply before the deciding one
      brings anything. */
  lemma {:induction false} SilentBeforeIff(job: Job, script: seq<Turn>)
    requires Run(job, script).verdict.Succeeded? && !DecidedOdd(job, script)
    ensures Run(job, script).chunks != []
    ensures LastPassOnly(Run(job, script).chunks) <==> SilentBefore(job, script)
  {
    var n := |script| - 1;
    var p := Run(job, script[..n]);
    if p.verdict.Running? {
      RunningSilentIff(job, script[..n]);
      PassBrings(job, p, script[n]);
      FlatOfAllButLast(Run(job, script).chunks);
    } else {
      SilentBeforeIff(job, script[..n]);
    }
  }

  /** A successful run over a part file that was a correct prefix makes it the whole slice iff no reply
      before the deciding one brought anything. */
  lemma SuccessIsWholeIff(content: string, job: Job, script: seq<Turn>, before: string)
    requires Fits(content, job) && AllTruthful(content, job, script) && !DecidedOdd(job, script)
    requires job.end >= 0 && Run(job, script).verdict.Succeeded?
    requires |before| == job.existing && before <= SliceOf(content, job)
    ensures var part := before + Flat(Run(job, script).chunks);
            && (part == SliceOf(content, job) <==> SilentBefore(job, script))
            && |part| >= |SliceOf(content, job)|
            && (|part| == |SliceOf(content, job)| ==> SilentBefore(job, script))
  {
    SuccessIsFullChunkIff(content, job, script);
    SliceSplits(content, job, before);
    LastChunkCompletes(before, Run(job, script).chunks, Requested(content, job));
    SilentBeforeIff(job, script);
  }

  lemma {:induction false} LastChunkIsLast(job: Job, script: seq<Turn>)
    requires Run(job, script).verdict.Succeeded? && !DecidedOdd(job, script)
    ensures var chunks := Run(job, script).chunks; chunks != [] && LastChunk(job, script) == Some(chunks[|chunks| - 1])
  {
    var n := |script| - 1;
    if Run(job, script[..n]).verdict.Running? {
      PassBrings(job, Run(job, script[..n]), script[n]);
    } else {
      LastChunkIsLast(job, script[..n]);
    }
  }

  /** With an unknown end a success says nothing of how much came. A successful run over a correct prefix
      makes the part the whole rest iff the appended chunks join to what was asked for: that is, when
      nothing came before the deciding reply, iff that one is complete; and when that one is complete, iff
      nothing came before it. */
  lemma OpenEndIsWholeIff(content: string, job: Job, script: seq<Turn>, before: string)
    requires Fits(content, job) && job.end < 0
    requires Run(job, script).verdict.Succeeded? && !DecidedOdd(job, script)
    requires |before| == job.existing && before <= content[job.segStart..]
    ensures var whole := before + Flat(Run(job, script).chunks) == content[job.segStart..];
            && (whole <==> Flat(Run(job, script).chunks) == Requested(content, job))
            && (SilentBefore(job, script) ==> (whole <==> LastChunk(job, script) == Some(Requested(content, job))))
            && (LastChunk(job, script) == Some(Requested(content, job)) ==> (whole <==> SilentBefore(job, script)))
  {
    var chunks, rest := Run(job, script).chunks, Requested(content, job);
    assert content[job.segStart..] == before + rest;
    LastChunkIsLast(job, script);
    SilentBeforeIff(job, script);
    FlatOfAllButLast(chunks);
    JoinIff(chunks, rest);
    SamePrefix(before, Flat(chunks), rest);
  }

  lemma JoinIff(chunks: seq<string>, rest: string)
    requires chunks != []
    ensures var earlier, last := Flat(chunks[..|chunks| - 1]), chunks[|chunks| - 1];
            && (earlier == "" ==> (Flat(chunks) == rest <==> last == rest))
            && (last == rest ==> (Flat(chunks) == rest <==> earlier == ""))
  {
    var earlier, last := Flat(chunks[..|chunks| - 1]), chunks[|chunks| - 1];
    assert Flat(chunks) == earlier + last;
    assert |Flat(chunks)| == |earlier| + |last|;
    assert "" + last == last;
  }

  lemma SamePrefix(p: string, a: string, b: string)
    ensures p + a == p + b <==> a == b
  {
    assert (p + a)[|p|..] == a && (p + b)[|p|..] == b;
  }

  lemma LastChunkCompletes(before: string, chunks: seq<string>, rest: string)
    requires chunks != [] && chunks[|chunks| - 1] == rest
    ensures before + Flat(chunks) == before + rest <==> LastPassOnly(chunks)
    ensures |before + Flat(chunks)| >= |before + rest|
    ensures |before + Flat(chunks)| == |before + rest| ==> LastPassOnly(chunks)
  {
    FlatSplit(chunks);
  }

  /** At most one of these replies brings anything. */
  predicate OneBrings(job: Job, turns: seq<Turn>) {
    turns == [] ||
    (OneBrings(job, turns[..|turns| - 1]) && (Brings(job, turns[|turns| - 1]) ==> NoneBrings(job, turns[..|turns| - 1])))
  }

  /** A reply that brings something, after none that did. */
  lemma FirstToBring(content: string, job: Job, p: Progress, turn: Turn)
    requires Fits(content, job) && Truthful(content, job, turn) && p.verdict.Running?
    requires Flat(p.chunks) == "" && Brings(job, turn)
    ensures Flat(Pass(job, p, turn).chunks) <= Requested(content, job)
  {
    ChunkIsPrefix(content, job, turn.reply);
    assert Pass(job, p, turn) == Append(job, p, turn.reply);
    FlatSnoc(p.chunks, Chunk(job, turn.reply));
    assert "" + Chunk(job, turn.reply) == Chunk(job, turn.reply);
  }

  /** While at most one reply brings anything, what is appended is a first part of what was asked for. */
  lemma {:induction false} OneBringsPrefix(content: string, job: Job, script: seq<Turn>)
    requires Fits(content, job) && AllTruthful(content, job, script) && OneBrings(job, Heeded(job, script))
    ensures Flat(Run(job, script).chunks) <= Requested(content, job)
  {
    if script != [] {
      var n := |script| - 1;
      var p := Run(job, script[..n]);
      if p.verdict.Running? {
        OneBringsPrefix(content, job, script[..n]);
        RunningSilentIff(job, script[..n]);
        PassBrings(job, p, script[n]);
        assert Truthful(content, job, script[n]);
        if Brings(job, script[n]) {
          FirstToBring(content, job, p, script[n]);
        }
      } else {
        OneBringsPrefix(content, job, script[..n]);
      }
    }
  }

  /** One run over a part that is a correct prefix of its slice. */
  lemma OneRunStaysCorrect(content: string, job: Job, script: seq<Turn>, before: string)
    requires Fits(content, job) && job.end >= 0 && AllTruthful(content, job, script) && OneBrings(job, Heeded(job, script))
    requires |before| == job.existing && before <= SliceOf(content, job)
    ensures var part := before + Flat(Run(job, script).chunks);
            && part <= SliceOf(content, job)
            && (Run(job, script).verdict.Succeeded? && !DecidedOdd(job, script) ==> part == SliceOf(content, job))
  {
    OneBringsPrefix(content, job, script);
    SliceSplits(content, job, before);
    if Run(job, script).verdict.Succeeded? && !DecidedOdd(job, script) {
      SuccessIsFullChunkIff(content, job, script);
      PrefixEndingInAll(Run(job, script).chunks, Requested(content, job));
    }
  }

  lemma SliceSplits(content: string, job: Job, before: string)
    requires Fits(content, job) && job.end >= 0 && |before| == job.existing && before <= SliceOf(content, job)
    ensures SliceOf(content, job) == before + Requested(content, job)
  {
  }

  lemma PrefixEndingInAll(chunks: seq<string>, rest: string)
    requires chunks != [] && chunks[|chunks| - 1] == rest && Flat(chunks) <= rest
    ensures Flat(chunks) == rest
  {
    FlatSplit(chunks);
    assert |Flat(chunks)| == |rest|;
  }

  /** A series of paused and resumed runs of one segment: each starts from the part file that the one
      before it left. */
  ghost predicate ResumedRuns(segStart: nat, end: int, maxRetries: nat, scripts: seq<seq<Turn>>, parts: seq<string>) {
    && |parts| == |scripts| + 1
    && forall k | 0 <= k < |scripts| ::
         parts[k + 1] == parts[k] + Flat(Run(Job(segStart, end, |parts[k]|, maxRetries), scripts[k]).chunks)
  }

  /** As long as no run sees more than one reply that brings anything, the part file stays a prefix of its slice over
      any number of pauses, and a successful run makes it the whole slice. */
  lemma {:induction false} ResumedRunsStayCorrect(content: string, segStart: nat, end: nat, maxRetries: nat,
                                                  scripts: seq<seq<Turn>>, parts: seq<string>, k: nat)
    requires |content| <= MAX_INT64 && segStart <= end < |content| && k <= |scripts|
    requires ResumedRuns(segStart, end, maxRetries, scripts, parts) && parts[0] <= content[segStart..end + 1]
    requires forall i | 0 <= i < k :: Fits(content, Job(segStart, end, |parts[i]|, maxRetries)) ==>
               && AllTruthful(content, Job(segStart, end, |parts[i]|, maxRetries), scripts[i])
               && OneBrings(Job(segStart, end, |parts[i]|, maxRetries), Heeded(Job(segStart, end, |parts[i]|, maxRetries), scripts[i]))
    ensures parts[k] <= content[segStart..end + 1]
    ensures k > 0 && !DecidedOdd(Job(segStart, end, |parts[k - 1]|, maxRetries), scripts[k - 1])
            && Run(Job(segStart, end, |parts[k - 1]|, maxRetries), scripts[k - 1]).verdict.Succeeded?
            ==> parts[k] == content[segStart..end + 1]
  {
    if k > 0 {
      ResumedRunsStayCorrect(content, segStart, end, maxRetries, scripts, parts, k - 1);
      var job := Job(segStart, end, |parts[k - 1]|, maxRetries);
      assert Fits(content, job);
      OneRunStaysCorrect(content, job, scripts[k - 1], parts[k - 1]);
    }
  }

  // ---- Where the code falls short ----

  lemma RunStep(job: Job, script: seq<Turn>, turn: Turn)
    ensures Run(job, script + [turn]) == var p := Run(job, script); if p.verdict.Running? then Pass(job, p, turn) else p
  {
    assert (script + [turn])[..|script|] == script;
  }

  /** A retry after a partial append starts over at the old offset but writes at the end: a run over
      the content "ab" reports success and leaves "aab". */
  lemma RetryDuplicatesBytes()
    ensures var job := Job(0, 1, 0, 3);
            var script := [Answered(Partial("", Body("a", true)), true), Answered(Partial("", Body("ab", false)), true)];
            && AllTruthful("ab", job, script) && !DecidedOdd(job, script)
            && Run(job, script).verdict.Succeeded? && Run(job, script).chunks == ["a", "ab"]
  {
    var job := Job(0, 1, 0, 3);
    var one := Answered(Partial("", Body("a", true)), true);
    var two := Answered(Partial("", Body("ab", false)), true);
    RunStep(job, [], one);
    RunStep(job, [one], two);
    assert [] + [one] == [one] && [one] + [two] == [one, two];
    assert Run(job, [one]) == Progress(Running, 1, ["a"]);
    assert "ab"[0..2] == "ab";
  }

  /** A retried odd status does no harm: after it the right reply still makes the part whole. */
  lemma RetriedOddStatusIsHarmless()
    ensures var job := Job(0, 1, 0, 3);
            var script := [Answered(OddStatus, true), Answered(Partial("", Body("ab", false)), true)];
            && AllTruthful("ab", job, script) && !DecidedOdd(job, script)
            && Run(job, script).verdict.Succeeded? && Run(job, script).chunks == ["ab"]
  {
    var job := Job(0, 1, 0, 3);
    var one, two := Answered(OddStatus, true), Answered(Partial("", Body("ab", false)), true);
    RunStep(job, [], one);
    RunStep(job, [one], two);
    assert [] + [one] == [one] && [one] + [two] == [one, two] && [one, two][..1] == [one];
    assert "ab"[0..2] == "ab";
  }

  const ODD := Answered(OddStatus, true)

  lemma OddPass(job: Job, p: Progress)
    ensures Pass(job, p, ODD) == Progress(if p.attempts >= job.maxRetries then Succeeded else Running, p.attempts + 1, p.chunks)
  {
  }

  /** Nothing but odd statuses ends in success without a byte as soon as the retries have run out. */
  lemma {:induction false} OddStatusSucceedsEmpty(job: Job, n: nat)
    requires n <= job.maxRetries + 1
    ensures Run(job, Take(_ => ODD, n)) == Progress(if n > job.maxRetries then Succeeded else Running, n, [])
  {
    if n > 0 {
      OddStatusSucceedsEmpty(job, n - 1);
      assert Take(_ => ODD, n) == Take(_ => ODD, n - 1) + [ODD];
      RunStep(job, Take(_ => ODD, n - 1), ODD);
      OddPass(job, Progress(Running, n - 1, []));
    }
  }

  /** A server whose every reply is the same mismatch keeps the loop going for ever. */
  lemma MismatchNeverGivesUp(job: Job, header: string, body: Body, opens: bool, n: nat)
    requires Mismatch(header, job.Start(), job.end)
    ensures Run(job, Take(_ => Answered(Partial(header, body), opens), n)).verdict.Running?
  {
    var turns: nat -> Turn := _ => Answered(Partial(header, body), opens);
    MismatchedRunGoesOn(job, Take(turns, job.maxRetries));
    NeverStopsIff(job, turns);
  }

  lemma {:induction false} MismatchedRunGoesOn(job: Job, script: seq<Turn>)
    requires forall i | 0 <= i < |script| :: IsMismatch(job, script[i])
    ensures Run(job, script).verdict.Running?
  {
    if script != [] {
      MismatchedRunGoesOn(job, script[..|script| - 1]);
      assert IsMismatch(job, script[|script| - 1]);
    }
  }
}
