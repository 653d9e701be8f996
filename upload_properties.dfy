/** What a run of the orchestrator does to the store, proved about Run (and
    so, through UploadFileToCeph's postcondition, about the method): the
    order and number of requests on each path, which upload id and part
    numbers they carry, which bytes each part carries, and which ETags the
    complete request lists. */
module UploadProperties {
  import opened Wrappers
  import opened Partition
  import opened Disk
  import opened ObjectStore
  import opened Upload

  /** c is the upload of part n under uploadId: right bucket and key, and a
      body that is exactly the bytes read from part n's range. */
  ghost predicate IsPartUpload(env: Env, uploadId: string, n: int, c: Call)
    requires 0 <= env.fileSize
  {
    && 1 <= n <= TotalParts
    && c.UploadPartCall?
    && c.bucket == env.cfg.bucketName && c.key == env.cfg.objectName
    && c.uploadId == uploadId && c.partNumber == n
    && ReadAt(env.file, Bounds(n, env.fileSize).start, Bounds(n, env.fileSize).Length()) == Success(c.body)
  }

  /** Positions from..to-1 of the log hold the uploads of parts first,
      first+1, ..., in that order. */
  ghost predicate UploadsInOrder(env: Env, uploadId: string, log: seq<Call>, from: int, to: int, first: int)
    requires 0 <= env.fileSize
  {
    && 0 <= from <= to <= |log|
    && forall p :: from <= p < to ==> IsPartUpload(env, uploadId, first + (p - from), log[p])
  }

  /** The store accepted every request at positions from..to-1. */
  ghost predicate AllAccepted(respond: Responder, log: seq<Call>, from: int, to: int)
  {
    && 0 <= from <= to <= |log|
    && forall p :: from <= p < to ==> respond(log[p]).Ok?
  }

  /** parts[k] is part first+k carrying the ETag the store returned for the
      request at position from+k. */
  ghost predicate TagsMatch(respond: Responder, log: seq<Call>, from: int, parts: seq<CompletedPart>, first: int)
  {
    && 0 <= from && from + |parts| <= |log|
    && forall p :: from <= p < from + |parts| ==>
         && respond(log[p]).Ok?
         && parts[p - from] == CompletedPart(respond(log[p]).value, first + (p - from))
  }

  /** The uploads of a part loop, placed after the create request in a run's
      log, sit at positions 1.. */
  lemma EmbedUploads(env: Env, uploadId: string, create: Call, log: seq<Call>, last: Call)
    requires 0 <= env.fileSize
    requires UploadsInOrder(env, uploadId, log, 0, |log|, 1)
    ensures UploadsInOrder(env, uploadId, [create] + log + [last], 1, |log| + 1, 1)
  {
    var run := [create] + log + [last];
    forall q | 1 <= q < |log| + 1
      ensures IsPartUpload(env, uploadId, 1 + (q - 1), run[q])
    {
      assert run[q] == log[q - 1];
    }
  }

  /** An accepted create in front of n accepted requests: n+1 accepted, in
      a run's log that has one more request at its end. */
  lemma EmbedAccepted(respond: Responder, create: Call, log: seq<Call>, last: Call, n: int)
    requires respond(create).Ok?
    requires AllAccepted(respond, log, 0, n)
    ensures AllAccepted(respond, [create] + log + [last], 0, n + 1)
  {
    var run := [create] + log + [last];
    forall q | 0 <= q < n + 1
      ensures respond(run[q]).Ok?
    {
      if q > 0 {
        assert run[q] == log[q - 1];
      }
    }
  }

  /** Tags matched against a part loop's log match at positions 1.. of the
      run's log. */
  lemma EmbedTags(respond: Responder, create: Call, log: seq<Call>, last: Call, parts: seq<CompletedPart>)
    requires TagsMatch(respond, log, 0, parts, 1)
    ensures TagsMatch(respond, [create] + log + [last], 1, parts, 1)
  {
    var run := [create] + log + [last];
    forall q | 1 <= q < 1 + |parts|
      ensures respond(run[q]).Ok?
      ensures parts[q - 1] == CompletedPart(respond(run[q]).value, 1 + (q - 1))
    {
      assert run[q] == log[q - 1];
    }
  }

  /** The outcomes of the ten turns, as if each were attempted. */
  type Turns = seq<Step<Result<CompletedPart, PartError>>>

  /** The turns of the part loop under an upload id: element j is turn j+1. */
  ghost function TurnsOf(env: Env, uploadId: string): (ts: Turns)
    requires 0 <= env.fileSize
    ensures |ts| == TotalParts
    ensures forall j :: 0 <= j < TotalParts ==> ts[j] == Turn(env, uploadId, j + 1)
  {
    seq(TotalParts, j requires 0 <= j < TotalParts => Turn(env, uploadId, j + 1))
  }

  /** The part loop from part i on, over turn outcomes given in advance: it
      stops at the first failing turn, so later outcomes are never used. */
  ghost function Loop(ts: Turns, i: int): Step<PartsResult>
    requires |ts| == TotalParts
    requires 1 <= i <= TotalParts + 1
    decreases TotalParts + 1 - i
  {
    if i > TotalParts then Step([], AllUploaded([]))
    else
      match ts[i - 1].result
      case Failure(e) => Step(ts[i - 1].log, PartsFailed(i, e))
      case Success(part) => After(ts[i - 1].log, [part], Loop(ts, i + 1))
  }

  /** A turn sends at most one request, and none exactly when its read
      failed. */
  ghost predicate TurnShaped(t: Step<Result<CompletedPart, PartError>>)
  {
    && |t.log| <= 1
    && (t.log == [] <==> (t.result.Failure? && t.result.error.ReadFailed?))
  }

  ghost predicate Shaped(ts: Turns)
  {
    |ts| == TotalParts && forall j :: 0 <= j < |ts| ==> TurnShaped(ts[j])
  }

  /** What turn j+1 of ts did: its request, if any, is the upload of part
      j+1; a read failure is a failure of that part's read; an accepted
      upload yields the part with the store's ETag; a refused one, the
      store's message. */
  ghost predicate TurnMeets(env: Env, uploadId: string, ts: Turns, j: int)
    requires 0 <= env.fileSize
    requires 0 <= j < |ts| && j < TotalParts
  {
    var t, r := ts[j], Bounds(j + 1, env.fileSize);
    && TurnShaped(t)
    && (t.log != [] ==> IsPartUpload(env, uploadId, j + 1, t.log[0]))
    && (t.result.Failure? && t.result.error.ReadFailed? ==> ReadAt(env.file, r.start, r.Length()) == Failure(t.result.error.cause))
    && (t.result.Success? ==>
          && env.respond(t.log[0]).Ok?
          && t.result.value == CompletedPart(env.respond(t.log[0]).value, j + 1))
    && (t.result.Failure? && t.result.error.TransferFailed? ==>
          env.respond(t.log[0]) == Err(t.result.error.message))
  }

  /** Every turn of ts did what the same turn of the part loop does. */
  ghost predicate Faithful(env: Env, uploadId: string, ts: Turns)
    requires 0 <= env.fileSize
  {
    && |ts| == TotalParts
    && forall j :: 0 <= j < TotalParts ==> TurnMeets(env, uploadId, ts, j)
  }

  /** Each turn of the part loop does what TurnMeets says. */
  lemma TurnFacts(env: Env, uploadId: string, i: int)
    requires 0 <= env.fileSize
    requires 1 <= i <= TotalParts
    ensures TurnMeets(env, uploadId, TurnsOf(env, uploadId), i - 1)
  {
  }

  lemma TurnsFaithful(env: Env, uploadId: string)
    requires 0 <= env.fileSize
    ensures Faithful(env, uploadId, TurnsOf(env, uploadId))
    ensures Shaped(TurnsOf(env, uploadId))
  {
    var ts := TurnsOf(env, uploadId);
    forall j | 0 <= j < TotalParts
      ensures TurnMeets(env, uploadId, ts, j)
    {
      TurnFacts(env, uploadId, j + 1);
    }
  }

  /** PartsFrom is the loop over its own turns. */
  lemma {:induction false} PartsFromIsLoop(env: Env, uploadId: string, i: int)
    requires 0 <= env.fileSize
    requires 1 <= i <= TotalParts + 1
    ensures PartsFrom(env, uploadId, i) == Loop(TurnsOf(env, uploadId), i)
    decreases TotalParts + 1 - i
  {
    if i <= TotalParts {
      PartsFromIsLoop(env, uploadId, i + 1);
    }
  }

  /** The loop from turn i sends the requests of turns i, i+1, ... in
      order, one per turn, as long as it goes on. */
  lemma {:induction false} LoopSent(ts: Turns, i: int)
    requires Shaped(ts)
    requires 1 <= i <= TotalParts + 1
    ensures var s := Loop(ts, i);
      && |s.log| <= TotalParts + 1 - i
      && forall j :: i - 1 <= j < i - 1 + |s.log| ==> |ts[j].log| == 1 && ts[j].log[0] == s.log[j - (i - 1)]
    decreases TotalParts + 1 - i
  {
    if i <= TotalParts {
      var t := ts[i - 1];
      assert TurnShaped(t);
      if t.result.Success? {
        var rest := Loop(ts, i + 1);
        LoopSent(ts, i + 1);
        var s := Loop(ts, i);
        assert s.log == t.log + rest.log;
        forall j | i - 1 <= j < i - 1 + |s.log|
          ensures |ts[j].log| == 1 && ts[j].log[0] == s.log[j - (i - 1)]
        {
          if j > i - 1 {
            assert s.log[j - (i - 1)] == rest.log[j - i];
          }
        }
      }
    }
  }

  /** A loop from turn i that uploads everything: every turn i..10
      succeeded, each sent one request, and the parts are their results in
      order. */
  lemma {:induction false} LoopAllUploaded(ts: Turns, i: int)
    requires Shaped(ts)
    requires 1 <= i <= TotalParts + 1
    requires Loop(ts, i).result.AllUploaded?
    ensures var s := Loop(ts, i);
      && |s.log| == TotalParts + 1 - i
      && |s.result.parts| == TotalParts + 1 - i
      && forall j :: i - 1 <= j < TotalParts ==> ts[j].result == Success(s.result.parts[j - (i - 1)])
    decreases TotalParts + 1 - i
  {
    if i <= TotalParts {
      var t := ts[i - 1];
      assert TurnShaped(t);
      var rest := Loop(ts, i + 1);
      LoopAllUploaded(ts, i + 1);
      var s := Loop(ts, i);
      assert s.result.parts == [t.result.value] + rest.result.parts;
      forall j | i - 1 <= j < TotalParts
        ensures ts[j].result == Success(s.result.parts[j - (i - 1)])
      {
        if j > i - 1 {
          assert s.result.parts[j - (i - 1)] == rest.result.parts[j - i];
        }
      }
    }
  }

  /** A loop from turn i that stops at part k: turns i..k-1 succeeded, turn
      k failed with the loop's error, and the loop sent their requests. */
  lemma {:induction false} LoopFailed(ts: Turns, i: int)
    requires Shaped(ts)
    requires 1 <= i <= TotalParts
    requires Loop(ts, i).result.PartsFailed?
    ensures var s := Loop(ts, i);
      var k := s.result.part;
      && i <= k <= TotalParts
      && (forall j :: i - 1 <= j < k - 1 ==> ts[j].result.Success?)
      && ts[k - 1].result == Failure(s.result.error)
      && |s.log| == (k - i) + |ts[k - 1].log|
    decreases TotalParts + 1 - i
  {
    var t := ts[i - 1];
    assert TurnShaped(t);
    if t.result.Success? {
      var rest := Loop(ts, i + 1);
      assert rest.result.PartsFailed? && i < TotalParts;
      LoopFailed(ts, i + 1);
    }
  }

  /** What a part loop's outcome p says: it sent at most one request per
      part, and what it sent are the uploads of parts 1, 2, ..., in that
      order. */
  ghost predicate SendsUploads(env: Env, uploadId: string, p: Step<PartsResult>)
    requires 0 <= env.fileSize
  {
    && |p.log| <= TotalParts
    && UploadsInOrder(env, uploadId, p.log, 0, |p.log|, 1)
  }

  /** A part loop that uploaded everything: one upload per part, all
      accepted, and the completed parts are parts 1..10 in order, each with
      the ETag the store returned for its own upload. */
  ghost predicate UploadsAll(respond: Responder, p: Step<PartsResult>)
  {
    && p.result.AllUploaded?
    && |p.log| == TotalParts
    && AllAccepted(respond, p.log, 0, |p.log|)
    && |p.result.parts| == TotalParts
    && TagsMatch(respond, p.log, 0, p.result.parts, 1)
  }

  /** A part loop that stopped at part k: the uploads of parts 1..k-1 were
      accepted; then either k's read failed and nothing more was sent, or
      k's upload was sent and the store refused it with the loop's message. */
  ghost predicate StopsAtFailure(env: Env, p: Step<PartsResult>)
    requires 0 <= env.fileSize
  {
    && p.result.PartsFailed?
    && var k := p.result.part;
       && 1 <= k <= TotalParts
       && AllAccepted(env.respond, p.log, 0, k - 1)
       && (p.result.error.ReadFailed? ==>
             && |p.log| == k - 1
             && ReadAt(env.file, Bounds(k, env.fileSize).start, Bounds(k, env.fileSize).Length())
                == Failure(p.result.error.cause))
       && (p.result.error.TransferFailed? ==>
             && |p.log| == k
             && env.respond(p.log[k - 1]) == Err(p.result.error.message))
  }

  lemma LoopUploads(env: Env, uploadId: string, ts: Turns)
    requires 0 <= env.fileSize
    requires Faithful(env, uploadId, ts) && Shaped(ts)
    ensures SendsUploads(env, uploadId, Loop(ts, 1))
  {
    var s := Loop(ts, 1);
    LoopSent(ts, 1);
    forall q | 0 <= q < |s.log|
      ensures IsPartUpload(env, uploadId, 1 + (q - 0), s.log[q])
    {
      assert |ts[q].log| == 1 && ts[q].log[0] == s.log[q - 0];
      assert TurnMeets(env, uploadId, ts, q);
    }
  }

  lemma LoopAccepted(env: Env, uploadId: string, ts: Turns)
    requires 0 <= env.fileSize
    requires Faithful(env, uploadId, ts) && Shaped(ts)
    requires Loop(ts, 1).result.AllUploaded?
    ensures UploadsAll(env.respond, Loop(ts, 1))
  {
    var s := Loop(ts, 1);
    LoopSent(ts, 1);
    LoopAllUploaded(ts, 1);
    forall q | 0 <= q < |s.log|
      ensures env.respond(s.log[q]).Ok?
      ensures s.result.parts[q - 0] == CompletedPart(env.respond(s.log[q]).value, 1 + (q - 0))
    {
      assert |ts[q].log| == 1 && ts[q].log[0] == s.log[q - 0];
      assert ts[q].result == Success(s.result.parts[q - 0]);
      assert TurnMeets(env, uploadId, ts, q);
    }
  }

  lemma LoopRefused(env: Env, uploadId: string, ts: Turns)
    requires 0 <= env.fileSize
    requires Faithful(env, uploadId, ts) && Shaped(ts)
    requires Loop(ts, 1).result.PartsFailed?
    ensures StopsAtFailure(env, Loop(ts, 1))
  {
    var s := Loop(ts, 1);
    LoopSent(ts, 1);
    LoopFailed(ts, 1);
    var k := s.result.part;
    forall q | 0 <= q < k - 1
      ensures env.respond(s.log[q]).Ok?
    {
      assert |ts[q].log| == 1 && ts[q].log[0] == s.log[q - 0];
      assert ts[q].result.Success?;
      assert TurnMeets(env, uploadId, ts, q);
    }
    assert TurnMeets(env, uploadId, ts, k - 1);
    if s.result.error.TransferFailed? {
      assert |ts[k - 1].log| == 1 && ts[k - 1].log[0] == s.log[(k - 1) - 0];
    }
  }

  /** The part loop from part 1 sends at most one request per part, and what
      it sends are the uploads of parts 1, 2, ..., in that order. */
  lemma PartsFromUploads(env: Env, uploadId: string)
    requires 0 <= env.fileSize
    ensures SendsUploads(env, uploadId, PartsFrom(env, uploadId, 1))
  {
    PartsFromIsLoop(env, uploadId, 1);
    TurnsFaithful(env, uploadId);
    LoopUploads(env, uploadId, TurnsOf(env, uploadId));
  }

  /** A part loop that uploads everything has sent one upload per part,
      all accepted, and collected their ETags in order. */
  lemma PartsFromAllUploaded(env: Env, uploadId: string)
    requires 0 <= env.fileSize
    requires PartsFrom(env, uploadId, 1).result.AllUploaded?
    ensures UploadsAll(env.respond, PartsFrom(env, uploadId, 1))
  {
    PartsFromIsLoop(env, uploadId, 1);
    TurnsFaithful(env, uploadId);
    LoopAccepted(env, uploadId, TurnsOf(env, uploadId));
  }

  /** A part loop that stops at part k has sent the accepted uploads of
      parts 1..k-1, and then either nothing more (k's read failed, with that error) or k's
      upload, which the store refused. */
  lemma PartsFromFailed(env: Env, uploadId: string)
    requires 0 <= env.fileSize
    requires PartsFrom(env, uploadId, 1).result.PartsFailed?
    ensures StopsAtFailure(env, PartsFrom(env, uploadId, 1))
  {
    PartsFromIsLoop(env, uploadId, 1);
    TurnsFaithful(env, uploadId);
    LoopRefused(env, uploadId, TurnsOf(env, uploadId));
  }

  /** The upload id the store returned for the run's create request (the
      empty string when it refused the create). */
  ghost function CreatedId(env: Env): string
  {
    var created := env.respond(CreateCall(env.cfg.bucketName, env.cfg.objectName));
    if created.Ok? then created.value else ""
  }

  /** Every run begins with one create request for the configured bucket and
      key, and fails right there exactly when the store refuses it, having
      sent nothing else. */
  lemma RunCreate(env: Env)
    requires 0 <= env.fileSize
    ensures var s := Run(env);
      var create := CreateCall(env.cfg.bucketName, env.cfg.objectName);
      && |s.log| > 0 && s.log[0] == create
      && (s.result.CreateFailed? <==> env.respond(create).Err?)
      && (s.result.CreateFailed? ==>
            s.log == [create] && s.result.message == env.respond(create).message)
  {
  }

  /** A run the store let past the create: the create, then the part loop's
      requests, then one last request. When a part failed, the last request
      is the abort and the run ends with the loop's failure; otherwise it is
      the complete listing the loop's parts, and the run succeeds exactly
      when the store accepts it. */
  lemma RunShape(env: Env)
    requires 0 <= env.fileSize
    requires !Run(env).result.CreateFailed?
    ensures var s := Run(env);
      var create := CreateCall(env.cfg.bucketName, env.cfg.objectName);
      var uploadId := CreatedId(env);
      var p := PartsFrom(env, uploadId, 1);
      && env.respond(create).Ok?
      && |s.log| == |p.log| + 2
      && s.log == [create] + p.log + [s.log[|p.log| + 1]]
      && (p.result.PartsFailed? <==> s.result.PartFailed?)
      && (p.result.PartsFailed? ==>
            && s.result == PartFailed(p.result.part, p.result.error)
            && s.log[|p.log| + 1] == AbortCall(env.cfg.bucketName, env.cfg.objectName, uploadId))
      && (p.result.AllUploaded? ==>
            var last := s.log[|p.log| + 1];
            && last == CompleteCall(env.cfg.bucketName, env.cfg.objectName, uploadId, p.result.parts)
            && (s.result.Uploaded? <==> env.respond(last).Ok?)
            && (s.result.CompleteFailed? ==> env.respond(last) == Err(s.result.message)))
  {
    var s := Run(env);
    var create := CreateCall(env.cfg.bucketName, env.cfg.objectName);
    var uploadId := CreatedId(env);
    var p := PartsFrom(env, uploadId, 1);
    match p.result
    case PartsFailed(n, e) =>
      var abort := AbortCall(env.cfg.bucketName, env.cfg.objectName, uploadId);
      assert s == Step([create] + p.log + [abort], PartFailed(n, e));
      assert s.log[|p.log| + 1] == abort;
    case AllUploaded(parts) =>
      var complete := CompleteCall(env.cfg.bucketName, env.cfg.objectName, uploadId, parts);
      assert s.log == [create] + p.log + [complete];
      assert s.log[|p.log| + 1] == complete;
  }

  /** A run that got through all ten parts: twelve requests, one create,
      the uploads of parts 1..10 in ascending order under the upload id,
      each carrying its part's bytes and accepted, and one complete under
      the same id whose list names parts 1..10 in order, each with the ETag
      returned for its own upload. No abort is ever sent. */
  ghost predicate CompletesAll(env: Env, uploadId: string, s: Step<RunResult>)
    requires 0 <= env.fileSize
  {
    && |s.log| == TotalParts + 2
    && s.log[0] == CreateCall(env.cfg.bucketName, env.cfg.objectName)
    && UploadsInOrder(env, uploadId, s.log, 1, TotalParts + 1, 1)
    && AllAccepted(env.respond, s.log, 0, TotalParts + 1)
    && (forall q :: 0 <= q < |s.log| ==> !s.log[q].AbortCall?)
    && var last := s.log[TotalParts + 1];
       && last.CompleteCall?
       && last == CompleteCall(env.cfg.bucketName, env.cfg.objectName, uploadId, last.parts)
       && |last.parts| == TotalParts
       && TagsMatch(env.respond, s.log, 1, last.parts, 1)
  }

  /** A run in which part k failed: the create, the accepted uploads of
      parts 1..k-1, part k's upload only if its read succeeded (and then
      refused), and last the abort under the upload id. Nothing after part
      k is attempted, no other abort is sent and no complete at all. */
  ghost predicate AbortsAfterFailure(env: Env, uploadId: string, s: Step<RunResult>)
    requires 0 <= env.fileSize
  {
    && s.result.PartFailed?
    && 2 <= |s.log|
    && s.log[0] == CreateCall(env.cfg.bucketName, env.cfg.objectName)
    && UploadsInOrder(env, uploadId, s.log, 1, |s.log| - 1, 1)
    && s.log[|s.log| - 1] == AbortCall(env.cfg.bucketName, env.cfg.objectName, uploadId)
    && (forall q :: 0 <= q < |s.log| - 1 ==> !s.log[q].AbortCall?)
    && (forall q :: 0 <= q < |s.log| ==> !s.log[q].CompleteCall?)
    && var k := s.result.part;
       && 1 <= k <= TotalParts
       && AllAccepted(env.respond, s.log, 0, k)
       && (s.result.error.ReadFailed? ==>
             && |s.log| == k + 1
             && ReadAt(env.file, Bounds(k, env.fileSize).start, Bounds(k, env.fileSize).Length())
                == Failure(s.result.error.cause))
       && (s.result.error.TransferFailed? ==>
             && |s.log| == k + 2
             && env.respond(s.log[k]) == Err(s.result.error.message))
  }

  /** The middle of a run's log, the part loop's uploads, holds neither an
      abort nor a complete. */
  lemma MiddleIsUploads(env: Env, uploadId: string, log: seq<Call>)
    requires 0 <= env.fileSize
    requires 2 <= |log|
    requires UploadsInOrder(env, uploadId, log, 1, |log| - 1, 1)
    ensures forall q :: 0 < q < |log| - 1 ==> log[q].UploadPartCall?
  {
    forall q | 0 < q < |log| - 1
      ensures log[q].UploadPartCall?
    {
      assert IsPartUpload(env, uploadId, 1 + (q - 1), log[q]);
    }
  }

  /** A create, then the uploads of a loop that uploaded everything, then
      the complete listing its parts: CompletesAll. */
  lemma CompletingRun(env: Env, uploadId: string, p: Step<PartsResult>, s: Step<RunResult>)
    requires 0 <= env.fileSize
    requires env.respond(CreateCall(env.cfg.bucketName, env.cfg.objectName)).Ok?
    requires SendsUploads(env, uploadId, p) && UploadsAll(env.respond, p)
    requires s.log == [CreateCall(env.cfg.bucketName, env.cfg.objectName)] + p.log
                      + [CompleteCall(env.cfg.bucketName, env.cfg.objectName, uploadId, p.result.parts)]
    ensures CompletesAll(env, uploadId, s)
  {
    var create := CreateCall(env.cfg.bucketName, env.cfg.objectName);
    var complete := CompleteCall(env.cfg.bucketName, env.cfg.objectName, uploadId, p.result.parts);
    EmbedUploads(env, uploadId, create, p.log, complete);
    EmbedTags(env.respond, create, p.log, complete, p.result.parts);
    EmbedAccepted(env.respond, create, p.log, complete, |p.log|);
    assert s.log[TotalParts + 1] == complete;
    MiddleIsUploads(env, uploadId, s.log);
  }

  /** A create, then the requests of a loop that stopped at a failing part,
      then the abort: AbortsAfterFailure. */
  lemma FailingRun(env: Env, uploadId: string, p: Step<PartsResult>, s: Step<RunResult>)
    requires 0 <= env.fileSize
    requires env.respond(CreateCall(env.cfg.bucketName, env.cfg.objectName)).Ok?
    requires SendsUploads(env, uploadId, p) && StopsAtFailure(env, p)
    requires s.log == [CreateCall(env.cfg.bucketName, env.cfg.objectName)] + p.log
                      + [AbortCall(env.cfg.bucketName, env.cfg.objectName, uploadId)]
    requires s.result == PartFailed(p.result.part, p.result.error)
    ensures AbortsAfterFailure(env, uploadId, s)
  {
    var create := CreateCall(env.cfg.bucketName, env.cfg.objectName);
    var abort := AbortCall(env.cfg.bucketName, env.cfg.objectName, uploadId);
    var k := p.result.part;
    EmbedUploads(env, uploadId, create, p.log, abort);
    EmbedAccepted(env.respond, create, p.log, abort, k - 1);
    assert s.log[|s.log| - 1] == abort;
    MiddleIsUploads(env, uploadId, s.log);
    FailureKind(env, uploadId, p, s);
  }

  /** The part that stopped the loop, seen in the run's log: after a read
      failure, the abort follows part k-1's upload; after a refusal, it
      follows part k's refused upload. */
  lemma FailureKind(env: Env, uploadId: string, p: Step<PartsResult>, s: Step<RunResult>)
    requires 0 <= env.fileSize
    requires StopsAtFailure(env, p)
    requires s.log == [CreateCall(env.cfg.bucketName, env.cfg.objectName)] + p.log
                      + [AbortCall(env.cfg.bucketName, env.cfg.objectName, uploadId)]
    requires s.result == PartFailed(p.result.part, p.result.error)
    ensures s.result.error.ReadFailed? ==> |s.log| == s.result.part + 1
    ensures s.result.error.TransferFailed? ==>
              && |s.log| == s.result.part + 2
              && env.respond(s.log[s.result.part]) == Err(s.result.error.message)
  {
    var k := p.result.part;
    if p.result.error.TransferFailed? {
      assert s.log[k] == p.log[k - 1];
    }
  }

  /** A successful run: CompletesAll, and the store accepted the complete
      request as well. */
  lemma RunUploaded(env: Env)
    requires 0 <= env.fileSize
    requires Run(env).result.Uploaded?
    ensures CompletesAll(env, CreatedId(env), Run(env))
    ensures env.respond(Run(env).log[TotalParts + 1]).Ok?
  {
    var uploadId := CreatedId(env);
    RunShape(env);
    PartsFromUploads(env, uploadId);
    PartsFromAllUploaded(env, uploadId);
    CompletingRun(env, uploadId, PartsFrom(env, uploadId, 1), Run(env));
  }

  /** When the complete request fails, every part had been uploaded and
      accepted, the complete request listing them was the last request, the
      store refused it with the run's message, and no abort is sent:
      a failing complete does not abort the upload. */
  lemma RunCompleteFailed(env: Env)
    requires 0 <= env.fileSize
    requires Run(env).result.CompleteFailed?
    ensures CompletesAll(env, CreatedId(env), Run(env))
    ensures env.respond(Run(env).log[TotalParts + 1]) == Err(Run(env).result.message)
  {
    var uploadId := CreatedId(env);
    RunShape(env);
    PartsFromUploads(env, uploadId);
    PartsFromAllUploaded(env, uploadId);
    CompletingRun(env, uploadId, PartsFrom(env, uploadId, 1), Run(env));
  }

  /** When a part fails: AbortsAfterFailure, under the create's upload id. */
  lemma RunPartFailed(env: Env)
    requires 0 <= env.fileSize
    requires Run(env).result.PartFailed?
    ensures AbortsAfterFailure(env, CreatedId(env), Run(env))
  {
    var uploadId := CreatedId(env);
    RunShape(env);
    PartsFromUploads(env, uploadId);
    PartsFromFailed(env, uploadId);
    FailingRun(env, uploadId, PartsFrom(env, uploadId, 1), Run(env));
  }

  /** Abort is sent exactly when a part failed, and complete exactly when
      every part was uploaded. */
  lemma RunAbortIffPartFailed(env: Env)
    requires 0 <= env.fileSize
    ensures var s := Run(env);
      && ((exists q :: 0 <= q < |s.log| && s.log[q].AbortCall?) <==> s.result.PartFailed?)
      && ((exists q :: 0 <= q < |s.log| && s.log[q].CompleteCall?) <==> (s.result.Uploaded? || s.result.CompleteFailed?))
  {
    var s := Run(env);
    RunCreate(env);
    match s.result
    case CreateFailed(_) =>
      assert s.log == [s.log[0]];
    case PartFailed(_, _) =>
      RunPartFailed(env);
      assert s.log[|s.log| - 1].AbortCall?;
    case CompleteFailed(_) =>
      RunCompleteFailed(env);
      assert s.log[|s.log| - 1].CompleteCall?;
    case Uploaded =>
      RunUploaded(env);
      assert s.log[|s.log| - 1].CompleteCall?;
  }

  /** Two stores that answer every request but aborts alike. */
  ghost predicate AgreeExceptAbort(r1: Responder, r2: Responder)
  {
    forall c: Call :: !c.AbortCall? ==> r1(c) == r2(c)
  }

  /** A turn of the part loop never looks at an abort reply. */
  lemma TurnIgnoresAbortReplies(env: Env, r2: Responder, uploadId: string, i: int)
    requires 0 <= env.fileSize
    requires 1 <= i <= TotalParts
    requires AgreeExceptAbort(env.respond, r2)
    ensures Turn(env, uploadId, i) == Turn(env.(respond := r2), uploadId, i)
  {
    var r := Bounds(i, env.fileSize);
    var read := ReadAt(env.file, r.start, r.end - r.start);
    if read.Success? {
      var c := UploadPartCall(env.cfg.bucketName, env.cfg.objectName, uploadId, i, read.value);
      assert env.respond(c) == r2(c);
    }
  }

  /** The part loop never looks at an abort reply. */
  lemma {:induction false} PartsFromIgnoresAbortReplies(env: Env, r2: Responder, uploadId: string, i: int)
    requires 0 <= env.fileSize
    requires 1 <= i <= TotalParts + 1
    requires AgreeExceptAbort(env.respond, r2)
    ensures PartsFrom(env, uploadId, i) == PartsFrom(env.(respond := r2), uploadId, i)
    decreases TotalParts + 1 - i
  {
    if i <= TotalParts {
      TurnIgnoresAbortReplies(env, r2, uploadId, i);
      if Turn(env, uploadId, i).result.Success? {
        PartsFromIgnoresAbortReplies(env, r2, uploadId, i + 1);
      }
    }
  }

  /** A failing abort changes nothing: the run's requests and the way it ends
      are the same whatever the store answers to the abort. */
  lemma RunIgnoresAbortReplies(env: Env, r2: Responder)
    requires 0 <= env.fileSize
    requires AgreeExceptAbort(env.respond, r2)
    ensures Run(env) == Run(env.(respond := r2))
  {
    var create := CreateCall(env.cfg.bucketName, env.cfg.objectName);
    assert env.respond(create) == r2(create);
    if env.respond(create).Ok? {
      var uploadId := CreatedId(env);
      PartsFromIgnoresAbortReplies(env, r2, uploadId, 1);
      var p := PartsFrom(env, uploadId, 1);
      if p.result.AllUploaded? {
        var complete := CompleteCall(env.cfg.bucketName, env.cfg.objectName, uploadId, p.result.parts);
        assert env.respond(complete) == r2(complete);
      }
    }
  }
}
