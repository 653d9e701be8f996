/** The upload orchestrator of src/main.go: open a multipart upload, send
    the ten parts in order, then complete the upload; when a part fails,
    abort the upload and stop. Each Go function is a method here, and the
    whole run is also given as a function of the store's answers (Run), which
    the method is proved to follow and about which the properties of the
    protocol are proved in UploadProperties. */
module Upload {
  import opened Wrappers
  import opened Partition
  import opened Disk
  import opened ObjectStore

  /** The run's configuration. Only the bucket and object names reach this
      model; the path, endpoint and credentials serve opening the file and
      building the session. */
  datatype Config = Config(
    filePath: string,
    bucketName: string,
    objectName: string,
    endpoint: string,
    accessKey: string,
    secretKey: string)

  /** Why a part could not be uploaded: the local read failed, or the store
      refused the part. */
  datatype PartError = ReadFailed(cause: ReadError) | TransferFailed(message: string)

  /** Which way a run ended (which of its closing messages the Go program prints before returning). */
  datatype RunResult =
    | Uploaded
    | CreateFailed(message: string)
    | PartFailed(part: int, error: PartError)
    | CompleteFailed(message: string)

  /** How the part loop ended: every part accepted, or the first failing part. */
  datatype PartsResult = AllUploaded(parts: seq<CompletedPart>) | PartsFailed(part: int, error: PartError)

  /** The request log after a step, and what the step produced. */
  datatype Step<T> = Step(log: seq<Call>, result: T)

  /** Everything a run depends on: the configuration, the file, the size that
      stat reported, and how the store answers. */
  datatype Env = Env(cfg: Config, file: File, fileSize: int, respond: Responder)

  /** One call of uploadPart: read end-start bytes at start; if the read
      fails, no request is sent; otherwise the bytes are sent as part
      partNumber, and the store's ETag becomes the completed part. The step's
      log holds the requests it sent: none or that one upload. */
  function PartAttempt(respond: Responder, file: File, bucket: string, key: string, uploadId: string,
                       partNumber: int, start: int, end: int): (s: Step<Result<CompletedPart, PartError>>)
    requires start <= end
    ensures (s.result.Failure? && s.result.error.ReadFailed?) <==> s.log == []
    ensures s.result.Failure? && s.result.error.ReadFailed? ==> ReadAt(file, start, end - start) == Failure(s.result.error.cause)
    ensures s.log != [] ==>
              && |s.log| == 1
              && s.log[0].UploadPartCall?
              && s.log[0] == UploadPartCall(bucket, key, uploadId, partNumber, s.log[0].body)
              && |s.log[0].body| == end - start
              && ReadAt(file, start, end - start) == Success(s.log[0].body)
    ensures s.result.Success? ==>
              && respond(s.log[0]).Ok?
              && s.result.value == CompletedPart(respond(s.log[0]).value, partNumber)
    ensures s.result.Failure? && s.result.error.TransferFailed? ==>
              respond(s.log[0]) == Err(s.result.error.message)
  {
    match ReadAt(file, start, end - start)
    case Failure(e) => Step([], Failure(ReadFailed(e)))
    case Success(body) =>
      var c := UploadPartCall(bucket, key, uploadId, partNumber, body);
      var reply := respond(c);
      if reply.Err? then Step([c], Failure(TransferFailed(reply.message)))
      else Step([c], Success(CompletedPart(reply.value, partNumber)))
  }

  /** Turn i of the part loop: uploadPart over the range of part i. */
  function Turn(env: Env, uploadId: string, i: int): (s: Step<Result<CompletedPart, PartError>>)
    requires 0 <= env.fileSize
    requires 1 <= i <= TotalParts
    ensures |s.log| <= 1
    ensures s.result.Success? ==> s.result.value.partNumber == i
  {
    var r := Bounds(i, env.fileSize);
    PartAttempt(env.respond, env.file, env.cfg.bucketName, env.cfg.objectName, uploadId, i, r.start, r.end)
  }

  /** The part loop from part i on: the requests it sends, and either all
      completed parts from i on or the first part that failed. */
  function PartsFrom(env: Env, uploadId: string, i: int): (s: Step<PartsResult>)
    requires 0 <= env.fileSize
    requires 1 <= i <= TotalParts + 1
    ensures |s.log| <= TotalParts + 1 - i
    decreases TotalParts + 1 - i
  {
    if i > TotalParts then Step([], AllUploaded([]))
    else
      var a := Turn(env, uploadId, i);
      match a.result
      case Failure(e) => Step(a.log, PartsFailed(i, e))
      case Success(part) => After(a.log, [part], PartsFrom(env, uploadId, i + 1))
  }

  /** The loop's later turns s, preceded by earlier turns that sent the
      requests sent and completed the parts done. */
  function After(sent: seq<Call>, done: seq<CompletedPart>, s: Step<PartsResult>): Step<PartsResult>
  {
    Step(sent + s.log, if s.result.AllUploaded? then AllUploaded(done + s.result.parts) else s.result)
  }

  /** A whole run of uploadFileToCeph from the point the file is open and its
      size known: the requests it sends and the way it ends. The reply to
      the abort request is never consulted. */
  function Run(env: Env): (s: Step<RunResult>)
    requires 0 <= env.fileSize
    ensures 1 <= |s.log| <= TotalParts + 2
    ensures s.log[0] == CreateCall(env.cfg.bucketName, env.cfg.objectName)
  {
    var bucket, key := env.cfg.bucketName, env.cfg.objectName;
    var create := CreateCall(bucket, key);
    var created := env.respond(create);
    if created.Err? then Step([create], CreateFailed(created.message))
    else
      var uploadId := created.value;
      var p := PartsFrom(env, uploadId, 1);
      match p.result
      case PartsFailed(n, e) => Step([create] + p.log + [AbortCall(bucket, key, uploadId)], PartFailed(n, e))
      case AllUploaded(parts) =>
        var complete := CompleteCall(bucket, key, uploadId, parts);
        var completed := env.respond(complete);
        Step([create] + p.log + [complete], if completed.Err? then CompleteFailed(completed.message) else Uploaded)
  }

  /** One more turn of the loop, after the turns that sent the requests
      sent and completed the parts done: the loop ends at a failing turn, and
      otherwise goes on with one more request sent and one more part done. */
  lemma TurnDone(env: Env, uploadId: string, i: int, sent: seq<Call>, done: seq<CompletedPart>)
    requires 0 <= env.fileSize
    requires 1 <= i <= TotalParts
    requires PartsFrom(env, uploadId, 1) == After(sent, done, PartsFrom(env, uploadId, i))
    ensures var a := Turn(env, uploadId, i);
      && (a.result.Failure? ==>
            PartsFrom(env, uploadId, 1) == Step(sent + a.log, PartsFailed(i, a.result.error)))
      && (a.result.Success? ==>
            PartsFrom(env, uploadId, 1) == After(sent + a.log, done + [a.result.value], PartsFrom(env, uploadId, i + 1)))
  {
    var a := Turn(env, uploadId, i);
    if a.result.Success? {
      AfterAfter(sent, done, a.log, [a.result.value], PartsFrom(env, uploadId, i + 1));
    }
  }

  /** Requests appended one stretch at a time make the run's log. */
  lemma Regroup(before: seq<Call>, a: seq<Call>, b: seq<Call>)
    ensures (before + a) + b == before + (a + b)
  {
  }

  /** No earlier turns: the later turns are the whole loop. */
  lemma AfterNothing(s: Step<PartsResult>)
    ensures After([], [], s) == s
  {
    assert [] + s.log == s.log;
    if s.result.AllUploaded? {
      assert [] + s.result.parts == s.result.parts;
    }
  }

  /** Earlier turns followed by nothing more: everything was uploaded. */
  lemma AfterAll(sent: seq<Call>, done: seq<CompletedPart>)
    ensures After(sent, done, Step([], AllUploaded([]))) == Step(sent, AllUploaded(done))
  {
    assert sent + [] == sent;
    assert done + [] == done;
  }

  /** Two stretches of earlier turns make one. */
  lemma AfterAfter(sent: seq<Call>, done: seq<CompletedPart>, sent': seq<Call>, done': seq<CompletedPart>,
                   s: Step<PartsResult>)
    ensures After(sent, done, After(sent', done', s)) == After(sent + sent', done + done', s)
  {
    assert sent + (sent' + s.log) == (sent + sent') + s.log;
    if s.result.AllUploaded? {
      assert done + (done' + s.result.parts) == (done + done') + s.result.parts;
    }
  }

  /** createMultipartUpload: one create request; the upload id or the error. */
  method CreateMultipartUpload(svc: Client, bucketName: string, objectName: string) returns (r: Result<string, string>)
    modifies svc
    ensures svc.log == old(svc.log) + [CreateCall(bucketName, objectName)]
    ensures var reply := svc.respond(CreateCall(bucketName, objectName));
            r == if reply.Ok? then Success(reply.value) else Failure(reply.message)
  {
    var reply := svc.Send(CreateCall(bucketName, objectName));
    if reply.Err? {
      return Failure(reply.message);
    }
    return Success(reply.value);
  }

  /** uploadPart: a buffer of end-start bytes is read at start and, if the
      read succeeds, sent as part partNumber; the result pairs the returned
      ETag with the part number. */
  method UploadPart(svc: Client, file: File, bucketName: string, objectName: string, uploadId: string,
                    partNumber: int, start: int, end: int) returns (r: Result<CompletedPart, PartError>)
    requires start <= end
    modifies svc
    ensures var a := PartAttempt(svc.respond, file, bucketName, objectName, uploadId, partNumber, start, end);
            svc.log == old(svc.log) + a.log && r == a.result
  {
    var read := ReadAt(file, start, end - start);
    if read.Failure? {
      return Failure(ReadFailed(read.error));
    }
    var reply := svc.Send(UploadPartCall(bucketName, objectName, uploadId, partNumber, read.value));
    if reply.Err? {
      return Failure(TransferFailed(reply.message));
    }
    return Success(CompletedPart(reply.value, partNumber));
  }

  /** abortMultipartUpload: one abort request; an error from the store is
      only reported, never returned. */
  method AbortMultipartUpload(svc: Client, bucketName: string, objectName: string, uploadId: string)
    modifies svc
    ensures svc.log == old(svc.log) + [AbortCall(bucketName, objectName, uploadId)]
  {
    var _ := svc.Send(AbortCall(bucketName, objectName, uploadId));
  }

  /** completeMultipartUpload: one complete request carrying the parts; the
      store's error, if any. */
  method CompleteMultipartUpload(svc: Client, bucketName: string, objectName: string, uploadId: string,
                                 completedParts: seq<CompletedPart>) returns (err: Outcome<string>)
    modifies svc
    ensures svc.log == old(svc.log) + [CompleteCall(bucketName, objectName, uploadId, completedParts)]
    ensures var reply := svc.respond(CompleteCall(bucketName, objectName, uploadId, completedParts));
            err == if reply.Ok? then Pass else Fail(reply.message)
  {
    var reply := svc.Send(CompleteCall(bucketName, objectName, uploadId, completedParts));
    if reply.Err? {
      return Fail(reply.message);
    }
    return Pass;
  }

  /** The range of part i, computed as the loop body of uploadFileToCeph
      does from partSize. */
  method PartBounds(i: int, partSize: int, fileSize: int) returns (start: int, end: int)
    requires 1 <= i <= TotalParts
    requires partSize == PartSize(fileSize)
    ensures PartRange(i, start, end) == Bounds(i, fileSize)
  {
    start := (i - 1) * partSize;
    end := i * partSize;
    if i == TotalParts {
      end := fileSize;
    }
    BoundsFormula(i, fileSize);
  }

  /** The for-loop of uploadFileToCeph: parts 1..10 in order, each over its
      byte range, stopping at the first part that fails. The requests sent
      and the outcome are those of PartsFrom from part 1. */
  method UploadParts(svc: Client, cfg: Config, file: File, fileSize: int, uploadId: string, partSize: int)
    returns (outcome: PartsResult)
    requires 0 <= fileSize
    requires partSize == PartSize(fileSize)
    modifies svc
    ensures var p := PartsFrom(Env(cfg, file, fileSize, svc.respond), uploadId, 1);
            svc.log == old(svc.log) + p.log && outcome == p.result
  {
    ghost var env := Env(cfg, file, fileSize, svc.respond);
    ghost var sent: seq<Call> := [];
    var completedParts: seq<CompletedPart> := [];
    var i := 1;
    AfterNothing(PartsFrom(env, uploadId, 1));
    while i <= TotalParts
      invariant 1 <= i <= TotalParts + 1
      invariant svc.log == old(svc.log) + sent
      invariant PartsFrom(env, uploadId, 1) == After(sent, completedParts, PartsFrom(env, uploadId, i))
    {
      var start, end := PartBounds(i, partSize, fileSize);
      ghost var a := Turn(env, uploadId, i);
      var part := UploadPart(svc, file, cfg.bucketName, cfg.objectName, uploadId, i, start, end);
      Regroup(old(svc.log), sent, a.log);
      TurnDone(env, uploadId, i, sent, completedParts);
      if part.Failure? {
        return PartsFailed(i, part.error);
      }
      sent := sent + a.log;
      completedParts := completedParts + [part.value];
      i := i + 1;
    }
    AfterAll(sent, completedParts);
    return AllUploaded(completedParts);
  }

  /** uploadFileToCeph, from the point the file is open and stat has given
      its size: create the upload, send parts 1..10 over their byte ranges,
      collecting the completed parts, and complete the upload. A failing
      part aborts the upload and ends the run; a failing complete ends it
      without an abort. The requests sent and the way the run ends are those
      of Run. */
  method UploadFileToCeph(cfg: Config, file: File, fileSize: int, svc: Client) returns (result: RunResult)
    requires 0 <= fileSize
    modifies svc
    ensures var run := Run(Env(cfg, file, fileSize, svc.respond));
            svc.log == old(svc.log) + run.log && result == run.result
  {
    var partSize := Quo(fileSize, TotalParts);
    var created := CreateMultipartUpload(svc, cfg.bucketName, cfg.objectName);
    if created.Failure? {
      return CreateFailed(created.error);
    }
    var uploadId := created.value;
    ghost var p := PartsFrom(Env(cfg, file, fileSize, svc.respond), uploadId, 1);
    ghost var create := CreateCall(cfg.bucketName, cfg.objectName);
    var outcome := UploadParts(svc, cfg, file, fileSize, uploadId, partSize);
    if outcome.PartsFailed? {
      AbortMultipartUpload(svc, cfg.bucketName, cfg.objectName, uploadId);
      Regroup(old(svc.log), [create], p.log);
      Regroup(old(svc.log), [create] + p.log, [AbortCall(cfg.bucketName, cfg.objectName, uploadId)]);
      return PartFailed(outcome.part, outcome.error);
    }
    var err := CompleteMultipartUpload(svc, cfg.bucketName, cfg.objectName, uploadId, outcome.parts);
    Regroup(old(svc.log), [create], p.log);
    Regroup(old(svc.log), [create] + p.log, [CompleteCall(cfg.bucketName, cfg.objectName, uploadId, outcome.parts)]);
    if err.Fail? {
      return CompleteFailed(err.error);
    }
    return Uploaded;
  }
}
