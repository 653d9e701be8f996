# Multipart upload of a file to an S3-compatible store (ceph-s3-demo)

This project models `src/main.go` of ceph-s3-demo in Dafny. That program uploads a
local file to Ceph or any S3-compatible object store with the multipart upload
protocol. It cuts the file into `totalParts = 10` contiguous byte ranges. Part
*i* covers `[(i-1)*partSize, i*partSize)` with `partSize = fileSize / 10`; the
last part is stretched to end at `fileSize`. The program then:

1. opens an upload (`createMultipartUpload`);
2. uploads parts 1..10 in order (`uploadPart`), collecting a
   `CompletedPart{ETag, PartNumber}` for each;
3. completes the upload with that list (`completeMultipartUpload`).

When a part fails, whether because the local read failed or because the store
refused the part, the program aborts the upload (`abortMultipartUpload`, whose
own error is only printed) and stops. When the create or the complete fails,
it stops without an abort.

Modules, one per concern of the source:

- `Wrappers`: `Result` and `Outcome`, the model of Go's `(value, error)` returns.
- `Partition`: the partition arithmetic (lines 16, 41-42, 64-69). Go's
  truncating `/` and `%` are written out as `Quo` and `Rem`. The lemmas state
  the layout of the parts, their lengths, their contiguity, and that every
  byte is covered exactly once. They also show that no int64 product
  overflows.
- `Disk`: the open file as `os.File.ReadAt` sees it. The content, and the
  reads on which the medium reports an error, are inputs.
- `ObjectStore`: the SDK client `*s3.S3` as a class. Its field `log` records
  every request sent. Its constant `respond` is the store, given as any
  function from request to answer.
- `Upload`: the four Go functions as methods, and the loop of
  `uploadFileToCeph` as the method `UploadParts`. The whole run is also given
  as a function, `Run`, of the file, the configuration and the store. The
  method `UploadFileToCeph` is proved to send exactly the requests of `Run`,
  in order, and to end as `Run` ends.
- `UploadProperties`: what `Run` does on each path. It covers the order and
  number of requests, the upload id and part numbers they carry, the bytes
  each part carries, and the ETags the complete request lists. It also proves
  that a failing complete is not followed by an abort, and that the reply to
  the abort is never used.

A failing complete does not abort the upload session: `src/main.go:80-84`
prints the error and returns. `UploadProperties.RunCompleteFailed` states that
such a run sends no abort.

## Model

| member | source | states |
|---|---|---|
| Partition.Quo | src/main.go:42 | Go's integer division: the quotient truncated toward zero, so the remainder is between 0 and d-1 for a non-negative dividend and between -(d-1) and 0 for a negative one |
| Partition.Rem | src/main.go:66-68 | main.go has no `%`: Rem is the remainder that part 10 absorbs when `end = fileSize` replaces `10*partSize` (line 68), i.e. what is left over by the quotient of line 42; it carries the dividend's sign and is smaller than the divisor in magnitude |
| Partition.QuoRemNonNegative | src/main.go:41-42 | for the non-negative sizes that stat reports, Go's `/` and `%` agree with Dafny's Euclidean ones |
| Partition.Bounds | src/main.go:64-69 | part i's range, with start `(i-1)*partSize` and end `i*partSize`, or `fileSize` for the last part; every bound lies between 0 and fileSize, and start <= end for a non-negative size |
| Partition.PartSize | src/main.go:42 | for a non-negative size, partSize is the largest length of which ten copies fit in the file: 10*partSize <= fileSize < 10*(partSize+1) |
| Partition.Ranges | src/main.go:64-69 | the ten ranges in loop order tile the file: the first starts at 0, each ends where the next starts, and the last ends at fileSize |
| Partition.BoundsFormula | src/main.go:64-69 | part i starts at (i-1)*(fileSize/10) and, for i < 10, ends at i*(fileSize/10); part 10 ends at fileSize |
| Partition.Contiguous | src/main.go:64-69 | part 1 starts at 0, each part ends where the next starts, and part 10 ends at fileSize |
| Partition.PartLength | src/main.go:64-69 | parts 1..9 have length partSize and part 10 has partSize plus Go's remainder; for fileSize >= 0 these are fileSize/10 and fileSize/10 + fileSize%10, and no length is negative |
| Partition.SmallFile | src/main.go:64-69 | a file of fewer than 10 bytes gives nine empty parts [0,0) and a last part [0,fileSize) |
| Partition.Ordered | src/main.go:64-69 | for fileSize >= 0, an earlier part ends no later than a later part starts |
| Partition.Disjoint | src/main.go:64-69 | no byte belongs to two different parts |
| Partition.CoveredUpTo | src/main.go:64-69 | every offset below the end of part i lies in one of parts 1..i |
| Partition.CoveredOnce | src/main.go:64-69 | every byte of the file lies in exactly one part |
| Partition.PrefixLength | src/main.go:64-69 | the lengths of parts 1..n add up to where part n ends |
| Partition.LengthsSumToFileSize | src/main.go:64-69 | the ten lengths add up to fileSize |
| Partition.NoOverflow | src/main.go:65-66 | for an int64 file size, both products (i-1)*partSize and i*partSize fit in int64; the second includes the last part's, which is computed before being replaced; so unbounded arithmetic agrees with Go's |
| Partition.HundredBytes | src/main.go:64-69 | a 100-byte file gives [0,10), [10,20), ..., [90,100) |
| Partition.HundredAndFiveBytes | src/main.go:64-69 | a 105-byte file gives nine 10-byte parts and a last part [90,105) |
| Disk.ReadAt | src/main.go:103 | reading n bytes at off succeeds exactly when off >= 0 and either n is 0 or the n bytes lie inside the file and the medium does not fail on that read; a success returns exactly n bytes, the file's bytes at [off, off+n); a negative offset fails with NegativeOffset, and a read running past the end with EndOfFile |
| ObjectStore.Client.constructor | src/main.go:55 | a fresh client over a given store has sent nothing |
| ObjectStore.Client.Send | src/main.go:94 | one SDK request (lines 94, 115, 131, 144): it is appended to the log, and the reply is the store's answer to it |
| Upload.PartAttempt | src/main.go:101-123 | uploadPart as a function. It sends nothing exactly when the read of end-start bytes at start fails, and then returns that read's own error. Otherwise it sends one upload, of part partNumber under the upload id, whose body is the end-start bytes read. A success pairs the store's ETag with partNumber; a refusal carries the store's message |
| Upload.UploadPart | src/main.go:101-123 | the method sends exactly PartAttempt's requests and returns its result |
| Upload.CreateMultipartUpload | src/main.go:89-99 | one create request for the bucket and key; the upload id on success, the store's message on failure |
| Upload.AbortMultipartUpload | src/main.go:125-135 | one abort request under the upload id; the store's error is swallowed, so nothing is returned |
| Upload.CompleteMultipartUpload | src/main.go:137-146 | one complete request carrying the parts list; the store's error, if any |
| Upload.PartBounds | src/main.go:65-69 | the start and end the loop body computes from partSize are Bounds(i, fileSize) |
| Upload.Turn | src/main.go:65-71 | one turn of the loop, uploadPart over part i's range: it sends at most one request, and a success is part i's completed part; `UploadProperties.TurnFacts` states the rest |
| Upload.PartsFrom | src/main.go:64-78 | the loop from part i on as a function: it sends at most one request per remaining part; `UploadProperties.PartsFromUploads`, `PartsFromAllUploaded` and `PartsFromFailed` characterize it |
| Upload.Run | src/main.go:57-86 | the whole run as a function: it sends between one and twelve requests, the first being the create; the `UploadProperties.Run*` lemmas characterize each way it ends |
| Upload.TurnDone | src/main.go:64-78 | one more turn of the loop: a failing turn ends the loop with that part's error; a successful one appends its request and its completed part and goes on with the next part |
| Upload.UploadParts | src/main.go:63-78 | the for-loop: exactly the requests of PartsFrom from part 1 are sent, and the outcome (all completed parts, or the first failing part and its error) is PartsFrom's |
| Upload.UploadFileToCeph | src/main.go:41-86 | the whole run, from the size stat reported: exactly Run's requests are appended to the client's log, in order, and the run ends as Run ends |
| UploadProperties.TurnFacts | src/main.go:101-123 | turn i sends at most one request, and none exactly when its read failed. That request is the upload of part i carrying the bytes of part i's range. A read failure carries the error that the read of that range returned. A success is part i with the ETag the store returned; a refusal carries the store's message |
| UploadProperties.PartsFromUploads | src/main.go:64-78 | the loop sends at most ten requests, which are the uploads of parts 1, 2, ... in ascending order under the upload id |
| UploadProperties.PartsFromAllUploaded | src/main.go:64-78 | a loop that uploads everything has sent ten accepted uploads and collected ten completed parts, numbered 1..10 in order, each with its own upload's ETag |
| UploadProperties.PartsFromFailed | src/main.go:71-76 | a loop stopping at part k had parts 1..k-1 accepted. It then sent nothing more (k's read failed, and the result carries that read's error) or k's upload, which the store refused with the returned message; nothing after k is attempted |
| UploadProperties.RunCreate | src/main.go:57-61 | every run starts with one create request. The run fails at create exactly when the store refuses it, and then sends nothing else: no upload, complete or abort |
| UploadProperties.RunShape | src/main.go:57-84 | after an accepted create, the log is create, then the loop's requests, then one final request. That request is the abort (with the loop's failure as the result) when a part failed, and the complete listing the loop's parts otherwise; the run succeeds exactly when the store accepts the complete |
| UploadProperties.RunUploaded | src/main.go:57-80 | a successful run sends twelve requests, all accepted: one create; the uploads of parts 1..10 in ascending order under the created upload id, each with its part's bytes; and one complete under that id listing parts 1..10 in order, each with its own upload's ETag. No abort is sent |
| UploadProperties.RunPartFailed | src/main.go:64-77 | when part k fails, the create and parts 1..k-1 were sent and accepted. Part k's upload was sent only if its read succeeded, and the store refused it with the run's message; otherwise the run carries the error of k's read. Nothing after part k is attempted. The last request is the only abort, under the created upload id, and no complete is sent |
| UploadProperties.RunCompleteFailed | src/main.go:80-84 | when the complete fails, all ten parts were uploaded and accepted. The complete listing them was the last request and the store refused it with the run's message. No abort is sent |
| UploadProperties.RunAbortIffPartFailed | src/main.go:57-84 | an abort appears in the log if and only if a part failed; a complete appears if and only if every part was uploaded (the run either succeeded or failed at complete) |
| UploadProperties.TurnIgnoresAbortReplies | src/main.go:101-123 | a turn of the loop is the same under two stores that differ only in their answers to aborts |
| UploadProperties.PartsFromIgnoresAbortReplies | src/main.go:64-78 | the loop's requests and outcome are the same under two stores that differ only in their answers to aborts |
| UploadProperties.RunIgnoresAbortReplies | src/main.go:131-134 | the abort's error is swallowed: the run's requests and the way it ends do not depend on what the store answers to the abort |

## Left out

- Reading and parsing `config.json` in `main` (src/main.go:148-164) is left out: it is file I/O and the JSON library. The configuration is an input of the run.
- Opening the file, `Stat` and the deferred `Close` (src/main.go:28-39) are left out as OS I/O. The file, as a read oracle, and the size stat reported are inputs. The model starts at line 41.
- Building the session and the client (src/main.go:44-56) is left out: these are foreign SDK calls, covering region, endpoint, credentials and path-style addressing. The store is an input.
- The SDK's request structs and its HTTP behaviour are left out. Each SDK call is one logged request whose answer comes from `respond`.
- All console output (`fmt.Println`) is left out: it affects nothing the program does. `RunResult` records which of the four end-of-run messages (lines 59, 73, 82, 86) would be printed. The client dump (line 56) and the abort's own error message (line 133) are not recorded.
- `respond` depends only on the request, not on what was sent before. A real store's answers may depend on history, but within one run no request repeats: there is one create, each part number is uploaded once, and there is at most one complete or abort. Within a run the two views therefore agree.
- Two runs against the same file producing two independent upload sessions is a property of the store. It is not modelled.
- Disk.ReadAt: Go's `ReadAt` on a short read also returns the bytes it got. `uploadPart` discards them on any error, so the model returns only the error.
- Checks on a closed or invalid file handle inside `ReadAt` are left out: the file stays open for the whole run.
- Upload.UploadFileToCeph: requires a non-negative file size. A size from `Stat` of a regular file is never negative, and a negative `end-start` would make `make([]byte, …)` panic (src/main.go:102). The partition arithmetic and its lemmas in `Partition` still cover negative sizes.
- A nil `ETag` or `UploadId` in an SDK response is left out: the model carries them as plain strings, never nil.
