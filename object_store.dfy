/** The S3-compatible object store, seen only through the four multipart
    requests the uploader sends. The client records every request in a log;
    what the store answers is an input of the model: any function of the
    request. */
module ObjectStore {
  import opened Disk

  /** A part the store has accepted: its content tag (ETag) and number. */
  datatype CompletedPart = CompletedPart(etag: string, partNumber: int)

  /** The requests of the multipart upload protocol. */
  datatype Call =
    | CreateCall(bucket: string, key: string)
    | UploadPartCall(bucket: string, key: string, uploadId: string, partNumber: int, body: seq<byte>)
    | CompleteCall(bucket: string, key: string, uploadId: string, parts: seq<CompletedPart>)
    | AbortCall(bucket: string, key: string, uploadId: string)

  /** The store's answer: a value (an upload id for a create, an ETag for a
      part, ignored otherwise) or an error message. */
  datatype Reply = Ok(value: string) | Err(message: string)

  /** How the store answers a request. */
  type Responder = Call -> Reply

  /** The SDK client (`*s3.S3`). */
  class Client {
    /** The store behind the client. */
    const respond: Responder
    /** Every request sent so far, oldest first. */
    var log: seq<Call>

    constructor (respond: Responder)
      ensures this.respond == respond && log == []
    {
      this.respond := respond;
      log := [];
    }

    /** Sends one request: `svc.CreateMultipartUpload`, `svc.UploadPart`,
        `svc.CompleteMultipartUpload` or `svc.AbortMultipartUpload`. */
    method Send(c: Call) returns (reply: Reply)
      modifies this
      ensures log == old(log) + [c]
      ensures reply == respond(c)
    {
      reply := respond(c);
      log := log + [c];
    }
  }
}
