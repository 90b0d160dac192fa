/** Inline attachments: decoding and storing them before the transaction, and their rows inside it. */
module Uploads {
  import opened Wrappers
  import opened Text
  import opened Database
  import Base64

  /** An attachment of a request; content is base64. */
  datatype AttachmentRequest = AttachmentRequest(filename: Bytes, contentType: Bytes, content: Bytes)

  const OCTET_STREAM: Bytes := "application/octet-stream"

  function FileOf(a: AttachmentRequest): Result<File, Error>
  {
    match Base64.Decode(a.content)
    case Failure(_) => Failure(BadRequest)
    case Success(data) =>
      Success(File(a.filename, if a.contentType == [] then OCTET_STREAM else a.contentType, |data|, [], false))
  }

  /** The files of the first n requests, or the first decoding failure. */
  function Files(atts: seq<AttachmentRequest>, n: nat): Result<seq<File>, Error>
    requires n <= |atts|
  {
    if n == 0 then Success([])
    else
      var before :- Files(atts, n - 1);
      var file :- FileOf(atts[n - 1]);
      Success(before + [file])
  }

  lemma {:induction false} FilesFailEarly(atts: seq<AttachmentRequest>, n: nat, m: nat)
    requires n <= m <= |atts|
    ensures Files(atts, n).Failure? ==> Files(atts, m) == Files(atts, n)
  {
    if n < m {
      FilesFailEarly(atts, n, m - 1);
    }
  }

  predicate Decodes(a: AttachmentRequest)
  {
    Base64.Decode(a.content).Success?
  }

  predicate TypedAs(f: File, a: AttachmentRequest)
  {
    f.contentType == if a.contentType == [] then "application/octet-stream" else a.contentType
  }

  /** The file says what the request says: its name, its type or the default one, and the size of its decoded data. */
  ghost predicate IsFileOf(f: File, a: AttachmentRequest)
  {
    && Decodes(a) && f.filename == a.filename && f.size == |Base64.Decode(a.content).value|
    && TypedAs(f, a) && f.contentId == [] && !f.inline
  }

  lemma FileMeans(a: AttachmentRequest)
    ensures FileOf(a).Success? <==> Decodes(a)
    ensures FileOf(a).Success? ==> IsFileOf(FileOf(a).value, a)
  {
  }

  /** One file for each of the first n requests. */
  ghost predicate AreFilesOf(files: seq<File>, atts: seq<AttachmentRequest>, n: nat)
  {
    |files| == n <= |atts| && forall i :: 0 <= i < n ==> IsFileOf(files[i], atts[i])
  }

  lemma OneMoreFile(files: seq<File>, f: File, atts: seq<AttachmentRequest>, n: nat)
    requires AreFilesOf(files, atts, n) && n < |atts| && IsFileOf(f, atts[n])
    ensures AreFilesOf(files + [f], atts, n + 1)
  {
  }

  /** There are files exactly when every attachment decodes: one for each, in order, that says what it says. */
  lemma {:induction false} FilesMean(atts: seq<AttachmentRequest>, n: nat)
    requires n <= |atts|
    ensures Files(atts, n).Success? <==> forall i :: 0 <= i < n ==> Decodes(atts[i])
    ensures Files(atts, n).Success? ==> AreFilesOf(Files(atts, n).value, atts, n)
  {
    if n > 0 {
      FilesMean(atts, n - 1);
      FileMeans(atts[n - 1]);
      if Files(atts, n).Success? {
        OneMoreFile(Files(atts, n - 1).value, FileOf(atts[n - 1]).value, atts, n - 1);
      }
    }
  }

  ghost predicate StorageUp(stored: nat -> bool)
  {
    forall k :: stored(k)
  }

  /** uploadAttachments: decode each, then store it. */
  method UploadAll(atts: seq<AttachmentRequest>, stored: nat -> bool) returns (r: Result<seq<File>, Error>)
    ensures r.Success? ==> r == Files(atts, |atts|)
    ensures r.Failure? ==> r == Files(atts, |atts|) || !StorageUp(stored)
  {
    var files: seq<File> := [];
    for i := 0 to |atts|
      invariant Files(atts, i) == Success(files)
    {
      var file := FileOf(atts[i]);
      if file.Failure? {
        FilesFailEarly(atts, i + 1, |atts|);
        return Failure(file.error);
      }
      if !stored(i) {
        return Failure(Unavailable);
      }
      files := files + [file.value];
    }
    r := Success(files);
  }

  /** The rows of the files from the k-th on; drawn(k) is the id drawn for the k-th. */
  function AddFiles(t: Tables, org: Id, msg: Option<Id>, draft: Option<Id>, files: seq<File>, drawn: nat -> Id, k: nat,
                    now: Time): Result<Tables, Error>
    requires k <= |files|
    decreases |files| - k
  {
    if k == |files| then Success(t)
    else
      var next :- t.InsertAttachment(drawn(k), Attachment(org, msg, draft, files[k], now));
      AddFiles(next, org, msg, draft, files, drawn, k + 1, now)
  }

  method InsertFiles(db: Connection, org: Id, msg: Option<Id>, draft: Option<Id>, files: seq<File>, drawn: nat -> Id,
                     now: Time)
    returns (r: Result<(), Error>)
    requires !db.aborted && !db.faulted
    modifies db
    ensures db.saved == old(db.saved)
    ensures db.Reliable() ==> !db.faulted
    ensures r.Success? ==>
            !db.aborted && !db.faulted
            && AddFiles(old(db.tables), org, msg, draft, files, drawn, 0, now) == Success(db.tables)
    ensures r.Failure? ==>
            db.faulted || AddFiles(old(db.tables), org, msg, draft, files, drawn, 0, now) == Failure(r.error)
  {
    for k := 0 to |files|
      invariant !db.aborted && !db.faulted && db.saved == old(db.saved)
      invariant AddFiles(old(db.tables), org, msg, draft, files, drawn, 0, now) ==
                AddFiles(db.tables, org, msg, draft, files, drawn, k, now)
    {
      var done := db.Exec(db.tables.InsertAttachment(drawn(k), Attachment(org, msg, draft, files[k], now)));
      if done.Failure? {
        return Failure(done.error);
      }
    }
    r := Success(());
  }
}
