/** The legal-document upload, download and bookmark services
    (services/LegalDocumentService.py). Elasticsearch and Google Cloud
    Storage are the `Stores` value the operations thread through: the index
    maps a document id to its JSON document, the bucket maps a blob name to
    its bytes. PDF text extraction, the JSON parser and the pydantic schema
    check are parameters of `Env`. */
module LegalDocumentService {
  import opened Builtins
  import opened Errors
  import opened Tables

  type Bytes = seq<bv8>

  /** A member of the uploaded zip archive. */
  datatype Entry = Entry(name: string, data: Bytes)

  /** What the services depend on but do not compute: the configured folder,
      storage URI and bucket name; `json.loads` (None when it raises);
      `extract_text_pdf` (None when PyMuPDF raises); and whether
      `LegalDocumentCreate` accepts a document. */
  datatype Env = Env(
    folder: string,
    storageUri: string,
    bucket: string,
    parseJson: Bytes -> Option<Value>,
    extractText: Bytes -> Option<string>,
    validates: Dict -> bool)

  /** The Elasticsearch index and the GCS bucket. `nextId` stands for the
      id generator of Elasticsearch: an id it hands out is not in use. */
  datatype Stores = Stores(index: map<nat, Dict>, blobs: map<string, Bytes>, nextId: nat)

  /** Every document id is below the generator. */
  predicate IdsBelowNext(s: Stores) {
    forall id :: id in s.index ==> id < s.nextId
  }

  const METADATA_JSON_FILENAME := "metadata.json"
  const ONLY_ZIP := "Only zip files are allowed."
  const METADATA_NOT_FOUND := "metadata.json not found."
  const DUPLICATE_FILENAME := "An index with this filename already exists."
  const NO_METADATA := "No metadata detected."
  const DOCUMENT_NOT_FOUND := "Document not found"
  const RESOURCE_URL_NOT_FOUND := "Resource URL not found"

  /* ---------------------------------------------------------------- zip */

  /** `zip_file.namelist()`: the member names in archive order, repeats included. */
  function Names(entries: seq<Entry>): (r: seq<string>)
    ensures |r| == |entries|
    ensures forall i :: 0 <= i < |entries| ==> r[i] == entries[i].name
  {
    seq(|entries|, i requires 0 <= i < |entries| => entries[i].name)
  }

  /** The position of the last member named `name`, or None when there is none. */
  function LastIndexOf(entries: seq<Entry>, name: string): (r: Option<nat>)
    ensures r.Some? ==> r.value < |entries| && entries[r.value].name == name
    ensures r.Some? ==> forall j :: r.value < j < |entries| ==> entries[j].name != name
    ensures r.None? ==> forall j :: 0 <= j < |entries| ==> entries[j].name != name
    decreases |entries|
  {
    if |entries| == 0 then None
    else if entries[|entries| - 1].name == name then Some(|entries| - 1)
    else LastIndexOf(entries[..|entries| - 1], name)
  }

  /** `zip_file.open(name).read()`: the last member with that name (zipfile
      keeps the last of repeated names), or None where `open` raises KeyError. */
  function Lookup(entries: seq<Entry>, name: string): (r: Option<Bytes>)
    ensures r.Some? <==> name in Names(entries)
    ensures r.Some? ==> exists i :: 0 <= i < |entries| && entries[i] == Entry(name, r.value)
                          && forall j :: i < j < |entries| ==> entries[j].name != name
  {
    match LastIndexOf(entries, name)
    case None =>
      assert forall j :: 0 <= j < |Names(entries)| ==> Names(entries)[j] != name;
      None
    case Some(i) =>
      assert Names(entries)[i] == name;
      Some(entries[i].data)
  }

  /** The zip check on `file.content_type`. */
  predicate IsZipContentType(contentType: Option<string>) {
    contentType == Some("application/zip") || contentType == Some("application/x-zip-compressed")
  }

  /* ---------------------------------------------------------------- storage */

  /** The blob name of an uploaded document, `f"{folder}/{filename}"`. */
  function BlobName(env: Env, filename: string): (r: string)
    ensures |r| == |env.folder| + 1 + |filename|
    ensures r[..|env.folder|] == env.folder && r[|env.folder|] == '/' && r[|env.folder| + 1..] == filename
  {
    env.folder + "/" + filename
  }

  /** The URL `upload_gcs_file` returns, `f"{GOOGLE_CLOUD_STORAGE_URI}/{GOOGLE_BUCKET_NAME}/{blob_name}"`. */
  function GcsUrl(env: Env, blobName: string): (r: string)
    ensures |r| == |env.storageUri| + 1 + |env.bucket| + 1 + |blobName|
    ensures r[..|env.storageUri|] == env.storageUri && r[|r| - |blobName|..] == blobName
    ensures r[|env.storageUri|] == '/' && r[|r| - |blobName| - 1] == '/'
    ensures r[|env.storageUri| + 1..|env.storageUri| + 1 + |env.bucket|] == env.bucket
  {
    env.storageUri + "/" + env.bucket + "/" + blobName
  }

  /** What `upload_legal_document_helper` hands to `upload_gcs_file`: a form
      upload (an `UploadFile`, which has `.file`) or an open zip member (a
      `ZipExtFile`, which has not). */
  datatype FileObject = FormUpload(content: Bytes) | ZipMember(data: Bytes)

  /** `upload_gcs_file(file, blob_name)` as written: it reads `file.file`,
      which a zip member does not have, so every call from the upload path
      raises AttributeError. */
  function UploadGcsFileAsWritten(s: Stores, env: Env, file: FileObject, blobName: string): (r: (Stores, Result<string, Error>))
    ensures r.1.Err? <==> file.ZipMember?
    ensures r.1.Err? ==> r.0 == s && r.1.error == Unhandled("AttributeError")
  {
    match file
    case FormUpload(content) => (s.(blobs := s.blobs[blobName := content]), Ok(GcsUrl(env, blobName)))
    case ZipMember(_) => (s, Err(Unhandled("AttributeError")))
  }

  /** As written, the blob upload fails for every member the upload path opens. */
  lemma ZipMemberUploadRaisesAsWritten(s: Stores, env: Env, data: Bytes, filename: string)
    ensures UploadGcsFileAsWritten(s, env, ZipMember(data), BlobName(env, filename)).1 == Err(Unhandled("AttributeError"))
  {
  }

  /** `upload_gcs_file` as intended: the member's bytes are stored under the
      blob name (replacing a blob of that name) and its URL is returned. */
  function UploadGcsFile(s: Stores, env: Env, data: Bytes, blobName: string): (r: (Stores, string))
    ensures r.0.index == s.index && r.0.nextId == s.nextId
    ensures r.0.blobs.Keys == s.blobs.Keys + {blobName} && r.0.blobs[blobName] == data
    ensures forall b :: b in s.blobs && b != blobName ==> r.0.blobs[b] == s.blobs[b]
    ensures r.1 == GcsUrl(env, blobName)
  {
    (s.(blobs := s.blobs[blobName := data]), GcsUrl(env, blobName))
  }

  /* ---------------------------------------------------------------- index */

  datatype IndexResult = IndexResult(esId: nat, esFilename: string)

  /** Some stored document has this filename (the `term` query on "filename"). */
  predicate FilenameTaken(index: map<nat, Dict>, filename: string) {
    exists id :: id in index && Get(index[id], "filename") == Str(filename)
  }

  /** `index_legal_document(es_client, document_data)`. A document the schema
      refuses raises ValidationError; a filename already in the index is a
      400 and leaves the index as it was; otherwise the document is stored
      under a fresh id, and the id and filename are returned. */
  function IndexLegalDocument(s: Stores, env: Env, documentData: Dict): (r: (Stores, Result<IndexResult, Error>))
    ensures r.0.blobs == s.blobs
    ensures r.1.Err? ==> r.0 == s
    ensures r.1.Ok? <==> env.validates(documentData) && Get(documentData, "filename").Str?
                         && !FilenameTaken(s.index, Get(documentData, "filename").s)
    ensures r.1.Err? && r.1.error.HttpError? ==> r.1.error == HttpError(BAD_REQUEST, DUPLICATE_FILENAME)
    ensures r.1.Ok? ==> && r.1.value.esId == s.nextId
                        && (IdsBelowNext(s) ==> r.1.value.esId !in s.index)
                        && Get(documentData, "filename") == Str(r.1.value.esFilename)
                        && r.0.index == s.index[r.1.value.esId := documentData]
                        && r.0.nextId > r.1.value.esId
    ensures IdsBelowNext(s) ==> IdsBelowNext(r.0)
    ensures !env.validates(documentData) ==> r == (s, Err(Unhandled("ValidationError")))
    ensures env.validates(documentData) && Get(documentData, "filename").Str?
            && FilenameTaken(s.index, Get(documentData, "filename").s) ==>
              r == (s, Err(HttpError(BAD_REQUEST, DUPLICATE_FILENAME)))
  {
    if !env.validates(documentData) then (s, Err(Unhandled("ValidationError")))
    else match Get(documentData, "filename")
      case Str(filename) =>
        if FilenameTaken(s.index, filename) then (s, Err(HttpError(BAD_REQUEST, DUPLICATE_FILENAME)))
        else
          var id := s.nextId;
          (s.(index := s.index[id := documentData], nextId := id + 1), Ok(IndexResult(id, filename)))
      case _ => (s, Err(Unhandled("AttributeError")))
  }

  /** `index_legal_document` AS WRITTEN: after the schema check it reads
      `legal_document_create.filename`, but `LegalDocumentCreate` declares
      only `filenames` and ignores extra keys, so every document the schema
      accepts raises AttributeError before the search; nothing is indexed. */
  function IndexLegalDocumentAsWritten(s: Stores, env: Env, documentData: Dict): (r: (Stores, Result<IndexResult, Error>))
    ensures r.0 == s && r.1.Err?
    ensures env.validates(documentData) ==> r.1 == Err(Unhandled("AttributeError"))
  {
    if !env.validates(documentData) then (s, Err(Unhandled("ValidationError")))
    else (s, Err(Unhandled("AttributeError")))
  }

  /** A valid document with a new filename shows the gap: the corrected
      version stores it, the version as written raises a non-HTTP error. */
  lemma NewFilenameRaisesAsWritten(s: Stores, env: Env, documentData: Dict)
    requires env.validates(documentData) && Get(documentData, "filename").Str?
    requires !FilenameTaken(s.index, Get(documentData, "filename").s)
    ensures IndexLegalDocument(s, env, documentData).1.Ok?
    ensures IndexLegalDocumentAsWritten(s, env, documentData) == (s, Err(Unhandled("AttributeError")))
  {
  }

  /** A filename, once indexed, is refused the second time. */
  lemma ReindexRejected(s: Stores, env: Env, first: Dict, second: Dict)
    requires IndexLegalDocument(s, env, first).1.Ok?
    requires env.validates(second) && Get(second, "filename") == Get(first, "filename")
    ensures var s1 := IndexLegalDocument(s, env, first).0;
      IndexLegalDocument(s1, env, second) == (s1, Err(HttpError(BAD_REQUEST, DUPLICATE_FILENAME)))
  {
    var (s1, r) := IndexLegalDocument(s, env, first);
    assert Get(s1.index[r.value.esId], "filename") == Get(first, "filename");
  }

  /* ---------------------------------------------------------------- one document */

  datatype UploadResult = UploadResult(id: nat, filename: string, resourceUrl: string)

  /** The document that is indexed: `{"content", "resource_url"}` overlaid with the metadata. */
  function DocumentData(text: string, gcsUrl: string, metadata: Dict): (r: Dict)
    ensures r.Keys == metadata.Keys + {"content", "resource_url"}
    ensures forall k :: k in metadata ==> r[k] == metadata[k]
    ensures "content" !in metadata ==> r["content"] == Str(text)
    ensures "resource_url" !in metadata ==> r["resource_url"] == Str(gcsUrl)
  {
    Update(map["content" := Str(text), "resource_url" := Str(gcsUrl)], metadata)
  }

  /** The member's text extracts and the document built from it passes the
      schema: what the helper needs, besides a new filename, to index it. */
  predicate Indexable(env: Env, data: Bytes, metadata: Dict) {
    && "filename" in metadata && metadata["filename"].Str?
    && env.extractText(data).Some?
    && env.validates(DocumentData(env.extractText(data).value,
                                  GcsUrl(env, BlobName(env, metadata["filename"].s)), metadata))
  }

  /** `upload_legal_document_helper(es_client, extracted_file, metadata)` with
      the blob upload as intended. The blob is stored first and stays stored
      whatever happens next, a 400 for a duplicate filename included; then the
      text is extracted and the document indexed. */
  function UploadLegalDocumentHelper(s: Stores, env: Env, data: Bytes, metadata: Dict): (r: (Stores, Result<UploadResult, Error>))
    requires "filename" in metadata && metadata["filename"].Str?
    ensures IdsBelowNext(s) ==> IdsBelowNext(r.0)
    ensures r.0.blobs == s.blobs[BlobName(env, metadata["filename"].s) := data]
    ensures r.1.Err? ==> r.0.index == s.index && r.0.nextId == s.nextId
    ensures r.1.Err? && r.1.error.HttpError? ==> r.1.error == HttpError(BAD_REQUEST, DUPLICATE_FILENAME)
    ensures r.1.Ok? <==> Indexable(env, data, metadata) && !FilenameTaken(s.index, metadata["filename"].s)
    ensures Indexable(env, data, metadata) && FilenameTaken(s.index, metadata["filename"].s) ==>
              r.1 == Err(HttpError(BAD_REQUEST, DUPLICATE_FILENAME))
    ensures env.extractText(data).None? ==> r.1 == Err(Unhandled("FileDataError"))
    ensures r.1.Ok? ==> && r.1.value.filename == metadata["filename"].s
                        && r.1.value.resourceUrl == GcsUrl(env, BlobName(env, metadata["filename"].s))
                        && (IdsBelowNext(s) ==> r.1.value.id !in s.index)
                        && r.1.value.id in r.0.index
                        && r.0.index == s.index[r.1.value.id := r.0.index[r.1.value.id]]
                        && (forall k :: k in metadata ==> k in r.0.index[r.1.value.id] && r.0.index[r.1.value.id][k] == metadata[k])
  {
    var filename := metadata["filename"].s;
    var (s1, gcsUrl) := UploadGcsFile(s, env, data, BlobName(env, filename));
    match env.extractText(data)
    case None => (s1, Err(Unhandled("FileDataError")))
    case Some(text) =>
      var documentData := DocumentData(text, gcsUrl, metadata);
      var (s2, esResponse) := IndexLegalDocument(s1, env, documentData);
      match esResponse
      case Err(e) => (s2, Err(e))
      case Ok(res) => (s2, Ok(UploadResult(res.esId, res.esFilename, gcsUrl)))
  }

  /* ---------------------------------------------------------------- the archive */

  /** An entry of `failed_upload`, `{filename: message}`. */
  datatype Failure = Failure(filename: string, message: string)

  /** What happens to one metadata record: it is uploaded, it is refused with
      an HTTPException (caught and reported), or another exception escapes
      and aborts the whole upload. */
  datatype Outcome = Uploaded(result: UploadResult) | Rejected(failure: Failure) | Aborted(error: Error)

  /** `metadata["filename"]` when it is a string; a record without one never
      reaches the helper. */
  function RecordName(record: Value): Option<string> {
    if record.Object? && "filename" in record.fields && record.fields["filename"].Str?
    then Some(record.fields["filename"].s) else None
  }

  /** One turn of the loop over `metadata_list`. `metadata["filename"]`
      raises TypeError on a record that is not an object and KeyError on
      one without the key; `zip_file.open` raises KeyError on a name that is
      not a member (TypeError on an unhashable one). Those sit outside the
      `try` and abort; of the helper's exceptions only an HTTPException is
      caught, and it is reported as `str(e)`. */
  function ProcessRecord(s: Stores, env: Env, entries: seq<Entry>, record: Value): (r: (Stores, Outcome))
    ensures IdsBelowNext(s) ==> IdsBelowNext(r.0)
    ensures r.1.Aborted? || RecordName(record).Some?
    ensures r.1.Uploaded? ==> r.1.result.filename == RecordName(record).value
    ensures r.1.Rejected? ==> r.1.failure == Failure(RecordName(record).value, HttpMessage(BAD_REQUEST, DUPLICATE_FILENAME))
    ensures !r.1.Aborted? ==> BlobName(env, RecordName(record).value) in r.0.blobs
    ensures !r.1.Uploaded? ==> r.0.index == s.index
  {
    if !record.Object? then (s, Aborted(Unhandled("TypeError")))
    else if "filename" !in record.fields then (s, Aborted(Unhandled("KeyError")))
    else match record.fields["filename"]
      case Str(filename) =>
        (match Lookup(entries, filename)
         case None => (s, Aborted(Unhandled("KeyError")))
         case Some(data) =>
           var (s1, uploadResult) := UploadLegalDocumentHelper(s, env, data, record.fields);
           match uploadResult
           case Ok(u) => (s1, Uploaded(u))
           case Err(HttpError(status, detail)) => (s1, Rejected(Failure(filename, HttpMessage(status, detail))))
           case Err(e) => (s1, Aborted(e)))
      case List(_) => (s, Aborted(Unhandled("TypeError")))
      case Object(_) => (s, Aborted(Unhandled("TypeError")))
      case _ => (s, Aborted(Unhandled("KeyError")))
  }

  /** A record naming a member of the archive is refused exactly when its
      document would be indexed but the filename is taken, and uploaded
      exactly when the filename is new; any other record aborts. */
  lemma ProcessRecordOutcome(s: Stores, env: Env, entries: seq<Entry>, record: Value)
    ensures RecordName(record).None? ==> ProcessRecord(s, env, entries, record) == (s, ProcessRecord(s, env, entries, record).1) && ProcessRecord(s, env, entries, record).1.Aborted?
    ensures RecordName(record).Some? && Lookup(entries, RecordName(record).value).None? ==>
              ProcessRecord(s, env, entries, record) == (s, ProcessRecord(s, env, entries, record).1) && ProcessRecord(s, env, entries, record).1.Aborted?
    ensures RecordName(record).Some? && Lookup(entries, RecordName(record).value).Some? ==>
              var data := Lookup(entries, RecordName(record).value).value;
              var outcome := ProcessRecord(s, env, entries, record).1;
              && (outcome.Rejected? <==> Indexable(env, data, record.fields)
                                         && FilenameTaken(s.index, RecordName(record).value))
              && (outcome.Uploaded? <==> Indexable(env, data, record.fields)
                                         && !FilenameTaken(s.index, RecordName(record).value))
  {
  }

  /** The loop's state: the stores, `successful_upload_list`,
      `failed_upload_list`, `filenames_in_metadata_list`, and the exception
      that ended the loop early, if any. */
  datatype Batch = Batch(
    stores: Stores,
    successful: seq<UploadResult>,
    failed: seq<Failure>,
    named: seq<string>,
    aborted: Option<Error>)

  /** The batch after one more record: without an abort, the record's name
      is appended and exactly one of the two lists grows by one. */
  function Step(b: Batch, env: Env, entries: seq<Entry>, record: Value): (r: Batch)
    requires b.aborted.None?
    ensures r.aborted.None? ==> && RecordName(record).Some?
                                && r.named == b.named + [RecordName(record).value]
                                && |r.successful| + |r.failed| == |b.successful| + |b.failed| + 1
    ensures r.aborted.Some? ==> r.successful == b.successful && r.failed == b.failed && r.named == b.named
  {
    var (s1, outcome) := ProcessRecord(b.stores, env, entries, record);
    match outcome
    case Uploaded(u) => Batch(s1, b.successful + [u], b.failed, b.named + [u.filename], None)
    case Rejected(f) => Batch(s1, b.successful, b.failed + [f], b.named + [f.filename], None)
    case Aborted(e) => b.(stores := s1, aborted := Some(e))
  }

  /** Without an abort, exactly one of the two lists gains one entry at its
      end and the other stays as it was: entries never move between lists. */
  lemma StepExtendsOneList(b: Batch, env: Env, entries: seq<Entry>, record: Value)
    requires b.aborted.None?
    ensures var r := Step(b, env, entries, record);
      r.aborted.None? ==>
        || (&& |r.successful| == |b.successful| + 1
            && r.successful[..|b.successful|] == b.successful
            && r.failed == b.failed)
        || (&& r.successful == b.successful
            && |r.failed| == |b.failed| + 1
            && r.failed[..|b.failed|] == b.failed)
  {
  }

  /** The records processed in order; after an abort nothing more happens. */
  function ProcessRecords(s: Stores, env: Env, entries: seq<Entry>, records: seq<Value>): Batch
    decreases |records|
  {
    if |records| == 0 then Batch(s, [], [], [], None)
    else
      var b := ProcessRecords(s, env, entries, records[..|records| - 1]);
      if b.aborted.Some? then b else Step(b, env, entries, records[|records| - 1])
  }

  /** Without an abort, every record adds exactly one entry to one of the two
      lists, and the names are the records' filenames in metadata order. */
  lemma {:induction false} RecordsAccountedFor(s: Stores, env: Env, entries: seq<Entry>, records: seq<Value>)
    ensures var b := ProcessRecords(s, env, entries, records);
      b.aborted.None? ==>
        && |b.successful| + |b.failed| == |records| == |b.named|
    decreases |records|
  {
    if |records| > 0 {
      var init := records[..|records| - 1];
      RecordsAccountedFor(s, env, entries, init);
      var b0 := ProcessRecords(s, env, entries, init);
      if b0.aborted.None? {
        var b := Step(b0, env, entries, records[|records| - 1]);
      }
    }
  }

  /** The filenames of the records in order, when every record has one. */
  function RecordNames(records: seq<Value>): (r: Option<seq<string>>)
    ensures r.Some? ==> |r.value| == |records|
    ensures r.Some? ==> forall i :: 0 <= i < |records| ==> RecordName(records[i]) == Some(r.value[i])
    ensures r.None? ==> exists i :: 0 <= i < |records| && RecordName(records[i]).None?
    decreases |records|
  {
    if |records| == 0 then Some([])
    else
      var init := records[..|records| - 1];
      var last := records[|records| - 1];
      match RecordNames(init)
      case None =>
        assert forall i :: 0 <= i < |init| ==> init[i] == records[i];
        None
      case Some(names) =>
        match RecordName(last)
        case None => None
        case Some(n) =>
          assert forall i :: 0 <= i < |init| ==> init[i] == records[i];
          Some(names + [n])
  }

  /** Without an abort, `filenames_in_metadata_list` holds the records'
      filenames in metadata order. */
  lemma {:induction false} NamesInMetadataOrder(s: Stores, env: Env, entries: seq<Entry>, records: seq<Value>)
    ensures var b := ProcessRecords(s, env, entries, records);
      b.aborted.None? ==> RecordNames(records) == Some(b.named)
    decreases |records|
  {
    if |records| > 0 {
      var init := records[..|records| - 1];
      var last := records[|records| - 1];
      NamesInMetadataOrder(s, env, entries, init);
      var b0 := ProcessRecords(s, env, entries, init);
      if b0.aborted.None? {
        var b := Step(b0, env, entries, last);
        assert b.aborted.None? ==> b.named == b0.named + [RecordName(last).value];
      }
    }
  }

  /** Every listed upload and refusal belongs to a named record, and every
      refusal is the duplicate-filename 400. */
  lemma {:induction false} RefusalsAreDuplicates(s: Stores, env: Env, entries: seq<Entry>, records: seq<Value>)
    ensures var b := ProcessRecords(s, env, entries, records);
      && (forall u :: u in b.successful ==> u.filename in b.named)
      && (forall f :: f in b.failed ==> f.filename in b.named
                                        && f.message == HttpMessage(BAD_REQUEST, DUPLICATE_FILENAME))
    decreases |records|
  {
    if |records| > 0 {
      var init := records[..|records| - 1];
      RefusalsAreDuplicates(s, env, entries, init);
      var b0 := ProcessRecords(s, env, entries, init);
      if b0.aborted.None? {
        StepKeepsRefusals(b0, env, entries, records[|records| - 1]);
      }
    }
  }

  /** One record keeps every listed upload and refusal named, and adds only
      duplicate-filename refusals. */
  lemma StepKeepsRefusals(b: Batch, env: Env, entries: seq<Entry>, record: Value)
    requires b.aborted.None?
    requires forall u :: u in b.successful ==> u.filename in b.named
    requires forall f :: f in b.failed ==>
               f.filename in b.named && f.message == HttpMessage(BAD_REQUEST, DUPLICATE_FILENAME)
    ensures var r := Step(b, env, entries, record);
      && (forall u :: u in r.successful ==> u.filename in r.named)
      && (forall f :: f in r.failed ==> f.filename in r.named
                                        && f.message == HttpMessage(BAD_REQUEST, DUPLICATE_FILENAME))
  {
  }

  /** Every named record has its blob stored, whatever became of it later. */
  lemma {:induction false} NamedFilesStored(s: Stores, env: Env, entries: seq<Entry>, records: seq<Value>)
    ensures var b := ProcessRecords(s, env, entries, records);
      forall n :: n in b.named ==> BlobName(env, n) in b.stores.blobs
    decreases |records|
  {
    if |records| > 0 {
      var init := records[..|records| - 1];
      NamedFilesStored(s, env, entries, init);
      var b0 := ProcessRecords(s, env, entries, init);
      if b0.aborted.None? {
        var (s1, outcome) := ProcessRecord(b0.stores, env, entries, records[|records| - 1]);
        forall n | n in b0.named ensures BlobName(env, n) in s1.blobs {
          assert BlobName(env, n) in b0.stores.blobs;
        }
      }
    }
  }

  /** Once a record aborts, the records after it change nothing. */
  lemma {:induction false} AbortAbsorbs(s: Stores, env: Env, entries: seq<Entry>, records: seq<Value>, n: nat)
    requires n <= |records|
    requires ProcessRecords(s, env, entries, records[..n]).aborted.Some?
    ensures ProcessRecords(s, env, entries, records) == ProcessRecords(s, env, entries, records[..n])
    decreases |records| - n
  {
    if n < |records| {
      assert records[..n + 1][..n] == records[..n];
      AbortAbsorbs(s, env, entries, records, n + 1);
    } else {
      assert records[..n] == records;
    }
  }

  /** One turn of the loop keeps every indexed document; it either leaves the
      successes and the index keys as they were, or adds one success whose
      id is new and is the only key added. */
  lemma StepIndex(b: Batch, env: Env, entries: seq<Entry>, record: Value)
    requires b.aborted.None? && IdsBelowNext(b.stores)
    ensures var r := Step(b, env, entries, record);
      && IdsBelowNext(r.stores)
      && (forall id :: id in b.stores.index ==> id in r.stores.index && r.stores.index[id] == b.stores.index[id])
      && (r.successful == b.successful ==> r.stores.index.Keys == b.stores.index.Keys)
      && (r.successful != b.successful ==>
            && |r.successful| == |b.successful| + 1
            && var u := r.successful[|b.successful|];
               && r.successful == b.successful + [u]
               && u.id !in b.stores.index
               && r.stores.index.Keys == b.stores.index.Keys + {u.id})
  {
    var (s1, outcome) := ProcessRecord(b.stores, env, entries, record);
    if outcome.Uploaded? {
      var u := outcome.result;
      assert Step(b, env, entries, record).successful == b.successful + [u];
    }
  }

  /** The ids of a list of successful uploads. */
  function SuccessIds(successful: seq<UploadResult>): set<nat> {
    set u | u in successful :: u.id
  }

  /** One more success adds its id. */
  lemma SuccessIdsAppend(successful: seq<UploadResult>, u: UploadResult)
    ensures SuccessIds(successful + [u]) == SuccessIds(successful) + {u.id}
  {
  }

  /** The index grows by exactly the successful uploads, and the documents
      already there are kept. */
  lemma {:induction false} IndexGrowsBySuccesses(s: Stores, env: Env, entries: seq<Entry>, records: seq<Value>)
    requires IdsBelowNext(s)
    ensures var b := ProcessRecords(s, env, entries, records);
      && IdsBelowNext(b.stores)
      && b.stores.index.Keys == s.index.Keys + SuccessIds(b.successful)
      && (forall id :: id in s.index ==> b.stores.index[id] == s.index[id])
    decreases |records|
  {
    if |records| > 0 {
      var init := records[..|records| - 1];
      IndexGrowsBySuccesses(s, env, entries, init);
      var b0 := ProcessRecords(s, env, entries, init);
      if b0.aborted.None? {
        StepIndex(b0, env, entries, records[|records| - 1]);
        GrowthStep(s, b0, Step(b0, env, entries, records[|records| - 1]));
      }
    }
  }

  /** One step of the growth invariant, on the batches before and after. */
  lemma GrowthStep(s: Stores, b0: Batch, b: Batch)
    requires b0.stores.index.Keys == s.index.Keys + SuccessIds(b0.successful)
    requires forall id :: id in s.index ==> b0.stores.index[id] == s.index[id]
    requires forall id :: id in b0.stores.index ==> id in b.stores.index && b.stores.index[id] == b0.stores.index[id]
    requires b.successful == b0.successful ==> b.stores.index.Keys == b0.stores.index.Keys
    requires b.successful != b0.successful ==>
               && |b.successful| == |b0.successful| + 1
               && b.successful == b0.successful + [b.successful[|b0.successful|]]
               && b.stores.index.Keys == b0.stores.index.Keys + {b.successful[|b0.successful|].id}
    ensures b.stores.index.Keys == s.index.Keys + SuccessIds(b.successful)
    ensures forall id :: id in s.index ==> b.stores.index[id] == s.index[id]
  {
    if b.successful != b0.successful {
      SuccessIdsAppend(b0.successful, b.successful[|b0.successful|]);
    }
  }

  /** Each successful upload has an id of its own, none of them already in use. */
  lemma {:induction false} SuccessIdsFresh(s: Stores, env: Env, entries: seq<Entry>, records: seq<Value>)
    requires IdsBelowNext(s)
    ensures var b := ProcessRecords(s, env, entries, records);
      && (forall u :: u in b.successful ==> u.id !in s.index && u.id in b.stores.index)
      && (forall i, j :: 0 <= i < j < |b.successful| ==> b.successful[i].id != b.successful[j].id)
    decreases |records|
  {
    if |records| > 0 {
      var init := records[..|records| - 1];
      SuccessIdsFresh(s, env, entries, init);
      IndexGrowsBySuccesses(s, env, entries, init);
      var b0 := ProcessRecords(s, env, entries, init);
      if b0.aborted.None? {
        StepIndex(b0, env, entries, records[|records| - 1]);
        var b := Step(b0, env, entries, records[|records| - 1]);
        if b.successful != b0.successful {
          var u := b.successful[|b0.successful|];
          forall v | v in b0.successful ensures v.id != u.id && v.id !in s.index && v.id in b.stores.index {
            assert v.id in b0.stores.index;
          }
        }
      }
    }
  }

  /** The report of `parse_legal_document_and_metadata_zip`. */
  datatype ParseResult = ParseResult(failed: seq<Failure>, successful: seq<UploadResult>)

  /** One "No metadata detected." entry per name of `missing`, each name once. */
  predicate IsNoMetadataReport(tail: seq<Failure>, missing: set<string>) {
    && (forall f :: f in tail ==> f.message == NO_METADATA)
    && (forall f :: f in tail ==> f.filename in missing)
    && (forall n :: n in missing ==> exists f :: f in tail && f.filename == n)
    && (forall i, j :: 0 <= i < j < |tail| ==> tail[i].filename != tail[j].filename)
  }

  /** The outcome of reconciling the archive with its metadata: the stores
      and lists the records leave (an abort raises instead), followed by one
      "No metadata detected." entry for each zip member no record names. */
  ghost predicate IsReconciliation(s: Stores, env: Env, entries: seq<Entry>, zipNames: seq<string>,
                                   records: seq<Value>, s': Stores, r: Result<ParseResult, Error>)
  {
    var b := ProcessRecords(s, env, entries, records);
    && s' == b.stores
    && (b.aborted.Some? ==> r == Err(b.aborted.value))
    && (b.aborted.None? ==>
          && r.Ok? && r.value.successful == b.successful
          && |b.failed| <= |r.value.failed| && r.value.failed[..|b.failed|] == b.failed
          && IsNoMetadataReport(r.value.failed[|b.failed|..], (set n | n in zipNames) - (set n | n in b.named)))
  }

  /** The loop over `filename_with_no_metadata` (set order is arbitrary). */
  method NoMetadataFailures(missing: set<string>) returns (tail: seq<Failure>)
    ensures IsNoMetadataReport(tail, missing)
  {
    tail := [];
    var rest := missing;
    while rest != {}
      invariant rest <= missing
      invariant forall f :: f in tail ==> f.message == NO_METADATA
      invariant forall f :: f in tail ==> f.filename in missing - rest
      invariant forall n :: n in missing - rest ==> exists f :: f in tail && f.filename == n
      invariant forall i, j :: 0 <= i < j < |tail| ==> tail[i].filename != tail[j].filename
      decreases rest
    {
      var filename :| filename in rest;
      ghost var before, restBefore := tail, rest;
      tail := tail + [Failure(filename, NO_METADATA)];
      rest := rest - {filename};
      forall n | n in missing - rest ensures exists f :: f in tail && f.filename == n {
        if n == filename {
          assert tail[|tail| - 1] in tail;
        } else {
          assert n in missing - restBefore;
          var f :| f in before && f.filename == n;
          assert f in tail;
        }
      }
    }
    assert missing - rest == missing;
  }

  /** One more record extends the fold by one `Step`, unless it had aborted. */
  lemma FoldStep(s: Stores, env: Env, entries: seq<Entry>, records: seq<Value>, i: nat)
    requires i < |records|
    ensures var b := ProcessRecords(s, env, entries, records[..i]);
      ProcessRecords(s, env, entries, records[..i + 1])
        == if b.aborted.Some? then b else Step(b, env, entries, records[i])
  {
    assert records[..i + 1][..i] == records[..i];
  }

  /** A fold that ran through without an abort, and the no-metadata entries
      appended to its failures, make a reconciliation. */
  lemma ReconciledOk(s: Stores, env: Env, entries: seq<Entry>, zipNames: seq<string>, records: seq<Value>,
                     tail: seq<Failure>)
    ensures var b := ProcessRecords(s, env, entries, records);
      b.aborted.None? && IsNoMetadataReport(tail, (set n | n in zipNames) - (set n | n in b.named)) ==>
        IsReconciliation(s, env, entries, zipNames, records, b.stores, Ok(ParseResult(b.failed + tail, b.successful)))
  {
    var b := ProcessRecords(s, env, entries, records);
    assert (b.failed + tail)[|b.failed|..] == tail;
  }

  /** An abort at the `n`-th record is the outcome of the whole reconciliation. */
  lemma ReconciledAbort(s: Stores, env: Env, entries: seq<Entry>, zipNames: seq<string>, records: seq<Value>, n: nat)
    requires n <= |records| && ProcessRecords(s, env, entries, records[..n]).aborted.Some?
    ensures var b := ProcessRecords(s, env, entries, records[..n]);
      IsReconciliation(s, env, entries, zipNames, records, b.stores, Err(b.aborted.value))
  {
    AbortAbsorbs(s, env, entries, records, n);
  }

  /** `parse_legal_document_and_metadata_zip`. */
  method ParseLegalDocumentAndMetadataZip(s: Stores, env: Env, entries: seq<Entry>, filenamesInZip: seq<string>,
                                          metadataList: seq<Value>)
    returns (s': Stores, r: Result<ParseResult, Error>)
    ensures IsReconciliation(s, env, entries, filenamesInZip, metadataList, s', r)
  {
    var stores := s;
    var failedUploads: seq<Failure> := [];
    var successfulUploads: seq<UploadResult> := [];
    var filenamesInMetadata: seq<string> := [];
    for i := 0 to |metadataList|
      invariant ProcessRecords(s, env, entries, metadataList[..i])
             == Batch(stores, successfulUploads, failedUploads, filenamesInMetadata, None)
    {
      FoldStep(s, env, entries, metadataList, i);
      var (s1, outcome) := ProcessRecord(stores, env, entries, metadataList[i]);
      stores := s1;
      match outcome {
        case Uploaded(u) =>
          successfulUploads := successfulUploads + [u];
          filenamesInMetadata := filenamesInMetadata + [u.filename];
        case Rejected(f) =>
          failedUploads := failedUploads + [f];
          filenamesInMetadata := filenamesInMetadata + [f.filename];
        case Aborted(e) =>
          ReconciledAbort(s, env, entries, filenamesInZip, metadataList, i + 1);
          return stores, Err(e);
      }
    }
    assert metadataList[..|metadataList|] == metadataList;
    var missing := (set n | n in filenamesInZip) - (set n | n in filenamesInMetadata);
    var tail := NoMetadataFailures(missing);
    ReconciledOk(s, env, entries, filenamesInZip, metadataList, tail);
    s', r := stores, Ok(ParseResult(failedUploads + tail, successfulUploads));
  }

  /** What the upload request carries: `file.content_type` and the archive
      (None when the body is not a zip archive). */
  datatype Upload = Upload(contentType: Option<string>, archive: Option<seq<Entry>>)

  /** The records `for metadata in metadata_list` visits. Iterating a
      non-empty JSON object or string yields strings, and the first
      `metadata["filename"]` on one raises TypeError; a number, boolean or
      null is not iterable. */
  function ManifestRecords(manifest: Value): (r: Result<seq<Value>, Error>)
    ensures r.Ok? <==> manifest.List? || manifest == Object(map[]) || manifest == Str("")
    ensures manifest.List? ==> r == Ok(manifest.items)
  {
    match manifest
    case List(items) => Ok(items)
    case Object(fields) => if fields == map[] then Ok([]) else Err(Unhandled("TypeError"))
    case Str(text) => if text == "" then Ok([]) else Err(Unhandled("TypeError"))
    case _ => Err(Unhandled("TypeError"))
  }

  /** `json.loads` of the metadata member, then its records. */
  function Manifest(env: Env, entries: seq<Entry>): (r: Result<seq<Value>, Error>)
    ensures METADATA_JSON_FILENAME !in Names(entries) ==> r == Err(Unhandled("KeyError"))
    ensures r.Ok? <==> && Lookup(entries, METADATA_JSON_FILENAME).Some?
                       && env.parseJson(Lookup(entries, METADATA_JSON_FILENAME).value).Some?
                       && ManifestRecords(env.parseJson(Lookup(entries, METADATA_JSON_FILENAME).value).value).Ok?
    ensures r.Ok? ==> r == ManifestRecords(env.parseJson(Lookup(entries, METADATA_JSON_FILENAME).value).value)
  {
    match Lookup(entries, METADATA_JSON_FILENAME)
    case None => Err(Unhandled("KeyError"))
    case Some(content) =>
      match env.parseJson(content)
      case None => Err(Unhandled("JSONDecodeError"))
      case Some(manifest) => ManifestRecords(manifest)
  }

  /** `get_upload_legal_document`. A content type other than the two zip
      types, or an archive without "metadata.json", is a 400 before anything
      is stored. Otherwise "metadata.json" is taken out of the member list and
      the archive is reconciled with the records of its metadata. */
  method GetUploadLegalDocument(s: Stores, env: Env, file: Upload) returns (s': Stores, r: Result<ParseResult, Error>)
    ensures !IsZipContentType(file.contentType) ==> s' == s && r == Err(HttpError(BAD_REQUEST, ONLY_ZIP))
    ensures IsZipContentType(file.contentType) && file.archive.None? ==> s' == s && r == Err(Unhandled("BadZipFile"))
    ensures IsZipContentType(file.contentType) && file.archive.Some? ==>
      var entries := file.archive.value;
      if METADATA_JSON_FILENAME !in Names(entries) then s' == s && r == Err(HttpError(BAD_REQUEST, METADATA_NOT_FOUND))
      else
        && (Manifest(env, entries).Err? ==> s' == s && r == Err(Manifest(env, entries).error))
        && (Manifest(env, entries).Ok? ==>
              IsReconciliation(s, env, entries, RemoveFirst(Names(entries), METADATA_JSON_FILENAME),
                               Manifest(env, entries).value, s', r))
  {
    var contentType := file.contentType;
    var isZipContentType := false;
    if contentType == Some("application/zip") || contentType == Some("application/x-zip-compressed") {
      isZipContentType := true;
    }
    if !isZipContentType {
      return s, Err(HttpError(BAD_REQUEST, ONLY_ZIP));
    }
    if file.archive.None? {
      return s, Err(Unhandled("BadZipFile"));
    }
    var zipFile := file.archive.value;
    var filenamesInZip := Names(zipFile);
    if METADATA_JSON_FILENAME !in filenamesInZip {
      return s, Err(HttpError(BAD_REQUEST, METADATA_NOT_FOUND));
    }
    filenamesInZip := RemoveFirst(filenamesInZip, METADATA_JSON_FILENAME);
    var metadataList := Manifest(env, zipFile);
    if metadataList.Err? {
      return s, Err(metadataList.error);
    }
    s', r := ParseLegalDocumentAndMetadataZip(s, env, zipFile, filenamesInZip, metadataList.value);
  }

  /* ---------------------------------------------------------------- download */

  /** The `StreamingResponse`: the blob's bytes, the media type and the
      `Content-Disposition` header. */
  datatype Download = Download(content: Bytes, mediaType: string, contentDisposition: string)

  /** The header that shows the PDF in the browser or saves it. */
  function ContentDisposition(viewMode: bool, blobFileName: string): (r: string)
    ensures viewMode ==> r == "inline; filename=" + blobFileName
    ensures !viewMode ==> r == "attachment; filename=" + blobFileName
  {
    (if viewMode then "inline" else "attachment") + "; filename=" + blobFileName
  }

  /** The blob name recovered from a stored URL, `"/".join(gcs_url.split("/")[4:])`. */
  function BlobNameOfUrl(gcsUrl: string): string {
    var urlSplits := Split(gcsUrl, '/');
    Join(urlSplits[if |urlSplits| < 4 then |urlSplits| else 4..], '/')
  }

  /** The file name recovered from a stored URL, `gcs_url.split("/")[-1]`:
      what follows the last '/', or the whole URL when it has none. */
  function FileNameOfUrl(gcsUrl: string): (r: string)
    ensures '/' !in r
    ensures |r| <= |gcsUrl| && gcsUrl[|gcsUrl| - |r|..] == r
    ensures |r| == |gcsUrl| || gcsUrl[|gcsUrl| - |r| - 1] == '/'
  {
    var urlSplits := Split(gcsUrl, '/');
    SplitPiecesLackSeparator(gcsUrl, '/');
    SplitLastPiece(gcsUrl, '/');
    urlSplits[|urlSplits| - 1]
  }

  /** `get_download_legal_document(es_client, view_mode, document_id)`. An
      unknown id makes Elasticsearch raise NotFoundError; an empty document
      or a missing or empty `resource_url` is a 404; the blob named by the
      URL is streamed back, and a missing blob raises NotFound. */
  function GetDownloadLegalDocument(s: Stores, viewMode: bool, documentId: nat): (r: Result<Download, Error>)
    ensures documentId !in s.index ==> r == Err(Unhandled("NotFoundError"))
    ensures r == Err(HttpError(NOT_FOUND, DOCUMENT_NOT_FOUND)) <==> documentId in s.index && s.index[documentId] == map[]
    ensures r == Err(HttpError(NOT_FOUND, RESOURCE_URL_NOT_FOUND)) <==>
              documentId in s.index && s.index[documentId] != map[] && !Truthy(Get(s.index[documentId], "resource_url"))
    ensures r.Ok? ==> && documentId in s.index
                      && Get(s.index[documentId], "resource_url").Str?
                      && BlobNameOfUrl(Get(s.index[documentId], "resource_url").s) in s.blobs
                      && r.value.content == s.blobs[BlobNameOfUrl(Get(s.index[documentId], "resource_url").s)]
                      && r.value.mediaType == "application/pdf"
                      && r.value.contentDisposition
                           == ContentDisposition(viewMode, FileNameOfUrl(Get(s.index[documentId], "resource_url").s))
  {
    if documentId !in s.index then Err(Unhandled("NotFoundError"))
    else
      var document := s.index[documentId];
      if document == map[] then Err(HttpError(NOT_FOUND, DOCUMENT_NOT_FOUND))
      else
        var gcsUrl := Get(document, "resource_url");
        if !Truthy(gcsUrl) then Err(HttpError(NOT_FOUND, RESOURCE_URL_NOT_FOUND))
        else if !gcsUrl.Str? then Err(Unhandled("AttributeError"))
        else
          var blobName := BlobNameOfUrl(gcsUrl.s);
          if blobName !in s.blobs then Err(Unhandled("NotFound"))
          else Ok(Download(s.blobs[blobName], "application/pdf", ContentDisposition(viewMode, FileNameOfUrl(gcsUrl.s))))
  }

  /** The storage URI has the form "<scheme>//<host>" and neither it nor the
      bucket name holds any further '/'. */
  ghost predicate WellFormedStorage(env: Env) {
    exists scheme, host :: env.storageUri == scheme + "//" + host && '/' !in scheme && '/' !in host && '/' !in env.bucket
  }

  /** A leading segment without '/' splits off as one piece. */
  lemma SplitLeadingSegment(head: string, tail: string)
    requires '/' !in head
    ensures Split(head + "/" + tail, '/') == [head] + Split(tail, '/')
  {
    SplitAtSeparator(head, tail, '/');
    SplitWithoutSeparator(head, '/');
  }

  /** The URL regrouped as one leading segment after another. */
  lemma GcsUrlNested(env: Env, scheme: string, host: string, blobName: string)
    requires env.storageUri == scheme + "//" + host
    ensures GcsUrl(env, blobName) == scheme + "/" + ("" + "/" + (host + "/" + (env.bucket + "/" + blobName)))
  {
    assert GcsUrl(env, blobName) == env.storageUri + "/" + env.bucket + "/" + blobName;
  }

  /** Splitting a URL built from a well-formed storage location gives four
      segments and then the segments of the blob name. */
  lemma UrlSegments(env: Env, scheme: string, host: string, blobName: string)
    requires env.storageUri == scheme + "//" + host && '/' !in scheme && '/' !in host && '/' !in env.bucket
    ensures Split(GcsUrl(env, blobName), '/') == [scheme, "", host, env.bucket] + Split(blobName, '/')
  {
    GcsUrlNested(env, scheme, host, blobName);
    FourLeadingSegments(scheme, "", host, env.bucket, blobName);
  }

  /** Four leading segments without '/' split off one by one. */
  lemma FourLeadingSegments(a: string, b: string, c: string, d: string, rest: string)
    requires '/' !in a && '/' !in b && '/' !in c && '/' !in d
    ensures Split(a + "/" + (b + "/" + (c + "/" + (d + "/" + rest))), '/') == [a, b, c, d] + Split(rest, '/')
  {
    var t3 := d + "/" + rest;
    var t2 := c + "/" + t3;
    var t1 := b + "/" + t2;
    SplitLeadingSegment(d, rest);
    SplitLeadingSegment(c, t3);
    SplitLeadingSegment(b, t2);
    SplitLeadingSegment(a, t1);
  }


  /** The blob name is everything after the fourth '/', kept verbatim. */
  lemma BlobNameAfterFourSegments(a: string, b: string, c: string, d: string, rest: string)
    requires '/' !in a && '/' !in b && '/' !in c && '/' !in d
    ensures BlobNameOfUrl(a + "/" + b + "/" + c + "/" + d + "/" + rest) == rest
  {
    var url := a + "/" + b + "/" + c + "/" + d + "/" + rest;
    assert url == a + "/" + (b + "/" + (c + "/" + (d + "/" + rest)));
    FourLeadingSegments(a, b, c, d, rest);
    assert Split(url, '/')[4..] == Split(rest, '/');
    JoinSplit(rest, '/');
  }


  /** The download path recovers the blob name from any URL the upload path
      builds, and the file name when that has no '/'. */
  lemma {:induction false} UrlRoundTrip(env: Env, filename: string)
    requires WellFormedStorage(env)
    ensures BlobNameOfUrl(GcsUrl(env, BlobName(env, filename))) == BlobName(env, filename)
    ensures '/' !in filename ==> FileNameOfUrl(GcsUrl(env, BlobName(env, filename))) == filename
  {
    var scheme, host :| env.storageUri == scheme + "//" + host && '/' !in scheme && '/' !in host && '/' !in env.bucket;
    var blobName := BlobName(env, filename);
    UrlSegments(env, scheme, host, blobName);
    var urlSplits := Split(GcsUrl(env, blobName), '/');
    assert urlSplits[4..] == Split(blobName, '/');
    JoinSplit(blobName, '/');
    if '/' !in filename {
      assert blobName == env.folder + ['/'] + filename;
      SplitAtSeparator(env.folder, filename, '/');
      SplitWithoutSeparator(filename, '/');
    }
  }

  /** A document just uploaded downloads as the bytes of its zip member, under
      its own filename, provided the metadata does not set `resource_url`. */
  lemma UploadThenDownload(s: Stores, env: Env, data: Bytes, metadata: Dict, viewMode: bool)
    requires WellFormedStorage(env)
    requires "filename" in metadata && metadata["filename"].Str? && '/' !in metadata["filename"].s
    requires "resource_url" !in metadata
    requires UploadLegalDocumentHelper(s, env, data, metadata).1.Ok?
    ensures var (s1, r) := UploadLegalDocumentHelper(s, env, data, metadata);
      GetDownloadLegalDocument(s1, viewMode, r.value.id)
        == Ok(Download(data, "application/pdf", ContentDisposition(viewMode, metadata["filename"].s)))
  {
    var filename := metadata["filename"].s;
    var (s1, r) := UploadLegalDocumentHelper(s, env, data, metadata);
    UrlRoundTrip(env, filename);
    var document := s1.index[r.value.id];
    assert document["resource_url"] == Str(GcsUrl(env, BlobName(env, filename)));
  }

  /* ---------------------------------------------------------------- bookmarks */

  /** `get_create_legal_document_bookmark(session, token_payload, document_id)`:
      a row (token `sub`, document id) is added; neither the document nor an
      earlier bookmark of it is looked up. */
  method CreateLegalDocumentBookmark(session: Session, tokenPayload: Dict, documentId: string)
    returns (r: Result<Bookmark, Error>)
    requires session.Valid()
    modifies session
    ensures session.Valid()
    ensures session.users == old(session.users)
    ensures r.Ok? ==> && r.value.documentId == documentId && Int(r.value.userId) == Get(tokenPayload, "sub")
                      && session.bookmarks == old(session.bookmarks) + [r.value]
    ensures r.Err? ==> r.error == HttpError(UNPROCESSABLE_ENTITY, INTEGRITY_ERROR) && session.bookmarks == old(session.bookmarks)
    ensures r.Ok? <==> Get(tokenPayload, "sub").Int? && exists u :: u in old(session.users) && u.id == Get(tokenPayload, "sub").i
  {
    var userId := Get(tokenPayload, "sub");
    r := session.AddBookmark(userId, documentId);
  }

  /** The bookmark belongs to the token's subject. */
  predicate OwnedBy(bookmark: Bookmark, tokenPayload: Dict) {
    Int(bookmark.userId) == Get(tokenPayload, "sub")
  }

  /** `get_read_legal_document_bookmark(session, token_payload)`: the rows
      whose `user_id` is the token's `sub`, in table order. */
  function ReadLegalDocumentBookmarks(bookmarks: seq<Bookmark>, tokenPayload: Dict): (r: seq<Bookmark>)
    ensures forall b :: b in r <==> b in bookmarks && OwnedBy(b, tokenPayload)
  {
    SelectAll(bookmarks, (b: Bookmark) => OwnedBy(b, tokenPayload))
  }

  /** A bookmark just created is read back by its owner after the ones they
      had, and changes nobody else's list. */
  lemma BookmarkThenRead(bookmarks: seq<Bookmark>, created: Bookmark, tokenPayload: Dict)
    ensures ReadLegalDocumentBookmarks(bookmarks + [created], tokenPayload)
         == ReadLegalDocumentBookmarks(bookmarks, tokenPayload) + (if OwnedBy(created, tokenPayload) then [created] else [])
  {
    SelectAllAppend(bookmarks, created, (b: Bookmark) => OwnedBy(b, tokenPayload));
  }
}
