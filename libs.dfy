/** The storage gateway of libs.js: `fileList`, `fileUpload`, `fileDel` and
    `fileRead`, with the object store (an S3-compatible bucket) and the image
    library (Jimp) as opaque operations passed in. Each of them answers a
    request with `Ok(value)` or `Err(message)`, the message of the error it
    threw. Every operation returns, beside its result, the external calls it
    issued, in order, so that "no call happens" is a statement about a value. */
module Libs {
  import opened Text

  newtype byte = x: int | 0 <= x < 256

  datatype Option<+T> = None | Some(value: T)

  /** What an external operation did: answered a value or threw an error. */
  datatype Outcome<+T> = Ok(value: T) | Err(message: string)

  /** What a gateway operation returns: `{ success: true, ... }` or
      `{ error: true, message }`. */
  datatype Result<+T> = Success(payload: T) | Failure(message: string)

  /** The settings read from the environment before each call; a variable that
      is not set reads as the empty string. */
  datatype Config = Config(endpoint: string, accessKey: string, secretKey: string, bucket: string, url: string)

  /** File content as the caller hands it over: a (base64) string or a byte buffer. */
  datatype Payload = StringData(text: string) | BufferData(bytes: seq<byte>)

  /** The file object `fileRead` receives (an upload middleware's record). */
  datatype UploadedFile = UploadedFile(buffer: Payload, size: int, path: string)

  datatype ObjectEntry = ObjectEntry(key: string)

  /** The listing the store answers; `Contents` is absent when nothing matches. */
  datatype ListOutput = ListOutput(contents: Option<seq<ObjectEntry>>)

  datatype ListParams = ListParams(bucket: string, prefix: string)
  datatype PutParams = PutParams(bucket: string, body: Payload, key: string, acl: string, contentType: string)
  datatype DeleteParams = DeleteParams(bucket: string, key: string)

  /** Where the image library reads its input from. */
  datatype ImageSource = Base64Content(content: Payload) | FilePath(path: string)

  /** A `scaleToFit(width, height)` step. */
  datatype Fit = Fit(width: int, height: int)

  /** One image pipeline: read the source, optionally scale it to fit, set the
      quality and encode it to the given MIME type. */
  datatype ImageJob = ImageJob(source: ImageSource, fit: Option<Fit>, quality: int, mime: string)

  /** An external call a gateway operation issues. */
  datatype Call =
    | ListObjects(listParams: ListParams)
    | PutObject(putParams: PutParams)
    | DeleteObject(deleteParams: DeleteParams)
    | ProcessImage(job: ImageJob)

  const CONFIG_ERROR_MESSAGE := "Config error. Parameter required not found."
  const LIST_ERROR_PREFIX := "List files error: "
  const UPLOAD_ERROR_PREFIX := "Upload error : "
  const DELETE_ERROR_PREFIX := "Delete error : "
  const PUBLIC_READ := "public-read"
  const DEFAULT_CONTENT_TYPE := "image/jpeg"
  const UPLOAD_QUALITY := 50
  const FULL_QUALITY := 100

  /** The image library's MIME constants. */
  const MIME_JPEG := "image/jpeg"
  const MIME_PNG := "image/png"
  const MIME_GIF := "image/gif"

  /** The extensions accepted when the caller gives no allow-list. */
  const DEFAULT_EXTENSIONS: seq<string> := ["jpg", "gif", "jpeg", "bmp", "doc", "pdf", "xml", "docx", "xlsx", "txt"]

  /** The message of the TypeError thrown by calling `map` on an absent
      `Contents`, in the wording of Node.js 16.9 and later (V8 9.3 onward);
      older Node.js releases say "Cannot read property 'map' of undefined". */
  const MISSING_CONTENTS_MESSAGE := "Cannot read properties of undefined (reading 'map')"

  /** The gate of all three store operations: endpoint, access key and secret
      key set. Bucket and public URL are not checked. */
  predicate ConfigPresent(cfg: Config)
    ensures !ConfigPresent(cfg) <==> "" in [cfg.endpoint, cfg.accessKey, cfg.secretKey]
  {
    cfg.endpoint != "" && cfg.accessKey != "" && cfg.secretKey != ""
  }

  /** `fileFullName.split('.').pop()`: a dot-free suffix of the name. */
  function Extension(fileFullName: string): (ext: string)
    ensures '.' !in ext
    ensures |ext| <= |fileFullName| && fileFullName[|fileFullName| - |ext|..] == ext
  {
    LastSegmentStart(fileFullName, '.');
    Last(Split(fileFullName, '.'))
  }

  /** The allow-list in force: the caller's when non-empty, else the default. */
  function AllowedExtensions(fileExtRequired: seq<string>): (allowed: seq<string>)
    ensures |allowed| > 0
    ensures |fileExtRequired| > 0 ==> allowed == fileExtRequired
    ensures |fileExtRequired| == 0 ==> allowed == DEFAULT_EXTENSIONS
  {
    if |fileExtRequired| > 0 then fileExtRequired else DEFAULT_EXTENSIONS
  }

  /** `fileExtArr.includes(fileExt)`: exact, case-sensitive membership. */
  predicate ExtensionPermitted(fileExtRequired: seq<string>, fileFullName: string)
    ensures ExtensionPermitted(fileExtRequired, fileFullName) <==>
      exists i :: 0 <= i < |AllowedExtensions(fileExtRequired)| && AllowedExtensions(fileExtRequired)[i] == Extension(fileFullName)
    ensures |fileExtRequired| == 0 ==>
      (ExtensionPermitted(fileExtRequired, fileFullName) <==> Extension(fileFullName) in DEFAULT_EXTENSIONS)
  {
    Extension(fileFullName) in AllowedExtensions(fileExtRequired)
  }

  /** The rejection message: fixed text around the extension, quoted verbatim. */
  function ProhibitedMessage(ext: string): (message: string)
    ensures |message| == 16 + |ext| + 13
    ensures message[..16] == "File extension '"
    ensures message[16..16 + |ext|] == ext
    ensures message[16 + |ext|..] == "' prohibited."
  {
    "File extension '" + ext + "' prohibited."
  }

  /** `fileContentType || 'image/jpeg'`. */
  function ContentTypeOr(fileContentType: string): (contentType: string)
    ensures contentType != ""
    ensures fileContentType != "" ==> contentType == fileContentType
    ensures fileContentType == "" ==> contentType == DEFAULT_CONTENT_TYPE
  {
    if fileContentType != "" then fileContentType else DEFAULT_CONTENT_TYPE
  }

  /** The encoder `fileRead` asks for: PNG and GIF by name, JPEG otherwise. */
  function MimeFor(kind: string): (mime: string)
    ensures mime == MIME_PNG <==> kind == "png"
    ensures mime == MIME_GIF <==> kind == "gif"
    ensures mime == MIME_JPEG <==> kind != "png" && kind != "gif"
  {
    if kind == "jpg" then MIME_JPEG
    else if kind == "png" then MIME_PNG
    else if kind == "gif" then MIME_GIF
    else MIME_JPEG
  }

  /** `fileList(directoryPath)`: list the keys under a prefix. Missing
      `Contents` in a successful answer makes `map` throw inside the `try`. */
  method FileList(cfg: Config, directoryPath: string, listObjects: ListParams -> Outcome<ListOutput>)
    returns (res: Result<seq<string>>, calls: seq<Call>)
    ensures !ConfigPresent(cfg) ==> res == Failure(CONFIG_ERROR_MESSAGE) && calls == []
    ensures ConfigPresent(cfg) ==>
      var params := ListParams(cfg.bucket, directoryPath);
      && calls == [ListObjects(params)]
      && match listObjects(params)
         case Err(m) => res == Failure(LIST_ERROR_PREFIX + m)
         case Ok(ListOutput(None)) => res == Failure(LIST_ERROR_PREFIX + MISSING_CONTENTS_MESSAGE)
         case Ok(ListOutput(Some(entries))) =>
           && res.Success?
           && |res.payload| == |entries|
           && forall i :: 0 <= i < |entries| ==> res.payload[i] == entries[i].key
  {
    calls := [];
    if !ConfigPresent(cfg) {
      res := Failure(CONFIG_ERROR_MESSAGE);
      return;
    }
    var params := ListParams(cfg.bucket, directoryPath);
    calls := calls + [ListObjects(params)];
    var answer := listObjects(params);
    match answer {
      case Err(m) =>
        res := Failure(LIST_ERROR_PREFIX + m);
      case Ok(data) =>
        match data.contents {
          case None =>
            res := Failure(LIST_ERROR_PREFIX + MISSING_CONTENTS_MESSAGE);
          case Some(entries) =>
            var files := seq(|entries|, i requires 0 <= i < |entries| => entries[i].key);
            res := Success(files);
        }
    }
  }

  /** `fileList` as evidently intended: an answer without `Contents` is the
      empty listing, so a successful answer is never reported as an error. */
  method FileListIntended(cfg: Config, directoryPath: string, listObjects: ListParams -> Outcome<ListOutput>)
    returns (res: Result<seq<string>>, calls: seq<Call>)
    ensures !ConfigPresent(cfg) ==> res == Failure(CONFIG_ERROR_MESSAGE) && calls == []
    ensures ConfigPresent(cfg) ==>
      var params := ListParams(cfg.bucket, directoryPath);
      && calls == [ListObjects(params)]
      && (res.Success? <==> listObjects(params).Ok?)
      && match listObjects(params)
         case Err(m) => res == Failure(LIST_ERROR_PREFIX + m)
         case Ok(ListOutput(None)) => res == Success([])
         case Ok(ListOutput(Some(entries))) =>
           && res.Success?
           && |res.payload| == |entries|
           && forall i :: 0 <= i < |entries| ==> res.payload[i] == entries[i].key
  {
    calls := [];
    if !ConfigPresent(cfg) {
      res := Failure(CONFIG_ERROR_MESSAGE);
      return;
    }
    var params := ListParams(cfg.bucket, directoryPath);
    calls := calls + [ListObjects(params)];
    var answer := listObjects(params);
    match answer {
      case Err(m) =>
        res := Failure(LIST_ERROR_PREFIX + m);
      case Ok(data) =>
        match data.contents {
          case None =>
            res := Success([]);
          case Some(entries) =>
            var files := seq(|entries|, i requires 0 <= i < |entries| => entries[i].key);
            res := Success(files);
        }
    }
  }

  /** `fileUpload`: config gate, extension check, re-encoding with fallback to
      the original content, then one public-read put under the file's name. */
  method FileUpload(
    cfg: Config, fileFullName: string, fileContent: Payload, fileExtRequired: seq<string>, fileContentType: string,
    imageTool: ImageJob -> Outcome<seq<byte>>, putObject: PutParams -> Outcome<()>)
    returns (res: Result<string>, calls: seq<Call>)
    ensures !ConfigPresent(cfg) ==> res == Failure(CONFIG_ERROR_MESSAGE) && calls == []
    ensures ConfigPresent(cfg) && !ExtensionPermitted(fileExtRequired, fileFullName) ==>
      res == Failure(ProhibitedMessage(Extension(fileFullName))) && calls == []
    ensures calls == [] <==> !ConfigPresent(cfg) || !ExtensionPermitted(fileExtRequired, fileFullName)
    ensures ConfigPresent(cfg) && ExtensionPermitted(fileExtRequired, fileFullName) ==>
      var job := ImageJob(Base64Content(fileContent), None, UPLOAD_QUALITY, MIME_JPEG);
      var body := if imageTool(job).Ok? then BufferData(imageTool(job).value) else fileContent;
      var params := PutParams(cfg.bucket, body, fileFullName, PUBLIC_READ, ContentTypeOr(fileContentType));
      && calls == [ProcessImage(job), PutObject(params)]
      && res == if putObject(params).Ok? then Success(cfg.url + fileFullName)
                else Failure(UPLOAD_ERROR_PREFIX + putObject(params).message)
  {
    calls := [];
    if !ConfigPresent(cfg) {
      res := Failure(CONFIG_ERROR_MESSAGE);
      return;
    }
    var fileExt := Extension(fileFullName);
    var fileExtArr := AllowedExtensions(fileExtRequired);
    var permitted := fileExt in fileExtArr;
    if !permitted {
      res := Failure(ProhibitedMessage(fileExt));
      return;
    }
    var content := fileContent;
    var job := ImageJob(Base64Content(content), None, UPLOAD_QUALITY, MIME_JPEG);
    calls := calls + [ProcessImage(job)];
    var encoded := imageTool(job);
    if encoded.Ok? {
      content := BufferData(encoded.value);
    }
    var params := PutParams(cfg.bucket, content, fileFullName, PUBLIC_READ, ContentTypeOr(fileContentType));
    calls := calls + [PutObject(params)];
    var answer := putObject(params);
    match answer {
      case Ok(_) =>
        res := Success(cfg.url + fileFullName);
      case Err(m) =>
        res := Failure(UPLOAD_ERROR_PREFIX + m);
    }
  }

  /** `fileDel`: config gate, then one delete of the named object. */
  method FileDel(cfg: Config, fileFullName: string, deleteObject: DeleteParams -> Outcome<()>)
    returns (res: Result<()>, calls: seq<Call>)
    ensures !ConfigPresent(cfg) ==> res == Failure(CONFIG_ERROR_MESSAGE) && calls == []
    ensures ConfigPresent(cfg) ==>
      var params := DeleteParams(cfg.bucket, fileFullName);
      && calls == [DeleteObject(params)]
      && res == match deleteObject(params)
                case Ok(_) => Success(())
                case Err(m) => Failure(DELETE_ERROR_PREFIX + m)
  {
    calls := [];
    if !ConfigPresent(cfg) {
      res := Failure(CONFIG_ERROR_MESSAGE);
      return;
    }
    var params := DeleteParams(cfg.bucket, fileFullName);
    calls := calls + [DeleteObject(params)];
    var answer := deleteObject(params);
    match answer {
      case Ok(_) =>
        res := Success(());
      case Err(m) =>
        res := Failure(DELETE_ERROR_PREFIX + m);
    }
  }

  /** `fileRead`: the empty string for a missing or empty file, the file's own
      buffer at full quality, otherwise the re-encoded image, or the empty
      string when the image library fails. */
  method FileRead(
    file: Option<UploadedFile>, kind: string, compression: int, width: int, height: int,
    imageTool: ImageJob -> Outcome<seq<byte>>)
    returns (fileData: Payload, calls: seq<Call>)
    ensures file.None? || file.value.size <= 0 ==> fileData == StringData("") && calls == []
    ensures file.Some? && file.value.size > 0 && compression >= FULL_QUALITY ==>
      fileData == file.value.buffer && calls == []
    ensures file.Some? && file.value.size > 0 && compression < FULL_QUALITY ==>
      var job := ImageJob(FilePath(file.value.path), Some(Fit(width, height)), compression, MimeFor(kind));
      && calls == [ProcessImage(job)]
      && fileData == if imageTool(job).Ok? then BufferData(imageTool(job).value) else StringData("")
  {
    fileData := StringData("");
    calls := [];
    if file.Some? {
      var f := file.value;
      if f.size > 0 {
        if compression < FULL_QUALITY {
          var job := ImageJob(FilePath(f.path), Some(Fit(width, height)), compression, MimeFor(kind));
          calls := calls + [ProcessImage(job)];
          var encoded := imageTool(job);
          if encoded.Ok? {
            fileData := BufferData(encoded.value);
          }
        } else {
          fileData := f.buffer;
        }
      }
    }
  }
}
