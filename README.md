# cdn-backup storage gateway, modelled in Dafny

`libs.js` of cdn-backup is a thin gateway over an S3-compatible CDN bucket and
the Jimp image library. It exports four operations:

- `fileList(directoryPath)` lists the object keys under a prefix.
- `fileUpload(fileFullName, fileContent, fileExtRequired, fileContentType)`
  checks the file's extension against an allow-list, re-encodes the content as
  JPEG at quality 50 (keeping the original content when that fails), and puts
  it as a public-read object. It returns the public URL.
- `fileDel(fileFullName)` deletes one object.
- `fileRead(file, type, compression, width, height)` returns a file's buffer,
  or a scaled and re-encoded version of it.

The first three first check that the endpoint, access key and secret key are
set. Each turns a thrown error into `{ error: true, message }` with a fixed
prefix.

This project models the decisions of that layer:

- `Text` (text.dfy) models JavaScript's `split` on one character, its inverse
  `join`, and `pop` read as "last element". It proves that splitting and joining
  are inverse, and that the last piece is exactly the text after the final
  separator.
- `Libs` (libs.dfy) holds the data model, the constants of the source (messages,
  ACL, default allow-list, MIME types, qualities), the pure decisions, and the
  four operations as methods.
- `LibsProperties` (properties.dfy) proves the properties that hold across
  inputs: the allow-list admits exactly the names whose text after the last dot
  it lists, worked examples, the failure messages can be told apart, and the
  empty-listing discrepancy.

The object store and the image library are function-typed parameters. Each
answers a request with `Ok(value)` or `Err(message)`. The environment is an
explicit `Config` record, in which an unset variable is the empty string. Each
operation returns its result and also the sequence of external calls it issued,
in order. So "no put and no re-encoding happen when validation fails" is stated
as `calls == []`.

## Model

| member | source | states |
|---|---|---|
| `Text.Split` | libs.js:62 | `split`: at least one piece, and no piece contains the separator |
| `Text.JoinSplit` | libs.js:62 | joining the pieces of a split with the separator gives back the original string |
| `Text.SplitJoin` | libs.js:62 | splitting a join of separator-free pieces gives back exactly those pieces |
| `Text.LastSegmentCharacterised` | libs.js:62 | `pop()` of a `split` is e exactly when e starts right after the last separator (or at 0 when there is none) and runs to the end; both directions |
| `Text.SplitWithoutSeparator` | libs.js:62 | a string without the separator splits into itself alone |
| `Libs.ConfigPresent` | libs.js:12 | the gate of list, upload and delete fails exactly when one of endpoint, access key and secret key is empty (the same test at libs.js:49 and libs.js:117); bucket and URL are not checked |
| `Libs.ExtensionPermitted` | libs.js:71 | `includes`: the name is admitted exactly when some entry of the allow-list in force equals its extension, exactly and case-sensitively; with no caller list, exactly when the extension is one of the ten defaults |
| `Libs.ProhibitedMessage` | libs.js:76 | the rejection message is `File extension '` + the extension, verbatim + `' prohibited.` |
| `LibsProperties.ConfigGateIgnoresBucketAndUrl` | libs.js:12-15 | changing the bucket or the URL never turns the config error on or off; a config with empty bucket and URL passes the gate |
| `Libs.Extension` | libs.js:62 | the extension is a dot-free suffix of the file name |
| `Libs.AllowedExtensions` | libs.js:65-67 | the allow-list is never empty; it is the caller's list when that is non-empty, and the ten default extensions otherwise |
| `Libs.ContentTypeOr` | libs.js:94 | the uploaded content type is never empty; it is the caller's type when given, and `image/jpeg` otherwise |
| `Libs.MimeFor` | libs.js:161 | the encoder is PNG exactly for `png`, GIF exactly for `gif`, and JPEG exactly for every other type (`jpg` included) |
| `Libs.FileList` | libs.js:6-39 | missing endpoint/access key/secret key gives the config error with no store call; otherwise one list call on (bucket, prefix); a store error gives `'List files error: ' + message`; an answer without `Contents` gives that prefix plus the TypeError message; otherwise the keys of the entries, in order |
| `Libs.FileListIntended` | libs.js:30-38 | corrected listing: the same gate and call; a listing fails exactly when the store call fails, and an answer without `Contents` is the empty list |
| `Libs.FileUpload` | libs.js:42-108 | config error with no calls when the config is missing; otherwise `"File extension '<ext>' prohibited."` with no calls when the extension is not in the allow-list; no call is issued exactly in those two cases; otherwise one re-encode (base64 source, quality 50, JPEG) and then one put (bucket, re-encoded body or the original content when re-encoding failed, key = file name, `public-read`, defaulted content type); the result is `CDN_URL + fileFullName` on a successful put and `'Upload error : ' + message` otherwise |
| `Libs.FileDel` | libs.js:111-144 | config error with no store call when the config is missing; otherwise one delete of (bucket, file name), giving success or `'Delete error : ' + message`, as the store answered |
| `Libs.FileRead` | libs.js:147-174 | `''` and no image call for a missing file or a size ≤ 0; the file's own buffer unchanged for compression ≥ 100; otherwise one image job (the file's path, scale to fit width×height, quality = compression, MIME from the type) whose output is returned, or `''` when it fails |
| `LibsProperties.ExtensionIsTextAfterLastDot` | libs.js:62 | e is the extension exactly when e is the text after the last dot of the name, or the whole name when it has no dot |
| `LibsProperties.ExtensionOfDottedName` | libs.js:62 | for any stem, the extension of stem + "." + e is e when e has no dot |
| `LibsProperties.ExtensionWithoutDot` | libs.js:62 | a name without a dot is its own extension |
| `LibsProperties.PermittedIffAllowedTail` | libs.js:62-71 | a name is admitted exactly when the text after its last dot (or the whole name) is an entry of the allow-list in force |
| `LibsProperties.DefaultExtensionAdmitted` | libs.js:65-71 | the default list has ten entries, and with no caller list every `stem.<default entry>` is admitted |
| `LibsProperties.CallerListReplacesDefault` | libs.js:65-71 | a non-empty caller list replaces the default: with `["png"]` a `.jpg` name is refused and a `.png` name admitted |
| `LibsProperties.UpperCaseExtensionRefused` | libs.js:71-76 | membership is case-sensitive: for any stem, `<stem>.JPG` has extension `JPG`, is refused by the default list, and the message quotes `JPG` |
| `LibsProperties.LastDotOnly` | libs.js:62-71 | for any stem, `<stem>.tar.gz` has extension `gz`: refused by default, admitted by `["gz"]` |
| `LibsProperties.TrailingDotRefused` | libs.js:62-76 | for any stem, a name ending in a dot has the empty extension, which the default list refuses |
| `LibsProperties.FailureMessagesDistinct` | libs.js:14-142 | the config, prohibited-extension and store-error messages never coincide, so a caller can tell the error kinds apart |
| `LibsProperties.ProhibitedMessageQuotesExtension` | libs.js:76 | two rejection messages are equal exactly when their extensions are |
| `LibsProperties.EmptyListing` | libs.js:31-37 | with a listing that has no `Contents`, the as-written operation reports a failure and the corrected one reports the empty list |

## Left out

- The S3 client, its construction and its `send` calls (libs.js:17-23, 31, 54-60, 99, 122-128, 137) are network calls into a foreign SDK. They are the parameters `listObjects`, `putObject` and `deleteObject`. What the store does with a request (for example, deleting a key that does not exist) is whatever those parameters answer.
- The region literals (`sa-east-1` for list and delete, `nyc3` for upload) only configure the SDK. They are not modelled.
- Jimp's decoding, `quality`, `scaleToFit` and `getBuffer` are lossy image processing in a foreign library. They are the parameter `imageTool`, applied to an `ImageJob` naming the source, the fit, the quality and the MIME type. `Buffer.from(fileContent, 'base64')` is part of that job's source. The code uses the Jimp 0.x interface (`Jimp.read`, `image.quality(n)`, `Jimp.MIME_JPEG`). In Jimp 0.x, `getBuffer(mime)` called without a callback throws "cb must be a function", and only `getBufferAsync` returns a promise. With such a Jimp, every re-encode at libs.js:83 and libs.js:160 fails. Uploads would then always store the original content, and `fileRead` would always return `''` when compression < 100. The Jimp version is not fixed by libs.js, so the model takes no side: `imageTool` may answer `Ok` or `Err`, and the contracts of `Libs.FileUpload` and `Libs.FileRead` cover an `imageTool` that always answers `Err`.
- Reading `dotenv` and `process.env` is replaced by the `Config` record. `process.env.X || ''` makes an unset variable and an empty one the same, and the record's empty string stands for both. `CDN_ENDPOINT` is required by the gate (libs.js:12, 49, 117) but never given to `S3Client` (libs.js:17-23, 54-60, 122-128), so the model checks the endpoint and no request parameter carries it.
- An omitted `fileContentType` is the empty string in the model: `undefined || 'image/jpeg'` at libs.js:94 gives the same value as `'' || 'image/jpeg'`, so `Libs.ContentTypeOr` covers the default-argument case.
- `console` logging and the `debug` flag are side effects only.
- `async`/`await` is not modelled. The calls are independent, and the gateway holds no shared state.
- index.js is a demo script that calls `fileList("/")`. It is not part of this model.
- JavaScript values outside the modelled types are not modelled:
  - `undefined` and `NaN` for `size` or `compression`, which make every comparison false.
  - Fractional sizes and compressions. The model's numbers are `int`. In the source, a fractional number compares like any other: `size = 0.5` passes `size > 0` (libs.js:153), and `compression = 99.5` passes `compression < 100` (libs.js:154) and reaches `quality(99.5)`.
  - A `fileExtRequired` that is not an array of strings. Only `undefined` and `null` throw at libs.js:65, outside any `try`; an omitted argument is `undefined`, so it throws too. Other values with no `length`, such as a number or a plain object, read `length` as `undefined` and fall back to the default list. A non-empty string has a `length`, and then `includes` at libs.js:71 is a substring test: `"png"` admits the extensions `p`, `ng` and the empty extension.
  - A non-string file name.
- `Libs.FileRead`: the file's `buffer` is whatever the caller's file record holds. The model does not check that it is a byte buffer.

Behaviour of libs.js that is easy to misread, and that the model keeps:

- `fileRead` returns `''` when the file is missing and whenever `size > 0` is false, which includes negative sizes (libs.js:150-153).
- `fileRead` gives the image library the file's `path`, not its `buffer`; the `buffer` is only returned at compression 100 or more (libs.js:156, 168).
- `fileList` reports a failure whenever the store's answer has no `Contents`, because `map` throws inside the `try` (libs.js:33-37; see Findings).

## Findings

| source | as written | input that shows it | evidently intended | confidence | as-written member | corrected member |
|---|---|---|---|---|---|---|
| libs.js:31-37 | `data.Contents.map(...)` runs on the store's answer. An S3 ListObjects answer has no `Contents` when no key matches the prefix, so `map` throws a TypeError. The `catch` turns that into `'List files error: ' + "Cannot read properties of undefined (reading 'map')"` (the wording of Node.js 16.9 and later; older Node.js releases say "Cannot read property 'map' of undefined"). | A configured bucket, and a prefix that matches no key (for example `"/"`, which index.js lists). | An empty listing is `{ success: true, files: [] }`. | not executed; likely | `Libs.FileList` (exhibited by `LibsProperties.EmptyListing`) | `Libs.FileListIntended` |
