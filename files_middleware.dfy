/** The upload filters of src/Middilewares/files.middleware.ts: which image and
    model files multer accepts, and how an upload error becomes a 400 response.
    Multer's own errors (size limits, unexpected fields) are inputs. */
module FilesMiddleware {
  import opened Wrappers
  import PathNames

  /** What a `fileFilter` passes to its callback. */
  datatype FilterVerdict = Accept | Reject(message: string)

  const IMAGE_TYPES: seq<string> := ["image/jpeg", "image/png", "image/jpg"]

  /** The image filter: exactly three MIME types pass. */
  function ImageFilter(mimeType: string): (v: FilterVerdict)
    ensures v == Accept <==> mimeType in IMAGE_TYPES
    ensures v != Accept ==> v == Reject("Unsupported image file type. Supported types: jpeg, png, jpg")
  {
    if mimeType == "image/jpeg" || mimeType == "image/png" || mimeType == "image/jpg" then Accept
    else Reject("Unsupported image file type. Supported types: jpeg, png, jpg")
  }

  /** `toLowerCase()` on the ASCII letters. */
  function LowerAscii(s: string): (r: string)
    ensures |r| == |s|
    ensures forall i :: 0 <= i < |s| ==> r[i] == (if 'A' <= s[i] <= 'Z' then (s[i] as int + 32) as char else s[i])
  {
    seq(|s|, i requires 0 <= i < |s| => if 'A' <= s[i] <= 'Z' then (s[i] as int + 32) as char else s[i])
  }

  /** The model filter: the name's extension, lower-cased, is ".gltf" or ".glb". */
  function GltfFilter(originalName: string): (v: FilterVerdict)
    requires '/' !in originalName
    ensures v == Accept <==> LowerAscii(PathNames.Extname(originalName)) in [".gltf", ".glb"]
    ensures v != Accept ==> v == Reject("Unsupported file type. Supported types: gltf")
  {
    var fileExtension := LowerAscii(PathNames.Extname(originalName));
    if fileExtension == ".gltf" || fileExtension == ".glb" then Accept
    else Reject("Unsupported file type. Supported types: gltf")
  }

  /** An upper-case extension passes; a name with no extension does not. */
  lemma GltfFilterExamples()
    ensures GltfFilter("m.GLB") == Accept
    ensures GltfFilter("gltf") != Accept
  {
    PathNames.UpperCaseExample();
    assert LowerAscii(".GLB") == ".glb";
    assert PathNames.LastDot("gltf") == None;
  }

  /** An error reaching the upload callback: multer's own, or the one a filter
      raised. Both carry a message. */
  datatype UploadError = MulterError(message: string) | FilterError(message: string)

  /** What the middleware does: answer 400 with the message, or call `next`. */
  datatype Outcome = BadRequest(message: string) | Next

  /** The callback of `validateImage` and `validateGltf`. */
  function UploadOutcome(err: Option<UploadError>): (o: Outcome)
    ensures o == Next <==> err.None?
    ensures err.Some? ==> o == BadRequest(err.value.message)
  {
    match err
    case Some(MulterError(m)) => BadRequest(m)
    case Some(FilterError(m)) => BadRequest(m)
    case None => Next
  }

  /** The error a filter verdict contributes. */
  function VerdictError(v: FilterVerdict): (err: Option<UploadError>)
    ensures err.None? <==> v == Accept
  {
    match v
    case Accept => None
    case Reject(m) => Some(FilterError(m))
  }

  /** `validateImage`: a multer failure answers first. Otherwise the image
      filter decides on the uploaded part's MIME type, when there is one. A
      request without an "image" part never reaches the filter, and goes on to
      `next` with no file. */
  function ValidateImage(mimeType: Option<string>, multerFailure: Option<string>): (o: Outcome)
    ensures o == Next <==> multerFailure.None? && (mimeType.None? || mimeType.value in IMAGE_TYPES)
    ensures multerFailure.Some? ==> o == BadRequest(multerFailure.value)
    ensures multerFailure.None? && mimeType.Some? && mimeType.value !in IMAGE_TYPES ==>
      o == BadRequest("Unsupported image file type. Supported types: jpeg, png, jpg")
  {
    match multerFailure
    case Some(m) => UploadOutcome(Some(MulterError(m)))
    case None =>
      match mimeType
      case None => UploadOutcome(None)
      case Some(t) => UploadOutcome(VerdictError(ImageFilter(t)))
  }

  /** `validateGltf`: a multer failure answers first. Otherwise the model
      filter decides on the uploaded part's original name, when there is one. A
      request without a "file" part never reaches the filter, and goes on to
      `next` with no file. */
  function ValidateGltf(originalName: Option<string>, multerFailure: Option<string>): (o: Outcome)
    requires originalName.Some? ==> '/' !in originalName.value
    ensures o == Next <==>
      multerFailure.None? && (originalName.None? || LowerAscii(PathNames.Extname(originalName.value)) in [".gltf", ".glb"])
    ensures multerFailure.Some? ==> o == BadRequest(multerFailure.value)
    ensures o != Next && multerFailure.None? ==> o == BadRequest("Unsupported file type. Supported types: gltf")
  {
    match multerFailure
    case Some(m) => UploadOutcome(Some(MulterError(m)))
    case None =>
      match originalName
      case None => UploadOutcome(None)
      case Some(n) => UploadOutcome(VerdictError(GltfFilter(n)))
  }
}
