/**
  The resource file upload (app/api/resources/upload/route.ts): the guard chain and file
  validation, the stored path, the parsing of the `tags` field with its comma-separated
  fallback, and the metadata returned for storage.
*/
module ResourceUpload {
  import opened Wrappers
  import opened Strings
  import opened Auth
  import opened Uploads
  import Seqs
  import RR = ResourcesRoute

  /** 50 MiB. */
  const MaxFileSize: nat := 50 * 1024 * 1024

  /** The MIME types a resource file may have. */
  const AllowedTypes: seq<string> := [
    "image/jpeg", "image/png", "image/webp", "image/gif",
    "application/pdf",
    "application/msword",
    "application/vnd.openxmlformats-officedocument.wordprocessingml.document",
    "application/vnd.ms-excel",
    "application/vnd.openxmlformats-officedocument.spreadsheetml.sheet",
    "application/vnd.ms-powerpoint",
    "application/vnd.openxmlformats-officedocument.presentationml.presentation",
    "text/plain",
    "application/zip",
    "video/mp4", "video/webm",
    "audio/mpeg", "audio/wav"
  ]

  /** The extension used when the file name yields none. */
  const DefaultExtension := "bin"

  /** The multipart form; an absent field is `None`. */
  datatype UploadForm = UploadForm(
    file: Option<UploadFile>, title: Option<string>, description: Option<string>,
    resourceType: Option<string>, product: Option<string>, version: Option<string>,
    tags: Option<string>)

  /** The rejection, in the order the checks run; `None` when the upload is accepted. */
  function UploadRejection(session: Session, form: UploadForm): (r: Option<UploadError>)
    ensures r == Some(Unauthorized) <==> !SignedIn(session)
    ensures r == Some(Forbidden) <==> SignedIn(session) && session.value.role != Contributor
    ensures r == Some(MissingFields) <==> (SignedIn(session) && session.value.role == Contributor
      && !(form.file.Some? && Truthy(form.title) && Truthy(form.resourceType)))
    ensures r == Some(InvalidType) <==> (SignedIn(session) && session.value.role == Contributor
      && form.file.Some? && Truthy(form.title) && Truthy(form.resourceType)
      && form.file.value.mimeType !in AllowedTypes)
    ensures r == Some(TooLarge) <==> (SignedIn(session) && session.value.role == Contributor
      && form.file.Some? && Truthy(form.title) && Truthy(form.resourceType)
      && form.file.value.mimeType in AllowedTypes && form.file.value.size > MaxFileSize)
    ensures r.None? <==> (SignedIn(session) && session.value.role == Contributor
      && form.file.Some? && Truthy(form.title) && Truthy(form.resourceType)
      && form.file.value.mimeType in AllowedTypes && form.file.value.size <= MaxFileSize)
  {
    if !SignedIn(session) then Some(Unauthorized)
    else if session.value.role != Contributor then Some(Forbidden)
    else if !(form.file.Some? && Truthy(form.title) && Truthy(form.resourceType)) then Some(MissingFields)
    else if form.file.value.mimeType !in AllowedTypes then Some(InvalidType)
    else if form.file.value.size > MaxFileSize then Some(TooLarge)
    else None
  }

  /** The type is checked before the size: a disallowed type is rejected as such whatever the
      size of the file. */
  lemma TypeBeforeSize(session: Session, form: UploadForm)
    requires SignedIn(session) && session.value.role == Contributor
    requires form.file.Some? && Truthy(form.title) && Truthy(form.resourceType)
    requires form.file.value.mimeType !in AllowedTypes
    ensures UploadRejection(session, form) == Some(InvalidType)
  {
  }

  /** A file of exactly 50 MiB of an allowed type passes; one byte more does not. */
  lemma SizeBoundary(session: Session, form: UploadForm)
    requires SignedIn(session) && session.value.role == Contributor
    requires form.file.Some? && Truthy(form.title) && Truthy(form.resourceType)
    requires form.file.value.mimeType == "application/pdf"
    ensures form.file.value.size == 52428800 ==> UploadRejection(session, form).None?
    ensures form.file.value.size == 52428801 ==> UploadRejection(session, form) == Some(TooLarge)
  {
    assert AllowedTypes[4] == "application/pdf";
  }

  /** The public path of the stored file. */
  function FilePath(hash: string, name: string): string {
    "/uploads/resources/" + StoredName(hash, name, DefaultExtension)
  }

  /** The path lies in the resources upload folder and ends in the stored name, whose
      extension is never empty. */
  lemma FilePathSpec(hash: string, name: string)
    ensures var path := FilePath(hash, name);
      var stored := StoredName(hash, name, DefaultExtension);
      && StartsWith(path, "/uploads/resources/")
      && path[|"/uploads/resources/"|..] == stored
      && LastSegment(stored, '.') == ExtensionOr(name, DefaultExtension)
      && ExtensionOr(name, DefaultExtension) != []
  {
    StoredNameKeepsExtension(hash, name, DefaultExtension);
    ExtensionSpec(name, DefaultExtension);
  }

  // ---------------------------------------------------------------------------------------
  // Tags

  /** `tags.split(',').map(tag => tag.trim())`. */
  function TrimmedPieces(tags: string): seq<string> {
    var parts := Split(tags, ',');
    seq(|parts|, i requires 0 <= i < |parts| => Trim(parts[i]))
  }

  /** `.filter(Boolean)` on strings: the non-empty ones. */
  function NonEmpty(): string -> bool {
    (t: string) => t != []
  }

  /** The comma-separated fallback for tags that are not JSON. */
  function CommaTags(tags: string): seq<string> {
    Seqs.Filter(TrimmedPieces(tags), NonEmpty())
  }

  /** Every fallback tag is non-empty, contains no comma, and starts and ends with a non-space
      character; and every non-blank comma-separated piece contributes its trimmed text. */
  lemma CommaTagsSpec(tags: string)
    ensures forall t | t in CommaTags(tags) ::
      && t != [] && ',' !in t && !IsSpace(t[0]) && !IsSpace(t[|t| - 1])
    ensures forall i | 0 <= i < |Split(tags, ',')| && !AllSpace(Split(tags, ',')[i]) ::
      Trim(Split(tags, ',')[i]) in CommaTags(tags)
  {
    var parts := Split(tags, ',');
    var trimmed := TrimmedPieces(tags);
    SplitPiecesFree(tags, ',');
    forall t | t in CommaTags(tags)
      ensures t != [] && ',' !in t && !IsSpace(t[0]) && !IsSpace(t[|t| - 1])
    {
      var i :| 0 <= i < |trimmed| && trimmed[i] == t;
      TrimSpec(parts[i]);
      assert parts[i] in parts;
    }
    forall i | 0 <= i < |parts| && !AllSpace(parts[i])
      ensures Trim(parts[i]) in CommaTags(tags)
    {
      TrimEmptyIff(parts[i]);
      assert trimmed[i] == Trim(parts[i]);
    }
  }

  /** The value of `parsedTags` after the parsing block: null without tags, the parsed JSON
      value when `JSON.parse` succeeds (`parsed`), else the comma fallback. */
  method ParseTags(tags: Option<string>, parsed: Option<RR.TagsValue>) returns (parsedTags: RR.TagsValue)
    ensures !Truthy(tags) ==> parsedTags == RR.Null
    ensures Truthy(tags) && parsed.Some? ==> parsedTags == parsed.value
    ensures Truthy(tags) && parsed.None? ==> parsedTags == RR.Array(CommaTags(tags.value))
  {
    parsedTags := RR.Null;
    if Truthy(tags) {
      if parsed.Some? {
        parsedTags := parsed.value;
      } else {
        parsedTags := RR.Array(CommaTags(tags.value));
      }
    }
  }

  // ---------------------------------------------------------------------------------------
  // The reply

  /** The metadata returned for the database. */
  datatype ResourceData = ResourceData(
    title: string, description: Option<string>, resourceType: string, product: Option<string>,
    filePath: string, fileName: string, fileSize: nat, mimeType: string,
    version: Option<string>, tags: RR.TagsValue, userId: string)

  datatype UploadReply = Rejected(error: UploadError) | Uploaded(data: ResourceData, filename: string)

  /** POST: the checks, then the metadata. `hash` stands for the MD5 digest of the content and
      `parsed` for the outcome of `JSON.parse(tags)` (`None` when it throws). */
  method Upload(session: Session, form: UploadForm, hash: string, parsed: Option<RR.TagsValue>)
    returns (reply: UploadReply)
    ensures reply.Rejected? <==> UploadRejection(session, form).Some?
    ensures reply.Rejected? ==> reply.error == UploadRejection(session, form).value
    ensures reply.Uploaded? ==>
      var file, data := form.file.value, reply.data;
      && reply.filename == StoredName(hash, file.name, DefaultExtension)
      && data.filePath == FilePath(hash, file.name)
      && data.title == form.title.value && data.resourceType == form.resourceType.value
      && data.description == OrNull(form.description) && data.product == OrNull(form.product)
      && data.version == OrNull(form.version)
      && data.fileName == file.name && data.fileSize == file.size && data.mimeType == file.mimeType
      && data.fileSize <= MaxFileSize && data.mimeType in AllowedTypes
      && data.userId == session.value.id
      && (!Truthy(form.tags) ==> data.tags == RR.Null)
      && (Truthy(form.tags) && parsed.Some? ==> data.tags == parsed.value)
      && (Truthy(form.tags) && parsed.None? ==> data.tags == RR.Array(CommaTags(form.tags.value)))
  {
    var rejection := UploadRejection(session, form);
    if rejection.Some? {
      return Rejected(rejection.value);
    }
    var file := form.file.value;
    var filename := StoredName(hash, file.name, DefaultExtension);
    var parsedTags := ParseTags(form.tags, parsed);
    var data := ResourceData(
      form.title.value, OrNull(form.description), form.resourceType.value, OrNull(form.product),
      "/uploads/resources/" + filename, file.name, file.size, file.mimeType,
      OrNull(form.version), parsedTags, session.value.id);
    reply := Uploaded(data, filename);
  }
}
