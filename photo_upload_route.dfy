/**
  The contact photo upload (app/api/contacts/upload-photo/route.ts): the guard chain, the image
  type and size limits, and the public path of the stored photo.
*/
module PhotoUploadRoute {
  import opened Wrappers
  import opened Strings
  import opened Auth
  import opened Uploads

  /** 5 MiB. */
  const MaxPhotoSize: nat := 5 * 1024 * 1024

  /** The image types a photo may have. */
  const PhotoTypes: seq<string> := ["image/jpeg", "image/png", "image/webp"]

  /** The extension used when the file name yields none. */
  const DefaultExtension := "jpg"

  /** The rejection, in the order the checks run; `None` when the photo is accepted. */
  function PhotoRejection(session: Session, file: Option<UploadFile>): (r: Option<UploadError>)
    ensures r == Some(Unauthorized) <==> !SignedIn(session)
    ensures r == Some(Forbidden) <==> SignedIn(session) && session.value.role != Contributor
    ensures r == Some(MissingFields) <==>
      SignedIn(session) && session.value.role == Contributor && file.None?
    ensures r == Some(InvalidType) <==> (SignedIn(session) && session.value.role == Contributor
      && file.Some? && file.value.mimeType !in PhotoTypes)
    ensures r == Some(TooLarge) <==> (SignedIn(session) && session.value.role == Contributor
      && file.Some? && file.value.mimeType in PhotoTypes && file.value.size > MaxPhotoSize)
    ensures r.None? <==> (SignedIn(session) && session.value.role == Contributor
      && file.Some? && file.value.mimeType in PhotoTypes && file.value.size <= MaxPhotoSize)
  {
    if !SignedIn(session) then Some(Unauthorized)
    else if session.value.role != Contributor then Some(Forbidden)
    else if file.None? then Some(MissingFields)
    else if file.value.mimeType !in PhotoTypes then Some(InvalidType)
    else if file.value.size > MaxPhotoSize then Some(TooLarge)
    else None
  }

  /** Exactly JPEG, PNG and WebP pass the type check, and 5 MiB is the largest size that
      passes the size check. */
  lemma PhotoLimits(session: Session, file: UploadFile)
    requires SignedIn(session) && session.value.role == Contributor
    ensures PhotoRejection(session, Some(file)) != Some(InvalidType) <==>
      file.mimeType == "image/jpeg" || file.mimeType == "image/png" || file.mimeType == "image/webp"
    ensures file.mimeType == "image/png" ==>
      (PhotoRejection(session, Some(file)).None? <==> file.size <= 5242880)
  {
  }

  /** The reply of a successful upload: the public path and the stored name. */
  datatype PhotoReply = Rejected(error: UploadError) | Stored(filePath: string, filename: string)

  /** POST: the checks, then the stored name `hash.extension` under /uploads/contacts/.
      `hash` stands for the MD5 digest of the content. */
  function UploadPhoto(session: Session, file: Option<UploadFile>, hash: string): (r: PhotoReply)
    ensures r.Rejected? <==> PhotoRejection(session, file).Some?
    ensures r.Rejected? ==> r.error == PhotoRejection(session, file).value
    ensures r.Stored? ==>
      && r.filename == StoredName(hash, file.value.name, DefaultExtension)
      && r.filePath == "/uploads/contacts/" + r.filename
  {
    match PhotoRejection(session, file)
    case Some(e) => Rejected(e)
    case None =>
      var filename := StoredName(hash, file.value.name, DefaultExtension);
      Stored("/uploads/contacts/" + filename, filename)
  }

  /** The stored photo keeps the extension of the uploaded name: the text after its last '.',
      the whole name when it has no '.', or 'jpg' when that text is empty. Its path lies in the
      contacts upload folder. */
  lemma StoredPhotoPath(session: Session, file: UploadFile, hash: string)
    requires PhotoRejection(session, Some(file)).None?
    ensures var r := UploadPhoto(session, Some(file), hash);
      && r.Stored?
      && StartsWith(r.filePath, "/uploads/contacts/")
      && LastSegment(r.filePath, '.') == ExtensionOr(file.name, DefaultExtension)
      && ExtensionOr(file.name, DefaultExtension) != []
  {
    var ext := ExtensionOr(file.name, DefaultExtension);
    ExtensionSpec(file.name, DefaultExtension);
    assert "/uploads/contacts/" + StoredName(hash, file.name, DefaultExtension)
      == ("/uploads/contacts/" + hash) + "." + ext;
    LastSegmentOfJoin("/uploads/contacts/" + hash, '.', ext);
  }
}
