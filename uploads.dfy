/**
  What the two upload routes (app/api/resources/upload/route.ts and
  app/api/contacts/upload-photo/route.ts) share: the uploaded file as the form gives it, the
  reasons a request is turned away, and the stored file name `hash.extension`.
*/
module Uploads {
  import opened Strings

  /** The `file` form field: its name, MIME type and size in bytes. */
  datatype UploadFile = UploadFile(name: string, mimeType: string, size: nat)

  /** Why an upload is rejected. */
  datatype UploadError = Unauthorized | Forbidden | MissingFields | InvalidType | TooLarge {

    /** The HTTP status of the rejection. */
    function Status(): (s: nat)
      ensures s == 401 <==> this == Unauthorized
      ensures s == 403 <==> this == Forbidden
      ensures s == 400 <==> this in {MissingFields, InvalidType, TooLarge}
    {
      match this
      case Unauthorized => 401
      case Forbidden => 403
      case _ => 400
    }
  }

  /** `name.split('.').pop() || fallback`. */
  function ExtensionOr(name: string, fallback: string): string {
    var last := LastSegment(name, '.');
    if last == [] then fallback else last
  }

  /** The extension is the text after the last '.', the whole name when it has no '.', and
      the fallback when that text is empty. */
  lemma ExtensionSpec(name: string, fallback: string)
    ensures var ext := ExtensionOr(name, fallback);
      && ('.' !in fallback ==> '.' !in ext)
      && ('.' !in name && name != [] ==> ext == name)
      && (name == [] || name[|name| - 1] == '.' ==> ext == fallback)
      && ('.' in name && name[|name| - 1] != '.' ==>
            && ext != [] && |ext| < |name| && name[|name| - |ext|..] == ext
            && name[|name| - |ext| - 1] == '.')
  {
    LastSegmentSpec(name, '.');
  }

  /** The stored file name `${hash}.${extension}`. */
  function StoredName(hash: string, name: string, fallback: string): string {
    hash + "." + ExtensionOr(name, fallback)
  }

  /** Taking the extension of the stored name again gives the same extension back, whatever
      the hash. */
  lemma StoredNameKeepsExtension(hash: string, name: string, fallback: string)
    requires '.' !in fallback
    ensures LastSegment(StoredName(hash, name, fallback), '.') == ExtensionOr(name, fallback)
    ensures ExtensionOr(StoredName(hash, name, fallback), fallback) == ExtensionOr(name, fallback)
  {
    ExtensionSpec(name, fallback);
    LastSegmentOfJoin(hash, '.', ExtensionOr(name, fallback));
  }
}
