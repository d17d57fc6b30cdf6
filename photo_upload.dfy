/**
  The contact photo picker (components/ui/PhotoUpload.tsx): the initials shown when there is no
  photo, the checks made in the browser before uploading, and the handlers that upload, drop
  and remove a photo.
*/
module PhotoUpload {
  import opened Wrappers
  import opened Strings
  import opened Auth
  import opened Uploads
  import Seqs
  import PR = PhotoUploadRoute

  // ---------------------------------------------------------------------------------------
  // `generateInitials`

  /** `word.charAt(0)`: the first character, or nothing for an empty word. */
  function FirstChar(word: string): (r: string)
    ensures |r| == if word == [] then 0 else 1
    ensures word != [] ==> r[0] == word[0]
  {
    if word == [] then [] else [word[0]]
  }

  /** `words.map(w => w.charAt(0))`. */
  function FirstChars(words: seq<string>): seq<string> {
    seq(|words|, i requires 0 <= i < |words| => FirstChar(words[i]))
  }

  /** `name.split(' ').map(w => w.charAt(0)).join('').toUpperCase().slice(0, 2)`. */
  function GenerateInitials(name: string): string {
    Seqs.Take(Upper(Concat(FirstChars(Split(name, ' ')))), 2)
  }

  function NonEmpty(): string -> bool {
    (w: string) => w != []
  }

  /** The first character of each of some non-empty words. */
  function Heads(words: seq<string>): (r: string)
    requires forall i | 0 <= i < |words| :: words[i] != []
    ensures |r| == |words|
  {
    seq(|words|, i requires 0 <= i < |words| => words[i][0])
  }

  /** The non-empty words: the pieces in order with the empty ones dropped. */
  function Words(parts: seq<string>): (r: seq<string>)
    ensures Seqs.IsSubseq(r, parts)
    ensures forall i | 0 <= i < |r| :: r[i] != []
    ensures forall w :: w in r <==> w in parts && w != []
  {
    Seqs.FilterIsSubseq(parts, NonEmpty());
    Seqs.Filter(parts, NonEmpty())
  }

  lemma HeadsCons(w: string, rest: seq<string>)
    requires w != [] && forall i | 0 <= i < |rest| :: rest[i] != []
    ensures Heads([w] + rest) == [w[0]] + Heads(rest)
  {
  }

  lemma WordsCons(parts: seq<string>)
    requires parts != []
    ensures Words(parts) == (if parts[0] != [] then [parts[0]] else []) + Words(parts[1..])
  {
  }

  lemma ConcatFirstCharsCons(parts: seq<string>)
    requires parts != []
    ensures Concat(FirstChars(parts)) == FirstChar(parts[0]) + Concat(FirstChars(parts[1..]))
  {
    assert FirstChars(parts)[1..] == FirstChars(parts[1..]);
  }

  /** Joining the first characters skips the empty words: the result is the first character of
      each non-empty word. */
  lemma {:induction false} JoinedFirstChars(parts: seq<string>)
    ensures Concat(FirstChars(parts)) == Heads(Words(parts))
    decreases |parts|
  {
    if parts != [] {
      JoinedFirstChars(parts[1..]);
      ConcatFirstCharsCons(parts);
      WordsCons(parts);
      if parts[0] != [] {
        HeadsCons(parts[0], Words(parts[1..]));
      } else {
        assert Words(parts) == Words(parts[1..]);
      }
    }
  }

  /** The initials are the upper-cased first characters of the first two non-empty words of the
      name, so there are two of them exactly when the name has at least two words. */
  lemma InitialsOfWords(name: string)
    ensures var words := Words(Split(name, ' '));
      GenerateInitials(name) == Seqs.Take(Upper(Heads(words)), 2)
      && |GenerateInitials(name)| == if |words| < 2 then |words| else 2
  {
    JoinedFirstChars(Split(name, ' '));
  }

  /** An empty name has no initials. */
  lemma EmptyNameInitials()
    ensures GenerateInitials("") == ""
  {
  }

  /** Two words separated by two spaces: the empty word between them adds nothing, and the
      initials are the two first letters upper-cased. */
  lemma DoubleSpaceInitials(first: string, last: string)
    requires first != [] && last != [] && ' ' !in first && ' ' !in last
    ensures GenerateInitials(first + "  " + last) == [UpperChar(first[0]), UpperChar(last[0])]
  {
    var tail := "" + [' '] + last;
    assert Split(tail, ' ') == ["", last] by {
      SplitAppendSep("", ' ', last);
      SplitNoSep(last, ' ');
      SplitNoSep("", ' ');
    }
    assert Split(first + "  " + last, ' ') == [first, "", last] by {
      assert first + "  " + last == first + [' '] + tail;
      SplitAppendSep(first, ' ', tail);
      SplitNoSep(first, ' ');
    }
    var fc := FirstChars([first, "", last]);
    assert Concat(fc) == [first[0], last[0]] by {
      assert fc == [[first[0]], "", [last[0]]];
      assert fc[1..][1..] == [[last[0]]];
      assert Concat(fc[1..][1..]) == [last[0]] + Concat([]);
      assert Concat(fc[1..]) == "" + Concat(fc[1..][1..]);
    }
  }

  // ---------------------------------------------------------------------------------------
  // The checks before uploading

  const InvalidTypeMessage := "Invalid file type. Only JPEG, PNG, and WebP are allowed."
  const TooLargeMessage := "File too large. Maximum size is 5MB."
  const UploadFailedMessage := "Upload failed"

  /** The type check, then the size check; `None` when the file may be sent. */
  function ClientCheck(file: UploadFile): (r: Option<string>)
    ensures file.mimeType !in ["image/jpeg", "image/png", "image/webp"] ==> r == Some(InvalidTypeMessage)
    ensures file.mimeType in ["image/jpeg", "image/png", "image/webp"] ==>
      (r.None? <==> file.size <= 5 * 1024 * 1024)
  {
    if file.mimeType !in ["image/jpeg", "image/png", "image/webp"] then Some(InvalidTypeMessage)
    else if file.size > 5 * 1024 * 1024 then Some(TooLargeMessage)
    else None
  }

  /** The browser lets through exactly the files the photo route accepts from a contributor. */
  lemma ClientAgreesWithRoute(session: Session, file: UploadFile)
    requires SignedIn(session) && session.value.role == Contributor
    ensures ClientCheck(file).None? <==> PR.PhotoRejection(session, Some(file)).None?
  {
  }

  // ---------------------------------------------------------------------------------------
  // The handlers

  /** What the route answers: the stored path, or a failure with an optional message. */
  datatype RouteAnswer = Stored(filePath: string) | Failed(message: Option<string>)

  /** The result of one upload attempt: the error shown, the preview, and what, if anything,
      is handed to `onPhotoChange`. */
  datatype Outcome = Outcome(error: string, preview: string, reported: Option<Option<string>>)

  /** The preview to fall back on: `currentPhoto || ''`. */
  function Fallback(currentPhoto: Option<string>): string {
    if Truthy(currentPhoto) then currentPhoto.value else ""
  }

  /** `handleFileUpload` for a contributor. `dataUrl` stands for what the file reader produces
      (taken to arrive before the route answers). A failed check or a failed upload shows
      its message and falls back to the current photo, without reporting; a stored photo is
      previewed and its path reported. */
  function UploadOutcome(currentPhoto: Option<string>, file: UploadFile, dataUrl: string, answer: RouteAnswer)
    : (o: Outcome)
    ensures o.reported.Some? <==> ClientCheck(file).None? && answer.Stored?
    ensures o.reported.Some? ==>
      o.error == "" && o.preview == dataUrl && o.reported.value == Some(answer.filePath)
    ensures o.reported.None? ==> o.error != "" && o.preview == Fallback(currentPhoto)
    ensures ClientCheck(file).Some? ==> o.error == ClientCheck(file).value
  {
    match ClientCheck(file)
    case Some(message) => Outcome(message, Fallback(currentPhoto), None)
    case None =>
      match answer
      case Stored(path) => Outcome("", dataUrl, Some(Some(path)))
      case Failed(message) =>
        Outcome(if Truthy(message) then message.value else UploadFailedMessage, Fallback(currentPhoto), None)
  }

  /** The picker's state; `reported` lists the calls of `onPhotoChange`, oldest first. */
  class Picker {
    const isContributor: bool
    const currentPhoto: Option<string>
    var preview: string
    var error: string
    var isUploading: bool
    var isDragging: bool
    var reported: seq<Option<string>>

    constructor(isContributor: bool, currentPhoto: Option<string>)
      ensures this.isContributor == isContributor && this.currentPhoto == currentPhoto
      ensures preview == Fallback(currentPhoto) && error == ""
      ensures !isUploading && !isDragging && reported == []
    {
      this.isContributor := isContributor;
      this.currentPhoto := currentPhoto;
      preview := Fallback(currentPhoto);
      error := "";
      isUploading := false;
      isDragging := false;
      reported := [];
    }

    /** `handleFileUpload`: nothing for a non-contributor; otherwise the outcome above, with
        the upload flag down afterwards. */
    method Upload(file: UploadFile, dataUrl: string, answer: RouteAnswer)
      modifies this
      ensures !isContributor ==>
        && preview == old(preview) && error == old(error) && isUploading == old(isUploading)
        && reported == old(reported)
      ensures isContributor ==>
        var o := UploadOutcome(currentPhoto, file, dataUrl, answer);
        && preview == o.preview && error == o.error && !isUploading
        && reported == old(reported) + (if o.reported.Some? then [o.reported.value] else [])
      ensures isDragging == old(isDragging)
    {
      if !isContributor {
        return;
      }
      error := "";
      isUploading := true;
      var o := UploadOutcome(currentPhoto, file, dataUrl, answer);
      preview := o.preview;
      error := o.error;
      if o.reported.Some? {
        reported := reported + [o.reported.value];
      }
      isUploading := false;
    }

    /** `handleDrop`: dragging ends; a contributor's drop uploads the first file only. */
    method Drop(files: seq<UploadFile>, dataUrl: string, answer: RouteAnswer)
      modifies this
      ensures !isDragging
      ensures !isContributor || files == [] ==>
        preview == old(preview) && error == old(error) && reported == old(reported)
      ensures isContributor && files != [] ==>
        var o := UploadOutcome(currentPhoto, files[0], dataUrl, answer);
        && preview == o.preview && error == o.error
        && reported == old(reported) + (if o.reported.Some? then [o.reported.value] else [])
    {
      isDragging := false;
      if !isContributor {
        return;
      }
      if |files| > 0 {
        Upload(files[0], dataUrl, answer);
      }
    }

    /** `handleFileSelect`: the first chosen file, if any, is uploaded; the drag state is
        untouched. */
    method FileSelect(files: seq<UploadFile>, dataUrl: string, answer: RouteAnswer)
      modifies this
      ensures isDragging == old(isDragging)
      ensures !isContributor || files == [] ==>
        preview == old(preview) && error == old(error) && reported == old(reported)
      ensures isContributor && files != [] ==>
        var o := UploadOutcome(currentPhoto, files[0], dataUrl, answer);
        && preview == o.preview && error == o.error
        && reported == old(reported) + (if o.reported.Some? then [o.reported.value] else [])
    {
      if |files| > 0 {
        Upload(files[0], dataUrl, answer);
      }
    }

    /** `handleDragOver`: only a contributor's drag is highlighted. */
    method DragOver()
      modifies this
      ensures isDragging == (old(isDragging) || isContributor)
      ensures preview == old(preview) && error == old(error) && reported == old(reported)
    {
      if isContributor {
        isDragging := true;
      }
    }

    /** `handleDragLeave`. */
    method DragLeave()
      modifies this
      ensures !isDragging
      ensures preview == old(preview) && error == old(error) && reported == old(reported)
    {
      isDragging := false;
    }

    /** `handleRemovePhoto`: for a contributor the preview empties and null is reported. */
    method Remove()
      modifies this
      ensures isContributor ==> preview == "" && reported == old(reported) + [None]
      ensures !isContributor ==> preview == old(preview) && reported == old(reported)
      ensures error == old(error) && isDragging == old(isDragging)
    {
      if isContributor {
        preview := "";
        reported := reported + [None];
      }
    }
  }

  /** A rejected file after an earlier successful upload shows the photo the contact had, not
      the one just uploaded. */
  method FailureFallsBackToCurrent() returns (shown: string, reports: seq<Option<string>>)
    ensures shown == "/uploads/contacts/old.png"
    ensures reports == [Some("/uploads/contacts/new.png")]
  {
    var picker := new Picker(true, Some("/uploads/contacts/old.png"));
    picker.Upload(UploadFile("new.png", "image/png", 1000), "data:new", Stored("/uploads/contacts/new.png"));
    picker.Upload(UploadFile("big.png", "image/png", 6 * 1024 * 1024), "data:big", Stored("/x"));
    shown := picker.preview;
    reports := picker.reported;
  }
}
