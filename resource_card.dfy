/**
  The resource card (components/features/resources/ResourceCard.tsx): the icon chosen from the
  MIME type or else the resource type, the tag chips, and the download button.
*/
module ResourceCard {
  import opened Wrappers
  import opened Strings
  import opened Auth
  import opened Numbers
  import Seqs
  import RR = ResourcesRoute

  /** The icons `getTypeIcon` can return, named by what they depict. */
  datatype Icon =
    | Picture | Film | Music | Page | Memo | Chart | Projector | Clamp
    | Books | Palette | Clipboard | Scales | Arrows | Cap | Folder

  // ---------------------------------------------------------------------------------------
  // `getTypeIcon`

  /** The outcome of each test `getTypeIcon` may apply to a MIME type. */
  datatype MimeTraits = MimeTraits(
    image: bool, video: bool, audio: bool, pdf: bool, word: bool, excel: bool, sheet: bool,
    powerpoint: bool, presentation: bool, zip: bool)

  function Traits(m: string): MimeTraits {
    MimeTraits(
      StartsWith(m, "image/"), StartsWith(m, "video/"), StartsWith(m, "audio/"),
      m == "application/pdf", Contains(m, "word"), Contains(m, "excel"), Contains(m, "sheet"),
      Contains(m, "powerpoint"), Contains(m, "presentation"), Contains(m, "zip"))
  }

  /** The test each MIME icon stands for. */
  predicate Depicts(icon: Icon, t: MimeTraits) {
    match icon
    case Picture => t.image
    case Film => t.video
    case Music => t.audio
    case Page => t.pdf
    case Memo => t.word
    case Chart => t.excel || t.sheet
    case Projector => t.powerpoint || t.presentation
    case Clamp => t.zip
    case _ => false
  }

  /** `getTypeIcon`'s MIME checks, in the order written; `None` when none applies (including
      when there is no MIME type). */
  function MimeIcon(mime: Option<string>): Option<Icon> {
    if mime.None? then None
    else
      var t := Traits(mime.value);
      if t.image then Some(Picture)
      else if t.video then Some(Film)
      else if t.audio then Some(Music)
      else if t.pdf then Some(Page)
      else if t.word then Some(Memo)
      else if t.excel || t.sheet then Some(Chart)
      else if t.powerpoint || t.presentation then Some(Projector)
      else if t.zip then Some(Clamp)
      else None
  }

  /** The `switch` on the resource type. */
  function TypeIcon(resourceType: string): Icon {
    match resourceType
    case "DOCUMENTATION" => Books
    case "ASSETS" => Palette
    case "TEMPLATES" => Clipboard
    case "LEGAL" => Scales
    case "UPDATES" => Arrows
    case "TRAINING" => Cap
    case _ => Folder
  }

  /** `getTypeIcon`. */
  function GetTypeIcon(resourceType: string, mime: Option<string>): Icon {
    MimeIcon(mime).GetOr(TypeIcon(resourceType))
  }

  /** The precedence of the MIME tests. */
  const MimeOrder: seq<Icon> := [Picture, Film, Music, Page, Memo, Chart, Projector, Clamp]

  /** The first icon of `order` whose test `m` passes. */
  function FirstDepicting(order: seq<Icon>, m: MimeTraits): (r: Option<Icon>)
    ensures r.None? <==> forall k | 0 <= k < |order| :: !Depicts(order[k], m)
    ensures r.Some? ==> exists k | 0 <= k < |order| ::
      order[k] == r.value && Depicts(r.value, m) && forall j | 0 <= j < k :: !Depicts(order[j], m)
    decreases |order|
  {
    if order == [] then None
    else if Depicts(order[0], m) then Some(order[0])
    else
      var r := FirstDepicting(order[1..], m);
      assert forall k | 0 <= k < |order[1..]| :: order[1..][k] == order[k + 1];
      r
  }

  /** The MIME checks pick the first test of the precedence order that the type passes. */
  lemma MimeIconIsFirstMatch(m: string)
    ensures MimeIcon(Some(m)) == FirstDepicting(MimeOrder, Traits(m))
  {
    var o := MimeOrder;
    assert o[1..] == [Film, Music, Page, Memo, Chart, Projector, Clamp];
    assert o[1..][1..] == [Music, Page, Memo, Chart, Projector, Clamp];
    assert o[1..][1..][1..] == [Page, Memo, Chart, Projector, Clamp];
    assert o[1..][1..][1..][1..] == [Memo, Chart, Projector, Clamp];
    assert o[1..][1..][1..][1..][1..] == [Chart, Projector, Clamp];
    assert o[1..][1..][1..][1..][1..][1..] == [Projector, Clamp];
    assert o[1..][1..][1..][1..][1..][1..][1..] == [Clamp];
  }

  /** When a MIME test applies, the resource type does not matter; otherwise the icon is the
      type's, with the folder for every type outside the six known ones. */
  lemma MimeTakesPrecedence(t1: string, t2: string, mime: Option<string>)
    ensures MimeIcon(mime).Some? ==> GetTypeIcon(t1, mime) == GetTypeIcon(t2, mime)
    ensures MimeIcon(mime).None? ==> GetTypeIcon(t1, mime) == TypeIcon(t1)
    ensures t1 !in {"DOCUMENTATION", "ASSETS", "TEMPLATES", "LEGAL", "UPDATES", "TRAINING"} ==>
      TypeIcon(t1) == Folder
  {
  }

  /** Without a MIME type an unknown resource type gets the folder. */
  lemma NoMimeUnknownType()
    ensures GetTypeIcon("OTHER", None) == Folder
  {
  }

  // ---------------------------------------------------------------------------------------
  // Tags

  /** `resourceTags`: the tags when they are an array, else none. */
  function CardTags(tags: RR.TagsValue): seq<string> {
    if tags.Array? then tags.items else []
  }

  /** What the tag row shows: up to three chips and, for more tags, the number left out. */
  datatype TagRow = NoTags | TagRow(chips: seq<string>, more: Option<nat>)

  function ShowTags(tags: RR.TagsValue): (r: TagRow)
    ensures r.NoTags? <==> CardTags(tags) == []
    ensures r.TagRow? ==>
      && |r.chips| == Min(3, |CardTags(tags)|)
      && r.chips == CardTags(tags)[..|r.chips|]
      && (r.more.Some? <==> |CardTags(tags)| > 3)
      && |r.chips| + r.more.GetOr(0) == |CardTags(tags)|
  {
    var items := CardTags(tags);
    if |items| == 0 then NoTags
    else TagRow(Seqs.Take(items, 3), if |items| > 3 then Some(|items| - 3) else None)
  }

  /** The chip text of a tag and the text of the remainder badge. */
  function ChipText(tag: string): string {
    "#" + tag
  }

  function MoreText(k: nat): (r: string)
    ensures |r| >= 7 && r[..1] == "+" && r[|r| - 5..] == " more"
    ensures var d := r[1..|r| - 5]; (forall i | 0 <= i < |d| :: IsDigit(d[i])) && ParseNat(d) == k
  {
    var digits := NatToString(k);
    ParseNatToString(k);
    assert ("+" + digits + " more")[1..|digits| + 1] == digits;
    "+" + digits + " more"
  }

  /** Tags that are not an array show nothing, like an empty array. */
  lemma NonArrayTagsShowNothing(tags: RR.TagsValue)
    requires !tags.Array?
    ensures ShowTags(tags) == NoTags
  {
  }

  // ---------------------------------------------------------------------------------------
  // Download

  /** What the card consults for a download. */
  datatype CardResource = CardResource(
    id: string, title: string, filePath: Option<string>, fileName: Option<string>,
    url: Option<string>)

  /** What the browser is asked to do: save a file under a name, or open a link. */
  datatype Action = SaveFile(href: string, name: string) | OpenLink(url: string)

  /** A download is possible when the resource has a file path or a link. */
  predicate Downloadable(r: CardResource) {
    Truthy(r.filePath) || Truthy(r.url)
  }

  /** The file path takes precedence over the link, and the saved name is the file name or
      else the title. */
  function DownloadAction(r: CardResource): (a: Action)
    requires Downloadable(r)
    ensures a.SaveFile? <==> Truthy(r.filePath)
    ensures a.SaveFile? ==> (a.href == r.filePath.value
      && a.name == (if Truthy(r.fileName) then r.fileName.value else r.title))
    ensures a.OpenLink? ==> a.url == r.url.value
  {
    if Truthy(r.filePath) then
      SaveFile(r.filePath.value, if Truthy(r.fileName) then r.fileName.value else r.title)
    else OpenLink(r.url.value)
  }

  /** The download button's state and what its clicks have caused. */
  class DownloadButton {
    const resource: CardResource
    var isLoading: bool
    /** Resource ids whose download was reported to the tracking route. */
    var tracked: seq<string>
    /** Browser actions performed. */
    var actions: seq<Action>
    /** Resource ids handed to `onDownload`. */
    var reported: seq<string>

    constructor(resource: CardResource)
      ensures this.resource == resource
      ensures !isLoading && tracked == [] && actions == [] && reported == []
    {
      this.resource := resource;
      isLoading := false;
      tracked := [];
      actions := [];
      reported := [];
    }

    /** The button label. */
    function Label(): (s: string)
      reads this
      ensures !isLoading && Downloadable(resource) ==>
        (s == "Download" <==> DownloadAction(resource).SaveFile?)
    {
      if isLoading then "Loading..." else if Truthy(resource.filePath) then "Download" else "Open"
    }

    /** `handleDownload`, `trackFails` telling whether the tracking request throws. Without a
        path or link nothing happens. Otherwise the download is tracked first; if tracking
        throws, neither the browser action nor `onDownload` follows; loading ends either way. */
    method Download(trackFails: bool)
      modifies this
      ensures !Downloadable(resource) ==>
        && isLoading == old(isLoading) && tracked == old(tracked)
        && actions == old(actions) && reported == old(reported)
      ensures Downloadable(resource) ==> !isLoading && tracked == old(tracked) + [resource.id]
      ensures Downloadable(resource) && trackFails ==>
        actions == old(actions) && reported == old(reported)
      ensures Downloadable(resource) && !trackFails ==>
        && actions == old(actions) + [DownloadAction(resource)]
        && reported == old(reported) + [resource.id]
    {
      if !Downloadable(resource) {
        return;
      }
      isLoading := true;
      tracked := tracked + [resource.id];
      if !trackFails {
        actions := actions + [DownloadAction(resource)];
        reported := reported + [resource.id];
      }
      isLoading := false;
    }
  }
}
