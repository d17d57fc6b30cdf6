/**
  The resource library listing and creation (app/api/resources/route.ts): the query conditions
  built from the GET parameters, the tag filter applied to the fetched list, and the guards and
  defaults of POST.
*/
module ResourcesRoute {
  import opened Wrappers
  import opened Strings
  import opened Auth
  import Seqs

  /** The stored `tags` JSON value: null, an array of strings, or some other value (whose
      JavaScript truthiness is recorded). */
  datatype TagsValue = Null | Array(items: seq<string>) | Other(truthy: bool)

  datatype Resource = Resource(
    title: string, description: Option<string>, resourceType: string, product: Option<string>,
    tags: TagsValue)

  // ---------------------------------------------------------------------------------------
  // The `where` clause

  /** The condition on `product`: none, `product = null`, or equality. */
  datatype ProductCondition = AnyProduct | NoProduct | ProductIs(product: string)

  /** The `where` object: product and type conditions and the search term of the `OR`. */
  datatype Where = Where(product: ProductCondition, resourceType: Option<string>, search: Option<string>)

  /** `contains` with `mode: 'insensitive'`. */
  predicate ContainsInsensitive(s: string, term: string) {
    Contains(Lower(s), Lower(term))
  }

  /** The database keeps a resource under `w`: every condition present holds, and the search
      term occurs, ignoring case, in the title or in a present description. */
  predicate Admits(w: Where, r: Resource) {
    && (match w.product
        case AnyProduct => true
        case NoProduct => r.product.None?
        case ProductIs(p) => r.product == Some(p))
    && (w.resourceType.Some? ==> r.resourceType == w.resourceType.value)
    && (w.search.Some? ==>
         ContainsInsensitive(r.title, w.search.value)
         || (r.description.Some? && ContainsInsensitive(r.description.value, w.search.value)))
  }

  /** The `where` object built field by field from the query parameters. */
  method BuildWhere(product: Option<string>, resourceType: Option<string>, search: Option<string>)
    returns (w: Where)
    ensures !Truthy(product) || product.value == "ALL" ==> w.product == AnyProduct
    ensures Truthy(product) && product.value == "GENERAL" ==> w.product == NoProduct
    ensures Truthy(product) && product.value != "ALL" && product.value != "GENERAL" ==>
      w.product == ProductIs(product.value)
    ensures !Truthy(resourceType) || resourceType.value == "ALL" ==> w.resourceType == None
    ensures Truthy(resourceType) && resourceType.value != "ALL" ==> w.resourceType == resourceType
    ensures w.search == OrNull(search)
  {
    w := Where(AnyProduct, None, None);
    if Truthy(product) && product.value != "ALL" {
      if product.value == "GENERAL" {
        w := w.(product := NoProduct);
      } else {
        w := w.(product := ProductIs(product.value));
      }
    }
    if Truthy(resourceType) && resourceType.value != "ALL" {
      w := w.(resourceType := resourceType);
    }
    if Truthy(search) {
      w := w.(search := search);
    }
  }

  /** With no parameters (or ALL) every resource is admitted. */
  lemma EmptyWhereAdmitsAll(r: Resource)
    ensures Admits(Where(AnyProduct, None, None), r)
  {
  }

  /** GENERAL selects exactly the resources without a product. */
  lemma GeneralMeansNoProduct(r: Resource)
    ensures Admits(Where(NoProduct, None, None), r) <==> r.product.None?
  {
  }

  /** A search term is matched regardless of case in the title. */
  lemma SearchIgnoresCase(r: Resource, term: string)
    requires ContainsInsensitive(r.title, term)
    ensures Admits(Where(AnyProduct, None, Some(Upper(term))), r)
    ensures Admits(Where(AnyProduct, None, Some(Lower(term))), r)
  {
    LowerOfUpper(term);
    LowerIdempotent(term);
  }

  // ---------------------------------------------------------------------------------------
  // The tag filter

  /** `tags.split(',').map(tag => tag.trim().toLowerCase())`. */
  function QueryTags(tags: string): seq<string> {
    var parts := Split(tags, ',');
    seq(|parts|, i requires 0 <= i < |parts| => Lower(Trim(parts[i])))
  }

  /** The resource's tags, lower-cased, when they are an array; none otherwise. */
  function ResourceTags(t: TagsValue): seq<string> {
    match t
    case Array(items) => seq(|items|, i requires 0 <= i < |items| => Lower(items[i]))
    case _ => []
  }

  /** The filter's test: the tags are truthy, and some query tag equals one of the resource's
      lower-cased tags. */
  predicate KeepsByTags(query: seq<string>, r: Resource) {
    && !(r.tags.Null? || (r.tags.Other? && !r.tags.truthy))
    && exists i | 0 <= i < |query| :: query[i] in ResourceTags(r.tags)
  }

  /** The list GET returns for the `tags` parameter (a falsy one filters nothing). */
  function FilterByTags(resources: seq<Resource>, tags: Option<string>): (r: seq<Resource>)
    ensures !Truthy(tags) ==> r == resources
    ensures Seqs.IsSubseq(r, resources)
  {
    if !Truthy(tags) then
      Seqs.SubseqRefl(resources);
      resources
    else
      var query := QueryTags(tags.value);
      Seqs.FilterIsSubseq(resources, (x: Resource) => KeepsByTags(query, x));
      Seqs.Filter(resources, (x: Resource) => KeepsByTags(query, x))
  }

  /** Some query tag equals some tag of `items` lower-cased. */
  predicate SharesTag(query: seq<string>, items: seq<string>) {
    exists i, j | 0 <= i < |query| && 0 <= j < |items| :: query[i] == Lower(items[j])
  }

  /** The filter's test holds exactly for array tags sharing a tag with the query: null tags,
      falsy tags and non-array tags all fail it. */
  lemma KeepsByTagsIff(query: seq<string>, r: Resource)
    ensures KeepsByTags(query, r) <==> r.tags.Array? && SharesTag(query, r.tags.items)
  {
    if r.tags.Array? {
      var rt := ResourceTags(r.tags);
      if KeepsByTags(query, r) {
        var i :| 0 <= i < |query| && query[i] in rt;
        var j :| 0 <= j < |rt| && rt[j] == query[i];
        assert query[i] == Lower(r.tags.items[j]);
      }
      if SharesTag(query, r.tags.items) {
        var i, j :| 0 <= i < |query| && 0 <= j < |r.tags.items| && query[i] == Lower(r.tags.items[j]);
        assert query[i] == rt[j];
      }
    }
  }

  /** With a tag query, a resource of the list survives exactly when its tags are an array
      sharing, up to case, one of the trimmed query tags. */
  lemma TagFilterIff(resources: seq<Resource>, tags: string, r: Resource)
    requires tags != [] && r in resources
    ensures r in FilterByTags(resources, Some(tags)) <==>
      r.tags.Array? && SharesTag(QueryTags(tags), r.tags.items)
  {
    KeepsByTagsIff(QueryTags(tags), r);
  }

  /** Resources whose tags are null never survive a tag query. */
  lemma NullTagsNeverSurvive(resources: seq<Resource>, tags: string, r: Resource)
    requires tags != [] && r.tags.Null?
    ensures r !in FilterByTags(resources, Some(tags))
  {
  }

  /** The reply of GET. */
  datatype GetReply = GetUnauthorized | Resources(resources: seq<Resource>)

  /** GET: 401 without a signed-in user; otherwise the fetched resources (already selected by
      the `where` clause) filtered by tags. */
  function Get(session: Session, fetched: seq<Resource>, tags: Option<string>): (r: GetReply)
    ensures r == GetUnauthorized <==> !SignedIn(session)
    ensures r.Resources? ==> r.resources == FilterByTags(fetched, tags)
  {
    if !SignedIn(session) then GetUnauthorized else Resources(FilterByTags(fetched, tags))
  }

  // ---------------------------------------------------------------------------------------
  // POST

  /** The JSON body of POST; an absent field is `None`. */
  datatype PostBody = PostBody(
    title: Option<string>, description: Option<string>, resourceType: Option<string>,
    product: Option<string>, url: Option<string>, filePath: Option<string>,
    fileName: Option<string>, fileSize: Option<int>, mimeType: Option<string>,
    version: Option<string>, tags: TagsValue, isPublic: Option<bool>)

  datatype NewResource = NewResource(
    title: string, description: Option<string>, resourceType: string, product: Option<string>,
    url: Option<string>, filePath: Option<string>, fileName: Option<string>,
    fileSize: Option<int>, mimeType: Option<string>, version: Option<string>,
    tags: TagsValue, isPublic: bool, userId: string)

  /** `fileSize || null`: zero becomes null. */
  function SizeOrNull(n: Option<int>): (r: Option<int>)
    ensures r.None? <==> n.None? || n.value == 0
    ensures r.Some? ==> r == n
  {
    if n.Some? && n.value != 0 then n else None
  }

  /** `tags || null`: falsy tags become null; arrays, even empty ones, are kept. */
  function TagsOrNull(t: TagsValue): (r: TagsValue)
    ensures t.Array? || (t.Other? && t.truthy) ==> r == t
    ensures t.Null? || (t.Other? && !t.truthy) ==> r.Null?
  {
    if t.Null? || (t.Other? && !t.truthy) then Null else t
  }

  /** The status the guards reject with, in the order they run; `None` when all pass. */
  function PostRejection(session: Session, body: PostBody): (r: Option<nat>)
    ensures r == Some(401) <==> !SignedIn(session)
    ensures r == Some(403) <==> SignedIn(session) && session.value.role != Contributor
    ensures r == Some(400) <==> (SignedIn(session) && session.value.role == Contributor
      && !(Truthy(body.title) && Truthy(body.resourceType)))
    ensures r.None? <==> (SignedIn(session) && session.value.role == Contributor
      && Truthy(body.title) && Truthy(body.resourceType))
  {
    if !SignedIn(session) then Some(401)
    else if session.value.role != Contributor then Some(403)
    else if !(Truthy(body.title) && Truthy(body.resourceType)) then Some(400)
    else None
  }

  /** The stored resource: falsy optional fields become null, the description is kept as
      given, and `isPublic` is true only when omitted. */
  function CreateResource(userId: string, body: PostBody): (r: NewResource)
    requires body.title.Some? && body.resourceType.Some?
    ensures r.title == body.title.value && r.resourceType == body.resourceType.value
    ensures r.description == body.description && r.userId == userId
    ensures r.product == OrNull(body.product) && r.url == OrNull(body.url)
    ensures r.filePath == OrNull(body.filePath) && r.fileName == OrNull(body.fileName)
    ensures r.fileSize == SizeOrNull(body.fileSize) && r.mimeType == OrNull(body.mimeType)
    ensures r.version == OrNull(body.version) && r.tags == TagsOrNull(body.tags)
    ensures body.isPublic.None? ==> r.isPublic
    ensures body.isPublic.Some? ==> r.isPublic == body.isPublic.value
  {
    NewResource(body.title.value, body.description, body.resourceType.value, OrNull(body.product),
      OrNull(body.url), OrNull(body.filePath), OrNull(body.fileName), SizeOrNull(body.fileSize),
      OrNull(body.mimeType), OrNull(body.version), TagsOrNull(body.tags),
      body.isPublic.GetOr(true), userId)
  }
}
