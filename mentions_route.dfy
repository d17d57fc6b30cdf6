/**
  The product-mention table behind app/api/carms-corner/mentions/route.ts: POST inserts a row
  unless one with the same (activity, product, mention text) already exists, and GET lists rows
  newest first, optionally for one product, up to a limit.
*/
module MentionsRoute {
  import opened Wrappers
  import opened Auth
  import Seqs

  /** A stored row; rows are kept in insertion (creation) order. */
  datatype MentionRow = MentionRow(
    activityId: string, product: string, mentionText: string, context: Option<string>)

  /** The JSON body of POST; an absent field is `None`. */
  datatype PostBody = PostBody(
    activityId: Option<string>, product: Option<string>, mentionText: Option<string>,
    context: Option<string>)

  /** The row has the key (activityId, product, mentionText). */
  predicate HasKey(r: MentionRow, activityId: string, product: string, mentionText: string) {
    r.activityId == activityId && r.product == product && r.mentionText == mentionText
  }

  /** Some row has the key. */
  predicate KeyPresent(rows: seq<MentionRow>, activityId: string, product: string, mentionText: string) {
    exists i | 0 <= i < |rows| :: HasKey(rows[i], activityId, product, mentionText)
  }

  /** How many rows have the key. */
  function KeyCount(rows: seq<MentionRow>, activityId: string, product: string, mentionText: string): nat {
    Seqs.Count(rows, (r: MentionRow) => HasKey(r, activityId, product, mentionText))
  }

  /** The table after the check-then-insert: unchanged when the key is present, else one row
      appended whose context is null when absent or empty. */
  function InsertIfAbsent(rows: seq<MentionRow>, activityId: string, product: string,
                          mentionText: string, context: Option<string>): (r: seq<MentionRow>)
    ensures KeyPresent(rows, activityId, product, mentionText) ==> r == rows
    ensures !KeyPresent(rows, activityId, product, mentionText) ==>
      r == rows + [MentionRow(activityId, product, mentionText, OrNull(context))]
  {
    if KeyPresent(rows, activityId, product, mentionText) then rows
    else rows + [MentionRow(activityId, product, mentionText, OrNull(context))]
  }

  /** The reply of POST. */
  datatype PostReply = Unauthorized | BadRequest | NotFound | Existing(row: MentionRow) | Created(row: MentionRow)

  /** The mention table. */
  class MentionTable {
    var rows: seq<MentionRow>

    constructor()
      ensures rows == []
    {
      rows := [];
    }

    /** `findFirst` on the key: the position of the earliest row with it, or -1. */
    method FindFirst(activityId: string, product: string, mentionText: string) returns (index: int)
      ensures index == -1 <==> !KeyPresent(rows, activityId, product, mentionText)
      ensures index != -1 ==>
        0 <= index < |rows| && HasKey(rows[index], activityId, product, mentionText)
        && forall j | 0 <= j < index :: !HasKey(rows[j], activityId, product, mentionText)
    {
      var i := 0;
      while i < |rows|
        invariant 0 <= i <= |rows|
        invariant forall j | 0 <= j < i :: !HasKey(rows[j], activityId, product, mentionText)
      {
        if HasKey(rows[i], activityId, product, mentionText) {
          return i;
        }
        i := i + 1;
      }
      return -1;
    }

    /** POST: 401 without a signed-in user id, 400 without a truthy activity id, product and
        mention text, 404 for an unknown activity (`activities` are the ids that exist), then
        the existing row with the key, or a new row with 201. */
    method Post(session: Session, body: PostBody, activities: set<string>) returns (reply: PostReply)
      modifies this
      ensures !SignedInWithId(session) ==> reply == Unauthorized && rows == old(rows)
      ensures (SignedInWithId(session)
        && !(Truthy(body.activityId) && Truthy(body.product) && Truthy(body.mentionText))) ==>
        reply == BadRequest && rows == old(rows)
      ensures (SignedInWithId(session)
        && Truthy(body.activityId) && Truthy(body.product) && Truthy(body.mentionText)) ==>
        var a, p, t := body.activityId.value, body.product.value, body.mentionText.value;
        && (a !in activities ==> reply == NotFound && rows == old(rows))
        && (a in activities ==>
          rows == InsertIfAbsent(old(rows), a, p, t, body.context)
          && (KeyPresent(old(rows), a, p, t) ==>
                reply.Existing? && HasKey(reply.row, a, p, t) && reply.row in old(rows))
          && (!KeyPresent(old(rows), a, p, t) ==>
                reply == Created(MentionRow(a, p, t, OrNull(body.context)))))
    {
      if !SignedInWithId(session) {
        return Unauthorized;
      }
      if !(Truthy(body.activityId) && Truthy(body.product) && Truthy(body.mentionText)) {
        return BadRequest;
      }
      var a, p, t := body.activityId.value, body.product.value, body.mentionText.value;
      if a !in activities {
        return NotFound;
      }
      var index := FindFirst(a, p, t);
      if index != -1 {
        return Existing(rows[index]);
      }
      var row := MentionRow(a, p, t, OrNull(body.context));
      rows := rows + [row];
      return Created(row);
    }
  }

  /** Inserting the same key again changes nothing, whatever the context. */
  lemma InsertIdempotent(rows: seq<MentionRow>, a: string, p: string, t: string,
                         c1: Option<string>, c2: Option<string>)
    ensures var once := InsertIfAbsent(rows, a, p, t, c1);
      InsertIfAbsent(once, a, p, t, c2) == once
  {
    var once := InsertIfAbsent(rows, a, p, t, c1);
    if !KeyPresent(rows, a, p, t) {
      assert HasKey(once[|rows|], a, p, t);
    }
  }

  /** After an insert the key is held by exactly one row when it was held by none, and the
      count is otherwise unchanged. */
  lemma InsertKeyCount(rows: seq<MentionRow>, a: string, p: string, t: string, c: Option<string>)
    ensures KeyCount(InsertIfAbsent(rows, a, p, t, c), a, p, t) ==
      (if KeyPresent(rows, a, p, t) then KeyCount(rows, a, p, t) else 1)
  {
    var key := (r: MentionRow) => HasKey(r, a, p, t);
    if !KeyPresent(rows, a, p, t) {
      var row := MentionRow(a, p, t, OrNull(c));
      Seqs.FilterAppend(rows, [row], key);
      Seqs.FilterNone(rows, key);
      assert Seqs.Filter([row], key) == [row];
    }
  }

  /** Two identical posts onto a table without the key leave exactly one row for it, carrying
      the first post's context: the context is not part of the key. */
  lemma FirstContextWins(rows: seq<MentionRow>, a: string, p: string, t: string,
                         c1: Option<string>, c2: Option<string>)
    requires !KeyPresent(rows, a, p, t)
    ensures var twice := InsertIfAbsent(InsertIfAbsent(rows, a, p, t, c1), a, p, t, c2);
      && KeyCount(twice, a, p, t) == 1
      && twice == rows + [MentionRow(a, p, t, OrNull(c1))]
  {
    InsertIdempotent(rows, a, p, t, c1, c2);
    InsertKeyCount(rows, a, p, t, c1);
  }

  // ---------------------------------------------------------------------------------------
  // GET

  /** The page size when `limit` is absent. */
  const DefaultLimit: nat := 50

  /** The reply of GET. */
  datatype GetReply = GetUnauthorized | Rows(rows: seq<MentionRow>)

  /** `where.product = product` when the product is truthy; no condition otherwise. */
  function ProductFilter(product: Option<string>): MentionRow -> bool {
    (m: MentionRow) => !Truthy(product) || m.product == product.value
  }

  /** GET: the newest `limit` rows (50 by default) among those of the product when one is
      given; a falsy product filters nothing. */
  function Get(session: Session, rows: seq<MentionRow>, product: Option<string>, limit: Option<nat>): (r: GetReply)
    ensures r == GetUnauthorized <==> !SignedInWithId(session)
    ensures r.Rows? ==> |r.rows| <= limit.GetOr(DefaultLimit)
    ensures r.Rows? ==> forall k | 0 <= k < |r.rows| ::
      r.rows[k] in rows && (Truthy(product) ==> r.rows[k].product == product.value)
    ensures r.Rows? ==>
      r.rows == Seqs.Take(Seqs.Filter(Seqs.Reverse(rows), ProductFilter(product)), limit.GetOr(DefaultLimit))
  {
    if !SignedInWithId(session) then GetUnauthorized
    else
      Seqs.FilterReverse(rows, ProductFilter(product));
      Rows(Seqs.Take(Seqs.Reverse(Seqs.Filter(rows, ProductFilter(product))), limit.GetOr(DefaultLimit)))
  }

  /** Without a product filter and with a limit covering the table, GET lists every row,
      newest first. */
  lemma GetAllNewestFirst(session: Session, rows: seq<MentionRow>)
    requires SignedInWithId(session) && |rows| <= DefaultLimit
    ensures Get(session, rows, None, None) == Rows(Seqs.Reverse(rows))
  {
    Seqs.FilterAll(rows, ProductFilter(None));
  }
}
