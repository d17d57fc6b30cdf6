/**
  Activity creation (POST in app/api/activities/route.ts): the guard chain, the trimmed and
  defaulted record, and the best-effort creation of one product-mention record per detected
  mention, whose failure never changes the 201 reply.
*/
module ActivitiesRoute {
  import opened Wrappers
  import opened Strings
  import opened Auth
  import PM = ProductMentions
  import Seqs

  /** The JSON body; an absent field is `None`. */
  datatype PostBody = PostBody(
    content: Option<string>, activityType: Option<string>,
    contactId: Option<string>, projectId: Option<string>, metadata: Option<string>)

  datatype Activity = Activity(
    id: string, content: string, activityType: string, userId: string,
    contactId: Option<string>, projectId: Option<string>, metadata: Option<string>)

  /** A stored product-mention row. */
  datatype MentionRecord = MentionRecord(
    product: string, mentionText: string, context: Option<string>, activityId: string)

  /** `!content || content.trim().length === 0`. */
  predicate BlankContent(content: Option<string>) {
    content.None? || content.value == "" || Trim(content.value) == []
  }

  /** The status the guards reject with, in the order they run; `None` when all pass. */
  function PostRejection(session: Session, body: PostBody): (r: Option<nat>)
    ensures r == Some(401) <==> !SignedIn(session)
    ensures r == Some(403) <==> SignedIn(session) && session.value.role != Contributor
    ensures r == Some(400) <==>
      SignedIn(session) && session.value.role == Contributor && BlankContent(body.content)
    ensures r.None? <==>
      SignedIn(session) && session.value.role == Contributor && !BlankContent(body.content)
  {
    if !SignedIn(session) then Some(401)
    else if session.value.role != Contributor then Some(403)
    else if BlankContent(body.content) then Some(400)
    else None
  }

  /** The activity stored for an accepted request. */
  function NewActivity(id: string, userId: string, body: PostBody): (a: Activity)
    requires body.content.Some?
    ensures a.id == id && a.userId == userId
    ensures a.content == Trim(body.content.value)
    ensures body.activityType.None? ==> a.activityType == "GENERAL"
    ensures body.activityType.Some? ==> a.activityType == body.activityType.value
    ensures a.contactId == OrNull(body.contactId) && a.projectId == OrNull(body.projectId)
    ensures a.metadata == OrNull(body.metadata)
  {
    Activity(id, Trim(body.content.value), body.activityType.GetOr("GENERAL"), userId,
      OrNull(body.contactId), OrNull(body.projectId), OrNull(body.metadata))
  }

  /** One row per detected mention, in detection order, each linked to the activity. */
  function MentionRecords(activityId: string, detected: seq<PM.Mention>): seq<MentionRecord> {
    seq(|detected|, k requires 0 <= k < |detected| =>
      MentionRecord(detected[k].product, detected[k].mentionText, detected[k].context, activityId))
  }

  /** The rows stored by the mention inserts, numbered from `base` on, when those whose
      numbers are in `failed` reject. */
  function Written(records: seq<MentionRecord>, failed: set<nat>, base: nat): seq<MentionRecord>
    decreases |records|
  {
    if records == [] then []
    else
      var rest := Written(records[1..], failed, base + 1);
      if base in failed then rest else [records[0]] + rest
  }

  /** The stored rows keep the order of the rows. */
  lemma {:induction false} WrittenInOrder(records: seq<MentionRecord>, failed: set<nat>, base: nat)
    ensures Seqs.IsSubseq(Written(records, failed, base), records)
    decreases |records|
  {
    if records != [] {
      WrittenInOrder(records[1..], failed, base + 1);
      var rest := Written(records[1..], failed, base + 1);
      if base !in failed {
        assert ([records[0]] + rest)[1..] == rest;
      }
    }
  }

  /** Every insert that does not reject still stores its row. */
  lemma {:induction false} WrittenKeeps(records: seq<MentionRecord>, failed: set<nat>, base: nat, k: nat)
    requires k < |records| && base + k !in failed
    ensures records[k] in Written(records, failed, base)
    decreases |records|
  {
    if k > 0 {
      WrittenKeeps(records[1..], failed, base + 1, k - 1);
    }
  }

  /** Every stored row is the row of an insert that did not reject. */
  lemma {:induction false} WrittenOnly(records: seq<MentionRecord>, failed: set<nat>, base: nat, r: MentionRecord)
    requires r in Written(records, failed, base)
    ensures exists k | 0 <= k < |records| :: base + k !in failed && records[k] == r
    decreases |records|
  {
    var rest := Written(records[1..], failed, base + 1);
    if r in rest {
      WrittenOnly(records[1..], failed, base + 1, r);
      var k :| 0 <= k < |records[1..]| && base + 1 + k !in failed && records[1..][k] == r;
      assert records[k + 1] == r;
    } else {
      assert base !in failed && r == records[0];
    }
  }

  /** When no insert rejects, every row is stored. */
  lemma {:induction false} WrittenAll(records: seq<MentionRecord>, failed: set<nat>, base: nat)
    requires forall n | n in failed :: n < base || base + |records| <= n
    ensures Written(records, failed, base) == records
    decreases |records|
  {
    if records != [] {
      WrittenAll(records[1..], failed, base + 1);
    }
  }

  /** One more insert adds its row at the end unless it rejects. */
  lemma {:induction false} WrittenSnoc(records: seq<MentionRecord>, r: MentionRecord, failed: set<nat>, base: nat)
    ensures Written(records + [r], failed, base)
      == Written(records, failed, base) + (if base + |records| in failed then [] else [r])
    decreases |records|
  {
    if records != [] {
      assert (records + [r])[1..] == records[1..] + [r];
      WrittenSnoc(records[1..], r, failed, base + 1);
    }
  }

  /** One more insert of a prefix of the rows stores its row exactly when it does not reject. */
  lemma WrittenPrefix(records: seq<MentionRecord>, i: nat, failed: set<nat>)
    requires i < |records|
    ensures Written(records[..i + 1], failed, 0)
      == Written(records[..i], failed, 0) + (if i in failed then [] else [records[i]])
  {
    assert records[..i + 1] == records[..i] + [records[i]];
    WrittenSnoc(records[..i], records[i], failed, 0);
  }

  /** The activity and product-mention tables. */
  class ActivityStore {
    var activities: seq<Activity>
    var mentions: seq<MentionRecord>

    constructor()
      ensures activities == [] && mentions == []
    {
      activities := [];
      mentions := [];
    }

    /** POST: the guards, then the activity, then one mention row per detected mention of the
        stored content. `id` is the identifier the database assigns; `failed` holds the numbers
        of the mention inserts that reject. The reply is 201 whether or not any does. */
    method Post(session: Session, body: PostBody, catalog: seq<PM.Product>, id: string,
                failed: set<nat>)
      returns (status: nat)
      modifies this
      ensures PostRejection(session, body).Some? ==>
        status == PostRejection(session, body).value
        && activities == old(activities) && mentions == old(mentions)
      ensures PostRejection(session, body).None? ==>
        var a := NewActivity(id, session.value.id, body);
        var detected := PM.Detect(a.content, catalog);
        && status == 201
        && activities == old(activities) + [a]
        && mentions == old(mentions)
          + Written(MentionRecords(id, detected), failed, 0)
    {
      var rejection := PostRejection(session, body);
      if rejection.Some? {
        return rejection.value;
      }
      var activity := NewActivity(id, session.value.id, body);
      activities := activities + [activity];
      var detected := PM.DetectProductMentions(activity.content, catalog);
      if |detected| > 0 {
        CreateMentions(MentionRecords(activity.id, detected), failed);
      }
      status := 201;
    }

    /** The inserts of the mention rows, all of them attempted: the rows of the inserts that
        reject are missing and the others are stored, in the order of the rows. */
    method CreateMentions(records: seq<MentionRecord>, failed: set<nat>)
      modifies this
      ensures activities == old(activities)
      ensures mentions == old(mentions) + Written(records, failed, 0)
    {
      var i := 0;
      while i < |records|
        invariant 0 <= i <= |records|
        invariant mentions == old(mentions) + Written(records[..i], failed, 0)
        invariant activities == old(activities)
      {
        WrittenPrefix(records, i, failed);
        if i !in failed {
          mentions := mentions + [records[i]];
        }
        i := i + 1;
      }
      assert records[..i] == records;
    }
  }

  /** Every row written for an activity names a catalog key and carries a piece of the stored
      content equal, ignoring case, to that entry's name. */
  lemma RecordsSound(id: string, content: string, catalog: seq<PM.Product>, failed: set<nat>,
                     r: MentionRecord)
    requires r in Written(MentionRecords(id, PM.Detect(content, catalog)), failed, 0)
    ensures r.activityId == id
    ensures exists j, i | 0 <= j < |catalog| && OccursAt(content, r.mentionText, i) ::
      catalog[j].key == r.product && Lower(r.mentionText) == Lower(catalog[j].name)
  {
    var records := MentionRecords(id, PM.Detect(content, catalog));
    WrittenOnly(records, failed, 0, r);
    var k :| 0 <= k < |records| && records[k] == r;
    PM.DetectSound(content, catalog, k);
  }

  /** Content in which no catalog name, each a plain word, occurs as a whole word gets no
      mention rows. */
  lemma NoMentionWithoutMatch(id: string, content: string, catalog: seq<PM.Product>, failed: set<nat>)
    requires forall j | 0 <= j < |catalog| :: PM.IsWordName(catalog[j].name)
    requires forall j, i: nat | 0 <= j < |catalog| :: !PM.WholeWordAt(content, catalog[j].name, i)
    ensures Written(MentionRecords(id, PM.Detect(content, catalog)), failed, 0) == []
  {
    forall j | 0 <= j < |catalog|
      ensures PM.MatchStarts(content, Lower(catalog[j].name), 0) == []
    {
      PM.MatchStartsEmptyIff(content, Lower(catalog[j].name), 0);
      forall i: nat | 0 <= i ensures !PM.MatchAt(content, Lower(catalog[j].name), i) {
        PM.MatchAtWholeWord(content, catalog[j].name, i);
      }
    }
    PM.DetectEmptyIff(content, catalog);
  }
}
