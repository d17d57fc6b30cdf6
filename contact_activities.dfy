/**
  The activity list of one contact (components/features/contacts/ContactActivities.tsx): the
  type filter, the distinct types offered as filters, and the count shown next to each.
*/
module ContactActivities {
  import Seqs

  /** The fields the list consults. */
  datatype Activity = Activity(id: string, activityType: string)

  /** The filter's test: ALL keeps everything, another filter keeps that type. */
  function Keeps(filter: string): Activity -> bool {
    (a: Activity) => filter == "ALL" || a.activityType == filter
  }

  /** `filteredActivities`. */
  function FilterByType(activities: seq<Activity>, filter: string): (r: seq<Activity>)
    ensures Seqs.IsSubseq(r, activities)
    ensures filter == "ALL" ==> r == activities
    ensures filter != "ALL" ==> forall a | a in r :: a.activityType == filter
    ensures forall a | a in activities && (filter == "ALL" || a.activityType == filter) :: a in r
  {
    Seqs.FilterIsSubseq(activities, Keeps(filter));
    var r := Seqs.Filter(activities, Keeps(filter));
    if filter == "ALL" then Seqs.FilterAll(activities, Keeps(filter)); r else r
  }

  /** The types, in list order. */
  function TypesOf(activities: seq<Activity>): seq<string> {
    seq(|activities|, i requires 0 <= i < |activities| => activities[i].activityType)
  }

  /** `activityTypes`: each type once, in order of first appearance. */
  function ActivityTypes(activities: seq<Activity>): seq<string> {
    Seqs.Distinct(TypesOf(activities))
  }

  function HasType(t: string): Activity -> bool {
    (a: Activity) => a.activityType == t
  }

  /** `activities.filter(a => a.type === t).length`. */
  function CountType(activities: seq<Activity>, t: string): nat {
    Seqs.Count(activities, HasType(t))
  }

  /** `typeCounts`: ALL first, then one entry per type; a type literally named ALL would
      overwrite the first entry. */
  function TypeCounts(activities: seq<Activity>): (counts: map<string, nat>)
    ensures forall t :: t in counts <==> t == "ALL" || t in ActivityTypes(activities)
    ensures forall t | t in ActivityTypes(activities) :: t in counts && counts[t] == CountType(activities, t)
    ensures "ALL" !in ActivityTypes(activities) ==> "ALL" in counts && counts["ALL"] == |activities|
  {
    var types := ActivityTypes(activities);
    var perType := map t | t in types :: CountType(activities, t);
    map["ALL" := |activities|] + perType
  }

  /** For any filter other than ALL, the count of its type is the length of the list shown. */
  lemma CountIsFilteredLength(activities: seq<Activity>, t: string)
    requires t != "ALL"
    ensures CountType(activities, t) == |FilterByType(activities, t)|
  {
    Seqs.FilterExt(activities, Keeps(t), HasType(t));
  }

  /** Sum of the counts of the types `ts`, read from the back. */
  function SumCounts(activities: seq<Activity>, ts: seq<string>): nat
    decreases |ts|
  {
    if ts == [] then 0 else SumCounts(activities, ts[..|ts| - 1]) + CountType(activities, ts[|ts| - 1])
  }

  /** One more activity adds one to the sum exactly when its type is among `ts`. */
  lemma {:induction false} SumCountsSnoc(init: seq<Activity>, x: Activity, ts: seq<string>)
    requires forall i, j | 0 <= i < j < |ts| :: ts[i] != ts[j]
    ensures SumCounts(init + [x], ts) ==
      SumCounts(init, ts) + (if x.activityType in ts then 1 else 0)
    decreases |ts|
  {
    if ts != [] {
      var t := ts[|ts| - 1];
      var front := ts[..|ts| - 1];
      SumCountsSnoc(init, x, front);
      Seqs.FilterAppend(init, [x], HasType(t));
      assert Seqs.Filter([x], HasType(t)) == (if x.activityType == t then [x] else []);
      assert x.activityType in ts <==> x.activityType in front || x.activityType == t by {
        assert ts == front + [t];
      }
      if x.activityType == t {
        assert t !in front by {
          forall i | 0 <= i < |front| ensures front[i] != t { assert front[i] == ts[i]; }
        }
      }
    }
  }

  /** The counts of the distinct types add up to the number of activities. */
  lemma {:induction false} CountsSumToTotal(activities: seq<Activity>)
    ensures SumCounts(activities, ActivityTypes(activities)) == |activities|
    decreases |activities|, 1
  {
    if activities != [] {
      CountsSumToTotalLast(activities);
    }
  }

  /** The step of `CountsSumToTotal`: the last activity either repeats a known type, whose
      count grows by one, or brings a new type counted once. */
  lemma {:induction false} CountsSumToTotalLast(activities: seq<Activity>)
    requires activities != []
    ensures SumCounts(activities, ActivityTypes(activities)) == |activities|
    decreases |activities|, 0
  {
    var n := |activities|;
    var init, x := activities[..n - 1], activities[n - 1];
    var t, d := x.activityType, ActivityTypes(init);
    assert activities == init + [x];
    CountsSumToTotal(init);
    SumCountsSnoc(init, x, d);
    TypesSnoc(init, x);
    if t !in d {
      NewTypeCountsOnce(init, x);
      assert (d + [t])[..|d|] == d;
    }
  }

  /** The distinct types after one more activity: unchanged, or the new type at the end. */
  lemma TypesSnoc(init: seq<Activity>, x: Activity)
    ensures var d := ActivityTypes(init);
      ActivityTypes(init + [x]) == if x.activityType in d then d else d + [x.activityType]
  {
    assert TypesOf(init + [x])[..|init|] == TypesOf(init);
  }

  /** An activity of a type not seen before is the only one of its type. */
  lemma NewTypeCountsOnce(init: seq<Activity>, x: Activity)
    requires x.activityType !in ActivityTypes(init)
    ensures CountType(init + [x], x.activityType) == 1
  {
    var t := x.activityType;
    assert t !in TypesOf(init);
    forall i | 0 <= i < |init| ensures !HasType(t)(init[i]) {
      assert TypesOf(init)[i] == init[i].activityType;
    }
    Seqs.FilterNone(init, HasType(t));
    Seqs.FilterAppend(init, [x], HasType(t));
    assert Seqs.Filter([x], HasType(t)) == [x];
  }

  /** Unless some type is literally named ALL, the per-type counts shown add up to the ALL
      count. */
  lemma TypeCountsSum(activities: seq<Activity>)
    requires "ALL" !in ActivityTypes(activities)
    ensures TypeCounts(activities)["ALL"] == SumCounts(activities, ActivityTypes(activities))
  {
    CountsSumToTotal(activities);
  }

  /** A type named ALL replaces the ALL count with its own. */
  lemma AllTypeOverridesTotal(activities: seq<Activity>)
    requires "ALL" in ActivityTypes(activities)
    ensures TypeCounts(activities)["ALL"] == CountType(activities, "ALL")
  {
  }
}
