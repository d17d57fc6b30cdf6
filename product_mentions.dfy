/**
  Product-mention detection in activity text (lib/utils/productMentions.ts).

  For every catalog entry, in catalog order, the text is searched with the regular expression
  `\b<name>\b` under the flags `g` and `i`; every match yields one mention carrying the catalog
  key, the matched text in the input's own casing, and a context window of up to 20
  characters on each side. The window is always placed around the first plain substring
  occurrence of the lower-cased name in the lower-cased text, whichever match it accompanies.
*/
module ProductMentions {
  import opened Wrappers
  import opened Strings
  import Seqs

  /** A catalog entry: the product's key and its display name. */
  datatype Product = Product(key: string, name: string)

  /** `{product, mentionText, context?}`. */
  datatype Mention = Mention(product: string, mentionText: string, context: Option<string>)

  /** Characters kept on each side of the name in the context window. */
  const ContextRadius: nat := 20

  // ---------------------------------------------------------------------------------------
  // The regular expression `\b<pat>\b` with flags `g` and `i`

  /** Position `j` holds a word character. */
  predicate WordAt(text: string, j: int) {
    0 <= j < |text| && IsWordChar(text[j])
  }

  /** `\b` holds at position `k`: exactly one of the characters around it is a word character. */
  predicate IsBoundary(text: string, k: int) {
    WordAt(text, k - 1) != WordAt(text, k)
  }

  /** `\b<pat>\b` matches, ignoring case, at position `i`. */
  predicate MatchAt(text: string, pat: string, i: nat) {
    i + |pat| <= |text| && Lower(text[i..i + |pat|]) == Lower(pat)
    && IsBoundary(text, i) && IsBoundary(text, i + |pat|)
  }

  /** Start positions of the successive global matches from `from` on: each search starts where
      the previous match ended (one further after an empty match). */
  function MatchStarts(text: string, pat: string, from: nat): (r: seq<nat>)
    ensures forall k | 0 <= k < |r| :: from <= r[k] && r[k] + |pat| <= |text|
    ensures forall k | 0 <= k < |r| - 1 :: r[k] < r[k + 1]
    decreases |text| + 1 - from
  {
    if from > |text| then []
    else if MatchAt(text, pat, from) then [from] + MatchStarts(text, pat, from + Max(|pat|, 1))
    else MatchStarts(text, pat, from + 1)
  }

  /** Every position the scan reports is a match. */
  lemma {:induction false} MatchStartsSound(text: string, pat: string, from: nat, k: nat)
    requires k < |MatchStarts(text, pat, from)|
    ensures MatchAt(text, pat, MatchStarts(text, pat, from)[k])
    decreases |text| + 1 - from
  {
    if MatchAt(text, pat, from) {
      if k > 0 {
        MatchStartsSound(text, pat, from + Max(|pat|, 1), k - 1);
      }
    } else {
      MatchStartsSound(text, pat, from + 1, k);
    }
  }

  /** `text.match(regex)`, with `null` read as no matches: the matched substrings in order. */
  function MatchTexts(text: string, pat: string): seq<string> {
    var starts := MatchStarts(text, pat, 0);
    seq(|starts|, k requires 0 <= k < |starts| => text[starts[k]..starts[k] + |pat|])
  }

  // ---------------------------------------------------------------------------------------
  // The context window

  /** The trimmed window of `text` around the first occurrence of the lower-cased name in the
      lower-cased text. Both ends always lie inside the text, so `slice` never clamps. */
  function Context(text: string, name: string): string {
    var productName := Lower(name);
    var index := IndexOf(Lower(text), productName);
    var start := Max(0, index - ContextRadius);
    var end := Min(|text|, index + |productName| + ContextRadius);
    Trim(text[start..end])
  }

  /** One mention record: the context is left out when it equals the matched text. */
  function MentionOf(key: string, mentionText: string, context: string): (m: Mention)
    ensures m.product == key && m.mentionText == mentionText
    ensures m.context == None <==> context == mentionText
    ensures m.context != None ==> m.context == Some(context)
  {
    Mention(key, mentionText, if context != mentionText then Some(context) else None)
  }

  // ---------------------------------------------------------------------------------------
  // Detection

  /** The mentions one catalog entry contributes, one per match. */
  function ProductMentionsOf(text: string, p: Product): seq<Mention> {
    var matches := MatchTexts(text, Lower(p.name));
    seq(|matches|, k requires 0 <= k < |matches| => MentionOf(p.key, matches[k], Context(text, p.name)))
  }

  /** `detectProductMentions(text)` for the catalog `catalog`: the entries' mentions, entry after
      entry. */
  function Detect(text: string, catalog: seq<Product>): seq<Mention> {
    Seqs.FlatMap(catalog, MentionsIn(text))
  }

  /** The mentions of an entry in `text`, as a function of the entry. */
  function MentionsIn(text: string): Product -> seq<Mention> {
    p => ProductMentionsOf(text, p)
  }

  /** The detector as written: a loop over the catalog, and for each entry a loop over the
      matches that pushes one mention per match. */
  method DetectProductMentions(text: string, catalog: seq<Product>) returns (mentions: seq<Mention>)
    ensures mentions == Detect(text, catalog)
  {
    mentions := [];
    var lowercaseText := Lower(text);
    var e := 0;
    while e < |catalog|
      invariant 0 <= e <= |catalog|
      invariant mentions == Detect(text, catalog[..e])
    {
      mentions := PushEntryMentions(text, lowercaseText, catalog[e], mentions);
      assert catalog[..e + 1] == catalog[..e] + [catalog[e]];
      DetectSnoc(text, catalog[..e], catalog[e]);
      e := e + 1;
    }
    assert catalog[..e] == catalog;
  }

  /** The inner loop of the detector for one entry: one mention pushed per match, each with
      the context window recomputed for it. */
  method PushEntryMentions(text: string, lowercaseText: string, p: Product, before: seq<Mention>)
    returns (mentions: seq<Mention>)
    requires lowercaseText == Lower(text)
    ensures mentions == before + ProductMentionsOf(text, p)
  {
    var productKey := p.key;
    var productName := Lower(p.name);
    var matches := MatchTexts(text, productName);
    ghost var mine := ProductMentionsOf(text, p);
    ghost var window := Context(text, p.name);
    mentions := before;
    var m := 0;
    while m < |matches|
      invariant 0 <= m <= |matches| && |mine| == |matches|
      invariant mentions == before + mine[..m]
    {
      var index := IndexOf(lowercaseText, productName);
      var start := Max(0, index - ContextRadius);
      var end := Min(|text|, index + |productName| + ContextRadius);
      var context := Trim(text[start..end]);
      assert mine[m] == MentionOf(productKey, matches[m], context) by {
        assert context == window;
      }
      mentions := mentions + [MentionOf(productKey, matches[m], context)];
      assert mine[..m + 1] == mine[..m] + [mine[m]];
      m := m + 1;
    }
    assert mine[..m] == mine;
  }

  // ---------------------------------------------------------------------------------------
  // Properties

  /** Catalog order is kept: the mentions of a catalog split in two are those of the first part
      followed by those of the second. */
  lemma DetectAppend(text: string, a: seq<Product>, b: seq<Product>)
    ensures Detect(text, a + b) == Detect(text, a) + Detect(text, b)
  {
    Seqs.FlatMapAppend(a, b, MentionsIn(text));
  }

  /** One more catalog entry adds its own mentions at the end. */
  lemma DetectSnoc(text: string, catalog: seq<Product>, p: Product)
    ensures Detect(text, catalog + [p]) == Detect(text, catalog) + ProductMentionsOf(text, p)
  {
    assert (catalog + [p])[..|catalog|] == catalog;
  }

  /** The matched text of every mention is a piece of the input that equals its catalog name
      ignoring case, and its product is that entry's key. */
  lemma {:induction false} DetectSound(text: string, catalog: seq<Product>, k: nat)
    requires k < |Detect(text, catalog)|
    ensures var m := Detect(text, catalog)[k];
      exists j, i | 0 <= j < |catalog| && OccursAt(text, m.mentionText, i) ::
        catalog[j].key == m.product && Lower(m.mentionText) == Lower(catalog[j].name)
    decreases |catalog|
  {
    var init := catalog[..|catalog| - 1];
    var last := catalog[|catalog| - 1];
    var before := Detect(text, init);
    var m := Detect(text, catalog)[k];
    if k < |before| {
      DetectSound(text, init, k);
      var j, i :| 0 <= j < |init| && OccursAt(text, before[k].mentionText, i)
        && init[j].key == before[k].product && Lower(before[k].mentionText) == Lower(init[j].name);
      assert catalog[j] == init[j];
    } else {
      var pat := Lower(last.name);
      var starts := MatchStarts(text, pat, 0);
      var i := starts[k - |before|];
      MatchStartsSound(text, pat, 0, k - |before|);
      assert m.mentionText == text[i..i + |pat|];
      LowerIdempotent(last.name);
      assert OccursAt(text, m.mentionText, i);
      assert catalog[|catalog| - 1] == last;
    }
  }

  /** With no match for any entry there are no mentions, and conversely. */
  lemma {:induction false} DetectEmptyIff(text: string, catalog: seq<Product>)
    ensures Detect(text, catalog) == [] <==>
      forall j | 0 <= j < |catalog| :: MatchStarts(text, Lower(catalog[j].name), 0) == []
    decreases |catalog|
  {
    if catalog != [] {
      var init := catalog[..|catalog| - 1];
      var last := catalog[|catalog| - 1];
      DetectEmptyIff(text, init);
      ProductMentionsCount(text, last);
      assert |Detect(text, catalog)| == |Detect(text, init)| + |ProductMentionsOf(text, last)|;
      assert forall j | 0 <= j < |init| :: init[j] == catalog[j];
    }
  }

  /** The scan finds a match exactly when the expression matches somewhere at or after `from`. */
  lemma {:induction false} MatchStartsEmptyIff(text: string, pat: string, from: nat)
    ensures MatchStarts(text, pat, from) == [] <==> forall i: nat | from <= i :: !MatchAt(text, pat, i)
    decreases |text| + 1 - from
  {
    if from <= |text| && !MatchAt(text, pat, from) {
      MatchStartsEmptyIff(text, pat, from + 1);
    }
  }

  /** A plain product name: non-empty and made of word characters only. */
  predicate IsWordName(name: string) {
    |name| > 0 && forall k | 0 <= k < |name| :: IsWordChar(name[k])
  }

  /** A case-insensitive occurrence of `name` at `i` with no word character right before or
      right after it. */
  predicate WholeWordAt(text: string, name: string, i: nat) {
    OccursAt(Lower(text), Lower(name), i) && !WordAt(text, i - 1) && !WordAt(text, i + |name|)
  }

  /** All whole-word occurrences of `name` at or after `from`, left to right. */
  function WholeWordsFrom(text: string, name: string, from: nat): seq<nat>
    decreases |text| + 1 - from
  {
    if from > |text| then []
    else (if WholeWordAt(text, name, from) then [from] else []) + WholeWordsFrom(text, name, from + 1)
  }

  /** The positions listed are exactly the whole-word occurrences at or after `from`, in
      increasing order. */
  lemma {:induction false} WholeWordsFromSpec(text: string, name: string, from: nat)
    ensures var r := WholeWordsFrom(text, name, from);
      && (forall k | 0 <= k < |r| :: from <= r[k] <= |text| && WholeWordAt(text, name, r[k]))
      && (forall k | 0 <= k < |r| - 1 :: r[k] < r[k + 1])
      && (forall i: nat | from <= i && WholeWordAt(text, name, i) :: i in r)
    decreases |text| + 1 - from
  {
    if from <= |text| {
      WholeWordsFromSpec(text, name, from + 1);
      var rest := WholeWordsFrom(text, name, from + 1);
      var head: seq<nat> := if WholeWordAt(text, name, from) then [from] else [];
      var r := WholeWordsFrom(text, name, from);
      assert r == head + rest;
      forall i: nat | from <= i && WholeWordAt(text, name, i) ensures i in r {
        if i > from {
          assert i in rest;
        } else {
          assert r[0] == i;
        }
      }
      forall k | 0 <= k < |r| - 1 ensures r[k] < r[k + 1] {
        if k >= |head| {
          assert r[k] == rest[k - |head|] && r[k + 1] == rest[k + 1 - |head|];
        } else {
          assert r[k + 1] == rest[0];
        }
      }
    }
  }

  /** All whole-word occurrences of `name`, left to right. */
  function WholeWordPositions(text: string, name: string): seq<nat> {
    WholeWordsFrom(text, name, 0)
  }

  /** Positions that hold no whole-word occurrence can be skipped. */
  lemma {:induction false} WholeWordsSkip(text: string, name: string, lo: nat, hi: nat)
    requires lo <= hi
    requires forall i: nat | lo <= i < hi :: !WholeWordAt(text, name, i)
    ensures WholeWordsFrom(text, name, lo) == WholeWordsFrom(text, name, hi)
    decreases hi - lo
  {
    if lo < hi {
      WholeWordsSkip(text, name, lo + 1, hi);
    }
  }

  /** For a plain name the expression matches exactly at the whole-word occurrences. */
  lemma MatchAtWholeWord(text: string, name: string, i: nat)
    requires IsWordName(name)
    ensures MatchAt(text, Lower(name), i) <==> WholeWordAt(text, name, i)
  {
    LowerIdempotent(name);
    var n := |name|;
    if i + n <= |text| {
      LowerSlice(text, i, i + n);
      if OccursAt(Lower(text), Lower(name), i) {
        assert Lower(text)[i] == Lower(name)[0];
        LowerKeepsWordChars(name[0]);
        LowerKeepsWordChars(text[i]);
        assert Lower(text)[i + n - 1] == Lower(name)[n - 1];
        LowerKeepsWordChars(name[n - 1]);
        LowerKeepsWordChars(text[i + n - 1]);
      }
    }
  }

  /** Two matches of a plain name never overlap. */
  lemma NoOverlap(text: string, name: string, i: nat, j: nat)
    requires IsWordName(name) && MatchAt(text, Lower(name), i) && i < j < i + |name|
    ensures !MatchAt(text, Lower(name), j)
  {
    LowerIdempotent(name);
    LowerSlice(text, i, i + |name|);
    assert Lower(text)[j - 1] == Lower(name)[j - 1 - i];
    assert Lower(text)[j] == Lower(name)[j - i];
    LowerKeepsWordChars(name[j - 1 - i]);
    LowerKeepsWordChars(name[j - i]);
    LowerKeepsWordChars(text[j - 1]);
    LowerKeepsWordChars(text[j]);
    assert !IsBoundary(text, j);
  }

  /** After a match of a plain name at `i`, the next whole-word occurrence at or after any
      position `j` inside the match starts at or after the match's end. */
  lemma {:induction false} SkipMatched(text: string, name: string, i: nat, j: nat)
    requires IsWordName(name) && MatchAt(text, Lower(name), i) && i < j <= i + |name|
    ensures WholeWordsFrom(text, name, j) == WholeWordsFrom(text, name, i + |name|)
    decreases i + |name| - j, 1
  {
    if j < i + |name| {
      SkipInside(text, name, i, j);
    }
  }

  /** One step of `SkipMatched`: position `j` strictly inside the match is no occurrence. */
  lemma {:induction false} SkipInside(text: string, name: string, i: nat, j: nat)
    requires IsWordName(name) && MatchAt(text, Lower(name), i) && i < j < i + |name|
    ensures WholeWordsFrom(text, name, j) == WholeWordsFrom(text, name, i + |name|)
    decreases i + |name| - j, 0
  {
    assert WholeWordsFrom(text, name, j) == WholeWordsFrom(text, name, j + 1) by {
      InsideMatch(text, name, i, j);
    }
    SkipMatched(text, name, i, j + 1);
  }

  /** No whole-word occurrence of a plain name starts strictly inside a match of it. */
  lemma InsideMatch(text: string, name: string, i: nat, j: nat)
    requires IsWordName(name) && MatchAt(text, Lower(name), i) && i < j < i + |name|
    ensures !WholeWordAt(text, name, j)
  {
    NoOverlap(text, name, i, j);
    MatchAtWholeWord(text, name, j);
  }

  /** For a plain name the global scan from `from` visits exactly the whole-word occurrences at
      or after `from`, left to right. */
  lemma {:induction false} MatchStartsAreWholeWords(text: string, name: string, from: nat)
    requires IsWordName(name)
    ensures MatchStarts(text, Lower(name), from) == WholeWordsFrom(text, name, from)
    decreases |text| + 1 - from, 1
  {
    if from <= |text| {
      if MatchAt(text, Lower(name), from) {
        ScanAfterMatch(text, name, from);
      } else {
        ScanAfterMiss(text, name, from);
      }
    }
  }

  /** The step of the scan at a match: it resumes at the end of the match, and the whole-word
      occurrences skip the same positions. */
  lemma {:induction false} ScanAfterMatch(text: string, name: string, from: nat)
    requires IsWordName(name) && MatchAt(text, Lower(name), from)
    ensures MatchStarts(text, Lower(name), from) == WholeWordsFrom(text, name, from)
    decreases |text| + 1 - from, 0
  {
    WholeWordsAtMatch(text, name, from);
    MatchStartsAtMatch(text, name, from);
    MatchStartsAreWholeWords(text, name, from + |name|);
  }

  /** At a match of a plain name, the whole-word occurrences are the match followed by those
      from its end on. */
  lemma WholeWordsAtMatch(text: string, name: string, from: nat)
    requires IsWordName(name) && MatchAt(text, Lower(name), from)
    ensures WholeWordsFrom(text, name, from) == [from] + WholeWordsFrom(text, name, from + |name|)
  {
    MatchAtWholeWord(text, name, from);
    SkipMatched(text, name, from, from + 1);
  }

  /** At a match the scan reports it and resumes at its end. */
  lemma MatchStartsAtMatch(text: string, name: string, from: nat)
    requires IsWordName(name) && MatchAt(text, Lower(name), from)
    ensures MatchStarts(text, Lower(name), from) == [from] + MatchStarts(text, Lower(name), from + |name|)
  {
    assert Max(|Lower(name)|, 1) == |name|;
  }

  /** The step of the scan where nothing matches: both move on by one position. */
  lemma {:induction false} ScanAfterMiss(text: string, name: string, from: nat)
    requires IsWordName(name) && from <= |text| && !MatchAt(text, Lower(name), from)
    ensures MatchStarts(text, Lower(name), from) == WholeWordsFrom(text, name, from)
    decreases |text| + 1 - from, 0
  {
    assert WholeWordsFrom(text, name, from) == WholeWordsFrom(text, name, from + 1) by {
      MatchAtWholeWord(text, name, from);
    }
    assert MatchStarts(text, Lower(name), from) == MatchStarts(text, Lower(name), from + 1);
    MatchStartsAreWholeWords(text, name, from + 1);
  }

  /** An entry contributes one mention per match. */
  lemma ProductMentionsCount(text: string, p: Product)
    ensures |ProductMentionsOf(text, p)| == |MatchStarts(text, Lower(p.name), 0)|
  {
  }

  /** An entry's mentions, one per match of the global scan, each with the entry's key, the
      matched text, and the entry's context unless that equals the matched text. */
  lemma ProductMentionsShape(text: string, p: Product)
    ensures var ms := ProductMentionsOf(text, p);
      var starts := MatchStarts(text, Lower(p.name), 0);
      |ms| == |starts|
      && forall k | 0 <= k < |ms| ::
        starts[k] + |p.name| <= |text|
        && ms[k].product == p.key
        && ms[k].mentionText == text[starts[k]..starts[k] + |p.name|]
    ensures forall m | m in ProductMentionsOf(text, p) ::
      (m.context == None <==> m.mentionText == Context(text, p.name))
      && (m.context != None ==> m.context == Some(Context(text, p.name)))
  {
    assert |Lower(p.name)| == |p.name|;
  }

  /** The `k`-th mention of an entry with a plain name sits at the `k`-th whole-word
      occurrence. */
  lemma MentionAtWholeWord(text: string, p: Product, k: nat)
    requires IsWordName(p.name) && k < |MatchStarts(text, Lower(p.name), 0)|
    ensures var pos := WholeWordPositions(text, p.name);
      var m := ProductMentionsOf(text, p)[k];
      k < |pos| && pos[k] + |p.name| <= |text|
      && m.product == p.key && m.mentionText == text[pos[k]..pos[k] + |p.name|]
      && Lower(m.mentionText) == Lower(p.name)
  {
    var pat := Lower(p.name);
    var i := MatchStarts(text, pat, 0)[k];
    var m := ProductMentionsOf(text, p)[k];
    assert m.product == p.key && m.mentionText == text[i..i + |p.name|] by {
      assert |pat| == |p.name|;
    }
    assert Lower(text[i..i + |p.name|]) == Lower(p.name) by {
      MatchStartsSound(text, pat, 0, k);
      LowerIdempotent(p.name);
    }
    MatchStartsAreWholeWords(text, p.name, 0);
  }

  /** For a plain name the entry's mentions correspond one to one, in order, to the whole-word
      occurrences of the name: each carries the entry's key and the occurrence's own text. */
  lemma ProductMentionsAtWholeWords(text: string, p: Product)
    requires IsWordName(p.name)
    ensures var ms := ProductMentionsOf(text, p);
      var pos := WholeWordPositions(text, p.name);
      |ms| == |pos|
      && forall k | 0 <= k < |ms| ::
        pos[k] + |p.name| <= |text|
        && ms[k].product == p.key
        && ms[k].mentionText == text[pos[k]..pos[k] + |p.name|]
        && Lower(ms[k].mentionText) == Lower(p.name)
  {
    MatchStartsAreWholeWords(text, p.name, 0);
    ProductMentionsCount(text, p);
    forall k | 0 <= k < |ProductMentionsOf(text, p)|
      ensures var pos := WholeWordPositions(text, p.name);
        var m := ProductMentionsOf(text, p)[k];
        pos[k] + |p.name| <= |text|
        && m.product == p.key && m.mentionText == text[pos[k]..pos[k] + |p.name|]
        && Lower(m.mentionText) == Lower(p.name)
    {
      MentionAtWholeWord(text, p, k);
    }
  }

  /** A name glued to a word character, as in "Echoing", is not mentioned. */
  lemma GluedNameIsNoMention()
    ensures Detect("Echoing", [Product("ECHO", "Echo")]) == []
  {
    var text := "Echoing";
    var name := "Echo";
    assert IsWordName(name);
    forall i: nat | i <= |text| ensures !WholeWordAt(text, name, i) {
      if i == 0 {
        assert WordAt(text, 4);
      } else if i + 4 <= 7 {
        assert Lower(text)[i] != 'e';
      }
    }
    MatchStartsAreWholeWords(text, name, 0);
    DetectEmptyIff(text, [Product("ECHO", "Echo")]);
  }

  /** When the lower-cased name occurs in the lower-cased text, the window runs from 20
      characters before that first occurrence to 20 characters after it, clipped to the text,
      so it always holds the whole occurrence. */
  lemma ContextWindow(text: string, name: string)
    requires Contains(Lower(text), Lower(name))
    ensures var index := IndexOf(Lower(text), Lower(name));
      var start := Max(0, index - ContextRadius);
      var end := Min(|text|, index + |name| + ContextRadius);
      && 0 <= index && index + |name| <= |text|
      && 0 <= start <= index && index + |name| <= end <= |text|
      && Context(text, name) == Trim(text[start..end])
  {
  }

  /** Whenever an entry is matched, its window is well placed: it surrounds the first plain
      occurrence of the name, which lies at or before the first match, and every mention of the
      entry carries that same window, omitted exactly where it equals the mention's text. */
  lemma ContextWindowOfMatchedEntry(text: string, p: Product)
    requires MatchStarts(text, Lower(p.name), 0) != []
    ensures Contains(Lower(text), Lower(p.name))
    ensures IndexOf(Lower(text), Lower(p.name)) <= MatchStarts(text, Lower(p.name), 0)[0]
    ensures forall m | m in ProductMentionsOf(text, p) ::
      (m.context == None <==> m.mentionText == Context(text, p.name))
      && (m.context != None ==> m.context == Some(Context(text, p.name)))
  {
    var pat := Lower(p.name);
    var first := MatchStarts(text, pat, 0)[0];
    assert OccursAt(Lower(text), pat, first) by {
      MatchStartsSound(text, pat, 0, 0);
      LowerIdempotent(p.name);
      LowerSlice(text, first, first + |pat|);
    }
    ProductMentionsShape(text, p);
  }

  /** In "Echoes and Echo" the only whole-word "Echo" is the final one. */
  lemma EchoPositions()
    ensures WholeWordPositions("Echoes and Echo", "Echo") == [11]
  {
    var text := "Echoes and Echo";
    var name := "Echo";
    EchoSkipFront();
    assert WholeWordsFrom(text, name, 11) == [11] + WholeWordsFrom(text, name, 12) by {
      EchoAtEleven();
    }
    EchoSkipBack();
  }

  /** No whole-word "Echo" starts before position 11 of "Echoes and Echo". */
  lemma EchoSkipFront()
    ensures WholeWordsFrom("Echoes and Echo", "Echo", 0) == WholeWordsFrom("Echoes and Echo", "Echo", 11)
  {
    var text := "Echoes and Echo";
    var name := "Echo";
    var lower := "echoes and echo";
    assert Lower(text) == lower && Lower(name) == "echo";
    forall i: nat | i < 11 ensures !WholeWordAt(text, name, i) {
      if i == 0 {
        assert WordAt(text, 4);
      } else {
        assert lower[i] != 'e' || lower[i + 1] != 'c';
      }
    }
    WholeWordsSkip(text, name, 0, 11);
  }

  /** The "Echo" at position 11 of "Echoes and Echo" is a whole word. */
  lemma EchoAtEleven()
    ensures WholeWordAt("Echoes and Echo", "Echo", 11)
  {
    var text := "Echoes and Echo";
    assert Lower(text) == "echoes and echo" && Lower("Echo") == "echo";
    assert Lower(text)[11..15] == "echo";
  }

  /** No whole-word "Echo" starts after position 11 of "Echoes and Echo". */
  lemma EchoSkipBack()
    ensures WholeWordsFrom("Echoes and Echo", "Echo", 12) == []
  {
    var text := "Echoes and Echo";
    var name := "Echo";
    forall i: nat | 12 <= i <= 15 ensures !WholeWordAt(text, name, i) {
      assert |Lower(name)| == 4;
    }
    WholeWordsSkip(text, name, 12, 15);
    assert WholeWordsFrom(text, name, 15) == [] + WholeWordsFrom(text, name, 16);
  }

  /** ... and the expression `\bEcho\b` matches that one occurrence only. */
  lemma EchoMatches()
    ensures MatchTexts("Echoes and Echo", Lower("Echo")) == ["Echo"]
  {
    var text := "Echoes and Echo";
    var name := "Echo";
    assert text[11..15] == name;
    assert IsWordName(name);
    EchoPositions();
    MatchStartsAreWholeWords(text, name, 0);
    assert MatchStarts(text, Lower(name), 0) == [11];
  }

  /** The window follows the first plain occurrence even when that occurrence is not a whole
      word: in "Echoes and Echo" the only match is the final "Echo", yet the window (here the
      whole text) is centred on "Echoes". */
  lemma ContextFollowsFirstPlainOccurrence()
    ensures IndexOf(Lower("Echoes and Echo"), Lower("Echo")) == 0
    ensures Detect("Echoes and Echo", [Product("ECHO", "Echo")])
         == [Mention("ECHO", "Echo", Some("Echoes and Echo"))]
  {
    var text := "Echoes and Echo";
    var p := Product("ECHO", "Echo");
    EchoContext();
    EchoMatches();
    assert ProductMentionsOf(text, p) == [MentionOf("ECHO", "Echo", text)];
    DetectSnoc(text, [], p);
    assert [] + [p] == [p];
  }

  /** In "Echoes and Echo" the first plain occurrence of "echo" is at 0, and the window around
      it is the whole text. */
  lemma EchoContext()
    ensures IndexOf(Lower("Echoes and Echo"), Lower("Echo")) == 0
    ensures Context("Echoes and Echo", "Echo") == "Echoes and Echo"
  {
    var text := "Echoes and Echo";
    var name := "Echo";
    assert IndexOf(Lower(text), Lower(name)) == 0 by {
      assert OccursAt(Lower(text), Lower(name), 0);
    }
    ContextWindow(text, name);
    assert text[0..15] == text;
    assert TrimStart(text) == text && TrimEnd(text) == text;
  }
}
