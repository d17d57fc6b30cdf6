/**
  The rendering of activity text (`processContent` in
  components/features/activity/ActivityContent.tsx): the text is split on single spaces, each
  word is shown as a mention, a tag or plain text, and the words are rejoined with one space
  between neighbours.
*/
module ActivityContent {
  import opened Strings

  /** One rendered item: a highlighted `@` word, a highlighted `#` word, a plain word, or the
      separating space. */
  datatype Item = Mention(word: string) | Tag(word: string) | Plain(word: string) | Space

  /** The text an item shows. */
  function ItemText(item: Item): string {
    match item
    case Mention(w) => w
    case Tag(w) => w
    case Plain(w) => w
    case Space => " "
  }

  /** The item for one word: `@` first, then `#`, else plain; the word itself is kept. */
  function Classify(word: string): (item: Item)
    ensures !item.Space? && item.word == word
    ensures item.Mention? <==> StartsWith(word, "@")
    ensures item.Tag? <==> StartsWith(word, "#")
  {
    if StartsWith(word, "@") then Mention(word)
    else if StartsWith(word, "#") then Tag(word)
    else Plain(word)
  }

  /** `words.map(...)`. */
  function ClassifyAll(words: seq<string>): (items: seq<Item>)
    ensures |items| == |words|
    ensures forall i | 0 <= i < |items| :: !items[i].Space?
    ensures Texts(items) == words
  {
    seq(|words|, i requires 0 <= i < |words| => Classify(words[i]))
  }

  /** `.reduce((prev, curr, index) => index === 0 ? [curr] : [...prev, ' ', curr], [])`,
      read as the left fold it is: the last item is appended after the fold of the others. */
  function Interleave(items: seq<Item>): seq<Item>
    decreases |items|
  {
    if |items| == 0 then []
    else if |items| == 1 then [items[0]]
    else Interleave(items[..|items| - 1]) + [Space, items[|items| - 1]]
  }

  /** `processContent(text)`. */
  function ProcessContent(text: string): seq<Item> {
    Interleave(ClassifyAll(Split(text, ' ')))
  }

  /** The texts of the items. */
  function Texts(items: seq<Item>): (r: seq<string>)
    ensures |r| == |items|
    ensures forall i | 0 <= i < |r| :: r[i] == if items[i].Space? then " " else items[i].word
  {
    seq(|items|, i requires 0 <= i < |items| => ItemText(items[i]))
  }

  /** n items give 2n - 1 outputs: the items at the even positions, in order, and a space at
      every odd position. */
  lemma {:induction false} InterleaveShape(items: seq<Item>)
    requires |items| >= 1
    ensures |Interleave(items)| == 2 * |items| - 1
    ensures forall k | 0 <= k < |Interleave(items)| ::
      Interleave(items)[k] == (if k % 2 == 0 then items[k / 2] else Space)
    decreases |items|
  {
    if |items| > 1 {
      var init := items[..|items| - 1];
      InterleaveShape(init);
      var r := Interleave(items);
      assert r == Interleave(init) + [Space, items[|items| - 1]];
      forall k | 0 <= k < |r|
        ensures r[k] == (if k % 2 == 0 then items[k / 2] else Space)
      {
        if k < |Interleave(init)| {
          assert r[k] == Interleave(init)[k];
        }
      }
    }
  }

  /** The texts of the interleaved items of some words are the words joined with spaces. */
  lemma {:induction false} InterleaveJoins(words: seq<string>)
    requires |words| >= 1
    ensures Concat(Texts(Interleave(ClassifyAll(words)))) == Join(words, ' ')
    decreases |words|, 1
  {
    if |words| == 1 {
      assert Texts(Interleave(ClassifyAll(words))) == [words[0]];
    } else {
      InterleaveJoinsLast(words);
    }
  }

  /** The step of `InterleaveJoins`: the last word comes after one space. */
  lemma {:induction false} InterleaveJoinsLast(words: seq<string>)
    requires |words| >= 2
    ensures Concat(Texts(Interleave(ClassifyAll(words)))) == Join(words, ' ')
    decreases |words|, 0
  {
    var n := |words|;
    var init := words[..n - 1];
    var items := ClassifyAll(words);
    var front := Interleave(ClassifyAll(init));
    assert Texts(Interleave(items)) == Texts(front) + [" ", words[n - 1]] by {
      assert items[..n - 1] == ClassifyAll(init);
      assert Interleave(items) == front + [Space, Classify(words[n - 1])];
    }
    InterleaveJoins(init);
    ConcatAppend(Texts(front), [" ", words[n - 1]]);
    ConcatPair(" ", words[n - 1]);
    JoinSnoc(words, ' ');
  }

  /** Round trip: the rendered texts, concatenated, are the input exactly. */
  lemma RoundTrip(text: string)
    ensures Concat(Texts(ProcessContent(text))) == text
  {
    InterleaveJoins(Split(text, ' '));
    JoinSplit(text, ' ');
  }

  /** k spaces give k + 1 words, so 2k + 1 items, with a space item at every odd position;
      no word contains a space. */
  lemma ProcessContentShape(text: string)
    ensures |ProcessContent(text)| == 2 * CountChar(text, ' ') + 1
    ensures forall k | 0 <= k < |ProcessContent(text)| ::
      (k % 2 == 1 <==> ProcessContent(text)[k] == Space)
    ensures forall k | 0 <= k < |ProcessContent(text)| && k % 2 == 0 ::
      ' ' !in ProcessContent(text)[k].word
  {
    var words := Split(text, ' ');
    SplitLength(text, ' ');
    SplitPiecesFree(text, ' ');
    InterleaveShape(ClassifyAll(words));
    forall k | 0 <= k < |ProcessContent(text)| && k % 2 == 0
      ensures ' ' !in ProcessContent(text)[k].word
    {
      assert words[k / 2] in words;
    }
  }

  /** Empty content yields one empty plain word. */
  lemma EmptyContent()
    ensures ProcessContent("") == [Plain("")]
  {
  }

  /** Two consecutive spaces leave an empty plain word between the words around them. */
  lemma DoubleSpace(first: string, last: string)
    requires ' ' !in first && ' ' !in last
    ensures ProcessContent(first + "  " + last) ==
      [Classify(first), Space, Plain(""), Space, Classify(last)]
  {
    var tail := "" + [' '] + last;
    assert Split(tail, ' ') == ["", last] by {
      SplitAppendSep("", ' ', last);
      SplitNoSep(last, ' ');
      SplitNoSep("", ' ');
    }
    assert Split(first + "  " + last, ' ') == [first, "", last] by {
      assert first + "  " + last == first + [' '] + tail;
      SplitAppendSep(first, ' ', tail);
      SplitNoSep(first, ' ');
    }
    var items := ClassifyAll([first, "", last]);
    assert items == [Classify(first), Plain(""), Classify(last)];
    assert items[..2][..1] == [Classify(first)];
    assert Interleave(items[..2]) == [Classify(first), Space, Plain("")];
  }

  /** For example, a mention and a tag two spaces apart. */
  lemma MentionAndTag()
    ensures ProcessContent("@a  #b") == [Mention("@a"), Space, Plain(""), Space, Tag("#b")]
  {
    assert "@a  #b" == "@a" + "  " + "#b";
    DoubleSpace("@a", "#b");
    assert "@a"[..1] == "@" && "#b"[..1] == "#";
  }
}
