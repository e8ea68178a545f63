/**
 * The note classifier: keyword tagging and the sentiment thresholds.
 * The polarity score itself comes from a lexicon library and is an input here.
 */
module Analyzer {
  import opened Text

  /** One row of the keyword table: a tag name and the substrings that trigger it. */
  type KeywordEntry = (string, seq<string>)

  /** The keyword table, in declaration order. */
  const Keywords: seq<KeywordEntry> := [
    ("focus", ["focus", "study", "work"]),
    ("growth", ["learn", "improve", "skill"]),
    ("burnout", ["tired", "exhausted", "burnout"])
  ]

  const Separator: string := ", "
  const Uncategorized: string := "uncategorized"

  /** Some word of `words` is a substring of `text`. */
  predicate AnyOccurs(words: seq<string>, text: string) {
    exists w :: w in words && Contains(text, w)
  }

  /** Names of the entries of `table` that `text` triggers, in table order. */
  function MatchedTags(table: seq<KeywordEntry>, text: string): (tags: seq<string>)
    ensures |tags| <= |table|
  {
    if table == [] then []
    else
      var last := table[|table| - 1];
      MatchedTags(table[..|table| - 1], text) + (if AnyOccurs(last.1, text) then [last.0] else [])
  }

  /** The string `auto_tag` returns for `content`. */
  function AutoTagOf(content: string): (r: string)
    ensures |r| > 0
  {
    var tags := MatchedTags(Keywords, Lower(content));
    MatchedTagsUnfold(Lower(content));
    if tags != [] then Join(tags, Separator) else Uncategorized
  }

  /** Position of a tag name in the keyword table (3 for anything else). */
  function TagRank(tag: string): nat {
    if tag == "focus" then 0
    else if tag == "growth" then 1
    else if tag == "burnout" then 2
    else 3
  }

  /** The source's `any(word in text for word in words)`: stops at the first word that occurs. */
  method AnyWordOccurs(words: seq<string>, text: string) returns (found: bool)
    ensures found <==> AnyOccurs(words, text)
  {
    found := false;
    var j := 0;
    while j < |words| && !found
      invariant 0 <= j <= |words|
      invariant found <==> exists k :: 0 <= k < j && Contains(text, words[k])
    {
      found := Contains(text, words[j]);
      j := j + 1;
    }
    if found {
      var k :| 0 <= k < j && Contains(text, words[k]);
      assert words[k] in words;
    } else {
      forall w | w in words ensures !Contains(text, w) {
        var k :| 0 <= k < |words| && words[k] == w;
      }
    }
  }

  /**
   * `auto_tag`: lower-cases the note, walks the keyword table in order, keeps every
   * tag one of whose words occurs, and joins the kept tags with ", "; with no match
   * the result is "uncategorized".
   */
  method AutoTag(content: string) returns (tags: string)
    ensures tags == AutoTagOf(content)
  {
    var lowered := Lower(content);
    var matched: seq<string> := [];
    for i := 0 to |Keywords|
      invariant matched == MatchedTags(Keywords[..i], lowered)
    {
      var hit := AnyWordOccurs(Keywords[i].1, lowered);
      if hit {
        matched := matched + [Keywords[i].0];
      }
      assert Keywords[..i + 1][..i] == Keywords[..i];
    }
    assert Keywords[..|Keywords|] == Keywords;
    tags := if matched != [] then Join(matched, Separator) else Uncategorized;
  }

  /** A tag is matched exactly when one of its own trigger words occurs. */
  lemma {:induction false} MatchedTagsMember(table: seq<KeywordEntry>, text: string, t: string)
    ensures t in MatchedTags(table, text) <==>
            exists k :: 0 <= k < |table| && table[k].0 == t && AnyOccurs(table[k].1, text)
  {
    if table != [] {
      var n := |table| - 1;
      MatchedTagsMember(table[..n], text, t);
      if exists k :: 0 <= k < n && table[..n][k].0 == t && AnyOccurs(table[..n][k].1, text) {
        var k :| 0 <= k < n && table[..n][k].0 == t && AnyOccurs(table[..n][k].1, text);
        assert table[k] == table[..n][k];
      }
      if exists k :: 0 <= k < |table| && table[k].0 == t && AnyOccurs(table[k].1, text) {
        var k :| 0 <= k < |table| && table[k].0 == t && AnyOccurs(table[k].1, text);
        if k < n {
          assert table[k] == table[..n][k];
        }
      }
    }
  }

  /** The matched tags of the keyword table, written out entry by entry. */
  lemma MatchedTagsUnfold(text: string)
    ensures MatchedTags(Keywords, text) ==
            Picks(AnyOccurs(Keywords[0].1, text), AnyOccurs(Keywords[1].1, text), AnyOccurs(Keywords[2].1, text))
  {
    var t0 := if AnyOccurs(Keywords[0].1, text) then ["focus"] else [];
    var t1 := if AnyOccurs(Keywords[1].1, text) then ["growth"] else [];
    var t2 := if AnyOccurs(Keywords[2].1, text) then ["burnout"] else [];
    assert Keywords[..1][..0] == [] && Keywords[..1][0] == Keywords[0];
    assert MatchedTags(Keywords[..1], text) == t0;
    assert Keywords[..2][..1] == Keywords[..1] && Keywords[..2][1] == Keywords[1];
    assert MatchedTags(Keywords[..2], text) == t0 + t1;
    assert Keywords[..|Keywords| - 1] == Keywords[..2];
  }

  /**
   * Each tag is reported exactly when the lower-cased note contains one of its
   * trigger words.
   */
  lemma TagTriggers(content: string)
    ensures var text, tags := Lower(content), MatchedTags(Keywords, Lower(content));
      && ("focus" in tags <==> Contains(text, "focus") || Contains(text, "study") || Contains(text, "work"))
      && ("growth" in tags <==> Contains(text, "learn") || Contains(text, "improve") || Contains(text, "skill"))
      && ("burnout" in tags <==> Contains(text, "tired") || Contains(text, "exhausted") || Contains(text, "burnout"))
  {
    var text := Lower(content);
    MatchedTagsUnfold(text);
    assert AnyOccurs(Keywords[0].1, text) <==> Contains(text, "focus") || Contains(text, "study") || Contains(text, "work") by {
      assert Keywords[0].1 == ["focus", "study", "work"];
    }
    assert AnyOccurs(Keywords[1].1, text) <==> Contains(text, "learn") || Contains(text, "improve") || Contains(text, "skill") by {
      assert Keywords[1].1 == ["learn", "improve", "skill"];
    }
    assert AnyOccurs(Keywords[2].1, text) <==> Contains(text, "tired") || Contains(text, "exhausted") || Contains(text, "burnout") by {
      assert Keywords[2].1 == ["tired", "exhausted", "burnout"];
    }
  }

  /**
   * The matched tags follow the table's declaration order (focus, growth, burnout),
   * so each appears at most once and nothing else appears.
   */
  lemma TagsInDeclaredOrder(text: string)
    ensures var tags := MatchedTags(Keywords, text);
      forall i, j :: 0 <= i < j < |tags| ==> TagRank(tags[i]) < TagRank(tags[j]) < 3
    ensures forall t :: t in MatchedTags(Keywords, text) ==> t == "focus" || t == "growth" || t == "burnout"
  {
    var f, g, b := AnyOccurs(Keywords[0].1, text), AnyOccurs(Keywords[1].1, text), AnyOccurs(Keywords[2].1, text);
    MatchedTagsUnfold(text);
    PicksInOrder(f, g, b);
    var tags, picks := MatchedTags(Keywords, text), Picks(f, g, b);
    assert tags == picks;
    forall i, j | 0 <= i < j < |tags| ensures TagRank(tags[i]) < TagRank(tags[j]) < 3 {
      assert tags[i] == picks[i] && tags[j] == picks[j];
    }
  }

  /** The tags picked by three independent tests, laid out in table order. */
  function Picks(f: bool, g: bool, b: bool): seq<string> {
    (if f then ["focus"] else []) + (if g then ["growth"] else []) + (if b then ["burnout"] else [])
  }

  lemma PicksInOrder(f: bool, g: bool, b: bool)
    ensures var tags := Picks(f, g, b);
      forall i, j :: 0 <= i < j < |tags| ==> TagRank(tags[i]) < TagRank(tags[j]) < 3
    ensures forall t :: t in Picks(f, g, b) ==> t == "focus" || t == "growth" || t == "burnout"
  {
    var tags := Picks(f, g, b);
    assert TagRank("focus") == 0 && TagRank("growth") == 1 && TagRank("burnout") == 2;
    if f && g && b {
      assert tags == ["focus", "growth", "burnout"];
    } else if f && g {
      assert tags == ["focus", "growth"];
    } else if f && b {
      assert tags == ["focus", "burnout"];
    } else if g && b {
      assert tags == ["growth", "burnout"];
    } else if f {
      assert tags == ["focus"];
    } else if g {
      assert tags == ["growth"];
    } else if b {
      assert tags == ["burnout"];
    } else {
      assert tags == [];
    }
  }

  /** No trigger word of any tag is a substring of `text`. */
  predicate NoTriggerOccurs(text: string) {
    forall k, w :: 0 <= k < |Keywords| && w in Keywords[k].1 ==> !Contains(text, w)
  }

  /**
   * The result is "uncategorized" exactly when no trigger word of any tag occurs in
   * the lower-cased note; otherwise it is the matched tags joined with ", ".
   */
  lemma UncategorizedIffNoTrigger(content: string)
    ensures AutoTagOf(content) == Uncategorized <==> NoTriggerOccurs(Lower(content))
    ensures AutoTagOf(content) != Uncategorized ==>
            AutoTagOf(content) == Join(MatchedTags(Keywords, Lower(content)), Separator)
  {
    var text := Lower(content);
    var tags := MatchedTags(Keywords, text);
    if tags != [] {
      TagsInDeclaredOrder(text);
      assert tags[0] in tags;
      JoinedTagsNotUncategorized(tags);
      assert AutoTagOf(content) == Join(tags, Separator);
      SomeTriggerOccurs(text, tags[0]);
    } else {
      assert AutoTagOf(content) == Uncategorized;
      forall k, w | 0 <= k < |Keywords| && w in Keywords[k].1 ensures !Contains(text, w) {
        MatchedTagsMember(Keywords, text, Keywords[k].0);
      }
    }
  }

  /** A kept tag is witnessed by one of its own trigger words occurring in the text. */
  lemma SomeTriggerOccurs(text: string, t: string)
    requires t in MatchedTags(Keywords, text)
    ensures !NoTriggerOccurs(text)
  {
    MatchedTagsMember(Keywords, text, t);
    var k :| 0 <= k < |Keywords| && Keywords[k].0 == t && AnyOccurs(Keywords[k].1, text);
    var w :| w in Keywords[k].1 && Contains(text, w);
    assert 0 <= k < |Keywords| && w in Keywords[k].1 && Contains(text, w);
  }

  /** A join of tag names never spells "uncategorized": it starts with the first name's letter. */
  lemma JoinedTagsNotUncategorized(tags: seq<string>)
    requires tags != []
    requires tags[0] == "focus" || tags[0] == "growth" || tags[0] == "burnout"
    ensures Join(tags, Separator) != Uncategorized
  {
    assert Join(tags, Separator)[0] == tags[0][0] != Uncategorized[0];
  }

  /** Reads a tag string back into the list of tags it names. */
  function ParseTagLine(line: string): seq<string> {
    if line == Uncategorized then [] else SplitTags(line)
  }

  /** The tag string can be read back: it names exactly the matched tags, in order. */
  lemma ParseAutoTag(content: string)
    ensures ParseTagLine(AutoTagOf(content)) == MatchedTags(Keywords, Lower(content))
  {
    var tags := MatchedTags(Keywords, Lower(content));
    if tags != [] {
      TagsInDeclaredOrder(Lower(content));
      assert tags[0] in tags;
      JoinedTagsNotUncategorized(tags);
      forall t | t in tags ensures ',' !in t {
        assert t == "focus" || t == "growth" || t == "burnout";
      }
      SplitJoin(tags);
    }
  }

  /** Matching ignores ASCII case: a note and its lower-cased form get the same tags. */
  lemma AutoTagIgnoresCase(content: string)
    ensures AutoTagOf(Lower(content)) == AutoTagOf(content)
  {
    LowerIdempotent(content);
  }

  /** Matching is by substring: "Working" triggers focus, "skills" triggers growth. */
  lemma SubstringExamples()
    ensures "focus" in MatchedTags(Keywords, Lower("Working"))
    ensures "growth" in MatchedTags(Keywords, Lower("skills"))
  {
    var w := Lower("Working");
    assert w[0..4] == "work";
    assert OccursAt(w, "work", 0);
    var s := Lower("skills");
    assert s[0..5] == "skill";
    assert OccursAt(s, "skill", 0);
    TagTriggers("Working");
    TagTriggers("skills");
  }

  /** `analyze_sentiment`: the label for a polarity score, with thresholds of 0.1 either side. */
  function AnalyzeSentiment(polarity: real): (mood: string)
    ensures mood == "positive" || mood == "negative" || mood == "neutral"
    ensures mood == "positive" <==> polarity > 0.1
    ensures mood == "negative" <==> polarity < -0.1
    ensures mood == "neutral" <==> -0.1 <= polarity <= 0.1
  {
    if polarity > 0.1 then "positive"
    else if polarity < -0.1 then "negative"
    else "neutral"
  }

  /** Labels ordered from most negative to most positive. */
  function SentimentRank(mood: string): nat {
    if mood == "negative" then 0 else if mood == "neutral" then 1 else 2
  }

  /** A higher polarity never gets a more negative label. */
  lemma SentimentMonotone(p: real, q: real)
    requires p <= q
    ensures SentimentRank(AnalyzeSentiment(p)) <= SentimentRank(AnalyzeSentiment(q))
  {
  }
}
