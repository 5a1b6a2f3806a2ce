/**
  The keyword filter of clean.py: the timeline rows whose text matches the
  pattern built by joining the words with "|", searched case-insensitively.
  The pattern is read as an alternation of literal words, which is what the
  regular expression means when no word holds a metacharacter.
*/
module KeywordFilter {
  import opened Text

  type TweetId = int

  /** One row of the timeline table: the columns id, created_at, retweeted and text. */
  datatype Post = Post(id: TweetId, createdAt: int, retweeted: bool, text: string)

  /** The precondition under which this model of the regular expression is faithful. */
  predicate LiteralWords(words: seq<string>) {
    forall k :: 0 <= k < |words| ==> IsLiteralPattern(words[k])
  }

  /**
    The alternatives of the pattern "|".join(words). Joining no words gives the
    empty pattern, whose one alternative is the empty word.
  */
  function Alternatives(words: seq<string>): (alts: seq<string>)
    ensures alts != []
    ensures forall w :: w in words ==> w in alts
    ensures forall w :: w in alts ==> w in words || w == ""
    ensures "" in alts ==> words == [] || "" in words
  {
    if words == [] then [""] else words
  }

  /** The regular expression search: the alternatives are tried from left to right. */
  predicate SearchAlternatives(text: string, alts: seq<string>)
    ensures SearchAlternatives(text, alts) ==> alts != []
    ensures "" in alts ==> SearchAlternatives(text, alts)
  {
    alts != [] && (ContainsIgnoreCase(text, alts[0]) || SearchAlternatives(text, alts[1..]))
  }

  /** The search succeeds exactly when some alternative occurs in the text, ignoring ASCII case. */
  lemma {:induction false} SearchAlternativesIff(text: string, alts: seq<string>)
    ensures SearchAlternatives(text, alts) <==>
      exists k :: 0 <= k < |alts| && ContainsIgnoreCase(text, alts[k])
  {
    if alts != [] {
      SearchAlternativesIff(text, alts[1..]);
      if SearchAlternatives(text, alts) && !ContainsIgnoreCase(text, alts[0]) {
        var k :| 0 <= k < |alts[1..]| && ContainsIgnoreCase(text, alts[1..][k]);
        assert ContainsIgnoreCase(text, alts[k + 1]);
      }
      if !SearchAlternatives(text, alts) {
        forall k | 0 <= k < |alts| ensures !ContainsIgnoreCase(text, alts[k]) {
          if k > 0 {
            assert alts[k] == alts[1..][k - 1];
          }
        }
      }
    }
  }

  /** The row's text matches the pattern "|".join(words). */
  predicate Matches(p: Post, words: seq<string>)
    ensures words == [] ==> Matches(p, words)
  {
    SearchAlternatives(p.text, Alternatives(words))
  }

  /**
    A row matches exactly when no words were given or one of the words occurs
    in its text, ignoring ASCII case.
  */
  lemma {:induction false} MatchesIff(p: Post, words: seq<string>)
    ensures Matches(p, words) <==>
      words == [] || exists k :: 0 <= k < |words| && Occurs(Lower(p.text), Lower(words[k]))
  {
    SearchAlternativesIff(p.text, Alternatives(words));
    forall k | 0 <= k < |words|
      ensures ContainsIgnoreCase(p.text, words[k]) <==> Occurs(Lower(p.text), Lower(words[k]))
    {
      ContainsIgnoreCaseIff(p.text, words[k]);
    }
    if words == [] {
      EmptyWordOccurs(Lower(p.text));
      assert Lower("") == "";
      assert ContainsIgnoreCase(p.text, Alternatives(words)[0]);
    }
  }

  /** The rows that match, in timeline order. */
  function Filter(posts: seq<Post>, words: seq<string>): (kept: seq<Post>)
    requires LiteralWords(words)
    ensures |kept| <= |posts|
  {
    if posts == [] then []
    else
      var last := posts[|posts| - 1];
      var init := Filter(posts[..|posts| - 1], words);
      if Matches(last, words) then init + [last] else init
  }

  /**
    The positions of the matching rows, in increasing order: an independent
    description of which rows the filter keeps.
  */
  function KeptIndices(posts: seq<Post>, words: seq<string>): (idx: seq<nat>)
    requires LiteralWords(words)
    ensures forall k :: 0 <= k < |idx| ==> idx[k] < |posts|
    ensures forall k, l :: 0 <= k < l < |idx| ==> idx[k] < idx[l]
    ensures forall i :: 0 <= i < |posts| ==> (i in idx <==> Matches(posts[i], words))
  {
    if posts == [] then []
    else
      var n := |posts| - 1;
      var init := KeptIndices(posts[..n], words);
      assert forall i :: 0 <= i < n ==> posts[..n][i] == posts[i];
      if Matches(posts[n], words) then init + [n] else init
  }

  /**
    The filter is the subsequence of the input at the matching positions: it
    keeps the original relative order and every kept row is unchanged.
  */
  lemma {:induction false} FilterSelectsMatching(posts: seq<Post>, words: seq<string>)
    requires LiteralWords(words)
    ensures |Filter(posts, words)| == |KeptIndices(posts, words)|
    ensures forall k :: 0 <= k < |Filter(posts, words)| ==>
      Filter(posts, words)[k] == posts[KeptIndices(posts, words)[k]]
  {
    if posts != [] {
      var n := |posts| - 1;
      var init := posts[..n];
      FilterSelectsMatching(init, words);
      var kept, idx := Filter(init, words), KeptIndices(init, words);
      forall k | 0 <= k < |idx| ensures init[idx[k]] == posts[idx[k]] { }
      if Matches(posts[n], words) {
        assert Filter(posts, words) == kept + [posts[n]];
        assert KeptIndices(posts, words) == idx + [n];
      } else {
        assert Filter(posts, words) == kept;
        assert KeptIndices(posts, words) == idx;
      }
    }
  }

  /** No two rows share an id. */
  predicate UniqueIds(rows: seq<Post>) {
    forall i, j :: 0 <= i < j < |rows| ==> rows[i].id != rows[j].id
  }

  /** Filtering a table whose ids are unique leaves them unique. */
  lemma {:induction false} FilterKeepsIdsUnique(posts: seq<Post>, words: seq<string>)
    requires LiteralWords(words)
    requires UniqueIds(posts)
    ensures UniqueIds(Filter(posts, words))
  {
    FilterSelectsMatching(posts, words);
    var idx := KeptIndices(posts, words);
    forall i, j | 0 <= i < j < |Filter(posts, words)|
      ensures Filter(posts, words)[i].id != Filter(posts, words)[j].id
    {
      assert idx[i] < idx[j];
    }
  }

  /** A row of the input is in the output exactly when it matches. */
  lemma {:induction false} FilterKeepsExactlyMatching(posts: seq<Post>, words: seq<string>)
    requires LiteralWords(words)
    ensures forall i :: 0 <= i < |posts| ==> (posts[i] in Filter(posts, words) <==> Matches(posts[i], words))
  {
    var kept := Filter(posts, words);
    var idx := KeptIndices(posts, words);
    FilterSelectsMatching(posts, words);
    forall i | 0 <= i < |posts| && Matches(posts[i], words) ensures posts[i] in kept {
      var k :| 0 <= k < |idx| && idx[k] == i;
      assert kept[k] == posts[i];
    }
  }

  /** Every row the filter returns matches the words. */
  lemma {:induction false} FilterSound(posts: seq<Post>, words: seq<string>)
    requires LiteralWords(words)
    ensures forall k :: 0 <= k < |Filter(posts, words)| ==> Matches(Filter(posts, words)[k], words)
  {
    if posts != [] {
      FilterSound(posts[..|posts| - 1], words);
    }
  }

  /** A sequence whose every row matches passes the filter unchanged. */
  lemma {:induction false} FilterOfMatchingIsIdentity(posts: seq<Post>, words: seq<string>)
    requires LiteralWords(words)
    requires forall k :: 0 <= k < |posts| ==> Matches(posts[k], words)
    ensures Filter(posts, words) == posts
  {
    if posts != [] {
      var n := |posts| - 1;
      var init := posts[..n];
      FilterOfMatchingIsIdentity(init, words);
      assert Matches(posts[n], words);
      assert Filter(posts, words) == init + [posts[n]];
      assert init + [posts[n]] == posts;
    }
  }

  /** Filtering twice with the same words gives the same rows as filtering once. */
  lemma {:induction false} FilterIdempotent(posts: seq<Post>, words: seq<string>)
    requires LiteralWords(words)
    ensures Filter(Filter(posts, words), words) == Filter(posts, words)
  {
    FilterSound(posts, words);
    FilterOfMatchingIsIdentity(Filter(posts, words), words);
  }

  /** With no words the pattern is empty and matches every row. */
  lemma {:induction false} NoWordsKeepsEverything(posts: seq<Post>)
    ensures Filter(posts, []) == posts
  {
    forall k | 0 <= k < |posts| ensures Matches(posts[k], []) {
      EmptyWordOccurs(Lower(posts[k].text));
      assert Lower("") == "";
    }
    FilterOfMatchingIsIdentity(posts, []);
  }

  /** With one word, a row matches when its folded text contains the folded word. */
  lemma MatchesOneWord(p: Post, w: string)
    ensures Matches(p, [w]) == Contains(Lower(p.text), Lower(w))
  {
    var alts := Alternatives([w]);
    assert alts == [w] && alts[0] == w && alts[1..] == [];
    assert !SearchAlternatives(p.text, []);
  }

  /** Filtering one more row of the timeline, unfolded once. */
  lemma FilterStep(posts: seq<Post>, i: nat, words: seq<string>)
    requires LiteralWords(words)
    requires i < |posts|
    ensures Filter(posts[..i + 1], words) ==
      if Matches(posts[i], words) then Filter(posts[..i], words) + [posts[i]] else Filter(posts[..i], words)
  {
    assert posts[..i + 1][..i] == posts[..i];
  }

  /** A five-row timeline in which one would search for "buy" or for "cat"; ids, dates and flags are free. */
  predicate IsScenario(t: seq<Post>) {
    && |t| == 5
    && t[0].text == "hello world"
    && t[1].text == "buy now!!"
    && t[2].text == "CATalog sale"
    && t[3].text == "hi"
    && t[4].text == "BUY stuff"
  }

  /** The scenario's words hold no regular expression metacharacters. */
  lemma ScenarioWordsLiteral()
    ensures LiteralWords(["buy"]) && LiteralWords(["cat"])
  {
  }

  /** The scenario's words and texts, folded to lower case. */
  lemma ScenarioFolded()
    ensures Lower("buy") == "buy" && Lower("cat") == "cat"
    ensures Lower("hello world") == "hello world"
    ensures Lower("buy now!!") == "buy now!!"
    ensures Lower("CATalog sale") == "catalog sale"
    ensures Lower("hi") == "hi"
    ensures Lower("BUY stuff") == "buy stuff"
  {
  }

  /** The literal searches the scenario performs on its folded texts. */
  lemma SearchHelloWorld()
    ensures !Contains("hello world", "buy") && !Contains("hello world", "cat")
  {
    FirstCharAbsent("hello world", "buy");
    FirstCharAbsent("hello world", "cat");
  }

  lemma SearchBuyNow()
    ensures Contains("buy now!!", "buy") && !Contains("buy now!!", "cat")
  {
    FirstCharAbsent("buy now!!", "cat");
  }

  lemma SearchCatalog()
    ensures !Contains("catalog sale", "buy") && Contains("catalog sale", "cat")
  {
    FirstCharAbsent("catalog sale", "buy");
  }

  lemma SearchHi()
    ensures !Contains("hi", "buy") && !Contains("hi", "cat")
  {
    FirstCharAbsent("hi", "buy");
    FirstCharAbsent("hi", "cat");
  }

  lemma SearchBuyStuff()
    ensures Contains("buy stuff", "buy") && !Contains("buy stuff", "cat")
  {
    FirstCharAbsent("buy stuff", "cat");
  }

  /** A row whose folded text is `folded` matches a scenario word when `folded` contains it. */
  lemma RowMatches(p: Post, folded: string)
    requires Lower(p.text) == folded
    ensures Matches(p, ["buy"]) == Contains(folded, "buy")
    ensures Matches(p, ["cat"]) == Contains(folded, "cat")
  {
    ScenarioFolded();
    MatchesOneWord(p, "buy");
    MatchesOneWord(p, "cat");
  }

  /** Which rows of the scenario match "buy" and which match "cat". */
  lemma ScenarioRows(t: seq<Post>)
    requires IsScenario(t)
    ensures !Matches(t[0], ["buy"]) && !Matches(t[0], ["cat"])
    ensures Matches(t[1], ["buy"]) && !Matches(t[1], ["cat"])
    ensures !Matches(t[2], ["buy"]) && Matches(t[2], ["cat"])
    ensures !Matches(t[3], ["buy"]) && !Matches(t[3], ["cat"])
    ensures Matches(t[4], ["buy"]) && !Matches(t[4], ["cat"])
  {
    ScenarioFolded();
    RowMatches(t[0], "hello world");
    SearchHelloWorld();
    RowMatches(t[1], "buy now!!");
    SearchBuyNow();
    RowMatches(t[2], "catalog sale");
    SearchCatalog();
    RowMatches(t[3], "hi");
    SearchHi();
    RowMatches(t[4], "buy stuff");
    SearchBuyStuff();
  }

  /** Filtering the rows one at a time: "buy" keeps the second and the fifth row. */
  lemma FilterSecondAndFifth(t: seq<Post>, w: seq<string>)
    requires LiteralWords(w) && |t| == 5
    requires !Matches(t[0], w) && Matches(t[1], w) && !Matches(t[2], w)
    requires !Matches(t[3], w) && Matches(t[4], w)
    ensures Filter(t, w) == [t[1], t[4]]
  {
    assert Filter(t[..1], w) == [] by { FilterStep(t, 0, w); }
    assert Filter(t[..2], w) == [t[1]] by { FilterStep(t, 1, w); }
    assert Filter(t[..3], w) == [t[1]] by { FilterStep(t, 2, w); }
    assert Filter(t[..4], w) == [t[1]] by { FilterStep(t, 3, w); }
    assert Filter(t[..5], w) == [t[1], t[4]] by { FilterStep(t, 4, w); }
    assert t[..5] == t;
  }

  /** Filtering the rows one at a time: "cat" keeps only the third row. */
  lemma FilterThird(t: seq<Post>, w: seq<string>)
    requires LiteralWords(w) && |t| == 5
    requires !Matches(t[0], w) && !Matches(t[1], w) && Matches(t[2], w)
    requires !Matches(t[3], w) && !Matches(t[4], w)
    ensures Filter(t, w) == [t[2]]
  {
    assert Filter(t[..1], w) == [] by { FilterStep(t, 0, w); }
    assert Filter(t[..2], w) == [] by { FilterStep(t, 1, w); }
    assert Filter(t[..3], w) == [t[2]] by { FilterStep(t, 2, w); }
    assert Filter(t[..4], w) == [t[2]] by { FilterStep(t, 3, w); }
    assert Filter(t[..5], w) == [t[2]] by { FilterStep(t, 4, w); }
    assert t[..5] == t;
  }

  /**
    The search is by substring and ignores case: "buy" picks the rows
    "buy now!!" and "BUY stuff" and leaves "CATalog sale" out.
  */
  lemma ScenarioBuy(t: seq<Post>)
    requires IsScenario(t)
    ensures Filter(t, ["buy"]) == [t[1], t[4]]
  {
    ScenarioWordsLiteral();
    ScenarioRows(t);
    FilterSecondAndFifth(t, ["buy"]);
  }

  /** The search for "cat" picks "CATalog sale": a substring, not a whole word. */
  lemma ScenarioCat(t: seq<Post>)
    requires IsScenario(t)
    ensures Filter(t, ["cat"]) == [t[2]]
  {
    ScenarioWordsLiteral();
    ScenarioRows(t);
    FilterThird(t, ["cat"]);
  }
}
