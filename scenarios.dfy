/** The worked examples of the tagging contract, checked against the model. */
module Scenarios {
  import opened Wrappers
  import opened Hashtags
  import opened TagRepo

  const Post := "Great match today #football #world-cup"

  lemma PostPrefixHasNoTag()
    ensures SpansFrom(Post, 0) == SpansFrom(Post, 18)
  {
    assert forall m :: 0 <= m < 18 ==> Post[m] != '#';
    SpansSkip(Post, 0, 18);
  }

  lemma FootballMatch()
    ensures StartsTag(Post, 18) && TagEnd(Post, 18) == 27
  {
    assert Post[18] == '#' && Post[19] == 'f' && Post[27] == ' ';
    assert forall m :: 19 <= m < 27 ==> IsWordChar(Post[m]);
    WordEndAt(Post, 19, 27);
  }

  lemma WorldRun()
    ensures WordEnd(Post, 29) == 34
  {
    assert Post[34] == '-';
    assert forall m :: 29 <= m < 34 ==> IsWordChar(Post[m]);
    WordEndAt(Post, 29, 34);
  }

  lemma CupRun()
    ensures WordEnd(Post, 35) == 38
  {
    assert |Post| == 38;
    assert forall m :: 35 <= m < 38 ==> IsWordChar(Post[m]);
    WordEndAt(Post, 35, 38);
  }

  lemma WorldCupMatch()
    ensures StartsTag(Post, 28) && TagEnd(Post, 28) == 38
  {
    assert Post[28] == '#' && Post[29] == 'w' && Post[34] == '-' && Post[35] == 'c';
    WorldRun();
    CupRun();
    assert SegmentsEnd(Post, 38) == 38;
    assert SegmentsEnd(Post, 34) == 38;
  }

  lemma PostSpans()
    ensures SpansFrom(Post, 0) == [(18, 27), (28, 38)]
  {
    PostPrefixHasNoTag();
    FootballMatch();
    WorldCupMatch();
    assert SpansFrom(Post, 38) == [];
    assert SpansFrom(Post, 28) == [(28, 38)];
    assert SpansFrom(Post, 27) == SpansFrom(Post, 28);
  }

  lemma TextsOfPost()
    ensures Post[18..27] == "#football" && Post[28..38] == "#world-cup"
  {
  }

  /** `#world-cup` is one token; `#football` and it are two. */
  lemma PostHashtags()
    ensures FindAll(Post) == ["#football", "#world-cup"]
  {
    PostSpans();
    TextsOfPost();
  }

  /** The whole pipeline on that post, owned by `u1`, with the catalog
      `["Sports"]` and the AI suggesting `["Sports"]`. */
  lemma PostClassified()
    ensures Classify(Tweet("t1", Post, Owner("u1"), map[]), Ok(["Sports"]), _ => Ok(["Sports"]))
      == Ok(Tweet("", "", Owner(""),
                  map["level1" := ["u1"], "level2" := ["Sports"], "level3" := ["#football", "#world-cup"]]))
  {
    PostHashtags();
    assert Catalog(["Sports"]) == {"Sports"};
    assert Level2(["Sports"], {"Sports"}) == ["Sports"];
  }

  /** A suggestion outside the catalog is dropped. */
  lemma UnknownSuggestionDropped()
    ensures Level2(["Sports", "Nonsense"], {"Sports", "Politics"}) == ["Sports"]
  {
  }

  /** No overlap with the catalog gives the default tag. */
  lemma NoOverlapGivesDefault()
    ensures Level2(["X", "Y"], {"Z"}) == [DefaultTag]
  {
  }
}
