/** The deterministic parts of `AskFromGemeni`: the prompt it sends and the
    way it turns the service's decoded answer into tags. The HTTP exchange
    itself is a parameter. */
module Gemini {
  import opened Wrappers
  import opened Seqs

  /** The decoded JSON answer: candidates, each with content parts. */
  datatype Part = Part(text: string)
  datatype CandidateContent = CandidateContent(parts: seq<Part>)
  datatype Candidate = Candidate(content: CandidateContent)
  datatype Response = Response(candidates: seq<Candidate>)

  const NoValidResponse := "no valid response from AI"

  /** The answer has a first candidate, and that candidate a first part. */
  predicate HasFirstPart(resp: Response)
  {
    |resp.candidates| > 0 && |resp.candidates[0].content.parts| > 0
  }

  /** The only text the matcher reads. */
  function FirstText(resp: Response): string
    requires HasFirstPart(resp)
  {
    resp.candidates[0].content.parts[0].text
  }

  /** `strings.Contains(answer, tag[1:])`: the tag without its first
      character occurs in the answer. */
  predicate Mentions(answer: string, tag: string)
  {
    |tag| > 0 && Contains(answer, tag[1..])
  }

  function MentionedIn(answer: string): string -> bool
  {
    tag => Mentions(answer, tag)
  }

  /** The default tags the answer mentions, in their order, duplicates kept. */
  function MatchedTags(answer: string, defaultTags: seq<string>): seq<string>
  {
    Filter(defaultTags, MentionedIn(answer))
  }

  /** The matching tail of `AskFromGemeni`: only the first part of the
      first candidate is read; each default tag whose text after its first
      character occurs in it is kept. Go's two results are `tags` and `err`. */
  method MatchAnswer(resp: Response, defaultTags: seq<string>) returns (tags: seq<string>, err: Option<string>)
    requires HasFirstPart(resp) ==> forall t :: t in defaultTags ==> |t| > 0
    ensures err.None? <==> HasFirstPart(resp)
    ensures err.Some? ==> tags == [] && err.value == NoValidResponse
    ensures err.None? ==> tags == MatchedTags(FirstText(resp), defaultTags)
  {
    if |resp.candidates| > 0 && |resp.candidates[0].content.parts| > 0 {
      var aiResponse := resp.candidates[0].content.parts[0].text;
      var matchedTags := [];
      for i := 0 to |defaultTags|
        invariant matchedTags == Filter(defaultTags[..i], MentionedIn(aiResponse))
      {
        var tag := defaultTags[i];
        assert tag in defaultTags;
        FilterSnoc(defaultTags[..i], tag, MentionedIn(aiResponse));
        assert defaultTags[..i + 1] == defaultTags[..i] + [tag];
        if Contains(aiResponse, tag[1..]) {
          matchedTags := matchedTags + [tag];
        }
      }
      assert defaultTags[..|defaultTags|] == defaultTags;
      return matchedTags, None;
    }
    return [], Some(NoValidResponse);
  }

  /** What the matched tags are: a subsequence of the default tags holding
      exactly those mentioned in the answer, each as often as it occurs
      among the default tags. */
  lemma MatchedTagsMeaning(answer: string, defaultTags: seq<string>)
    requires forall t :: t in defaultTags ==> |t| > 0
    ensures IsSubsequence(MatchedTags(answer, defaultTags), defaultTags)
    ensures forall t :: t in MatchedTags(answer, defaultTags) <==> t in defaultTags && Contains(answer, t[1..])
    ensures forall t :: t in defaultTags && Contains(answer, t[1..]) ==>
      multiset(MatchedTags(answer, defaultTags))[t] == multiset(defaultTags)[t]
    ensures forall t :: !(t in defaultTags && Contains(answer, t[1..])) ==>
      multiset(MatchedTags(answer, defaultTags))[t] == 0
  {
    FilterIsSubsequence(defaultTags, MentionedIn(answer));
    forall t {
      FilterMultiplicity(defaultTags, MentionedIn(answer), t);
    }
  }

  /** A tag is matched exactly when its text after the first character
      starts at some offset of the answer. */
  lemma MatchedTagIffSubstring(answer: string, defaultTags: seq<string>, t: string)
    requires t in defaultTags && |t| > 0
    ensures t in MatchedTags(answer, defaultTags) <==> exists k: nat :: OccursAt(answer, t[1..], k)
  {
    ContainsIff(answer, t[1..]);
  }

  /** Go's `%v` rendering of a string slice: the elements separated by
      single spaces, inside brackets. */
  function JoinSpaced(xs: seq<string>): string
  {
    if xs == [] then ""
    else if |xs| == 1 then xs[0]
    else xs[0] + " " + JoinSpaced(xs[1..])
  }

  function FormatList(xs: seq<string>): string
  {
    "[" + JoinSpaced(xs) + "]"
  }

  const PromptHead := "Given the content: '"
  const PromptMiddle := "', which of the following tags are most relevant? "
  const PromptTail := ". Just write only tags"

  /** The prompt of connection.go line 55. */
  function Prompt(content: string, defaultTags: seq<string>): (p: string)
    ensures |p| == |PromptHead| + |content| + |PromptMiddle| + |FormatList(defaultTags)| + |PromptTail|
    ensures p[..|PromptHead|] == PromptHead
    ensures p[|PromptHead|..|PromptHead| + |content|] == content
    ensures p[|PromptHead| + |content|..|p| - |PromptTail|] == PromptMiddle + FormatList(defaultTags)
    ensures p[|p| - |PromptTail|..] == PromptTail
  {
    PromptHead + content + PromptMiddle + FormatList(defaultTags) + PromptTail
  }

  /** With the same tag list, different contents give different prompts:
      the content can be read back from the prompt. */
  lemma PromptInjective(c1: string, c2: string, defaultTags: seq<string>)
    requires Prompt(c1, defaultTags) == Prompt(c2, defaultTags)
    ensures c1 == c2
  {
    var p := Prompt(c1, defaultTags);
    assert |c1| == |c2|;
    assert c1 == p[|PromptHead|..|PromptHead| + |c1|];
  }

  /** Every default tag appears verbatim in the rendered list. */
  lemma {:induction false} FormatListShowsEveryTag(xs: seq<string>, t: string)
    requires t in xs
    ensures Contains(FormatList(xs), t)
  {
    var k := JoinedAt(xs, t);
    ContainsIff(FormatList(xs), t);
    assert FormatList(xs)[k + 1..k + 1 + |t|] == JoinSpaced(xs)[k..k + |t|];
    assert OccursAt(FormatList(xs), t, k + 1);
  }

  lemma {:induction false} JoinedAt(xs: seq<string>, t: string) returns (k: nat)
    requires t in xs
    ensures OccursAt(JoinSpaced(xs), t, k)
  {
    if xs[0] == t {
      k := 0;
      assert JoinSpaced(xs)[..|t|] == t;
    } else {
      assert t in xs[1..];
      var k' := JoinedAt(xs[1..], t);
      k := |xs[0]| + 1 + k';
      assert JoinSpaced(xs) == xs[0] + " " + JoinSpaced(xs[1..]);
      assert JoinSpaced(xs)[k..k + |t|] == JoinSpaced(xs[1..])[k'..k' + |t|];
    }
  }

  /** `AskFromGemeni` with the HTTP round trip as the parameter `generate`
      (a prompt in, the decoded answer out). */
  method AskFromGemeni(content: string, defaultTags: seq<string>, generate: string -> Response)
    returns (tags: seq<string>, err: Option<string>)
    requires HasFirstPart(generate(Prompt(content, defaultTags))) ==> forall t :: t in defaultTags ==> |t| > 0
    ensures var resp := generate(Prompt(content, defaultTags));
      && (err.None? <==> HasFirstPart(resp))
      && (err.Some? ==> tags == [] && err.value == NoValidResponse)
      && (err.None? ==> tags == MatchedTags(FirstText(resp), defaultTags))
  {
    var prompt := Prompt(content, defaultTags);
    var response := generate(prompt);
    tags, err := MatchAnswer(response, defaultTags);
  }
}
