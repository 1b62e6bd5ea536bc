/** The CV project-description workflow: five nodes in a line with a
    review loop, an input gate in front of it, and the loop's routing rule.

    The agents behind the nodes (prompt enhancer, author, reviewer, editor,
    critic) are language-model calls and are not part of this model: a node
    is modelled by the agent call it makes, or the error it throws first. */
module CvWorkflow {
  import opened Wrappers
  import opened Text
  import opened Values

  const MaxReviewCycles: int := 2
  const MinAcceptableScore: real := 4.0

  datatype Review = Review(overallReview: string, improvements: seq<string>)

  /** The run state, each agent output reduced to the fields the nodes read;
      `None` is a missing (`undefined`) value. */
  datatype CvState = CvState(
    userDraft: string,
    enhancedPrompt: Option<Option<string>>,   // promptEnhancerOutput, then its enhancedPrompt
    authorDescription: Option<string>,        // authorOutput?.description
    reviewerOutput: Option<Review>,
    refinedDescription: Option<string>,       // editorOutput?.refinedDescription
    contentScore: Option<real>,               // critiqueOutput?.contentScore
    reviewCycles: Option<int>)

  /** The agent call a node makes. `Author`'s argument is absent when the
      node passes `undefined`. */
  datatype AgentCall =
    | Author(prompt: Option<string>)
    | Reviewer(description: string)
    | Editor(description: string, overallReview: string, improvements: seq<string>)
    | Critic(refined: string)

  /** A string value's truthiness: present and non-empty. */
  predicate Truthy(s: Option<string>) {
    s.Some? && s.value != ""
  }

  /** `a || b` on two optional strings. */
  function Or(a: Option<string>, b: Option<string>): (r: Option<string>)
    ensures Truthy(a) ==> r == a
    ensures !Truthy(a) ==> r == b
  {
    if Truthy(a) then a else b
  }

  /** `state.promptEnhancerOutput?.enhancedPrompt`. */
  function EnhancedPrompt(s: CvState): Option<string> {
    match s.enhancedPrompt
    case None => None
    case Some(p) => p
  }

  /** The message Node.js gives the `TypeError` of reading a property of
      `undefined`. */
  const UndefinedEnhancerMessage: string := "Cannot read properties of undefined (reading 'enhancedPrompt')"

  /** The `generate` node as written: it computes the fallback `input`,
      checks it, and then passes `promptEnhancerOutput.enhancedPrompt`
      instead. */
  function GenerateNodeAsWritten(s: CvState): (r: Result<AgentCall, string>)
    ensures r.Failure? <==> s.enhancedPrompt.None? || (!Truthy(EnhancedPrompt(s)) && s.userDraft == "")
    ensures !Truthy(EnhancedPrompt(s)) && s.userDraft == "" ==> r == Failure("Input is missing")
    ensures s.enhancedPrompt.None? && s.userDraft != "" ==> r == Failure(UndefinedEnhancerMessage)
    ensures r.Success? ==> r.value == Author(EnhancedPrompt(s))
  {
    var input := Or(EnhancedPrompt(s), Some(s.userDraft));
    if !Truthy(input) then Failure("Input is missing")
    else match s.enhancedPrompt
      case None => Failure(UndefinedEnhancerMessage)
      case Some(p) => Success(Author(p))
  }

  /** The `generate` node passing the value it checked: the enhanced prompt
      when there is one, the user's draft otherwise. */
  function GenerateNode(s: CvState): (r: Result<AgentCall, string>)
    ensures r.Failure? <==> !Truthy(EnhancedPrompt(s)) && s.userDraft == ""
    ensures r.Failure? ==> r.error == "Input is missing"
    ensures Truthy(EnhancedPrompt(s)) ==> r == Success(Author(EnhancedPrompt(s)))
    ensures !Truthy(EnhancedPrompt(s)) && s.userDraft != "" ==> r == Success(Author(Some(s.userDraft)))
  {
    var input := Or(EnhancedPrompt(s), Some(s.userDraft));
    if !Truthy(input) then Failure("Input is missing")
    else Success(Author(input))
  }

  /** Without an enhancer output, the node as written fails on a draft the
      check accepted. */
  lemma GenerateAsWrittenDropsDraft()
    ensures var s := CvState("Built a booking platform", None, None, None, None, None, None);
      && GenerateNodeAsWritten(s) == Failure(UndefinedEnhancerMessage)
      && GenerateNode(s) == Success(Author(Some("Built a booking platform")))
  {
  }

  /** With an empty enhanced prompt the node as written hands the author an
      empty prompt although it fell back to the draft. */
  lemma GenerateAsWrittenPassesEmptyPrompt()
    ensures var s := CvState("Built a booking platform", Some(Some("")), None, None, None, None, None);
      && GenerateNodeAsWritten(s) == Success(Author(Some("")))
      && GenerateNode(s) == Success(Author(Some("Built a booking platform")))
  {
  }

  /** Whenever both versions call the author and the enhanced prompt is
      usable, they agree. */
  lemma GenerateAgreesOnUsablePrompt(s: CvState)
    requires Truthy(EnhancedPrompt(s))
    ensures GenerateNodeAsWritten(s) == GenerateNode(s)
  {
  }

  /** The `review` node: the editor's refined text when it is non-empty,
      else the author's description. */
  function ReviewNode(s: CvState): (r: Result<AgentCall, string>)
    ensures Truthy(s.refinedDescription) ==> r == Success(Reviewer(s.refinedDescription.value))
    ensures !Truthy(s.refinedDescription) && Truthy(s.authorDescription) ==>
      r == Success(Reviewer(s.authorDescription.value))
    ensures !Truthy(s.refinedDescription) && !Truthy(s.authorDescription) ==>
      r == Failure("No description available for review")
  {
    var d := Or(s.refinedDescription, s.authorDescription);
    if !Truthy(d) then Failure("No description available for review")
    else Success(Reviewer(d.value))
  }

  /** The `edit` node. */
  function EditNode(s: CvState): (r: Result<AgentCall, string>)
    ensures !Truthy(s.authorDescription) ==> r == Failure("authorOutput.description is missing")
    ensures Truthy(s.authorDescription) && s.reviewerOutput.None? ==> r == Failure("reviewerOutput is missing")
    ensures r.Success? <==> Truthy(s.authorDescription) && s.reviewerOutput.Some?
    ensures r.Success? ==> r.value == Editor(s.authorDescription.value, s.reviewerOutput.value.overallReview,
                                             s.reviewerOutput.value.improvements)
  {
    if !Truthy(s.authorDescription) then Failure("authorOutput.description is missing")
    else if s.reviewerOutput.None? then Failure("reviewerOutput is missing")
    else Success(Editor(s.authorDescription.value, s.reviewerOutput.value.overallReview,
                        s.reviewerOutput.value.improvements))
  }

  /** The `score` node: the critic's call and the new cycle count, one more
      than before (a missing count counts as 0). */
  function ScoreNode(s: CvState): (r: Result<(AgentCall, int), string>)
    ensures r.Success? <==> Truthy(s.refinedDescription)
    ensures r.Failure? ==> r.error == "editorOutput.refinedDescription is missing"
    ensures r.Success? ==> r.value.0 == Critic(s.refinedDescription.value)
    ensures r.Success? ==> r.value.1 == s.reviewCycles.GetOr(0) + 1
  {
    if !Truthy(s.refinedDescription) then Failure("editorOutput.refinedDescription is missing")
    else Success((Critic(s.refinedDescription.value), s.reviewCycles.GetOr(0) + 1))
  }

  datatype Route = ToReview | ToEnd

  /** The routing function after `score`. */
  function RouteAfterScore(s: CvState): (r: Route)
    ensures r == ToReview <==> s.contentScore.GetOr(0.0) < 4.0 && s.reviewCycles.GetOr(0) < 2
  {
    var score := s.contentScore.GetOr(0.0);
    var cycles := s.reviewCycles.GetOr(0);
    if score < MinAcceptableScore && cycles < MaxReviewCycles then ToReview else ToEnd
  }

  /** A score of at least 4.0 ends the loop whatever the count; so does a
      count of two or more whatever the score. */
  lemma RouteEndsOnGoodScoreOrCap(s: CvState)
    ensures s.contentScore.GetOr(0.0) >= MinAcceptableScore ==> RouteAfterScore(s) == ToEnd
    ensures s.reviewCycles.GetOr(0) >= MaxReviewCycles ==> RouteAfterScore(s) == ToEnd
    ensures s.contentScore.None? && s.reviewCycles.None? ==> RouteAfterScore(s) == ToReview
  {
  }

  // ---- the node sequence of a run ----

  /** The nodes executed from `review` on, entered with `cycles` completed
      cycles; `scoreAt(k)` is the critic's score in the `k`-th `score` node
      (absent when the critic gave none). The count the routing rule reads
      is the one the `score` node writes. */
  function LoopFrom(cycles: int, scoreAt: int -> Option<real>): (trace: seq<string>)
    decreases MaxReviewCycles - cycles
  {
    var next := ScoreNode(CvState("", None, None, None, Some("refined"), None, Some(cycles))).value.1;
    var s := CvState("", None, None, None, None, scoreAt(cycles), Some(next));
    ["review", "edit", "score"]
    + if RouteAfterScore(s) == ToReview then LoopFrom(next, scoreAt) else []
  }

  /** The node order of a run where every node succeeds. */
  function Trace(scoreAt: int -> Option<real>): seq<string> {
    ["enhancePrompt", "generate"] + LoopFrom(0, scoreAt)
  }

  /** The loop runs at most twice: a run executes five or eight nodes. */
  lemma TraceLength(scoreAt: int -> Option<real>)
    ensures |Trace(scoreAt)| == 5 || |Trace(scoreAt)| == 8
    ensures Trace(scoreAt)[..5] == ["enhancePrompt", "generate", "review", "edit", "score"]
  {
    var l0 := LoopFrom(0, scoreAt);
    var l1 := LoopFrom(1, scoreAt);
    assert LoopFrom(2, scoreAt) == ["review", "edit", "score"];
    assert |l1| == 3 || |l1| == 6;
    assert |l0| == 3 || |l0| == 6 by {
      assert l0 == ["review", "edit", "score"] || l0 == ["review", "edit", "score"] + l1;
      assert RouteAfterScore(CvState("", None, None, None, None, scoreAt(1), Some(2))) == ToEnd;
      assert l1 == ["review", "edit", "score"];
    }
    assert Trace(scoreAt)[..5] == ["enhancePrompt", "generate"] + l0[..3];
  }

  /** A critic that never reaches 4.0 makes `review`, `edit` and `score`
      run exactly twice before the end. */
  lemma LowScoresLoopTwice(scoreAt: int -> Option<real>)
    requires forall k :: scoreAt(k).GetOr(0.0) < MinAcceptableScore
    ensures Trace(scoreAt) == ["enhancePrompt", "generate", "review", "edit", "score", "review", "edit", "score"]
  {
    assert RouteAfterScore(CvState("", None, None, None, None, scoreAt(0), Some(1))) == ToReview;
    assert RouteAfterScore(CvState("", None, None, None, None, scoreAt(1), Some(2))) == ToEnd;
  }

  /** A first score of 4.0 or more ends the run after one cycle. */
  lemma GoodFirstScoreEndsRun(scoreAt: int -> Option<real>)
    requires scoreAt(0).GetOr(0.0) >= MinAcceptableScore
    ensures Trace(scoreAt) == ["enhancePrompt", "generate", "review", "edit", "score"]
  {
  }

  // ---- the input gate ----

  /** What the regular expressions of the gate report for one draft: the
      match counts of the four positive patterns, whether each of the four
      negative patterns matches, and whether any of the six suspicious
      patterns matches. */
  datatype PatternScan = PatternScan(positiveCounts: seq<nat>, negativeHits: seq<bool>, suspicious: bool)

  function Sum(xs: seq<nat>): nat {
    if |xs| == 0 then 0 else xs[0] + Sum(xs[1..])
  }

  /** The number of patterns that matched. */
  function CountTrue(bs: seq<bool>): (n: nat)
    ensures n <= |bs|
    ensures n == multiset(bs)[true]
  {
    if |bs| == 0 then 0
    else
      assert bs == [bs[0]] + bs[1..];
      (if bs[0] then 1 else 0) + CountTrue(bs[1..])
  }

  /** `assessInputRelevance`: one point per positive match, ten off per
      negative pattern that matches, floored at zero. */
  function AssessInputRelevance(scan: PatternScan): (score: int)
    ensures score >= 0
    ensures score >= Sum(scan.positiveCounts) - 10 * CountTrue(scan.negativeHits)
    ensures score > 0 ==> score == Sum(scan.positiveCounts) - 10 * CountTrue(scan.negativeHits)
  {
    var raw := Sum(scan.positiveCounts) - 10 * CountTrue(scan.negativeHits);
    if raw > 0 then raw else 0
  }

  /** With no negative hit the score is the number of positive matches; a
      negative hit costs ten points (down to zero). */
  lemma RelevanceNegativeHits(scan: PatternScan)
    ensures CountTrue(scan.negativeHits) == 0 ==> AssessInputRelevance(scan) == Sum(scan.positiveCounts)
    ensures Sum(scan.positiveCounts) <= 10 * CountTrue(scan.negativeHits) ==> AssessInputRelevance(scan) == 0
  {
  }

  const ProjectKeywords: seq<string> := [
    "project", "developed", "built", "implemented", "created", "designed",
    "system", "application", "platform", "service", "technology", "feature"]

  /** `keywords.some(k => text.includes(k))`. */
  function AnyIncluded(text: string, keywords: seq<string>): (b: bool)
    ensures b <==> exists i :: 0 <= i < |keywords| && Contains(text, keywords[i])
  {
    if |keywords| == 0 then false
    else if Contains(text, keywords[0]) then true
    else
      var rest := AnyIncluded(text, keywords[1..]);
      assert rest ==> exists i :: 0 <= i < |keywords| && Contains(text, keywords[i]) by {
        if rest {
          var i :| 0 <= i < |keywords[1..]| && Contains(text, keywords[1..][i]);
          assert keywords[1..][i] == keywords[i + 1];
        }
      }
      assert (exists i :: 0 <= i < |keywords| && Contains(text, keywords[i])) ==> rest by {
        if exists i :: 0 <= i < |keywords| && Contains(text, keywords[i]) {
          var i :| 0 <= i < |keywords| && Contains(text, keywords[i]);
          assert i != 0;
          assert keywords[1..][i - 1] == keywords[i];
        }
      }
      rest
  }

  /** Some project keyword occurs in the lower-cased draft. */
  function HasProjectKeywords(draft: string): (b: bool)
    ensures b <==> exists i :: 0 <= i < |ProjectKeywords| && Contains(ToLower(draft), ProjectKeywords[i])
  {
    AnyIncluded(ToLower(draft), ProjectKeywords)
  }

  /** The keyword test ignores ASCII case. */
  lemma KeywordsIgnoreCase(draft: string)
    ensures HasProjectKeywords(ToLower(draft)) == HasProjectKeywords(draft)
  {
    ToLowerIdempotent(draft);
  }

  const MinDraftLength: nat := 20
  const MaxDraftLength: nat := 2000

  /** `validateProjectDraft`: a draft of 20 to 2000 UTF-16 units with a
      project keyword, no suspicious pattern and a relevance above 4. */
  function ValidateProjectDraft(draft: string, scan: PatternScan): (ok: bool)
    ensures Utf16Length(draft) < 20 || Utf16Length(draft) > 2000 ==> !ok
    ensures 20 <= Utf16Length(draft) <= 2000 ==>
      (ok <==> HasProjectKeywords(draft) && !scan.suspicious && AssessInputRelevance(scan) > 4)
  {
    if Utf16Length(draft) < MinDraftLength || Utf16Length(draft) > MaxDraftLength then false
    else HasProjectKeywords(draft) && !scan.suspicious && AssessInputRelevance(scan) > 4
  }

  /** A valid draft has at least five positive matches and between 10 and
      2000 characters (a character outside the Basic Multilingual Plane
      counts twice towards the length limits). */
  lemma ValidDraftHasMatches(draft: string, scan: PatternScan)
    requires ValidateProjectDraft(draft, scan)
    ensures Sum(scan.positiveCounts) >= 5
    ensures 10 <= |draft| <= 2000
  {
  }

  const InvalidDraftMessage: string := "Invalid project description draft provided."

  /** What the compiled graph's `invoke` did: resolved with the final state,
      or rejected. */
  datatype InvokeOutcome = Completed(finalState: Json) | Crashed(error: Thrown)

  /** `runWorkflow(userDraft)`: an invalid draft throws; otherwise the
      graph runs, and a crash of the graph is logged and swallowed, leaving
      `undefined`. */
  function RunWorkflow(draft: string, scan: PatternScan, invoke: InvokeOutcome): (r: Result<Option<Json>, string>)
    ensures r.Failure? <==> !ValidateProjectDraft(draft, scan)
    ensures r.Failure? ==> r.error == InvalidDraftMessage
    ensures r.Success? ==> (r.value.None? <==> invoke.Crashed?)
    ensures r.Success? && invoke.Completed? ==> r.value == Some(invoke.finalState)
  {
    if !ValidateProjectDraft(draft, scan) then Failure(InvalidDraftMessage)
    else match invoke
      case Completed(st) => Success(Some(st))
      case Crashed(_) => Success(None)
  }

  /** A short draft never reaches the graph, whatever its content. */
  lemma ShortDraftRejected(draft: string, scan: PatternScan, invoke: InvokeOutcome)
    requires |draft| < 10
    ensures RunWorkflow(draft, scan, invoke) == Failure(InvalidDraftMessage)
  {
  }
}
