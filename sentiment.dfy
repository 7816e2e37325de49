/** The review summary of a store search row: the label read from its tooltip and
    the sentiment score the label earns. */
module Sentiment {
  import opened Wrappers
  import opened Text
  import opened Sequences

  /** What a row without a usable review label shows. */
  const NoReviews: string := "New"

  const LineBreak: string := "<br>"

  /** The review label of a search row. `tooltip` is the review summary element's
      `data-tooltip-html` attribute: `None` when the row has no such element, and an
      element without the attribute reads as the empty text. The label is the
      tooltip's first `<br>`-separated line, or "New" when there is no element or
      that line is empty. */
  function ReviewLabel(tooltip: Option<string>): (r: string)
    ensures r != "" && !Contains(r, LineBreak)
    ensures tooltip.None? ==> r == NoReviews
    ensures tooltip.Some? && BeforeFirst(tooltip.value, LineBreak) == "" ==> r == NoReviews
    ensures tooltip.Some? && BeforeFirst(tooltip.value, LineBreak) != ""
            ==> r == BeforeFirst(tooltip.value, LineBreak)
  {
    match tooltip
    case None =>
      NoBreakInNew();
      NoReviews
    case Some(t) =>
      var first := BeforeFirst(t, LineBreak);
      BeforeFirstExcludes(t, LineBreak);
      NoBreakInNew();
      if first == "" then NoReviews else first
  }

  lemma NoBreakInNew()
    ensures !Contains(NoReviews, LineBreak)
  {
    if Contains(NoReviews, LineBreak) {
      ContainedCharOccurs(NoReviews, LineBreak, '<');
    }
  }

  /** No line break starts inside a label that has none when the label is followed
      by a line break: `<br>` cannot overlap its own start. */
  lemma NoBreakInsideLabel(summary: string, rest: string, i: int)
    requires !Contains(summary, LineBreak) && 0 <= i < |summary|
    ensures !OccursAt(summary + LineBreak + rest, LineBreak, i)
  {
    if i + |LineBreak| <= |summary| {
      AppendAssoc(summary, LineBreak, rest);
      NoOccurrenceInPrefix(summary, LineBreak, LineBreak + rest, i);
    } else {
      NoBreakAcrossLabelEnd(summary, rest, i);
    }
  }

  /** A break starting in the label's last three characters would have its `<` at
      a later position, but the only `<` there is the appended break's first. */
  lemma NoBreakAcrossLabelEnd(summary: string, rest: string, i: int)
    requires 0 <= i < |summary| < i + |LineBreak|
    ensures !OccursAt(summary + LineBreak + rest, LineBreak, i)
  {
    var s := summary + LineBreak + rest;
    var j := |summary| - i;
    assert s[i..i + |LineBreak|][j] == s[|summary|] == '<' != LineBreak[j];
  }

  /** A store tooltip is a label, then optionally `<br>` and a description; the
      label read back from it is that label. */
  lemma ReviewLabelReadsBack(summary: string, rest: string)
    requires summary != "" && !Contains(summary, LineBreak)
    ensures ReviewLabel(Some(summary)) == summary
    ensures ReviewLabel(Some(summary + LineBreak + rest)) == summary
  {
    BeforeFirstWithout(summary, LineBreak);
    var s := summary + LineBreak + rest;
    assert s[|summary|..|summary| + |LineBreak|] == LineBreak;
    forall i | 0 <= i < |summary|
      ensures !OccursAt(s, LineBreak, i)
    {
      NoBreakInsideLabel(summary, rest, i);
    }
    BeforeFirstAt(s, LineBreak, |summary|);
    assert s[..|summary|] == summary;
  }

  /** A tooltip whose first line is empty, because the tooltip is empty or starts
      with `<br>`, reads "New". */
  lemma EmptyFirstLineIsNew(rest: string)
    ensures ReviewLabel(Some("")) == NoReviews
    ensures ReviewLabel(Some(LineBreak + rest)) == NoReviews
  {
    var s := LineBreak + rest;
    assert s[..|LineBreak|] == LineBreak;
    BeforeFirstAt(s, LineBreak, 0);
  }

  /** The route's steps for the label: `let reviews = 'New'`, replaced by the
      tooltip's first line when the element exists and that line is not empty. */
  method ReadReviews(tooltip: Option<string>) returns (reviews: string)
    ensures reviews == ReviewLabel(tooltip)
  {
    reviews := NoReviews;
    if tooltip.Some? {
      reviews := BeforeFirst(tooltip.value, LineBreak);
      if reviews == "" {
        reviews := NoReviews;
      }
    }
  }

  /** The label's sentiment score (`let score = 0` then reassigned): 2 when it says
      "Very Positive" or "Overwhelmingly", otherwise 1 when it says "Positive",
      otherwise 0. The matching is case-sensitive. */
  function Score(summary: string): (r: int)
    ensures 0 <= r <= 2
    ensures r == 2 <==> Contains(summary, "Very Positive") || Contains(summary, "Overwhelmingly")
    ensures r == 1 <==> !Contains(summary, "Very Positive") && !Contains(summary, "Overwhelmingly")
                        && Contains(summary, "Positive")
  {
    if Contains(summary, "Very Positive") || Contains(summary, "Overwhelmingly") then 2
    else if Contains(summary, "Positive") then 1
    else 0
  }

  /** The route's steps for the score: `let score = 0`, raised to 2 or 1. */
  method ScoreOf(reviews: string) returns (score: int)
    ensures score == Score(reviews)
  {
    score := 0;
    if Contains(reviews, "Very Positive") || Contains(reviews, "Overwhelmingly") {
      score := 2;
    } else if Contains(reviews, "Positive") {
      score := 1;
    }
  }

  /** A label mentioning neither a capital P nor a capital O scores 0. */
  lemma ScoreZero(summary: string)
    requires 'P' !in summary && 'O' !in summary
    ensures Score(summary) == 0
  {
    if Contains(summary, "Very Positive") {
      ContainedCharOccurs(summary, "Very Positive", 'P');
    }
    if Contains(summary, "Overwhelmingly") {
      ContainedCharOccurs(summary, "Overwhelmingly", 'O');
    }
    if Contains(summary, "Positive") {
      ContainedCharOccurs(summary, "Positive", 'P');
    }
  }

  /** A label with "Positive" at `i` but no capital V or O scores 1. */
  lemma ScoreOne(summary: string, i: int)
    requires OccursAt(summary, "Positive", i) && 'V' !in summary && 'O' !in summary
    ensures Score(summary) == 1
  {
    ContainsAt(summary, "Positive", i);
    if Contains(summary, "Very Positive") {
      ContainedCharOccurs(summary, "Very Positive", 'V');
    }
    if Contains(summary, "Overwhelmingly") {
      ContainedCharOccurs(summary, "Overwhelmingly", 'O');
    }
  }

  /** "Mostly Positive" is in the middle tier: "Positive" starts at index 7. */
  lemma MostlyPositiveScore(summary: string)
    requires summary == "Mostly Positive"
    ensures Score(summary) == 1
  {
    assert summary[7..15] == "Positive";
    ScoreOne(summary, 7);
  }

  /** The store's positive review labels and their scores. "Overwhelmingly Negative"
      lands in the top tier beside "Overwhelmingly Positive", because the test looks
      for the word "Overwhelmingly" alone. */
  lemma UpperLabelScores()
    ensures Score("Overwhelmingly Positive") == 2 && Score("Very Positive") == 2
    ensures Score("Overwhelmingly Negative") == 2
    ensures Score("Positive") == 1 && Score("Mostly Positive") == 1
  {
    ContainsAt("Overwhelmingly Positive", "Overwhelmingly", 0);
    ContainsAt("Overwhelmingly Negative", "Overwhelmingly", 0);
    ContainsAt("Very Positive", "Very Positive", 0);
    ScoreOne("Positive", 0);
    MostlyPositiveScore("Mostly Positive");
  }

  /** The negative labels, "Mixed", the "New" placeholder and the empty text score 0. */
  lemma LowerLabelScores(summary: string)
    requires summary in ["Mostly Negative", "Negative", "Very Negative", "Mixed", NoReviews, ""]
    ensures Score(summary) == 0
  {
    ScoreZero(summary);
  }
}
