/** The summarization service. No call to the text-generation API is made:
    the summary is assembled from the article's own fields, and the news query
    is the interest names joined with " OR ". */
module Gemini {
  import opened JsValues
  import opened Text
  import opened Schema
  import opened Http

  /** `getGeminiApiKey`: the caller's own key when set, else the default. */
  function GetGeminiApiKey(caller: Caller, defaultKey: Option<string>): (k: string)
    ensures caller.Some? && Truthy(caller.value.geminiApiKey) ==> k == caller.value.geminiApiKey.value
    ensures !(caller.Some? && Truthy(caller.value.geminiApiKey)) ==> k == OrEmpty(defaultKey)
  {
    SelectKey(if caller.Some? then caller.value.geminiApiKey else None, defaultKey)
  }

  /** `.filter(Boolean)` over optional strings: the non-empty strings present,
      in their order. */
  function TruthyOnly(xs: seq<Option<string>>): (r: seq<string>)
    ensures forall i :: 0 <= i < |r| ==> r[i] != ""
    ensures forall x :: x in r <==> Some(x) in xs && x != ""
    ensures r == [] <==> forall i :: 0 <= i < |xs| ==> !Truthy(xs[i])
  {
    if xs == [] then []
    else
      var rest := TruthyOnly(xs[1..]);
      assert xs == [xs[0]] + xs[1..];
      (if Truthy(xs[0]) then [xs[0].value] else []) + rest
  }

  /** The filter keeps the order of its input: filtering one more element
      appends that element exactly when it is a non-empty string. */
  lemma {:induction false} TruthyOnlyAppend(xs: seq<Option<string>>, x: Option<string>)
    ensures TruthyOnly(xs + [x]) == TruthyOnly(xs) + (if Truthy(x) then [x.value] else [])
    decreases |xs|
  {
    if xs == [] {
      assert xs + [x] == [x];
      assert [x][1..] == [];
    } else {
      assert (xs + [x])[0] == xs[0];
      assert (xs + [x])[1..] == xs[1..] + [x];
      TruthyOnlyAppend(xs[1..], x);
    }
  }

  /** `contentToSummarize`: title, description and content, the empty ones
      left out, joined by blank lines. */
  function ContentToSummarize(a: Article): (r: string)
    ensures a.title != "" ==> a.title <= r
    ensures Truthy(a.content) ==> EndsWith(r, a.content.value)
  {
    JoinedParts(a.title, a.description, a.content);
    Join(TruthyOnly([Some(a.title), a.description, a.content]), "\n\n")
  }

  /** The joined parts start with the title when there is one and end with
      the content when there is some. */
  lemma JoinedParts(title: string, description: Option<string>, content: Option<string>)
    ensures var r := Join(TruthyOnly([Some(title), description, content]), "\n\n");
      && (title != "" ==> title <= r)
      && (Truthy(content) ==> EndsWith(r, content.value))
  {
    var all := [Some(title), description, content];
    var head := [Some(title), description];
    assert all == head + [content];
    TruthyOnlyAppend(head, content);
    var r := Join(TruthyOnly(all), "\n\n");
    if title != "" {
      assert TruthyOnly(all)[0] == title;
      JoinStartsWith(TruthyOnly(all), "\n\n");
    }
    if Truthy(content) {
      var xs := TruthyOnly(head);
      if xs == [] {
        assert r == content.value;
      } else {
        JoinSnoc(xs, content.value, "\n\n");
      }
    }
  }

  /** There is something to summarize exactly when the title, the description
      or the content is non-empty. */
  lemma ContentToSummarizeEmpty(a: Article)
    ensures ContentToSummarize(a) == "" <==> a.title == "" && !Truthy(a.description) && !Truthy(a.content)
  {
    var xs := [Some(a.title), a.description, a.content];
    assert xs[0] == Some(a.title) && xs[1] == a.description && xs[2] == a.content;
    var parts := TruthyOnly(xs);
    if parts != [] {
      JoinEmpty(parts, "\n\n");
      assert parts[0] != "";
    }
    if a.title != "" {
      assert Truthy(xs[0]);
    } else if Truthy(a.description) {
      assert Truthy(xs[1]);
    } else if Truthy(a.content) {
      assert Truthy(xs[2]);
    }
  }

  /** How much of the content's start the duplicate guard compares. */
  const DuplicateWindow := 30

  /** The content is added to a description-based summary only when its first
      30 characters do not already occur in the description. */
  predicate IncludesContent(description: string, content: Option<string>) {
    Truthy(content) && !Contains(description, Take(content.value, DuplicateWindow))
  }

  function ContentPart(description: string, content: Option<string>): string {
    if IncludesContent(description, content) then content.value + "\n\n" else ""
  }

  function SourceLine(source: Option<string>): string {
    if Truthy(source) then "Source: " + source.value else ""
  }

  /** The summary built when a description exists, before trimming. */
  function DescriptionDraft(description: string, content: Option<string>, source: Option<string>): string {
    description + "\n\n" + ContentPart(description, content) + SourceLine(source)
  }

  const FallbackPrefix := "This article covers "
  const FallbackSuffix := ". The full content is available at the original source."

  /** `summarizeArticle`: a stored summary is returned as it is; otherwise the
      description-based summary, else the content, else the title template. */
  function SummarizeArticle(a: Article): (r: Option<string>)
    ensures Truthy(a.summary) ==> r == a.summary
    ensures !Truthy(a.summary) && Truthy(a.description) ==> r.Some? && r.value == Trim(r.value)
    ensures !Truthy(a.summary) && !Truthy(a.description) && Truthy(a.content) ==> r == a.content
    ensures !Truthy(a.summary) && !Truthy(a.description) && !Truthy(a.content) && a.title != "" ==>
      r == Some(FallbackPrefix + a.title + FallbackSuffix)
  {
    if Truthy(a.summary) then a.summary
    else
      ContentToSummarizeEmpty(a);
      if ContentToSummarize(a) == "" then None
      else if Truthy(a.description) then Some(Trim(DescriptionDraft(a.description.value, a.content, a.source)))
      else if Truthy(a.content) then a.content
      else Some(FallbackPrefix + a.title + FallbackSuffix)
  }

  /** Summarizing never changes a summary once it is stored: an article that
      carries a summary produced here is summarized to that same text. */
  lemma SummaryIdempotent(a: Article)
    requires Truthy(SummarizeArticle(a))
    ensures SummarizeArticle(a.(summary := SummarizeArticle(a))) == SummarizeArticle(a)
  {
  }

  /** The summary is null exactly when there is no stored summary and the
      title, description and content are all empty. */
  lemma {:induction false} SummaryNullIff(a: Article)
    ensures SummarizeArticle(a).None? <==>
      !Truthy(a.summary) && a.title == "" && !Truthy(a.description) && !Truthy(a.content)
  {
    ContentToSummarizeEmpty(a);
  }

  /** With a description that is not all whitespace, the summary begins with
      the trimmed description. */
  lemma {:induction false} SummaryStartsWithDescription(a: Article)
    requires !Truthy(a.summary) && Truthy(a.description) && !AllWhitespace(a.description.value)
    ensures SummarizeArticle(a).Some? && Trim(a.description.value) <= SummarizeArticle(a).value
  {
    ContentToSummarizeEmpty(a);
    var d := a.description.value;
    assert DescriptionDraft(d, a.content, a.source) == d + ("\n\n" + ContentPart(d, a.content) + SourceLine(a.source));
    TrimPrefix(d, "\n\n" + ContentPart(d, a.content) + SourceLine(a.source));
  }

  /** The duplicate guard: when the description already holds the first 30
      characters of the content, the content is left out of the summary. */
  lemma {:induction false} SummarySkipsDuplicateContent(a: Article)
    requires !Truthy(a.summary) && Truthy(a.description) && Truthy(a.content)
    requires Contains(a.description.value, Take(a.content.value, DuplicateWindow))
    ensures SummarizeArticle(a) == Some(Trim(a.description.value + "\n\n" + SourceLine(a.source)))
  {
    ContentToSummarizeEmpty(a);
    var d := a.description.value;
    assert ContentPart(d, a.content) == "";
    assert DescriptionDraft(d, a.content, a.source) == d + "\n\n" + SourceLine(a.source);
  }

  /** Otherwise the content follows the description after a blank line: the
      summary begins with the trimmed description, blank line and content. */
  lemma {:induction false} SummaryIncludesNewContent(a: Article)
    requires !Truthy(a.summary) && Truthy(a.description) && !AllWhitespace(a.description.value)
    requires IncludesContent(a.description.value, a.content)
    ensures SummarizeArticle(a).Some?
    ensures Trim(a.description.value + "\n\n" + a.content.value) <= SummarizeArticle(a).value
  {
    ContentToSummarizeEmpty(a);
    assert SummarizeArticle(a) == Some(Trim(DescriptionDraft(a.description.value, a.content, a.source)));
    DraftKeepsContent(a.description.value, a.content, a.source);
  }

  /** The draft of a description with new content begins, once trimmed, with
      the trimmed description, blank line and content. */
  lemma {:induction false} DraftKeepsContent(d: string, content: Option<string>, source: Option<string>)
    requires !AllWhitespace(d) && IncludesContent(d, content)
    ensures Trim(d + "\n\n" + content.value) <= Trim(DescriptionDraft(d, content, source))
  {
    var head := d + "\n\n" + content.value;
    assert !AllWhitespace(head) by {
      var i :| 0 <= i < |d| && !IsWhitespace(d[i]);
      assert head[i] == d[i];
    }
    assert DescriptionDraft(d, content, source) == head + ("\n\n" + SourceLine(source));
    TrimPrefix(head, "\n\n" + SourceLine(source));
  }


  /** With a description and a source whose last character is not
      whitespace, the summary ends with the source attribution. */
  lemma {:induction false} SummaryEndsWithSource(a: Article)
    requires !Truthy(a.summary) && Truthy(a.description) && Truthy(a.source)
    requires !IsWhitespace(a.source.value[|a.source.value| - 1])
    ensures SummarizeArticle(a).Some? && EndsWith(SummarizeArticle(a).value, "Source: " + a.source.value)
  {
    ContentToSummarizeEmpty(a);
    var d := a.description.value;
    var t := "Source: " + a.source.value;
    assert t[|t| - 1] == a.source.value[|a.source.value| - 1];
    assert DescriptionDraft(d, a.content, a.source) == (d + "\n\n" + ContentPart(d, a.content)) + t;
    TrimEndsWith(d + "\n\n" + ContentPart(d, a.content), t);
  }

  /** `generateNewsForInterests`: null for no interests, otherwise the names
      joined with " OR ". */
  function GenerateNewsForInterests(names: seq<string>): (r: Option<string>)
    ensures r.None? <==> names == []
    ensures |names| == 1 ==> r == Some(names[0])
  {
    if names == [] then None else Some(Join(names, " OR "))
  }

  /** The names appear in their given order: one more name appends " OR " and
      that name. */
  lemma GenerateNewsAppend(names: seq<string>, name: string)
    requires names != []
    ensures GenerateNewsForInterests(names + [name]) == Some(GenerateNewsForInterests(names).value + " OR " + name)
  {
    JoinSnoc(names, name, " OR ");
  }

  lemma GenerateNewsExample()
    ensures GenerateNewsForInterests([]) == None
    ensures GenerateNewsForInterests(["ai", "space"]) == Some("ai OR space")
  {
    assert ["ai", "space"] == ["ai"] + ["space"];
    GenerateNewsAppend(["ai"], "space");
    assert Join(["ai"], " OR ") == "ai";
    assert "ai" + " OR " + "space" == "ai OR space";
  }

  /** The query is empty, which the handler treats as a failure, exactly when
      the only name is the empty one. */
  lemma GenerateNewsEmpty(names: seq<string>)
    requires names != []
    ensures GenerateNewsForInterests(names) == Some("") <==> names == [""]
  {
    JoinEmpty(names, " OR ");
  }
}
