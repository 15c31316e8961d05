/** The news endpoints: top headlines, search, article summaries and the
    personalised feed. Each handler is given the news service's answer as a
    parameter and returns the request it sent together with its response. */
module News {
  import opened JsValues
  import opened Text
  import opened Schema
  import opened Http
  import opened Storage
  import opened Gemini

  const NewsApiBase := "https://newsapi.org/v2"
  const DefaultPage := 1
  const DefaultPageSize := 10

  /** `getNewsApiKey`: the caller's own key when set, else the default. */
  function GetNewsApiKey(caller: Caller, defaultKey: Option<string>): (k: string)
    ensures caller.Some? && Truthy(caller.value.newsApiKey) ==> k == caller.value.newsApiKey.value
    ensures !(caller.Some? && Truthy(caller.value.newsApiKey)) ==> k == OrEmpty(defaultKey)
  {
    SelectKey(if caller.Some? then caller.value.newsApiKey else None, defaultKey)
  }

  const TopHeadlinesHead := NewsApiBase + "/top-headlines?country=us&page="
  const EverythingHead := NewsApiBase + "/everything?q="
  const EverythingTail := "&language=en&sortBy=relevancy"

  /** The `/top-headlines` request: US headlines, the page, the page size,
      and `&category=` with the category last when one is given. */
  function TopHeadlinesUrl(category: string, page: int, pageSize: int): (url: string)
    ensures TopHeadlinesHead <= url
    ensures var p := IntToString(page);
      |TopHeadlinesHead| + |p| <= |url| && url[|TopHeadlinesHead|..|TopHeadlinesHead| + |p|] == p
    ensures var p := IntToString(page);
      url[|TopHeadlinesHead| + |p|..] ==
        "&pageSize=" + IntToString(pageSize) + (if category != "" then "&category=" + category else "")
    ensures category != "" ==> EndsWith(url, "&category=" + category)
  {
    var p := IntToString(page);
    var rest := "&pageSize=" + IntToString(pageSize) + (if category != "" then "&category=" + category else "");
    var url := TopHeadlinesHead + p + rest;
    assert url[..|TopHeadlinesHead|] == TopHeadlinesHead;
    assert url[|TopHeadlinesHead|..|TopHeadlinesHead| + |p|] == p;
    assert url[|TopHeadlinesHead| + |p|..] == rest;
    assert category != "" ==> url[|url| - |"&category=" + category|..] == "&category=" + category;
    url
  }

  /** The `/everything` request, relevance-sorted English results: the text
      given for `q` fills the query slot exactly as it is, and the page and
      the page size follow it, before the fixed language and sort order. */
  function EverythingUrl(q: string, page: int, pageSize: int): (url: string)
    ensures EverythingHead <= url && |EverythingHead| + |q| <= |url|
    ensures url[|EverythingHead|..|EverythingHead| + |q|] == q
    ensures url[|EverythingHead| + |q|..] ==
      "&page=" + IntToString(page) + "&pageSize=" + IntToString(pageSize) + EverythingTail
    ensures EndsWith(url, EverythingTail)
  {
    var rest := "&page=" + IntToString(page) + "&pageSize=" + IntToString(pageSize) + EverythingTail;
    Slots(EverythingHead, q, rest);
    Slots("&page=" + IntToString(page) + "&pageSize=", IntToString(pageSize), EverythingTail);
    EverythingHead + q + rest
  }

  /** The personalised feed percent-encodes its generated query, so nothing
      in the query slot can end the parameter or start another. */
  function CustomUrl(query: string, page: int, pageSize: int): (url: string)
    ensures url == EverythingUrl(EncodeUriComponent(query), page, pageSize)
    ensures forall i :: |EverythingHead| <= i < |EverythingHead| + |EncodeUriComponent(query)| ==>
      url[i] != '&' && url[i] != '=' && url[i] != '#'
  {
    var e := EncodeUriComponent(query);
    var url := EverythingUrl(e, page, pageSize);
    EncodedSlotClean(url, e);
    url
  }

  /** An encoded query placed in the query slot puts no separator there. */
  lemma EncodedSlotClean(url: string, e: string)
    requires |EverythingHead| + |e| <= |url| && url[|EverythingHead|..|EverythingHead| + |e|] == e
    requires forall i :: 0 <= i < |e| ==> IsUnreserved(e[i]) || e[i] == '%'
    ensures forall i :: |EverythingHead| <= i < |EverythingHead| + |e| ==>
      url[i] != '&' && url[i] != '=' && url[i] != '#'
  {
    var h := |EverythingHead|;
    forall i | h <= i < h + |e|
      ensures url[i] != '&' && url[i] != '=' && url[i] != '#'
    {
      assert url[i] == url[h..h + |e|][i - h] == e[i - h];
    }
  }

  /** A query made only of unreserved characters gives the same request on
      both endpoints: the search endpoint sends its query unencoded. */
  lemma CustomUrlMatchesSearch(query: string, page: int, pageSize: int)
    requires forall i :: 0 <= i < |query| ==> IsUnreserved(query[i])
    ensures CustomUrl(query, page, pageSize) == EverythingUrl(query, page, pageSize)
  {
    EncodeUnreservedIdentity(query);
  }

  /** `&category=` is appended exactly when a category is given; the rest of
      the URL does not depend on it. */
  lemma TopHeadlinesCategory(category: string, page: int, pageSize: int)
    ensures category == "" ==> TopHeadlinesUrl(category, page, pageSize) == TopHeadlinesUrl("", page, pageSize)
    ensures category != "" ==>
      TopHeadlinesUrl(category, page, pageSize) == TopHeadlinesUrl("", page, pageSize) + "&category=" + category
  {
  }

  const NewsApiErrorPrefix := "News API error: "

  /** The answer of the news service, relayed: a successful reply's payload
      with status 200, a failed reply's status with its text, or 500 with the
      handler's own message when the request threw. */
  function Relay(reply: Upstream, failure: string): (r: Response)
    ensures IsSuccess(r.status) <==> reply.Ok()
    ensures r.body.UpstreamJson? <==> reply.Ok()
    ensures reply.Ok() ==> r == Response(200, UpstreamJson(reply.text))
    ensures reply.Replied? && !reply.Ok() ==> r == Response(reply.status, Message(NewsApiErrorPrefix + reply.text))
    ensures reply.Threw? ==> r == Response(500, Message(failure))
  {
    match reply
    case Threw => Response(500, Message(failure))
    case Replied(status, text) =>
      if reply.Ok() then Response(200, UpstreamJson(text))
      else Response(status, Message(NewsApiErrorPrefix + text))
  }

  /** `getTopHeadlines`: always asks the news service, with page 1 and page
      size 10 when they are not given. */
  function GetTopHeadlines(caller: Caller, defaultKey: Option<string>, category: Option<string>,
                           page: Option<int>, pageSize: Option<int>, reply: Upstream): (r: Exchange)
    ensures r.sent.Some? && r.sent.value.apiKey == GetNewsApiKey(caller, defaultKey)
    ensures r.sent.value.url == TopHeadlinesUrl(OrEmpty(category), page.GetOr(DefaultPage), pageSize.GetOr(DefaultPageSize))
    ensures r.response == Relay(reply, "Failed to fetch news")
  {
    var url := TopHeadlinesUrl(OrEmpty(category), page.GetOr(DefaultPage), pageSize.GetOr(DefaultPageSize));
    Exchange(Some(Outbound(url, GetNewsApiKey(caller, defaultKey))), Relay(reply, "Failed to fetch news"))
  }

  /** Without a page or a page size, the headlines request asks for page 1
      of 10 results. */
  lemma DefaultHeadlinesPaging(caller: Caller, defaultKey: Option<string>, category: Option<string>, reply: Upstream)
    ensures var url := GetTopHeadlines(caller, defaultKey, category, None, None, reply).sent.value.url;
      TopHeadlinesHead <= url &&
      url[|TopHeadlinesHead|..] == "1&pageSize=10" + (if Truthy(category) then "&category=" + category.value else "")
  {
    var c := OrEmpty(category);
    var url := TopHeadlinesUrl(c, DefaultPage, DefaultPageSize);
    assert GetTopHeadlines(caller, defaultKey, category, None, None, reply).sent.value.url == url;
    DefaultHeadlinesTail(url, if c != "" then "&category=" + c else "");
  }

  lemma DefaultHeadlinesTail(url: string, cat: string)
    requires |TopHeadlinesHead| + 1 <= |url|
    requires url[|TopHeadlinesHead|..|TopHeadlinesHead| + 1] == IntToString(1)
    requires url[|TopHeadlinesHead| + 1..] == "&pageSize=" + IntToString(10) + cat
    ensures url[|TopHeadlinesHead|..] == "1&pageSize=10" + cat
  {
    var h := |TopHeadlinesHead|;
    assert IntToString(1) == "1" && IntToString(10) == "10";
    assert url[h..h + 1] == "1" && url[h + 1..] == "&pageSize=10" + cat;
    assert url[h..] == url[h..h + 1] + url[h + 1..];
  }

  /** Without a page or a page size, a search asks for page 1 of 10 results. */
  lemma DefaultSearchPaging(caller: Caller, defaultKey: Option<string>, q: string, reply: Upstream)
    requires q != ""
    ensures var url := SearchNews(caller, defaultKey, Some(q), None, None, reply).sent.value.url;
      EverythingHead + q <= url && url[|EverythingHead| + |q|..] == "&page=1&pageSize=10" + EverythingTail
  {
    var url := EverythingUrl(q, DefaultPage, DefaultPageSize);
    assert SearchNews(caller, defaultKey, Some(q), None, None, reply).sent.value.url == url;
    DefaultSearchTail(url, q);
  }

  lemma DefaultSearchTail(url: string, q: string)
    requires EverythingHead <= url && |EverythingHead| + |q| <= |url|
    requires url[|EverythingHead|..|EverythingHead| + |q|] == q
    requires url[|EverythingHead| + |q|..] == "&page=" + IntToString(1) + "&pageSize=" + IntToString(10) + EverythingTail
    ensures EverythingHead + q <= url && url[|EverythingHead| + |q|..] == "&page=1&pageSize=10" + EverythingTail
  {
    var h := |EverythingHead|;
    assert IntToString(1) == "1" && IntToString(10) == "10";
    assert url[..h + |q|] == url[..h] + url[h..h + |q|];
  }

  const MissingQuery := Response(400, Message("Search query is required"))

  /** `searchNews`: an empty or missing query is refused before the news
      service is asked. */
  function SearchNews(caller: Caller, defaultKey: Option<string>, q: Option<string>,
                      page: Option<int>, pageSize: Option<int>, reply: Upstream): (r: Exchange)
    ensures r.sent.None? <==> !Truthy(q)
    ensures !Truthy(q) ==> r.response == MissingQuery
    ensures Truthy(q) ==> r.sent.value == Outbound(EverythingUrl(q.value, page.GetOr(DefaultPage), pageSize.GetOr(DefaultPageSize)), GetNewsApiKey(caller, defaultKey))
    ensures Truthy(q) ==> r.response == Relay(reply, "Failed to search news")
  {
    if !Truthy(q) then Exchange(None, MissingQuery)
    else
      var url := EverythingUrl(q.value, page.GetOr(DefaultPage), pageSize.GetOr(DefaultPageSize));
      Exchange(Some(Outbound(url, GetNewsApiKey(caller, defaultKey))), Relay(reply, "Failed to search news"))
  }

  /** The object spread `{...article, summary}` handed to `saveArticle`. */
  function WithSummary(a: Article, summary: string): (ins: InsertArticle)
    ensures ins.title == a.title && ins.sourceId == a.sourceId && ins.summary == Some(summary)
    ensures ins.description == a.description && ins.content == a.content && ins.source == a.source
    ensures ins.url == a.url && ins.urlToImage == a.urlToImage && ins.publishedAt == a.publishedAt
    ensures ins.category == a.category
  {
    InsertArticle(a.title, a.description, a.content, a.source, a.sourceId, a.url, a.urlToImage,
                  a.publishedAt, a.category, Some(summary))
  }

  const ArticleNotFound := Response(404, Message("Article not found"))
  const SummaryFailed := Response(500, Message("Failed to generate summary"))

  /** The `saveArticle({...article, summary})` step of `getArticleSummary`,
      for an article taken from the store: an article with a `sourceId` finds
      itself and nothing changes; one without is stored again, with the
      summary, under the next id. */
  method SaveSummary(store: MemStorage, a: Article, summary: string)
    requires store.Valid() && a.id in store.articles && store.articles[a.id] == a
    modifies store
    ensures store.Valid()
    ensures a.sourceId.Some? ==> StoreUnchanged(store)
    ensures a.sourceId.None? ==>
      && store.articles == old(store.articles)[old(store.currentArticleId) := NewArticleRow(old(store.currentArticleId), WithSummary(a, summary))]
      && store.currentArticleId == old(store.currentArticleId) + 1
      && store.users == old(store.users) && store.interests == old(store.interests)
      && store.currentUserId == old(store.currentUserId) && store.currentInterestId == old(store.currentInterestId)
  {
    assert Normalised(a);
    var ins := WithSummary(a, summary);
    assert a.sourceId.Some? ==> Truthy(ins.sourceId) && store.HasSourceId(ins.sourceId.value);
    var _ := store.SaveArticle(ins);
  }

  /** `getArticleSummary`. The stored article's own row is never changed: the
      summary goes through `saveArticle`, which returns the stored row when
      the article has a `sourceId`, and otherwise adds a second row. */
  method GetArticleSummary(store: MemStorage, caller: Caller, id: Id) returns (resp: Response)
    requires store.Valid()
    modifies store
    ensures store.Valid()
    ensures id in old(store.articles) ==> id in store.articles && store.articles[id] == old(store.articles[id])
    ensures caller.None? ==> resp == Unauthorized && StoreUnchanged(store)
    ensures caller.Some? && id !in old(store.articles) ==> resp == ArticleNotFound && StoreUnchanged(store)
    ensures caller.Some? && id in old(store.articles) ==>
      var a := old(store.articles[id]);
      var s := SummarizeArticle(a);
      && (Truthy(a.summary) ==> resp == Response(200, SummaryJson(a.summary.value)) && StoreUnchanged(store))
      && (!Truthy(s) ==> resp == SummaryFailed && StoreUnchanged(store))
      && (Truthy(s) ==> resp == Response(200, SummaryJson(s.value)))
      && (Truthy(s) && a.sourceId.Some? ==> StoreUnchanged(store))
      && (Truthy(s) && !Truthy(a.summary) && a.sourceId.None? ==>
            store.articles == old(store.articles)[old(store.currentArticleId) := NewArticleRow(old(store.currentArticleId), WithSummary(a, s.value))]
            && store.currentArticleId == old(store.currentArticleId) + 1)
  {
    if caller.None? {
      return Unauthorized;
    }
    var found := store.GetArticleById(id);
    if found.None? {
      return ArticleNotFound;
    }
    var article := found.value;
    if Truthy(article.summary) {
      return Response(200, SummaryJson(article.summary.value));
    }
    var summary := SummarizeArticle(article);
    if !Truthy(summary) {
      return SummaryFailed;
    }
    SaveSummary(store, article, summary.value);
    resp := Response(200, SummaryJson(summary.value));
  }

  /** The names of the active interests, in list order. */
  function ActiveNames(interests: seq<Interest>): (names: seq<string>)
    ensures |names| <= |interests|
    ensures names == [] <==> forall i :: 0 <= i < |interests| ==> !interests[i].active
  {
    if interests == [] then []
    else (if interests[0].active then [interests[0].name] else []) + ActiveNames(interests[1..])
  }

  /** The filter keeps the list order: the names of a concatenation are the
      names of each part, one after the other. */
  lemma {:induction false} ActiveNamesAppend(s: seq<Interest>, t: seq<Interest>)
    ensures ActiveNames(s + t) == ActiveNames(s) + ActiveNames(t)
    decreases |s|
  {
    if s == [] {
      assert s + t == t;
    } else {
      assert (s + t)[0] == s[0];
      assert (s + t)[1..] == s[1..] + t;
      ActiveNamesAppend(s[1..], t);
    }
  }

  /** Every name comes from an active interest of the list. */
  lemma {:induction false} ActiveNamesSound(interests: seq<Interest>)
    ensures forall n :: n in ActiveNames(interests) ==>
      exists i :: 0 <= i < |interests| && interests[i].active && interests[i].name == n
    decreases |interests|
  {
    if interests != [] {
      ActiveNamesSound(interests[1..]);
      forall n | n in ActiveNames(interests)
        ensures exists i :: 0 <= i < |interests| && interests[i].active && interests[i].name == n
      {
        if interests[0].active && n == interests[0].name {
          assert interests[0].active && interests[0].name == n;
        } else {
          assert ActiveNames(interests) == (if interests[0].active then [interests[0].name] else []) + ActiveNames(interests[1..]);
          assert n in ActiveNames(interests[1..]);
          var j :| 0 <= j < |interests[1..]| && interests[1..][j].active && interests[1..][j].name == n;
          assert interests[j + 1] == interests[1..][j];
        }
      }
    }
  }

  const NoActiveInterests := Response(404, Message("No active interests found. Add interests to see personalized news."))
  const QueryFailed := Response(500, Message("Failed to generate news for interests"))

  /** `getCustomNews`: the query is built from the caller's active interests
      in stored order; a successful reply is returned with the names used and
      the query attached. */
  method GetCustomNews(store: MemStorage, caller: Caller, defaultKey: Option<string>,
                       page: Option<int>, pageSize: Option<int>, reply: Upstream) returns (r: Exchange)
    requires store.Valid()
    ensures caller.None? ==> r == Exchange(None, Unauthorized)
    ensures caller.Some? ==>
      var names := ActiveNames(store.InterestsOf(caller.value.id));
      && (names == [] ==> r == Exchange(None, NoActiveInterests))
      && (names == [""] ==> r == Exchange(None, QueryFailed))
      && (names != [] && names != [""] ==>
            var query := Join(names, " OR ");
            && r.sent == Some(Outbound(CustomUrl(query, page.GetOr(DefaultPage), pageSize.GetOr(DefaultPageSize)),
                                       GetNewsApiKey(caller, defaultKey)))
            && (reply.Ok() ==> r.response == Response(200, CustomNewsJson(reply.text, names, query)))
            && (!reply.Ok() ==> r.response == Relay(reply, "Failed to fetch custom news")))
  {
    if caller.None? {
      return Exchange(None, Unauthorized);
    }
    var interests := store.GetInterests(caller.value.id);
    var names := ActiveNames(interests);
    if names == [] {
      return Exchange(None, NoActiveInterests);
    }
    var query := GenerateNewsForInterests(names);
    GenerateNewsEmpty(names);
    if !Truthy(query) {
      return Exchange(None, QueryFailed);
    }
    var url := CustomUrl(query.value, page.GetOr(DefaultPage), pageSize.GetOr(DefaultPageSize));
    var sent := Outbound(url, GetNewsApiKey(caller, defaultKey));
    if reply.Ok() {
      r := Exchange(Some(sent), Response(200, CustomNewsJson(reply.text, names, query.value)));
    } else {
      r := Exchange(Some(sent), Relay(reply, "Failed to fetch custom news"));
    }
  }
}
