/** The article shape the browser receives from the news service, and the
    save request every page builds from it when a reader opens an article. */
module NewsTypes {
  import opened JsValues
  import opened Schema
  import opened Storage
  import opened Routes

  datatype NewsSource = NewsSource(id: Option<string>, name: string)

  /** A news article as listed; `id`, `sourceId` and `summary` are set once the
      article has been saved. */
  datatype NewsArticle = NewsArticle(
    source: NewsSource,
    author: Option<string>,
    title: string,
    description: Option<string>,
    url: string,
    urlToImage: Option<string>,
    publishedAt: string,
    content: Option<string>,
    category: Option<string>,
    id: Option<Id>,
    sourceId: Option<string>,
    summary: Option<string>)

  /** `articleToSave`: empty optional fields become null, the source's own id
      is the dedup key when it has one and the article's url otherwise, and
      the category is whatever the page passes. */
  function ToSave(a: NewsArticle, category: Option<string>): (r: ArticleRequest)
    ensures r.title == Some(a.title) && r.url == Some(a.url) && r.category == category
    ensures Truthy(a.source.id) ==> r.sourceId == a.source.id
    ensures !Truthy(a.source.id) ==> r.sourceId == Some(a.url)
    ensures r.publishedAt.None? <==> a.publishedAt == ""
    ensures r.publishedAt.Some? ==> r.publishedAt.value == a.publishedAt
    ensures r.summary.None?
    ensures r.description == OrNull(a.description) && r.content == OrNull(a.content)
    ensures r.urlToImage == OrNull(a.urlToImage)
    ensures r.source == (if a.source.name == "" then None else Some(a.source.name))
  {
    ArticleRequest(
      Some(a.title),
      OrNull(a.description),
      OrNull(a.content),
      OrNull(Some(a.source.name)),
      if Truthy(a.source.id) then a.source.id else Some(a.url),
      Some(a.url),
      OrNull(a.urlToImage),
      if a.publishedAt != "" then Some(a.publishedAt) else None,
      category,
      None)
  }

  /** An article with a url always carries a non-empty dedup key, so saving it
      again finds the stored row instead of adding a second one. */
  lemma ToSaveHasDedupKey(a: NewsArticle, category: Option<string>, parseDate: string -> Option<Timestamp>)
    requires a.url != "" && a.title != ""
    ensures Truthy(ToSave(a, category).sourceId)
    ensures Truthy(ArticleInsert(ToSave(a, category), parseDate).sourceId)
  {
  }

  /** The server's own `|| null` on the optional columns changes nothing the
      save request already normalised: the stored row holds the request's
      description, content, source, url and image as sent. */
  lemma {:induction false} ToSaveStoredAsSent(a: NewsArticle, category: Option<string>,
                                              parseDate: string -> Option<Timestamp>, id: Id)
    requires a.title != ""
    ensures var req := ToSave(a, category);
      var row := NewArticleRow(id, ArticleInsert(req, parseDate));
      && row.description == req.description && row.content == req.content
      && row.source == req.source && row.urlToImage == req.urlToImage
      && (a.url != "" ==> row.url == req.url)
  {
  }

  /** The article shown after a successful save: the listed article with the
      stored row's id and summary. */
  function WithSaved(a: NewsArticle, saved: Article): (r: NewsArticle)
    ensures r.id == Some(saved.id) && r.summary == saved.summary
    ensures r.url == a.url && r.title == a.title && r.category == a.category
    ensures r.source == a.source && r.author == a.author && r.description == a.description
    ensures r.urlToImage == a.urlToImage && r.publishedAt == a.publishedAt && r.content == a.content
    ensures r.sourceId == a.sourceId
  {
    a.(id := Some(saved.id), summary := saved.summary)
  }
}
