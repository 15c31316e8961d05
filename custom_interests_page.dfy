/** The personalised feed page: incoming articles are stamped with the
    category "custom" and merged by url, opening an article always saves it,
    and refreshing starts again from page 1. */
module CustomInterestsPage {
  import opened JsValues
  import opened Schema
  import opened Routes
  import opened NewsTypes
  import opened HomePage
  import News

  const CustomCategory := "custom"

  function StampCustom(batch: seq<NewsArticle>): (r: seq<NewsArticle>)
    ensures |r| == |batch|
    ensures forall i :: 0 <= i < |r| ==> r[i] == batch[i].(category := Some(CustomCategory))
  {
    if batch == [] then [] else [batch[0].(category := Some(CustomCategory))] + StampCustom(batch[1..])
  }

  /** The `setAllArticles` updater of this page: stamping comes before the
      url filter, which it does not affect. */
  function MergeCustom(prev: seq<NewsArticle>, batch: seq<NewsArticle>): (r: seq<NewsArticle>)
    ensures prev <= r
    ensures r[|prev|..] == Unseen(StampCustom(batch), UrlsOf(prev))
  {
    MergeByUrl(prev, StampCustom(batch))
  }

  /** Every appended article has the category "custom", its url is new to the
      list, and it comes from the batch. */
  lemma {:induction false} MergeCustomAppends(prev: seq<NewsArticle>, batch: seq<NewsArticle>)
    ensures forall i :: |prev| <= i < |MergeCustom(prev, batch)| ==>
      && MergeCustom(prev, batch)[i].category == Some(CustomCategory)
      && MergeCustom(prev, batch)[i].url !in UrlsOf(prev)
      && exists j :: 0 <= j < |batch| && MergeCustom(prev, batch)[i] == batch[j].(category := Some(CustomCategory))
  {
    var stamped := StampCustom(batch);
    var r := MergeCustom(prev, batch);
    UnseenMembers(stamped, UrlsOf(prev));
    forall i | |prev| <= i < |r|
      ensures r[i].category == Some(CustomCategory) && r[i].url !in UrlsOf(prev)
      ensures exists j :: 0 <= j < |batch| && r[i] == batch[j].(category := Some(CustomCategory))
    {
      assert r[i] == Unseen(stamped, UrlsOf(prev))[i - |prev|];
      assert r[i] in Unseen(stamped, UrlsOf(prev));
      var j :| 0 <= j < |stamped| && stamped[j] == r[i];
    }
  }

  /** Every article of the batch whose url is new to the list is appended,
      stamped "custom". */
  lemma {:induction false} MergeCustomComplete(prev: seq<NewsArticle>, batch: seq<NewsArticle>)
    ensures forall j :: 0 <= j < |batch| && batch[j].url !in UrlsOf(prev) ==>
      batch[j].(category := Some(CustomCategory)) in MergeCustom(prev, batch)[|prev|..]
  {
    var stamped := StampCustom(batch);
    UnseenMembers(stamped, UrlsOf(prev));
    forall j | 0 <= j < |batch| && batch[j].url !in UrlsOf(prev)
      ensures batch[j].(category := Some(CustomCategory)) in MergeCustom(prev, batch)[|prev|..]
    {
      assert stamped[j] == batch[j].(category := Some(CustomCategory));
      assert stamped[j] in stamped;
    }
  }

  /** `interests.some(interest => interest.active)`. The page shows its feed
      exactly when the server has names to search for: some interest is
      active iff the active names are non-empty. */
  predicate HasActiveInterests(interests: seq<Interest>)
    ensures HasActiveInterests(interests) <==> News.ActiveNames(interests) != []
  {
    exists i :: 0 <= i < |interests| && interests[i].active
  }

  /** The state of the page. */
  class CustomFeed {
    var currentPage: int
    var allArticles: seq<NewsArticle>
    var selected: Option<NewsArticle>
    var dialogOpen: bool

    constructor ()
      ensures currentPage == 1 && allArticles == [] && selected.None? && !dialogOpen
    {
      currentPage, allArticles, selected, dialogOpen := 1, [], None, false;
    }

    /** A page of the personalised feed arrived. */
    method ReceivePage(batch: seq<NewsArticle>)
      modifies this
      ensures allArticles == MergeCustom(old(allArticles), batch)
      ensures currentPage == old(currentPage) && selected == old(selected) && dialogOpen == old(dialogOpen)
    {
      allArticles := MergeCustom(allArticles, batch);
    }

    /** `handleLoadMore`. */
    method LoadMore()
      modifies this
      ensures currentPage == old(currentPage) + 1
      ensures allArticles == old(allArticles) && selected == old(selected) && dialogOpen == old(dialogOpen)
    {
      currentPage := currentPage + 1;
    }

    /** `handleRefresh`: back to page 1; the list already shown is kept. */
    method Refresh()
      modifies this
      ensures currentPage == 1
      ensures allArticles == old(allArticles) && selected == old(selected) && dialogOpen == old(dialogOpen)
    {
      currentPage := 1;
    }

    /** `handleArticleClick`: the save request is sent whoever is reading,
        with the category "custom"; `saved` is the server's answer. */
    method ArticleClicked(article: NewsArticle, saved: Option<Article>) returns (request: ArticleRequest)
      modifies this
      ensures request == ToSave(article, Some(CustomCategory))
      ensures saved.Some? ==> selected == Some(WithSaved(article, saved.value).(category := Some(CustomCategory)))
      ensures saved.None? ==> selected == Some(article.(category := Some(CustomCategory)))
      ensures dialogOpen
      ensures currentPage == old(currentPage) && allArticles == old(allArticles)
    {
      request := ToSave(article, Some(CustomCategory));
      if saved.Some? {
        selected := Some(WithSaved(article, saved.value).(category := Some(CustomCategory)));
      } else {
        selected := Some(article.(category := Some(CustomCategory)));
      }
      dialogOpen := true;
    }
  }
}
