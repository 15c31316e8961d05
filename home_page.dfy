/** The top-stories page: pages of headlines are appended to one list with
    duplicates by url left out, and opening an article saves it first when a
    user is logged in. */
module HomePage {
  import opened JsValues
  import opened Schema
  import opened Routes
  import opened NewsTypes

  function UrlsOf(articles: seq<NewsArticle>): (urls: set<string>)
    ensures forall u :: u in urls <==> exists i :: 0 <= i < |articles| && articles[i].url == u
  {
    if articles == [] then {}
    else
      var rest := UrlsOf(articles[1..]);
      assert forall u :: u in rest <==> exists i :: 1 <= i < |articles| && articles[i].url == u by {
        forall u | u in rest ensures exists i :: 1 <= i < |articles| && articles[i].url == u {
          var j :| 0 <= j < |articles[1..]| && articles[1..][j].url == u;
          assert articles[j + 1].url == u;
        }
        forall u | exists i :: 1 <= i < |articles| && articles[i].url == u ensures u in rest {
          var i :| 1 <= i < |articles| && articles[i].url == u;
          assert articles[1..][i - 1].url == u;
        }
      }
      {articles[0].url} + rest
  }

  /** The articles of `batch`, in order, whose url is not in `seen`. */
  function Unseen(batch: seq<NewsArticle>, seen: set<string>): (r: seq<NewsArticle>)
    ensures |r| <= |batch|
    ensures forall i :: 0 <= i < |r| ==> r[i].url !in seen
  {
    if batch == [] then []
    else (if batch[0].url in seen then [] else [batch[0]]) + Unseen(batch[1..], seen)
  }

  /** The `setAllArticles` updater. */
  function MergeByUrl(prev: seq<NewsArticle>, batch: seq<NewsArticle>): (r: seq<NewsArticle>)
    ensures prev <= r
    ensures r[|prev|..] == Unseen(batch, UrlsOf(prev))
  {
    prev + Unseen(batch, UrlsOf(prev))
  }

  /** An article is appended exactly when it is in the batch and its url is
      not in the previous list. */
  lemma {:induction false} UnseenMembers(batch: seq<NewsArticle>, seen: set<string>)
    ensures forall a :: a in Unseen(batch, seen) <==> a in batch && a.url !in seen
    decreases |batch|
  {
    if batch != [] {
      UnseenMembers(batch[1..], seen);
      assert batch == [batch[0]] + batch[1..];
    }
  }

  /** Filtering keeps the incoming order: it distributes over concatenation. */
  lemma {:induction false} UnseenAppend(s: seq<NewsArticle>, t: seq<NewsArticle>, seen: set<string>)
    ensures Unseen(s + t, seen) == Unseen(s, seen) + Unseen(t, seen)
    decreases |s|
  {
    if s == [] {
      assert s + t == t;
    } else {
      assert (s + t)[0] == s[0];
      assert (s + t)[1..] == s[1..] + t;
      UnseenAppend(s[1..], t, seen);
    }
  }

  /** The seen-set is taken from the previous list only, so two articles of
      one batch sharing a url that the list does not hold are both appended. */
  lemma {:induction false} DuplicatesWithinBatchKept(prev: seq<NewsArticle>, a: NewsArticle, b: NewsArticle)
    requires a.url == b.url && a.url !in UrlsOf(prev)
    ensures MergeByUrl(prev, [a, b]) == prev + [a, b]
  {
    var seen := UrlsOf(prev);
    var none: seq<NewsArticle> := [];
    assert Unseen(none, seen) == [];
    assert [b][1..] == none;
    assert Unseen([b], seen) == [b] + Unseen(none, seen);
    assert [a, b][1..] == [b];
    assert Unseen([a, b], seen) == [a] + Unseen([b], seen);
  }

  /** Every url of the unseen part is among the batch's urls. */
  lemma {:induction false} UnseenUrls(batch: seq<NewsArticle>, seen: set<string>)
    ensures UrlsOf(Unseen(batch, seen)) <= UrlsOf(batch)
    decreases |batch|
  {
    UnseenMembers(batch, seen);
    var r := Unseen(batch, seen);
    forall u | u in UrlsOf(r) ensures u in UrlsOf(batch) {
      var i :| 0 <= i < |r| && r[i].url == u;
      assert r[i] in batch;
      var j :| 0 <= j < |batch| && batch[j] == r[i];
    }
  }

  lemma {:induction false} UrlsOfAppend(s: seq<NewsArticle>, t: seq<NewsArticle>)
    ensures UrlsOf(s + t) == UrlsOf(s) + UrlsOf(t)
  {
    var st := s + t;
    forall u | u in UrlsOf(st) ensures u in UrlsOf(s) + UrlsOf(t) {
      var i :| 0 <= i < |st| && st[i].url == u;
      if i < |s| {
        assert s[i].url == u;
      } else {
        assert t[i - |s|].url == u;
      }
    }
    forall u | u in UrlsOf(s) + UrlsOf(t) ensures u in UrlsOf(st) {
      if u in UrlsOf(s) {
        var i :| 0 <= i < |s| && s[i].url == u;
        assert st[i].url == u;
      } else {
        var i :| 0 <= i < |t| && t[i].url == u;
        assert st[|s| + i].url == u;
      }
    }
  }

  /** Nothing of a batch already merged is appended again. */
  lemma {:induction false} UnseenOfMerged(batch: seq<NewsArticle>, seen: set<string>)
    requires UrlsOf(batch) <= seen
    ensures Unseen(batch, seen) == []
    decreases |batch|
  {
    if batch != [] {
      assert batch[0].url in UrlsOf(batch);
      assert UrlsOf(batch[1..]) <= UrlsOf(batch) by {
        forall u | u in UrlsOf(batch[1..]) ensures u in UrlsOf(batch) {
          var i :| 0 <= i < |batch[1..]| && batch[1..][i].url == u;
          assert batch[i + 1].url == u;
        }
      }
      UnseenOfMerged(batch[1..], seen);
    }
  }

  /** Receiving the same page twice gives the same list as receiving it once. */
  lemma {:induction false} MergeIdempotent(prev: seq<NewsArticle>, batch: seq<NewsArticle>)
    ensures MergeByUrl(MergeByUrl(prev, batch), batch) == MergeByUrl(prev, batch)
  {
    var once := MergeByUrl(prev, batch);
    var added := Unseen(batch, UrlsOf(prev));
    UrlsOfAppend(prev, added);
    assert UrlsOf(batch) <= UrlsOf(once) by {
      UnseenMembers(batch, UrlsOf(prev));
      forall u | u in UrlsOf(batch) ensures u in UrlsOf(once) {
        var i :| 0 <= i < |batch| && batch[i].url == u;
        if u !in UrlsOf(prev) {
          assert batch[i] in added;
          var j :| 0 <= j < |added| && added[j] == batch[i];
          assert u in UrlsOf(added);
        }
      }
    }
    UnseenOfMerged(batch, UrlsOf(once));
    assert once + [] == once;
  }

  /** The state of the page: the page number of the headlines query, the
      accumulated articles, and the article dialog. */
  class HomeFeed {
    var currentPage: int
    var allArticles: seq<NewsArticle>
    var selected: Option<NewsArticle>
    var dialogOpen: bool

    constructor ()
      ensures currentPage == 1 && allArticles == [] && selected.None? && !dialogOpen
    {
      currentPage, allArticles, selected, dialogOpen := 1, [], None, false;
    }

    /** A page of headlines arrived. */
    method ReceivePage(batch: seq<NewsArticle>)
      modifies this
      ensures allArticles == MergeByUrl(old(allArticles), batch)
      ensures currentPage == old(currentPage) && selected == old(selected) && dialogOpen == old(dialogOpen)
    {
      allArticles := MergeByUrl(allArticles, batch);
    }

    /** `handleLoadMore`. */
    method LoadMore()
      modifies this
      ensures currentPage == old(currentPage) + 1
      ensures allArticles == old(allArticles) && selected == old(selected) && dialogOpen == old(dialogOpen)
    {
      currentPage := currentPage + 1;
    }

    /** `handleArticleClick`: a logged-in reader's click sends the save
        request, and `saved` is the server's answer (`None` when it failed);
        the dialog opens in every case. */
    method ArticleClicked(article: NewsArticle, loggedIn: bool, saved: Option<Article>) returns (request: Option<ArticleRequest>)
      modifies this
      ensures loggedIn <==> request.Some?
      ensures loggedIn ==> request.value == ToSave(article, OrNull(article.category))
      ensures loggedIn && saved.Some? ==> selected == Some(WithSaved(article, saved.value))
      ensures !(loggedIn && saved.Some?) ==> selected == Some(article)
      ensures dialogOpen
      ensures currentPage == old(currentPage) && allArticles == old(allArticles)
    {
      if loggedIn {
        request := Some(ToSave(article, OrNull(article.category)));
        if saved.Some? {
          selected := Some(WithSaved(article, saved.value));
        } else {
          selected := Some(article);
        }
      } else {
        request := None;
        selected := Some(article);
      }
      dialogOpen := true;
    }
  }
}
