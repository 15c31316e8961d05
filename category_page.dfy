/** A category page: the heading comes from a fixed list of categories or
    from the route parameter itself, and opening an article saves it, tagged
    with the category, when a user is logged in. */
module CategoryPage {
  import opened JsValues
  import opened Schema
  import opened Routes
  import opened NewsTypes

  datatype Category = Category(id: string, name: string)

  const Categories: seq<Category> := [
    Category("technology", "Technology"),
    Category("sports", "Sports"),
    Category("general", "General")]

  /** `categories.find(c => c.id === id)`: the first entry with that id. */
  function Find(cs: seq<Category>, id: string): (r: Option<Category>)
    ensures r.Some? ==> r.value in cs && r.value.id == id
    ensures r.Some? ==> exists i :: 0 <= i < |cs| && cs[i] == r.value && forall j :: 0 <= j < i ==> cs[j].id != id
    ensures r.None? <==> forall i :: 0 <= i < |cs| ==> cs[i].id != id
  {
    if cs == [] then None
    else if cs[0].id == id then
      Some(cs[0])
    else
      var r := Find(cs[1..], id);
      if r.Some? then
        var i :| 0 <= i < |cs[1..]| && cs[1..][i] == r.value && forall j :: 0 <= j < i ==> cs[1..][j].id != id;
        assert cs[i + 1] == r.value && forall j :: 0 <= j < i + 1 ==> cs[j].id != id;
        r
      else r
  }

  /** `toUpperCase` on one character, for the Latin letters. */
  function UpperChar(c: char): (u: char)
    ensures 'a' <= c <= 'z' ==> u as int == c as int - 32
    ensures !('a' <= c <= 'z') ==> u == c
  {
    if 'a' <= c <= 'z' then (c as int - 32) as char else c
  }

  /** The first character upper-cased, the rest kept. */
  function Capitalize(s: string): (r: string)
    ensures |r| == |s|
    ensures s != "" ==> r[0] == UpperChar(s[0]) && r[1..] == s[1..]
  {
    if s == "" then "" else [UpperChar(s[0])] + s[1..]
  }

  /** `currentCategory`. */
  function CurrentCategory(param: Option<string>): (c: Category)
    ensures !Truthy(param) ==> c == Category("", "")
    ensures Truthy(param) ==> c.id == param.value
  {
    var id := OrEmpty(param);
    match Find(Categories, id)
    case Some(known) => known
    case None => Category(id, Capitalize(id))
  }

  /** The three listed ids have their fixed names; any other non-empty id is
      shown capitalised; a missing one gives an empty heading. */
  lemma CurrentCategoryCases(param: Option<string>)
    ensures param == Some("technology") ==> CurrentCategory(param).name == "Technology"
    ensures param == Some("sports") ==> CurrentCategory(param).name == "Sports"
    ensures param == Some("general") ==> CurrentCategory(param).name == "General"
    ensures Truthy(param) && param.value !in {"technology", "sports", "general"} ==>
      CurrentCategory(param) == Category(param.value, Capitalize(param.value))
  {
    assert Categories[0].id == "technology" && Categories[1].id == "sports" && Categories[2].id == "general";
  }

  /** The state of the page. */
  class CategoryView {
    var currentPage: int
    var selected: Option<NewsArticle>
    var dialogOpen: bool

    constructor ()
      ensures currentPage == 1 && selected.None? && !dialogOpen
    {
      currentPage, selected, dialogOpen := 1, None, false;
    }

    /** `handleLoadMore`. */
    method LoadMore()
      modifies this
      ensures currentPage == old(currentPage) + 1
      ensures selected == old(selected) && dialogOpen == old(dialogOpen)
    {
      currentPage := currentPage + 1;
    }

    /** `handleArticleClick`: the article takes the route's category; it is
        saved only for a logged-in reader; the dialog opens either way. */
    method ArticleClicked(article: NewsArticle, param: Option<string>, loggedIn: bool, saved: Option<Article>)
      returns (request: Option<ArticleRequest>)
      modifies this
      ensures loggedIn <==> request.Some?
      ensures loggedIn ==> request.value == ToSave(article, OrNull(param))
      ensures loggedIn && saved.Some? ==> selected == Some(WithSaved(article.(category := param), saved.value))
      ensures !(loggedIn && saved.Some?) ==> selected == Some(article.(category := param))
      ensures dialogOpen && currentPage == old(currentPage)
    {
      var tagged := article.(category := param);
      if loggedIn {
        request := Some(ToSave(tagged, OrNull(param)));
        if saved.Some? {
          selected := Some(WithSaved(tagged, saved.value));
        } else {
          selected := Some(tagged);
        }
      } else {
        request := None;
        selected := Some(tagged);
      }
      dialogOpen := true;
    }
  }
}
