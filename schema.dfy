/** The four tables of the application and their insert shapes. Columns that
    are nullable are `Option`s; `createdAt` columns, filled from the clock, are
    not part of this model. */
module Schema {
  import opened JsValues

  type Id = int

  /** Milliseconds since the epoch, as a JavaScript `Date` holds them. */
  type Timestamp = int

  /** A row of `users`: `username` is non-null and unique, both API keys nullable. */
  datatype User = User(
    id: Id,
    username: string,
    password: string,
    newsApiKey: Option<string>,
    geminiApiKey: Option<string>)

  /** A row of `interests`: `userId` references `users.id`, `active` is non-null. */
  datatype Interest = Interest(id: Id, userId: Id, name: string, active: bool)

  /** A row of `articles`: only `title` is non-null; `sourceId` carries no
      uniqueness constraint. */
  datatype Article = Article(
    id: Id,
    title: string,
    description: Option<string>,
    content: Option<string>,
    source: Option<string>,
    sourceId: Option<string>,
    url: Option<string>,
    urlToImage: Option<string>,
    publishedAt: Option<Timestamp>,
    category: Option<string>,
    summary: Option<string>)

  /** A row of `user_articles`. */
  datatype UserArticle = UserArticle(id: Id, userId: Id, articleId: Id, read: bool, saved: bool)

  /** The insert schema of `users` picks exactly these four columns. */
  datatype InsertUser = InsertUser(
    username: string,
    password: string,
    newsApiKey: Option<string>,
    geminiApiKey: Option<string>)

  /** The insert schema of `interests` picks `userId`, `name` and `active`;
      `active` may be left out. */
  datatype InsertInterest = InsertInterest(userId: Id, name: string, active: Option<bool>)

  /** The insert schema of `articles`: every column but the generated `id`. */
  datatype InsertArticle = InsertArticle(
    title: string,
    description: Option<string>,
    content: Option<string>,
    source: Option<string>,
    sourceId: Option<string>,
    url: Option<string>,
    urlToImage: Option<string>,
    publishedAt: Option<Timestamp>,
    category: Option<string>,
    summary: Option<string>)

  /** The insert schema of `user_articles`: `read` and `saved` may be left out. */
  datatype InsertUserArticle = InsertUserArticle(userId: Id, articleId: Id, read: Option<bool>, saved: Option<bool>)

  /** The column defaults of `interests.active` and of `user_articles.read`/`saved`. */
  const ActiveDefault := true
  const ReadDefault := false
  const SavedDefault := false

  /** The row the database builds from a `user_articles` insert: both flags
      are false unless the insert sets them to true. */
  function UserArticleRow(id: Id, ins: InsertUserArticle): (r: UserArticle)
    ensures r.id == id && r.userId == ins.userId && r.articleId == ins.articleId
    ensures r.read <==> ins.read == Some(true)
    ensures r.saved <==> ins.saved == Some(true)
  {
    UserArticle(id, ins.userId, ins.articleId, ins.read.GetOr(ReadDefault), ins.saved.GetOr(SavedDefault))
  }

  /** The `unique()` constraint on `users.username`. */
  ghost predicate UniqueUsernames(users: map<Id, User>) {
    forall a, b :: a in users && b in users && users[a].username == users[b].username ==> a == b
  }

  /** Adding, under a fresh key, a user whose name is already taken breaks the
      constraint: a store that inserts without looking, as the in-memory one
      does, can hold two users of the same name. */
  lemma DuplicateUsernameBreaksUniqueness(users: map<Id, User>, taken: Id, id: Id, u: User)
    requires taken in users && id !in users && users[taken].username == u.username
    ensures !UniqueUsernames(users[id := u])
  {
    var m := users[id := u];
    assert m[taken].username == m[id].username && taken != id;
  }
}
