/** The in-memory storage backend: three maps keyed by id and one counter per
    table that hands out fresh ids. A JavaScript `Map` iterates in insertion
    order; here keys only ever enter a map as the current counter value, and
    re-setting a present key keeps its place, so that order is ascending id
    order, and the scans below walk the ids upwards. */
module Storage {
  import opened JsValues
  import opened Schema

  /** A `Partial<Omit<InsertUser, "password">>`. */
  datatype UserPatch = UserPatch(
    username: Patch<string>,
    newsApiKey: Patch<Option<string>>,
    geminiApiKey: Patch<Option<string>>)

  /** A `Partial<Omit<InsertInterest, "userId">>`. */
  datatype InterestPatch = InterestPatch(name: Patch<string>, active: Patch<bool>)

  /** `{ ...user, ...data }`: id and password are kept, and a field changes
      only when the patch carries that key. */
  function ApplyUserPatch(u: User, p: UserPatch): (r: User)
    ensures r.id == u.id && r.password == u.password
    ensures r.username == (if p.username.Put? then p.username.value else u.username)
    ensures r.newsApiKey == (if p.newsApiKey.Put? then p.newsApiKey.value else u.newsApiKey)
    ensures r.geminiApiKey == (if p.geminiApiKey.Put? then p.geminiApiKey.value else u.geminiApiKey)
  {
    u.(username := Apply(p.username, u.username),
       newsApiKey := Apply(p.newsApiKey, u.newsApiKey),
       geminiApiKey := Apply(p.geminiApiKey, u.geminiApiKey))
  }

  /** `{ ...interest, ...data }`: id and owner are kept. */
  function ApplyInterestPatch(i: Interest, p: InterestPatch): (r: Interest)
    ensures r.id == i.id && r.userId == i.userId
    ensures r.name == (if p.name.Put? then p.name.value else i.name)
    ensures r.active == (if p.active.Put? then p.active.value else i.active)
  {
    i.(name := Apply(p.name, i.name), active := Apply(p.active, i.active))
  }

  /** The row `createUser` stores: an empty or missing API key becomes null. */
  function NewUserRow(id: Id, data: InsertUser): (u: User)
    ensures u.id == id && u.username == data.username && u.password == data.password
    ensures u.newsApiKey.None? <==> !Truthy(data.newsApiKey)
    ensures u.geminiApiKey.None? <==> !Truthy(data.geminiApiKey)
    ensures u.newsApiKey.Some? ==> u.newsApiKey == data.newsApiKey
    ensures u.geminiApiKey.Some? ==> u.geminiApiKey == data.geminiApiKey
  {
    User(id, data.username, data.password, OrNull(data.newsApiKey), OrNull(data.geminiApiKey))
  }

  /** The row `createInterest` stores: `active` is true unless supplied. */
  function NewInterestRow(id: Id, data: InsertInterest): (i: Interest)
    ensures i.id == id && i.userId == data.userId && i.name == data.name
    ensures data.active.None? ==> i.active
    ensures data.active.Some? ==> i.active == data.active.value
  {
    Interest(id, data.userId, data.name, data.active.GetOr(ActiveDefault))
  }

  /** No optional text column of an article holds an empty string. */
  predicate Normalised(a: Article) {
    && a.description != Some("") && a.content != Some("") && a.source != Some("")
    && a.sourceId != Some("") && a.url != Some("") && a.urlToImage != Some("")
    && a.category != Some("") && a.summary != Some("")
  }

  /** The row `saveArticle` inserts: every empty or missing optional column is
      null, so the row is normalised, and the rest is copied. */
  function NewArticleRow(id: Id, data: InsertArticle): (a: Article)
    ensures a.id == id && a.title == data.title && a.publishedAt == data.publishedAt
    ensures Normalised(a)
    ensures a.description.None? <==> !Truthy(data.description)
    ensures a.content.None? <==> !Truthy(data.content)
    ensures a.sourceId.None? <==> !Truthy(data.sourceId)
    ensures a.summary.None? <==> !Truthy(data.summary)
    ensures a.description.Some? ==> a.description == data.description
    ensures a.content.Some? ==> a.content == data.content
    ensures a.sourceId.Some? ==> a.sourceId == data.sourceId
    ensures a.summary.Some? ==> a.summary == data.summary
    ensures a.source == OrNull(data.source) && a.url == OrNull(data.url)
    ensures a.urlToImage == OrNull(data.urlToImage) && a.category == OrNull(data.category)
  {
    Article(
      id, data.title,
      OrNull(data.description), OrNull(data.content), OrNull(data.source),
      OrNull(data.sourceId), OrNull(data.url), OrNull(data.urlToImage),
      data.publishedAt, OrNull(data.category), OrNull(data.summary))
  }

  /** The collation used to sort interest names: code-point lexicographic
      order, standing in for `localeCompare`. */
  predicate NameLe(a: string, b: string)
    decreases |a|
  {
    a == [] || (b != [] && (a[0] < b[0] || (a[0] == b[0] && NameLe(a[1..], b[1..]))))
  }

  lemma {:induction false} NameLeTotal(a: string, b: string)
    ensures NameLe(a, b) || NameLe(b, a)
    decreases |a|
  {
    if a != [] && b != [] && a[0] == b[0] {
      NameLeTotal(a[1..], b[1..]);
    }
  }

  lemma {:induction false} NameLeTransitive(a: string, b: string, c: string)
    requires NameLe(a, b) && NameLe(b, c)
    ensures NameLe(a, c)
    decreases |a|
  {
    if a != [] && a[0] == b[0] && b[0] == c[0] {
      NameLeTransitive(a[1..], b[1..], c[1..]);
    }
  }

  predicate SortedByName(s: seq<Interest>) {
    forall i, j :: 0 <= i < j < |s| ==> NameLe(s[i].name, s[j].name)
  }

  /** Places `x` before the first element whose name is not below its own. */
  function InsertByName(s: seq<Interest>, x: Interest): (r: seq<Interest>)
    ensures multiset(r) == multiset(s) + multiset{x}
  {
    if s == [] || NameLe(x.name, s[0].name) then [x] + s
    else
      assert s == [s[0]] + s[1..];
      [s[0]] + InsertByName(s[1..], x)
  }

  /** The `.sort((a, b) => a.name.localeCompare(b.name))` of `getInterests`. */
  function SortByName(s: seq<Interest>): (r: seq<Interest>)
    ensures multiset(r) == multiset(s)
  {
    assert s != [] ==> s == [s[0]] + s[1..];
    if s == [] then [] else InsertByName(SortByName(s[1..]), s[0])
  }

  lemma {:induction false} InsertByNameSorted(s: seq<Interest>, x: Interest)
    requires SortedByName(s)
    ensures SortedByName(InsertByName(s, x))
    decreases |s|
  {
    var r := InsertByName(s, x);
    if s == [] || NameLe(x.name, s[0].name) {
      forall i, j | 0 <= i < j < |r| ensures NameLe(r[i].name, r[j].name) {
        if i == 0 && j > 1 {
          NameLeTransitive(x.name, s[0].name, s[j - 1].name);
        }
      }
    } else {
      NameLeTotal(x.name, s[0].name);
      var t := InsertByName(s[1..], x);
      InsertByNameSorted(s[1..], x);
      assert SortedByName(t);
      forall j | 0 <= j < |t| ensures NameLe(s[0].name, t[j].name) {
        assert t[j] in multiset(t);
        if t[j] != x {
          assert t[j] in multiset(s[1..]);
          var k :| 0 <= k < |s[1..]| && s[1..][k] == t[j];
          assert s[k + 1] == t[j];
        }
      }
    }
  }

  /** Sorting yields a name-ordered permutation of its input. */
  lemma {:induction false} SortByNameSorted(s: seq<Interest>)
    ensures SortedByName(SortByName(s))
    decreases |s|
  {
    if s != [] {
      SortByNameSorted(s[1..]);
      InsertByNameSorted(SortByName(s[1..]), s[0]);
    }
  }

  /** `Array.from(map.values()).filter(interest => interest.userId === userId)`
      over the ids below `bound`, in ascending id order. */
  function OwnedBelow(m: map<Id, Interest>, userId: Id, bound: Id): seq<Interest>
    decreases bound
  {
    if bound <= 1 then []
    else OwnedBelow(m, userId, bound - 1)
         + (if bound - 1 in m && m[bound - 1].userId == userId then [m[bound - 1]] else [])
  }

  /** Every key of the map is the id of the row it holds. */
  ghost predicate KeyedById(m: map<Id, Interest>) {
    forall k :: k in m ==> m[k].id == k
  }

  /** The filtered scan holds exactly the user's interests with ids below the
      bound, in strictly ascending id order. */
  lemma {:induction false} OwnedBelowExact(m: map<Id, Interest>, userId: Id, bound: Id)
    requires KeyedById(m)
    ensures forall x :: x in OwnedBelow(m, userId, bound) <==>
      (x.id in m && m[x.id] == x && x.userId == userId && 1 <= x.id < bound)
    ensures forall i, j :: 0 <= i < j < |OwnedBelow(m, userId, bound)| ==>
      OwnedBelow(m, userId, bound)[i].id < OwnedBelow(m, userId, bound)[j].id
    decreases bound
  {
    if bound > 1 {
      OwnedBelowExact(m, userId, bound - 1);
    }
  }

  /** Sorting the scan of a whole table gives exactly the user's rows. */
  lemma SortedOwnedExact(m: map<Id, Interest>, userId: Id, bound: Id)
    requires KeyedById(m)
    requires forall k :: k in m ==> 1 <= k < bound
    ensures forall x: Interest :: x in SortByName(OwnedBelow(m, userId, bound)) <==> x.id in m && m[x.id] == x && x.userId == userId
  {
    var owned := OwnedBelow(m, userId, bound);
    var sorted := SortByName(owned);
    OwnedBelowExact(m, userId, bound);
    forall x: Interest | x in sorted ensures x.id in m && m[x.id] == x && x.userId == userId {
      assert x in multiset(sorted);
      assert x in owned;
    }
    forall x: Interest | x.id in m && m[x.id] == x && x.userId == userId ensures x in sorted {
      assert x in owned;
      assert x in multiset(owned);
    }
  }

  class MemStorage {
    var users: map<Id, User>
    var interests: map<Id, Interest>
    var articles: map<Id, Article>
    var currentUserId: Id
    var currentInterestId: Id
    var currentArticleId: Id

    /** Every row sits under its own id, every id lies below its table's
        counter, and every stored article is normalised. */
    ghost predicate Valid()
      reads this
    {
      && 1 <= currentUserId && 1 <= currentInterestId && 1 <= currentArticleId
      && (forall id :: id in users ==> 1 <= id < currentUserId && users[id].id == id)
      && (forall id :: id in interests ==> 1 <= id < currentInterestId && interests[id].id == id)
      && (forall id :: id in articles ==> 1 <= id < currentArticleId && articles[id].id == id && Normalised(articles[id]))
    }

    constructor ()
      ensures Valid()
      ensures users == map[] && interests == map[] && articles == map[]
      ensures currentUserId == 1 && currentInterestId == 1 && currentArticleId == 1
    {
      users, interests, articles := map[], map[], map[];
      currentUserId, currentInterestId, currentArticleId := 1, 1, 1;
    }

    /** `getUser`: the row stored under `id`, or not found. */
    function GetUser(id: Id): (r: Option<User>)
      reads this
      requires Valid()
      ensures r.Some? <==> id in users
      ensures r.Some? ==> r.value == users[id] && r.value.id == id
    {
      if id in users then Some(users[id]) else None
    }

    /** `getUserByUsername`: the first user, in insertion order, with that name. */
    method GetUserByUsername(username: string) returns (r: Option<User>)
      requires Valid()
      ensures r.Some? ==> r.value.id in users && users[r.value.id] == r.value && r.value.username == username
      ensures r.Some? ==> forall id :: id in users && id < r.value.id ==> users[id].username != username
      ensures r.None? ==> forall id :: id in users ==> users[id].username != username
    {
      var id := 1;
      while id < currentUserId
        invariant 1 <= id <= currentUserId
        invariant forall k :: k in users && k < id ==> users[k].username != username
      {
        if id in users && users[id].username == username {
          return Some(users[id]);
        }
        id := id + 1;
      }
      return None;
    }

    /** `createUser`: the next user id, missing or empty keys stored as null;
        nothing checks that the username is free. */
    method CreateUser(data: InsertUser) returns (u: User)
      requires Valid()
      modifies this
      ensures Valid()
      ensures u == NewUserRow(old(currentUserId), data)
      ensures u.id !in old(users) && users == old(users)[u.id := u]
      ensures currentUserId == old(currentUserId) + 1
      ensures interests == old(interests) && articles == old(articles)
      ensures currentInterestId == old(currentInterestId) && currentArticleId == old(currentArticleId)
      ensures (exists taken :: taken in old(users) && old(users)[taken].username == data.username) ==>
        !UniqueUsernames(users)
    {
      var id := currentUserId;
      currentUserId := currentUserId + 1;
      u := NewUserRow(id, data);
      users := users[id := u];
      forall taken | taken in old(users) && old(users)[taken].username == data.username
        ensures !UniqueUsernames(users)
      {
        DuplicateUsernameBreaksUniqueness(old(users), taken, id, u);
      }
    }

    /** `updateUser`: not found leaves the map alone; otherwise the patched row
        replaces the old one under the same id. */
    method UpdateUser(id: Id, data: UserPatch) returns (r: Option<User>)
      requires Valid()
      modifies this
      ensures Valid()
      ensures id !in old(users) ==> r.None? && users == old(users)
      ensures id in old(users) ==> r == Some(ApplyUserPatch(old(users)[id], data)) && users == old(users)[id := r.value]
      ensures interests == old(interests) && articles == old(articles)
      ensures currentUserId == old(currentUserId) && currentInterestId == old(currentInterestId)
      ensures currentArticleId == old(currentArticleId)
    {
      var user := GetUser(id);
      if user.None? {
        return None;
      }
      var updated := ApplyUserPatch(user.value, data);
      users := users[id := updated];
      return Some(updated);
    }

    /** The list `getInterests(userId)` returns. */
    ghost function InterestsOf(userId: Id): seq<Interest>
      reads this
    {
      SortByName(OwnedBelow(interests, userId, currentInterestId))
    }

    /** `getInterests`: exactly the user's interests, sorted by name. */
    method GetInterests(userId: Id) returns (r: seq<Interest>)
      requires Valid()
      ensures r == InterestsOf(userId)
      ensures SortedByName(r)
      ensures forall x: Interest :: x in r <==> x.id in interests && interests[x.id] == x && x.userId == userId
    {
      var owned: seq<Interest> := [];
      var id := 1;
      while id < currentInterestId
        invariant 1 <= id <= currentInterestId
        invariant owned == OwnedBelow(interests, userId, id)
      {
        if id in interests && interests[id].userId == userId {
          owned := owned + [interests[id]];
        }
        id := id + 1;
      }
      r := SortByName(owned);
      SortByNameSorted(owned);
      SortedOwnedExact(interests, userId, currentInterestId);
    }

    /** `createInterest`: the next interest id; `active` defaults to true. */
    method CreateInterest(data: InsertInterest) returns (i: Interest)
      requires Valid()
      modifies this
      ensures Valid()
      ensures i == NewInterestRow(old(currentInterestId), data)
      ensures i.id !in old(interests) && interests == old(interests)[i.id := i]
      ensures currentInterestId == old(currentInterestId) + 1
      ensures users == old(users) && articles == old(articles)
      ensures currentUserId == old(currentUserId) && currentArticleId == old(currentArticleId)
    {
      var id := currentInterestId;
      currentInterestId := currentInterestId + 1;
      i := NewInterestRow(id, data);
      interests := interests[id := i];
    }

    /** `updateInterest`: not found leaves the map alone; otherwise the patched
        row replaces the old one under the same id. */
    method UpdateInterest(id: Id, data: InterestPatch) returns (r: Option<Interest>)
      requires Valid()
      modifies this
      ensures Valid()
      ensures id !in old(interests) ==> r.None? && interests == old(interests)
      ensures id in old(interests) ==>
        r == Some(ApplyInterestPatch(old(interests)[id], data)) && interests == old(interests)[id := r.value]
      ensures users == old(users) && articles == old(articles)
      ensures currentUserId == old(currentUserId) && currentInterestId == old(currentInterestId)
      ensures currentArticleId == old(currentArticleId)
    {
      if id !in interests {
        return None;
      }
      var updated := ApplyInterestPatch(interests[id], data);
      interests := interests[id := updated];
      return Some(updated);
    }

    /** `deleteInterest` of the in-memory backend: true exactly when the id was
        present, and afterwards it is absent. */
    method DeleteInterest(id: Id) returns (deleted: bool)
      requires Valid()
      modifies this
      ensures Valid()
      ensures deleted <==> id in old(interests)
      ensures interests == old(interests) - {id}
      ensures users == old(users) && articles == old(articles)
      ensures currentUserId == old(currentUserId) && currentInterestId == old(currentInterestId)
      ensures currentArticleId == old(currentArticleId)
    {
      deleted := id in interests;
      interests := interests - {id};
    }

    /** `deleteInterest` of the durable backend: the same removal, but the
        answer is true whether or not a row was deleted. */
    method DeleteInterestDurable(id: Id) returns (deleted: bool)
      requires Valid()
      modifies this
      ensures Valid()
      ensures deleted
      ensures interests == old(interests) - {id}
      ensures users == old(users) && articles == old(articles)
      ensures currentUserId == old(currentUserId) && currentInterestId == old(currentInterestId)
      ensures currentArticleId == old(currentArticleId)
    {
      interests := interests - {id};
      deleted := true;
    }

    /** `getArticleById`. */
    function GetArticleById(id: Id): (r: Option<Article>)
      reads this
      requires Valid()
      ensures r.Some? <==> id in articles
      ensures r.Some? ==> r.value == articles[id] && r.value.id == id && Normalised(r.value)
    {
      if id in articles then Some(articles[id]) else None
    }

    /** Some stored article carries this `sourceId`. */
    ghost predicate HasSourceId(sourceId: string)
      reads this
    {
      exists id :: id in articles && articles[id].sourceId == Some(sourceId)
    }

    /** `getArticleBySourceId`: the first article, in insertion order, whose
        `sourceId` equals the argument. */
    method GetArticleBySourceId(sourceId: string) returns (r: Option<Article>)
      requires Valid()
      ensures r.Some? ==> r.value.id in articles && articles[r.value.id] == r.value && r.value.sourceId == Some(sourceId)
      ensures r.Some? ==> forall id :: id in articles && id < r.value.id ==> articles[id].sourceId != Some(sourceId)
      ensures r.None? <==> !HasSourceId(sourceId)
    {
      var id := 1;
      while id < currentArticleId
        invariant 1 <= id <= currentArticleId
        invariant forall k :: k in articles && k < id ==> articles[k].sourceId != Some(sourceId)
      {
        if id in articles && articles[id].sourceId == Some(sourceId) {
          return Some(articles[id]);
        }
        id := id + 1;
      }
      return None;
    }

    /** `saveArticle`: a non-empty `sourceId` already stored returns the first
        row carrying it and changes nothing; otherwise exactly one normalised
        row is added under the next article id. */
    method SaveArticle(data: InsertArticle) returns (a: Article)
      requires Valid()
      modifies this
      ensures Valid()
      ensures Truthy(data.sourceId) && old(HasSourceId(data.sourceId.value)) ==>
        && a.id in old(articles) && old(articles)[a.id] == a && a.sourceId == data.sourceId
        && (forall id :: id in old(articles) && id < a.id ==> old(articles)[id].sourceId != data.sourceId)
        && articles == old(articles) && currentArticleId == old(currentArticleId)
      ensures !(Truthy(data.sourceId) && old(HasSourceId(data.sourceId.value))) ==>
        && a == NewArticleRow(old(currentArticleId), data)
        && a.id !in old(articles) && articles == old(articles)[a.id := a]
        && currentArticleId == old(currentArticleId) + 1
      ensures users == old(users) && interests == old(interests)
      ensures currentUserId == old(currentUserId) && currentInterestId == old(currentInterestId)
    {
      if Truthy(data.sourceId) {
        var existing := GetArticleBySourceId(data.sourceId.value);
        if existing.Some? {
          return existing.value;
        }
      }
      var id := currentArticleId;
      currentArticleId := currentArticleId + 1;
      a := NewArticleRow(id, data);
      articles := articles[id := a];
    }
  }

  /** No table and no counter of the store changed. */
  twostate predicate StoreUnchanged(store: MemStorage)
    reads store
  {
    && store.users == old(store.users) && store.interests == old(store.interests)
    && store.articles == old(store.articles)
    && store.currentUserId == old(store.currentUserId) && store.currentInterestId == old(store.currentInterestId)
    && store.currentArticleId == old(store.currentArticleId)
  }
}
