/** The interest and article endpoints over the in-memory store. Each one
    refuses an unauthenticated caller with 401 before touching the store;
    none of them compares an interest's owner with the caller. */
module Routes {
  import opened JsValues
  import opened Schema
  import opened Storage
  import opened Http

  /** Which store answers `deleteInterest`: the in-memory one reports whether
      a row was removed, the durable one always reports success. */
  datatype Backend = InMemory | Durable

  const NameRequired := Response(400, Message("Interest name is required"))
  const InterestNotFound := Response(404, Message("Interest not found"))
  const TitleRequired := Response(400, Message("Article title is required"))

  /** `GET /api/interests`: exactly the caller's interests, sorted by name. */
  method ListInterests(store: MemStorage, caller: Caller) returns (resp: Response)
    requires store.Valid()
    ensures caller.None? ==> resp == Unauthorized
    ensures caller.Some? ==> resp.status == 200 && resp.body.InterestsJson?
    ensures caller.Some? ==> resp.body.interests == store.InterestsOf(caller.value.id)
    ensures caller.Some? ==> SortedByName(resp.body.interests)
    ensures caller.Some? ==> forall x: Interest :: x in resp.body.interests <==>
      x.id in store.interests && store.interests[x.id] == x && x.userId == caller.value.id
  {
    if caller.None? {
      return Unauthorized;
    }
    var interests := store.GetInterests(caller.value.id);
    resp := Response(200, InterestsJson(interests));
  }

  /** `POST /api/interests`: a missing or empty name is refused; any other
      name, whatever its length, becomes an active interest of the caller. */
  method CreateInterestRoute(store: MemStorage, caller: Caller, name: Option<string>) returns (resp: Response)
    requires store.Valid()
    modifies store
    ensures store.Valid()
    ensures caller.None? ==> resp == Unauthorized && StoreUnchanged(store)
    ensures caller.Some? && !Truthy(name) ==> resp == NameRequired && StoreUnchanged(store)
    ensures caller.Some? && Truthy(name) ==>
      var i := Interest(old(store.currentInterestId), caller.value.id, name.value, true);
      && resp == Response(201, InterestJson(i))
      && i.id !in old(store.interests)
      && store.interests == old(store.interests)[i.id := i]
      && store.currentInterestId == old(store.currentInterestId) + 1
      && store.users == old(store.users) && store.articles == old(store.articles)
  {
    if caller.None? {
      return Unauthorized;
    }
    if !Truthy(name) {
      return NameRequired;
    }
    var created := store.CreateInterest(InsertInterest(caller.value.id, name.value, Some(true)));
    resp := Response(201, InterestJson(created));
  }

  /** The update `PUT /api/interests/:id` asks for, read as intended: a body
      without `active` keeps the stored flag, and a missing or empty `name`
      keeps the stored name. */
  function RoutePatch(active: Option<bool>, name: Option<string>): (p: InterestPatch)
    ensures p.active.Put? <==> active.Some?
    ensures p.name.Put? <==> Truthy(name)
    ensures p.active.Put? ==> p.active.value == active.value
    ensures p.name.Put? ==> p.name.value == name.value
  {
    InterestPatch(if Truthy(name) then Put(name.value) else Keep,
                  if active.Some? then Put(active.value) else Keep)
  }

  /** Toggling an interest, as the interest tag does with a body holding only
      `active`, changes the flag and nothing else. */
  lemma ToggleKeepsName(i: Interest, active: bool)
    ensures ApplyInterestPatch(i, RoutePatch(Some(active), None)) == i.(active := active)
  {
  }

  /** A property of a JavaScript object: present with `undefined`, or present
      with a value. */
  datatype Slot<T> = Undefined | Defined(value: T)

  /** The object `PUT /api/interests/:id` hands to `updateInterest` as the
      handler is written: both keys are always present, holding `undefined`
      when the body did not supply a value. */
  datatype UpdateObject = UpdateObject(active: Slot<bool>, name: Slot<string>)

  function UpdateObjectAsWritten(active: Option<bool>, name: Option<string>): (o: UpdateObject)
    ensures o.active.Undefined? <==> active.None?
    ensures o.name.Undefined? <==> !Truthy(name)
  {
    UpdateObject(if active.Some? then Defined(active.value) else Undefined,
                 if Truthy(name) then Defined(name.value) else Undefined)
  }

  /** An interest after the in-memory store's `{...interest, ...data}`: a key
      present in `data` replaces the stored value even when it is `undefined`. */
  datatype SpreadInterest = SpreadInterest(id: Id, userId: Id, name: Slot<string>, active: Slot<bool>)

  function Spread(i: Interest, data: UpdateObject): (r: SpreadInterest)
    ensures r.id == i.id && r.userId == i.userId
    ensures r.name == data.name && r.active == data.active
  {
    SpreadInterest(i.id, i.userId, data.name, data.active)
  }

  /** As written, toggling an interest with a body holding only `active`
      leaves the in-memory row without a name; the interest "AI" shows it. */
  lemma ToggleLosesName(i: Interest, active: bool)
    ensures Spread(i, UpdateObjectAsWritten(Some(active), None)).name.Undefined?
    ensures Spread(Interest(1, 1, "AI", true), UpdateObjectAsWritten(Some(false), None))
      == SpreadInterest(1, 1, Undefined, Defined(false))
  {
  }

  /** A body naming only a new name renames the interest and keeps its flag. */
  lemma RenameKeepsActive(i: Interest, name: string)
    requires name != ""
    ensures ApplyInterestPatch(i, RoutePatch(None, Some(name))) == i.(name := name)
  {
  }

  /** `PUT /api/interests/:id`: an unknown id gives 404; a known one is
      updated and returned, whoever owns it. */
  method UpdateInterestRoute(store: MemStorage, caller: Caller, id: Id, active: Option<bool>, name: Option<string>)
    returns (resp: Response)
    requires store.Valid()
    modifies store
    ensures store.Valid()
    ensures caller.None? ==> resp == Unauthorized && StoreUnchanged(store)
    ensures caller.Some? && id !in old(store.interests) ==> resp == InterestNotFound && StoreUnchanged(store)
    ensures caller.Some? && id in old(store.interests) ==>
      var updated := ApplyInterestPatch(old(store.interests[id]), RoutePatch(active, name));
      && resp == Response(200, InterestJson(updated))
      && store.interests == old(store.interests)[id := updated]
      && store.users == old(store.users) && store.articles == old(store.articles)
      && store.currentInterestId == old(store.currentInterestId)
  {
    if caller.None? {
      return Unauthorized;
    }
    var updated := store.UpdateInterest(id, RoutePatch(active, name));
    if updated.None? {
      return InterestNotFound;
    }
    resp := Response(200, InterestJson(updated.value));
  }

  /** `DELETE /api/interests/:id`: the id is gone afterwards, whoever owned
      it; 404 only when the in-memory store had no such row. */
  method DeleteInterestRoute(store: MemStorage, caller: Caller, backend: Backend, id: Id) returns (resp: Response)
    requires store.Valid()
    modifies store
    ensures store.Valid()
    ensures caller.None? ==> resp == Unauthorized && StoreUnchanged(store)
    ensures caller.Some? ==> store.interests == old(store.interests) - {id}
    ensures caller.Some? ==> store.users == old(store.users) && store.articles == old(store.articles)
    ensures caller.Some? ==> (resp == InterestNotFound <==> backend == InMemory && id !in old(store.interests))
    ensures caller.Some? && resp != InterestNotFound ==> resp == Response(204, NoBody)
  {
    if caller.None? {
      return Unauthorized;
    }
    var success: bool;
    if backend == InMemory {
      success := store.DeleteInterest(id);
    } else {
      success := store.DeleteInterestDurable(id);
    }
    if !success {
      return InterestNotFound;
    }
    resp := Response(204, NoBody);
  }

  /** The body of `POST /api/articles`; `publishedAt` arrives as text. */
  datatype ArticleRequest = ArticleRequest(
    title: Option<string>,
    description: Option<string>,
    content: Option<string>,
    source: Option<string>,
    sourceId: Option<string>,
    url: Option<string>,
    urlToImage: Option<string>,
    publishedAt: Option<string>,
    category: Option<string>,
    summary: Option<string>)

  /** The publication time stored for a request: a non-empty text is parsed,
      and text that is not a date becomes null instead of an error. */
  function PublishedAt(text: Option<string>, parseDate: string -> Option<Timestamp>): (t: Option<Timestamp>)
    ensures t.None? <==> !Truthy(text) || parseDate(text.value).None?
    ensures t.Some? ==> t == parseDate(text.value)
  {
    if Truthy(text) then parseDate(text.value) else None
  }

  /** What `saveArticle` receives for a request that has a title. */
  function ArticleInsert(body: ArticleRequest, parseDate: string -> Option<Timestamp>): (ins: InsertArticle)
    requires Truthy(body.title)
    ensures ins.title == body.title.value && ins.sourceId == body.sourceId
    ensures ins.publishedAt == PublishedAt(body.publishedAt, parseDate)
    ensures ins.description == body.description && ins.content == body.content && ins.source == body.source
    ensures ins.url == body.url && ins.urlToImage == body.urlToImage
    ensures ins.category == body.category && ins.summary == body.summary
  {
    InsertArticle(body.title.value, body.description, body.content, body.source, body.sourceId, body.url,
                  body.urlToImage, PublishedAt(body.publishedAt, parseDate), body.category, body.summary)
  }

  /** `POST /api/articles`: a request without a title is refused; otherwise
      the reply is 201 with whatever `saveArticle` returns, the already
      stored row included. */
  method SaveArticleRoute(store: MemStorage, caller: Caller, body: ArticleRequest,
                          parseDate: string -> Option<Timestamp>) returns (resp: Response)
    requires store.Valid()
    modifies store
    ensures store.Valid()
    ensures caller.None? ==> resp == Unauthorized && StoreUnchanged(store)
    ensures caller.Some? && !Truthy(body.title) ==> resp == TitleRequired && StoreUnchanged(store)
    ensures caller.Some? && Truthy(body.title) ==>
      var ins := ArticleInsert(body, parseDate);
      && resp.status == 201 && resp.body.ArticleJson?
      && (Truthy(ins.sourceId) && old(store.HasSourceId(ins.sourceId.value)) ==>
            && StoreUnchanged(store)
            && resp.body.article.id in store.articles && store.articles[resp.body.article.id] == resp.body.article
            && resp.body.article.sourceId == ins.sourceId)
      && (!(Truthy(ins.sourceId) && old(store.HasSourceId(ins.sourceId.value))) ==>
            && resp.body.article == NewArticleRow(old(store.currentArticleId), ins)
            && store.articles == old(store.articles)[old(store.currentArticleId) := resp.body.article]
            && store.currentArticleId == old(store.currentArticleId) + 1)
  {
    if caller.None? {
      return Unauthorized;
    }
    if !Truthy(body.title) {
      return TitleRequired;
    }
    var saved := store.SaveArticle(ArticleInsert(body, parseDate));
    resp := Response(201, ArticleJson(saved));
  }
}
