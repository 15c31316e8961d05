# Newsflow, modelled in Dafny

Newsflow is a news reader. A TypeScript server keeps users, their interests and
saved articles in a store. It relays headlines and searches from a news
service, builds article summaries from the article's own text, and turns a
user's active interests into a personalised search. A React client pages
through the results and saves an article when it is opened.

This project models the parts of it that make decisions:

- **Store.** `Storage.MemStorage` is a class whose map fields and id counters
  change the way the in-memory store's `Map`s and counters do.
- **Summaries and queries.** The summary builder and the query builder are
  pure string functions (`Gemini`).
- **Request handlers.** The news handlers (`News`) and the interest and article
  routes (`Routes`) are methods over the store. Each returns its response. The
  news service's answer is a parameter, and the request sent to it is part of
  the result.
- **Client logic.** The pages keep the logic that decides something:
  - the merge of result pages by url;
  - the save request built from a listed article;
  - the form validators;
  - the category heading;
  - the profile key normaliser.

  Pure parts are functions. State that the pages change through React setters
  is a class with fields.

The module `JsValues` holds JavaScript's truthiness and `||` defaults for
optional strings. `Text` holds `trim`, `includes`, `substring`, `join`, number
printing and `encodeURIComponent`. The proofs about these functions sit
beside them.

Ids are unbounded integers. A JavaScript `Map` iterates in insertion order.
Ids come from counters that only increase, so that order is ascending id
order, and every scan of a map (`find`, `filter`) is modelled as a scan over
ids from 1 up to the counter.

## Model

| member | source | states |
|---|---|---|
| JsValues.OrNull | server/storage.ts:194-195 | `x \|\| null` keeps a non-empty string and turns "" or a missing value into null; truthiness is preserved |
| JsValues.OrEmpty | server/api/news.ts:18 | `x \|\| ''` is the value itself when it is a non-empty string, and "" exactly when the value is missing or empty |
| Text.Trim | server/api/gemini.ts:66 | the result is the slice of the input that starts after its leading whitespace and is followed only by whitespace, with no whitespace at either end; it is empty exactly when the input is all whitespace |
| Text.TrimPrefix | server/api/gemini.ts:54-66 | text appended after a string with a non-space character never removes what trimming that string kept |
| Text.TrimEndsWith | server/api/gemini.ts:62-66 | a tail that starts and ends with non-whitespace survives trimming |
| Text.Take | server/api/gemini.ts:57 | `substring(0, n)` is a prefix of length min(n, length) |
| Text.JoinSnoc | server/api/gemini.ts:89 | joining one more element appends the separator and that element |
| Text.JoinEmpty | server/api/gemini.ts:89 | with a non-empty separator, a non-empty list joins to "" exactly when it is `[""]` |
| Text.EncodeUriComponent | server/api/news.ts:152 | the output holds only unreserved characters and `%`, so it cannot carry `&`, `=` or `#` |
| Text.EncodeUnreservedIdentity | server/api/news.ts:152 | a string of unreserved characters encodes as itself |
| Schema.UserArticleRow | shared/schema.ts:36-43 | `read` and `saved` are false unless the insert sets them to true |
| Schema.DuplicateUsernameBreaksUniqueness | shared/schema.ts:7 | inserting a user under a fresh id with a name already taken breaks the `unique()` constraint on `username` |
| Storage.ApplyUserPatch | server/storage.ts:200-207 | `{...user, ...data}`: id and password are kept, each field changes exactly when the update names it |
| Storage.ApplyInterestPatch | server/storage.ts:229-236 | id and userId are kept, and name and active change exactly when the update names them |
| Storage.NewUserRow | server/storage.ts:186-198 | the new row takes the counter's id; missing or empty API keys are stored as null |
| Storage.NewInterestRow | server/storage.ts:216-227 | `active` is true when not supplied and the supplied value otherwise |
| Storage.NewArticleRow | server/storage.ts:262-276 | the row takes the given id, title and date; each of description, content, source, `sourceId`, url, image, category and summary is copied when non-empty and null otherwise, so the row is normalised |
| Storage.NameLeTotal | server/storage.ts:213 | the name order compares any two names |
| Storage.NameLeTransitive | server/storage.ts:213 | the name order is transitive |
| Storage.SortByName | server/storage.ts:213 | sorting by name is a permutation of its input |
| Storage.SortByNameSorted | server/storage.ts:213 | the sorted list is ordered by name |
| Storage.OwnedBelowExact | server/storage.ts:210-212 | the filtered scan holds exactly the user's interests below the bound, in increasing id order |
| Storage.SortedOwnedExact | server/storage.ts:210-214 | after sorting, the list still holds exactly the user's stored interests |
| Storage.MemStorage.constructor | server/storage.ts:158-174 | all maps are empty and every counter starts at 1 |
| Storage.MemStorage.GetUser | server/storage.ts:176-178 | the row stored under the id, or not found exactly when the id is absent |
| Storage.MemStorage.GetUserByUsername | server/storage.ts:180-184 | the first user, in insertion order, with that name; not found exactly when no user has it |
| Storage.MemStorage.CreateUser | server/storage.ts:186-198 | the id is the counter, which is not yet a key; one row is added and the counter grows by 1; nothing else changes; no uniqueness check is made, so a name already taken leaves two users with that name |
| Storage.MemStorage.UpdateUser | server/storage.ts:200-207 | an absent id gives not found and no change; otherwise the patched row replaces the old one under the same id |
| Storage.MemStorage.GetInterests | server/storage.ts:210-214 | exactly the user's interests, sorted by name |
| Storage.MemStorage.CreateInterest | server/storage.ts:216-227 | one row is added under a fresh id from the counter, with `active` defaulted to true |
| Storage.MemStorage.UpdateInterest | server/storage.ts:229-236 | an absent id gives not found and no change; otherwise only the named fields change |
| Storage.MemStorage.DeleteInterest | server/storage.ts:238-240 | true exactly when the id was present, and afterwards it is absent |
| Storage.MemStorage.DeleteInterestDurable | server/storage.ts:105-110 | the durable store's delete removes the id and reports true whether or not a row existed |
| Storage.MemStorage.GetArticleById | server/storage.ts:243-245 | the stored row or not found |
| Storage.MemStorage.GetArticleBySourceId | server/storage.ts:247-251 | the first article in insertion order with that `sourceId`; not found exactly when none has it |
| Storage.MemStorage.SaveArticle | server/storage.ts:253-278 | a non-empty `sourceId` already stored returns the first such row and changes nothing; otherwise exactly one normalised row is added under the next id |
| Http.SelectKey | server/api/news.ts:14-19 | the personal key when non-empty, else the default, else ""; the result is "" exactly when neither is set |
| Gemini.GetGeminiApiKey | server/api/gemini.ts:14-19 | an authenticated caller's non-empty key wins; otherwise the configured default or "" |
| Gemini.TruthyOnly | server/api/gemini.ts:31-35 | `.filter(Boolean)` holds exactly the non-empty strings present in the input, and is empty exactly when every input is empty or missing |
| Gemini.TruthyOnlyAppend | server/api/gemini.ts:31-35 | the filter keeps input order: one more input appends its string exactly when that string is non-empty |
| Gemini.ContentToSummarize | server/api/gemini.ts:31-35 | the text handed to the summariser starts with the title when there is one and ends with the content when there is some |
| Gemini.ContentToSummarizeEmpty | server/api/gemini.ts:31-39 | the combined text is empty exactly when title, description and content are all empty |
| Gemini.SummarizeArticle | server/api/gemini.ts:21-79 | a stored summary is returned unchanged; the description-based summary is trimmed; without a description the content is returned as it is; without either, the title template |
| Gemini.SummaryIdempotent | server/api/gemini.ts:24-26 | summarising an article that carries the summary just produced returns that summary again |
| Gemini.SummaryNullIff | server/api/gemini.ts:31-39 | the result is null exactly when there is no stored summary and title, description and content are all empty |
| Gemini.SummaryStartsWithDescription | server/api/gemini.ts:54 | with a description, the summary begins with the trimmed description |
| Gemini.SummarySkipsDuplicateContent | server/api/gemini.ts:57-59 | when the description contains the content's first 30 characters, the content is left out |
| Gemini.SummaryIncludesNewContent | server/api/gemini.ts:57-59 | otherwise the summary begins with description, blank line and content |
| Gemini.SummaryEndsWithSource | server/api/gemini.ts:62-66 | with a source, the trimmed summary ends with "Source: " and the source |
| Gemini.GenerateNewsForInterests | server/api/gemini.ts:83-90 | null exactly for an empty list; a single name is the query itself |
| Gemini.GenerateNewsAppend | server/api/gemini.ts:89 | the names appear in their given order, separated by " OR " |
| Gemini.GenerateNewsExample | server/api/gemini.ts:83-90 | `[]` gives null and `["ai", "space"]` gives "ai OR space" |
| Gemini.GenerateNewsEmpty | server/api/gemini.ts:89 | the query is "" exactly when the only name is "" |
| News.GetNewsApiKey | server/api/news.ts:14-19 | an authenticated caller's non-empty key wins; otherwise the configured default or "" |
| News.TopHeadlinesUrl | server/api/news.ts:28 | the headlines request for US news carries the page right after `page=`, then exactly `&pageSize=` and the page size, then `&category=` and the category when one is given |
| News.EverythingUrl | server/api/news.ts:62 | the query text fills the `q=` slot exactly as given, and exactly `&page=`, the page, `&pageSize=`, the page size and the English, relevance-sorted options follow it |
| News.CustomUrl | server/api/news.ts:152 | the personalised request is the `/everything` request with its query percent-encoded, so no `&`, `=` or `#` appears in the query slot |
| News.CustomUrlMatchesSearch | server/api/news.ts:152 | for a query of unreserved characters, the personalised request equals the search request, which sends its query unencoded |
| News.TopHeadlinesCategory | server/api/news.ts:28 | `&category=` is appended exactly when the category is non-empty, and the rest of the URL does not depend on it |
| News.Relay | server/api/news.ts:36-47 | a reply with a 2xx status is relayed with status 200; a failed one keeps its status with "News API error: " and its text; a throw gives 500 with the handler's message; the response is a success exactly when the reply was |
| News.GetTopHeadlines | server/api/news.ts:21-49 | always asks the news service, with the selected key; page and page size default to 1 and 10; the reply is relayed |
| News.DefaultHeadlinesPaging | server/api/news.ts:24-28 | without a page or a page size the headlines request asks for `page=1&pageSize=10` |
| News.DefaultSearchPaging | server/api/news.ts:54-62 | without a page or a page size a search asks for `page=1&pageSize=10` after its query |
| News.SearchNews | server/api/news.ts:51-83 | no request is sent exactly when the query is missing or empty, and then the answer is 400 "Search query is required" |
| News.WithSummary | server/api/news.ts:109-112 | the object spread sets the summary and keeps every other field of the article: title, description, content, source, `sourceId`, url, image, date and category |
| News.SaveSummary | server/api/news.ts:109-112 | saving an article taken from the store finds itself when it has a `sourceId`; otherwise a second row with the summary is added |
| News.GetArticleSummary | server/api/news.ts:85-119 | 401 without a caller, 404 for an unknown id, the stored summary when present, 500 when the summary is null or empty, otherwise 200 with it; the stored row is never changed |
| News.ActiveNames | server/api/news.ts:130-140 | the active interests' names; empty exactly when no interest is active |
| News.ActiveNamesAppend | server/api/news.ts:130-140 | the filter keeps list order |
| News.ActiveNamesSound | server/api/news.ts:130-140 | every name comes from an active interest |
| News.GetCustomNews | server/api/news.ts:121-180 | 401 without a caller; 404 when no interest is active; otherwise the joined names are sent encoded, and a successful reply comes back with `interests` and `generatedQuery` attached |
| Routes.ListInterests | server/routes.ts:23-35 | 401 without a caller; otherwise 200 with exactly the caller's interests, sorted by name |
| Routes.CreateInterestRoute | server/routes.ts:37-60 | 401 and no change without a caller; 400 and no change for a missing or empty name; otherwise 201 with a new active interest of the caller, under a fresh id |
| Routes.RoutePatch | server/routes.ts:69-74 | a field the body leaves out, or an empty name, is kept |
| Routes.ToggleKeepsName | server/routes.ts:71-74 | a body holding only `active` changes the flag and nothing else |
| Routes.RenameKeepsActive | server/routes.ts:71-74 | a body holding only a name renames and keeps the flag |
| Routes.UpdateObjectAsWritten | server/routes.ts:71-74 | the object passed on always has both keys, holding `undefined` where the body gave no value |
| Routes.Spread | server/storage.ts:233 | a key present in the update replaces the stored value, `undefined` included |
| Routes.ToggleLosesName | server/routes.ts:71-74 | as written, toggling an interest in the in-memory store drops its name |
| Routes.UpdateInterestRoute | server/routes.ts:62-85 | 401 without a caller; 404 for an unknown id; otherwise the interest updated by the corrected patch of the Findings row, whoever owns it |
| Routes.DeleteInterestRoute | server/routes.ts:87-105 | 401 and no change without a caller; otherwise the id is removed whoever owns it, with 404 exactly when the in-memory store had no such row and 204 otherwise |
| Routes.PublishedAt | server/routes.ts:120-132 | an empty or missing date gives null, and text that does not parse gives null instead of an error |
| Routes.ArticleInsert | server/routes.ts:114-134 | the insert carries the converted date and passes every other field of the request through unchanged |
| Routes.SaveArticleRoute | server/routes.ts:108-140 | 401 and 400 change nothing; otherwise 201 with what saving returns: the stored row for a known `sourceId`, or one new row |
| NewsTypes.ToSave | client/src/pages/home-page.tsx:43-53 | the dedup key is the source's id when non-empty and the url otherwise; description, content, image and source name are kept when non-empty and null otherwise; title and url are sent as they are; an empty date is left out; the category is the one the page passes; no summary is sent |
| NewsTypes.ToSaveStoredAsSent | client/src/pages/home-page.tsx:43-53 | the server's own null-normalisation changes none of the fields the request already normalised, so the stored row holds them as sent |
| NewsTypes.ToSaveHasDedupKey | client/src/pages/home-page.tsx:48 | an article with a url and a title reaches the store with a non-empty `sourceId`, the key on which `Storage.MemStorage.SaveArticle` finds a row already stored |
| NewsTypes.WithSaved | client/src/pages/home-page.tsx:66 | the shown article takes the stored row's id and summary and keeps every other field of the listed article |
| HomePage.UrlsOf | client/src/pages/home-page.tsx:33 | the set holds exactly the list's urls |
| HomePage.Unseen | client/src/pages/home-page.tsx:34 | no kept article has a url in the seen set |
| HomePage.MergeByUrl | client/src/pages/home-page.tsx:31-36 | the previous list is an exact prefix, followed by the unseen part of the batch |
| HomePage.UnseenMembers | client/src/pages/home-page.tsx:33-34 | an article is appended exactly when it is in the batch and its url is not in the previous list |
| HomePage.UnseenAppend | client/src/pages/home-page.tsx:34 | filtering keeps the incoming order |
| HomePage.DuplicatesWithinBatchKept | client/src/pages/home-page.tsx:33-34 | two articles of one batch with the same url, a url not in the previous list, are both appended after that list |
| HomePage.MergeIdempotent | client/src/pages/home-page.tsx:31-36 | merging the same batch twice equals merging it once |
| HomePage.HomeFeed.constructor | client/src/pages/home-page.tsx:15-19 | the page opens on page 1 with no articles, nothing selected and the article dialog closed |
| HomePage.HomeFeed.ReceivePage | client/src/pages/home-page.tsx:27-38 | the list becomes the merge of the old list and the batch; nothing else changes |
| HomePage.HomeFeed.LoadMore | client/src/pages/home-page.tsx:78-80 | the page grows by exactly 1 |
| HomePage.HomeFeed.ArticleClicked | client/src/pages/home-page.tsx:60-76 | a save is requested exactly when logged in; the saved id and summary are shown on success, the plain article otherwise; the dialog opens |
| CustomInterestsPage.StampCustom | client/src/pages/custom-interests-page.tsx:60-63 | every article gets the category "custom" and nothing else changes |
| CustomInterestsPage.MergeCustom | client/src/pages/custom-interests-page.tsx:56-69 | the previous list is kept as a prefix, followed by the stamped batch articles whose urls it does not hold, in batch order |
| CustomInterestsPage.MergeCustomAppends | client/src/pages/custom-interests-page.tsx:56-69 | every appended article is a batch article stamped "custom" whose url is new to the list |
| CustomInterestsPage.MergeCustomComplete | client/src/pages/custom-interests-page.tsx:56-69 | every batch article whose url is new to the list is appended, stamped "custom" |
| CustomInterestsPage.HasActiveInterests | client/src/pages/custom-interests-page.tsx:120 | some interest is active exactly when the server's list of active names is non-empty |
| CustomInterestsPage.CustomFeed.constructor | client/src/pages/custom-interests-page.tsx:17-22 | the page opens on page 1 with no articles, nothing selected and the article dialog closed |
| CustomInterestsPage.CustomFeed.ReceivePage | client/src/pages/custom-interests-page.tsx:53-71 | the list becomes the stamped merge |
| CustomInterestsPage.CustomFeed.LoadMore | client/src/pages/custom-interests-page.tsx:110-112 | the page grows by exactly 1 |
| CustomInterestsPage.CustomFeed.Refresh | client/src/pages/custom-interests-page.tsx:114-117 | the page returns to 1 and the accumulated list is kept |
| CustomInterestsPage.CustomFeed.ArticleClicked | client/src/pages/custom-interests-page.tsx:73-108 | a save with category "custom" is always requested; the dialog opens with the article stamped "custom" |
| CategoryPage.Find | client/src/pages/category-page.tsx:29 | the first listed category with that id, or none exactly when no entry has it |
| CategoryPage.Capitalize | client/src/pages/category-page.tsx:31 | same length, first character upper-cased, the rest kept |
| CategoryPage.CurrentCategory | client/src/pages/category-page.tsx:29-33 | a missing or empty parameter gives an empty id and name; otherwise the id is the parameter |
| CategoryPage.CurrentCategoryCases | client/src/pages/category-page.tsx:22-33 | the three listed ids have their fixed names; any other id is shown capitalised |
| CategoryPage.CategoryView.constructor | client/src/pages/category-page.tsx:17-19 | the page opens on page 1 with nothing selected and the article dialog closed |
| CategoryPage.CategoryView.LoadMore | client/src/pages/category-page.tsx:84-86 | the page grows by exactly 1 |
| CategoryPage.CategoryView.ArticleClicked | client/src/pages/category-page.tsx:60-82 | the article takes the route's category; a save is requested exactly when logged in; the dialog opens either way |
| AuthPage.AuthIssues | client/src/pages/auth-page.tsx:32-35 | no issue exactly when the username has 3 to 50 characters and the password at least 6 |
| AuthPage.RegisterIssues | client/src/pages/auth-page.tsx:37-42 | the login issues come first and every later issue is on `confirmPassword`; a mismatch is the last issue; a confirmation equal to a long enough password adds none |
| AuthPage.RegisterValid | client/src/pages/auth-page.tsx:37-42 | registration passes exactly when the login rules hold and the confirmation equals the password |
| AuthPage.MismatchOnConfirm | client/src/pages/auth-page.tsx:39-42 | a mismatch is reported on `confirmPassword`, whatever else failed |
| AuthPage.DefaultTab | client/src/pages/auth-page.tsx:52 | the register tab exactly when the `tab` parameter is "register" |
| AuthPage.RegisterCredentials | client/src/pages/auth-page.tsx:85-88 | only username and password are sent |
| AuthPage.RegisteredCanLogIn | client/src/pages/auth-page.tsx:32-42 | credentials that pass registration pass the login form |
| AddInterestDialog.InterestNameIssues | client/src/components/add-interest-dialog.tsx:32-34 | no issue exactly when the name has 2 to 50 characters |
| AddInterestDialog.MaxIsInclusive | client/src/components/add-interest-dialog.tsx:33 | 50 characters pass and 51 fail, whatever the message says |
| AddInterestDialog.ServerLooserThanDialog | client/src/components/add-interest-dialog.tsx:33 | every name the dialog accepts passes the server's check, and the one-letter name "Q" passes the server but not the dialog |
| AddInterestDialog.InterestDialog.constructor | client/src/components/add-interest-dialog.tsx:38-45 | the form starts with an empty name, and whether the dialog is open is the parent's `open` prop |
| AddInterestDialog.InterestDialog.Submit | client/src/components/add-interest-dialog.tsx:47-51 | a valid name is posted unchanged, and an invalid one is not sent |
| AddInterestDialog.InterestDialog.Succeeded | client/src/components/add-interest-dialog.tsx:52-60 | the form resets to an empty name and the dialog closes |
| AddInterestDialog.InterestDialog.Failed | client/src/components/add-interest-dialog.tsx:61-67 | the dialog stays as it was |
| ProfilePage.FormDefault | client/src/pages/profile-page.tsx:41-42 | a missing key shows as "" |
| ProfilePage.Submit | client/src/pages/profile-page.tsx:56-64 | each key is converted on its own: "" is sent as null and anything else as it is |
| ProfilePage.NormaliseKey | client/src/pages/profile-page.tsx:59-60 | "" is sent as null; anything else, null included, is sent unchanged |
| ProfilePage.UntouchedFormRoundTrip | client/src/pages/profile-page.tsx:41-60 | submitting the form as filled in never sends "" and sends back any stored key that is not "" |

## Left out

- Timestamps. `createdAt` columns and the clock are not modelled. The date parser of `POST /api/articles` (`new Date`, `getTime`) is a parameter. The client's re-serialisation of `publishedAt` through `new Date` is not modelled: the text is passed on as it is.
- `parseInt` on path and query parameters is not modelled. Ids and page numbers arrive as integers, so a `NaN` page in a URL is not modelled.
- Collation. `localeCompare` is replaced by code-point lexicographic order, which is proved total and transitive. Sort stability is not stated.
- String lengths count Unicode scalar values, not UTF-16 code units. Upper-casing covers the Latin letters a to z only.
- The network, the session and authentication are not modelled. `fetch` and its JSON decoding are one `Upstream` value, either a reply or a throw. `isAuthenticated()` and `req.user` are an optional caller. The session stores are not modelled.
- The text-generation service is not called by the server, so no call is modelled. The Gemini key helper is modelled, though its value is unused.
- The catch-all 500 answers of the routes are not modelled ("Failed to fetch interests", "Failed to create interest", "Failed to update interest", "Failed to delete interest", "Failed to save article", "Failed to get article summary", "Failed to fetch custom news"). The modelled store never throws. The code as written does throw after the bug of the Findings row: once a toggle has stored a name of `undefined`, `getInterests` calls `localeCompare` on it (server/storage.ts:213) whenever the user has another interest to compare with. That answers "Failed to fetch interests" in server/routes.ts:33 and "Failed to fetch custom news" in server/api/news.ts:178. Because the model uses the corrected update, it has no path to these answers.
- Routes.UpdateInterestRoute: applies the corrected update of the Findings row (`RoutePatch`). As written, the in-memory store keeps `undefined` for a field the body omits (see `Routes.ToggleLosesName`); the handler's contract does not describe that behaviour.
- The durable store's SQL is out of scope. Its only observable difference, `deleteInterest` always answering true, is `MemStorage.DeleteInterestDurable`. The handlers run against the in-memory store.
- With the durable store, `getArticleSummary`'s insert of an article that has no `sourceId` would reuse the article's own id. That insert and its outcome are not modelled.
- The `userArticles` map and counter of the in-memory store are declared but never used, so they are left out. `Schema.UserArticleRow` states the table's defaults.
- The cascade delete of interests with their user is not modelled: no operation here deletes users.
- Concurrency is not modelled. Operations run one at a time, so the check-then-insert race of `saveArticle` is not modelled.
- Request bodies are not validated for JSON types. `name`, `active` and `publishedAt` are taken to be a string, a boolean and a string when present.
- Rendering, hooks, query caching, toasts and the display-only components are out of scope.
- The server has no minimum length for interest names. `POST /api/interests` refuses only a missing or empty name (server/routes.ts:45), so a one-letter name is stored. The two-character minimum is enforced only by the add-interest dialog (client/src/components/add-interest-dialog.tsx:33); `AddInterestDialog.ServerLooserThanDialog` states the gap.

## Findings

| source | as written | input that shows it | evidently intended | confidence | as-written member | corrected member |
|---|---|---|---|---|---|---|
| server/routes.ts:71-74 with server/storage.ts:233 | `PUT /api/interests/:id` always passes both `active` and `name`, holding `undefined` when the body omits them. The in-memory store's spread then overwrites the stored value with `undefined`. | The interest tag's toggle sends `{active: false}` for the interest "AI". The stored row is left with no name. | A field the body leaves out keeps its stored value | not executed | Routes.ToggleLosesName | Routes.ToggleKeepsName |
