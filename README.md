# News digest pipeline, modelled in Dafny

The news digest page asks a news-search service for articles from one
publisher domain. It keeps the first `num_articles` of them. For each article
it assembles a text from the title, description and content, then shows
either a model-generated summary of that text or a fixed placeholder. This
project models the part of that pipeline the program itself owns:

- `News`: the data model. An article's keys may be absent (`Missing`), JSON
  null (`Null`) or a string (`Text`), and its `source` may be absent, null or
  an object with a `name`. `Get` is `article.get(key, '')`, and `Truthy` is
  Python truthiness of its result. The service's `articles` key may be
  absent, null or a list. `Error` names the exceptions the page's lookups
  raise.
- `TextAssembly`: `prepare_article_text`. It is `' '.join` (`Join`) over the
  list comprehension that keeps the truthy sections (`KeepTruthy`).
  `AppendAll` is a second, independent definition that builds the text one
  section at a time. The lemmas relate the assembled text to the fields.
- `Selection`: `.get('articles', [])` followed by the slice `[:num_articles]`.
  `SlicePrefix` follows Python's slice for every integer bound, negative
  bounds included.
- `Digest`: the loop over the selected articles (`RenderPage`) and the
  summary-or-placeholder branch (`SummaryFor`). The summarisation model is
  the caller-supplied function `summarize`. A `Generated(input, text)`
  summary records the one call made to it. `Unavailable` means no call was
  made and the page shows `Placeholder`. A `Page` holds the entries the loop
  got through and the exception that ended it, if one did.
- `Filters`: the constant category-to-domain table.

Facts about the code that the model follows:

- A summary's length is bounded only inside the summarisation library
  (test.py:26), so nothing is claimed about it here.
- A response without an `articles` key selects no article. A null `articles`
  value makes the slice at test.py:53 raise, and the page ends with
  `NotSubscriptable`.
- `prepare_article_text` skips a missing or null title. The loop, however,
  reads `article['title']`, `article['source']['name']` and
  `article['publishedAt']` before the summary (test.py:58-60) and
  `article['url']` after it (test.py:69). A missing key there raises
  `KeyError` and ends the page. A null title, name, timestamp or url raises
  nothing. A null `source` raises, because `None['name']` is not subscriptable.

## Model

| member | source | states |
|---|---|---|
| `News.Get` | test.py:22 | `.get(key, '')` is truthy exactly when the field carries non-empty text, and then yields that text; only a null value gives `None` |
| `TextAssembly.KeepTruthy` | test.py:23 | the comprehension keeps only non-empty strings, never more than it is given, and keeps none exactly when no section is truthy |
| `TextAssembly.Join` | test.py:23 | `' '.join` of no parts is `""`; otherwise its length is the parts' total length plus one space per gap, and it starts with the first part |
| `TextAssembly.PrepareArticleText` | test.py:21-23 | the assembled text is the join of the non-empty fields in the order title, description, content, skipping missing, null and empty ones; a non-empty title is its prefix |
| `TextAssembly.EmptyIffNoText` | test.py:22-23 | the assembled text is empty if and only if title, description and content are all missing, null or empty |
| `TextAssembly.OnlyTitle` | test.py:22-23 | with only a non-empty title, the assembled text is exactly the title, with no added space |
| `TextAssembly.AllThreeFields` | test.py:22-23 | with all three fields non-empty, the text is title, space, description, space, content, none of them trimmed |
| `TextAssembly.AssembledLength` | test.py:23 | with k >= 1 non-empty fields, the length is the sum of their lengths plus k - 1; with none it is 0; whitespace-only fields count as non-empty |
| `TextAssembly.BlankFieldsInterchangeable` | test.py:22-23 | articles whose fields carry the same texts assemble to the same string, whether a blank field is missing, null or `""` |
| `TextAssembly.MissingKeyLikeEmptyString` | test.py:22 | replacing a field by a missing key gives the same text as replacing it by the empty string (the `.get(..., '')` default) |
| `TextAssembly.AssembledIncrementally` | test.py:21-23 | joining the filtered sections equals appending the truthy sections one by one, with a space only between two texts |
| `TextAssembly.AppendAllIsJoin` | test.py:23 | for any starting text and sections, appending one by one equals joining the non-empty start with the truthy sections |
| `Selection.SlicePrefix` | test.py:53 | `xs[:n]` is a prefix of `xs`; for n >= 0 it has min(n, \|xs\|) items and no padding; for n < 0 it drops \|n\| items from the end |
| `Selection.FetchedArticles` | test.py:18 | a missing `articles` key gives the empty list, a list is returned unchanged, and only a null value gives `None` |
| `Selection.SelectArticles` | test.py:18-53 | selection fails, with `NotSubscriptable`, exactly when `articles` is null; no key selects the empty list; a list gives its first min(n, \|list\|) articles in order for n >= 0, never more than n |
| `Digest.SummaryFor` | test.py:62-67 | the summariser is called if and only if the assembled text is non-empty, and is given exactly that text; its result is the summary |
| `Digest.ShownSummary` | test.py:62-67 | an article with no title, description or content shows "Content not available for summarization."; any other shows the model's summary of its assembled text |
| `Digest.HeaderError` | test.py:58-60 | the lookups before the summary succeed exactly when `title`, `source` with its `name`, and `publishedAt` are present; the first failing lookup, in the order title, source, name, publishedAt, decides the error: `KeyError('title')`, then `KeyError('source')` for an absent source or `NotSubscriptable` for a null one, then `KeyError('name')`, then `KeyError('publishedAt')` |
| `Digest.UrlError` | test.py:69 | the `url` lookup after the summary raises `KeyError('url')` exactly when the key is absent; a null or empty url raises nothing |
| `Digest.Entries` | test.py:57-67 | the summary step over a list of articles: one entry per article, in order, pairing it with its summary-or-placeholder |
| `Digest.RenderPage` | test.py:57-70 | the loop completes exactly when every article has its display keys, and then has one entry per article; otherwise it stops at the first header failure before that article's summary, or at a missing `url` just after it |
| `Digest.RenderedSummaries` | test.py:57-67 | the entries of a page, finished or not, are the summary steps of the articles it reached, in order |
| `Digest.BuildDigest` | test.py:53-70 | a null `articles` ends the page before any article, no key gives an empty finished page, and a page never has more entries than the count or than the fetched list, in the service's order |
| `Digest.SummarizerCalledOnlyOnText` | test.py:57-67 | over a list of articles, the summariser is called exactly on the non-empty assembled texts, in article order, never on `""`, at most once per article |
| `Digest.PageCallsOnlyOnText` | test.py:57-70 | on a page that finishes or stops early, the summariser has been called exactly on the non-empty texts of the articles reached, in order, never on `""` |
| `Digest.NoTextShowsPlaceholder` | test.py:62-67 | an article with no title, description or content gets no summariser call and shows exactly the placeholder |
| `Digest.DigestFollowsFetchedOrder` | test.py:53-70 | for a list response whose selected articles all have their display keys and a count n >= 0, the page finishes with min(n, \|fetched\|) entries, in the service's order, each summarised only when its text is non-empty |
| `Digest.MissingTitleStopsPage` | test.py:53-58 | a first selected article without a `title` key ends the page with `KeyError('title')` before any summariser call |
| `Digest.MissingUrlStopsAfterSummary` | test.py:58-69 | a first selected article without a `url` key ends the page with `KeyError('url')` after its summary step, whose call has already been made |
| `Digest.CallsBoundedByRequest` | test.py:53-64 | whatever the response, a page never holds more entries, or makes more summariser calls, than the requested count, and never calls it on `""` |
| `Filters.DomainFor` | test.py:35-50 | a category has a domain if and only if it is one of the five listed categories |

## Left out

- The news-search HTTP request and URL building (test.py:15-17) and the JSON decoding by `response.json()` (test.py:18) are network I/O. The model starts from the decoded response.
- The one-hour memoisation of the fetch (test.py:14) is supplied by the page framework. The code holds no cache or expiry logic of its own.
- The summarisation model (test.py:12, 25-27) is opaque and is the parameter `summarize`. Its `min_length`/`max_length` bounds are enforced inside the model library, so no length is claimed for a summary.
- Loading the API key from the environment (test.py:6-10) is configuration I/O.
- The page layout, sidebar widgets, slider range and default, sort options, date pickers and date formatting (test.py:30-48, 55) are presentation. So is the text of each block: the "Summary:" label, and the title, source, timestamp and link as shown, with null values printed as "None" (test.py:58-60, 65, 67, 70). The printed text is not modelled; only the exception each lookup at test.py:58-60 and 69 raises is.
- Field values that are JSON numbers, lists or objects are not modelled: `title`, `description`, `content`, `publishedAt`, `url` and the source's `name` are absent, null or a string. A truthy non-string would make `' '.join` raise.
- Elements of the `articles` list are taken to be objects, and `source` to be absent, null or an object. A null element makes `article['title']` (test.py:58) raise a TypeError, since `None` is not subscriptable. A `source` that is a string, number or list makes `article['source']['name']` (test.py:59) raise a TypeError. Neither case is modelled.
- Digest.RenderPage: when a header lookup fails, the page keeps no entry for that article. The title or source the page printed before the failing lookup is not recorded.
- An `articles` value that is neither absent, null nor a list is not modelled.
- Failures raised by the HTTP layer or the model are not modelled, because the code propagates them unhandled.
