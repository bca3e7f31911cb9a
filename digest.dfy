/**
 * The per-article pipeline of the digest page: select the articles, then for
 * each one look up its display keys, assemble its text, and summarise it when
 * there is text, or use the fixed placeholder otherwise. A lookup of a key the
 * article lacks raises and ends the page. The summarisation model is an opaque
 * function `summarize` supplied by the caller.
 */
module Digest {
  import opened News
  import opened TextAssembly
  import opened Selection

  /** The message shown in place of a summary when an article has no text. */
  const Placeholder: string := "Content not available for summarization."

  /** A generated summary records the text the model was given; `Unavailable` means it was not called. */
  datatype Summary = Generated(input: string, text: string) | Unavailable

  /** One article whose summary step was reached, with that summary. */
  datatype Entry = Entry(article: Article, summary: Summary)

  /**
   * What one page view produces: the entries it got through, in order, and
   * the exception that ended it early, if any.
   */
  datatype Page = Page(entries: seq<Entry>, error: Option<Error>)

  /** The summary-or-placeholder branch for one article. */
  function SummaryFor(a: Article, summarize: string -> string): (r: Summary)
    ensures r.Generated? <==> PrepareArticleText(a) != ""
    ensures r.Generated? ==> r.input != "" && r.input == PrepareArticleText(a) && r.text == summarize(r.input)
  {
    var text := PrepareArticleText(a);
    if text != "" then Generated(text, summarize(text)) else Unavailable
  }

  /**
   * The text shown after "Summary:": the placeholder for an article with no
   * title, description or content, and otherwise the model's summary of the
   * assembled text.
   */
  function ShownSummary(a: Article, summarize: string -> string): (r: string)
    ensures !Present(a.title) && !Present(a.description) && !Present(a.content) ==> r == Placeholder
    ensures Present(a.title) || Present(a.description) || Present(a.content) ==>
      r == summarize(PrepareArticleText(a))
  {
    EmptyIffNoText(a);
    match SummaryFor(a, summarize)
    case Generated(_, text) => text
    case Unavailable => Placeholder
  }

  /**
   * An article every display lookup succeeds on: it has a `title`, a `source`
   * object with a `name`, a `publishedAt` and a `url` key (any of them may be null,
   * except `source`).
   */
  predicate Displayable(a: Article) {
    && !a.title.Missing?
    && a.source.SourceObject? && !a.source.name.Missing?
    && !a.publishedAt.Missing?
    && !a.url.Missing?
  }

  /**
   * The lookups `article['title']`, `article['source']['name']` and
   * `article['publishedAt']` made before the summary, in that order: the
   * exception the first failing one raises, or none when all succeed.
   */
  function HeaderError(a: Article): (r: Option<Error>)
    ensures r.None? <==>
      !a.title.Missing? && a.source.SourceObject? && !a.source.name.Missing? && !a.publishedAt.Missing?
    ensures a.title.Missing? ==> r == Some(KeyError("title"))
    ensures !a.title.Missing? && a.source.NoSource? ==> r == Some(KeyError("source"))
    ensures !a.title.Missing? && a.source.NullSource? ==> r == Some(NotSubscriptable)
    ensures !a.title.Missing? && a.source.SourceObject? && a.source.name.Missing? ==> r == Some(KeyError("name"))
    ensures !a.title.Missing? && a.source.SourceObject? && !a.source.name.Missing? && a.publishedAt.Missing? ==>
      r == Some(KeyError("publishedAt"))
  {
    if a.title.Missing? then Some(KeyError("title"))
    else
      match a.source
      case NoSource => Some(KeyError("source"))
      case NullSource => Some(NotSubscriptable)
      case SourceObject(name) =>
        if name.Missing? then Some(KeyError("name"))
        else if a.publishedAt.Missing? then Some(KeyError("publishedAt"))
        else None
  }

  /** The lookup `article['url']` made after the summary is shown: it raises only when the key is absent. */
  function UrlError(a: Article): (r: Option<Error>)
    ensures r.None? <==> !a.url.Missing?
    ensures r.Some? ==> r == Some(KeyError("url"))
  {
    if a.url.Missing? then Some(KeyError("url")) else None
  }

  /** The summary step for every article, as if no lookup could fail. */
  function Entries(articles: seq<Article>, summarize: string -> string): (r: seq<Entry>)
    ensures |r| == |articles|
    ensures forall i :: 0 <= i < |r| ==> r[i].article == articles[i]
    ensures forall i :: 0 <= i < |r| ==> r[i].summary == SummaryFor(articles[i], summarize)
  {
    seq(|articles|, i requires 0 <= i < |articles| => Entry(articles[i], SummaryFor(articles[i], summarize)))
  }

  /**
   * The loop over the selected articles. An article whose header lookups fail
   * ends the page before its summary; one whose `url` is missing ends it right
   * after its summary was made and shown.
   */
  function RenderPage(articles: seq<Article>, summarize: string -> string): (p: Page)
    ensures |p.entries| <= |articles|
    ensures forall i :: 0 <= i < |p.entries| ==> p.entries[i].article == articles[i]
    ensures p.error.None? <==> forall i :: 0 <= i < |articles| ==> Displayable(articles[i])
    ensures p.error.None? ==> |p.entries| == |articles|
    ensures forall i :: 0 <= i < |p.entries| - 1 ==> Displayable(articles[i])
    ensures p.error.Some? ==>
      || (&& |p.entries| < |articles|
          && (forall i :: 0 <= i < |p.entries| ==> Displayable(articles[i]))
          && p.error == HeaderError(articles[|p.entries|]))
      || (&& 0 < |p.entries|
          && HeaderError(articles[|p.entries| - 1]).None?
          && p.error == UrlError(articles[|p.entries| - 1]))
    decreases |articles|
  {
    if articles == [] then Page([], None)
    else
      var a := articles[0];
      match HeaderError(a)
      case Some(e) => Page([], Some(e))
      case None =>
        var entry := Entry(a, SummaryFor(a, summarize));
        match UrlError(a)
        case Some(e) => Page([entry], Some(e))
        case None =>
          var tail := articles[1..];
          var rest := RenderPage(tail, summarize);
          var p := Page([entry] + rest.entries, rest.error);
          assert forall i :: 1 <= i < |articles| ==> articles[i] == tail[i - 1];
          assert Displayable(a);
          p
  }

  /**
   * Every entry a page gets through carries the summary-or-placeholder of its
   * article: the page's entries are the summary steps of the articles it
   * reached, in order.
   */
  lemma {:induction false} RenderedSummaries(articles: seq<Article>, summarize: string -> string)
    ensures var p := RenderPage(articles, summarize);
      p.entries == Entries(articles[..|p.entries|], summarize)
    decreases |articles|
  {
    var p := RenderPage(articles, summarize);
    if articles != [] && HeaderError(articles[0]).None? && UrlError(articles[0]).None? {
      var tail := articles[1..];
      RenderedSummaries(tail, summarize);
      var rest := RenderPage(tail, summarize);
      var done := articles[..|p.entries|];
      var want := Entries(done, summarize);
      assert |p.entries| == |want|;
      forall i | 0 <= i < |p.entries| ensures p.entries[i] == want[i] {
        if i > 0 {
          assert p.entries[i] == rest.entries[i - 1];
          assert done[i] == tail[..|rest.entries|][i - 1];
        }
      }
    }
  }

  /**
   * The whole pipeline for one page view, from the service's response: a null
   * `articles` value ends it before any article; otherwise it is the loop over
   * the selected articles, which never shows more than the requested count.
   */
  function BuildDigest(resp: Response, numArticles: int, summarize: string -> string): (r: Page)
    ensures resp.articles.NullArticles? ==> r == Page([], Some(NotSubscriptable))
    ensures resp.articles.NoArticlesKey? ==> r == Page([], None)
    ensures numArticles >= 0 ==> |r.entries| <= numArticles
    ensures resp.articles.ArticleList? ==>
      && |r.entries| <= |resp.articles.items|
      && forall i :: 0 <= i < |r.entries| ==> r.entries[i].article == resp.articles.items[i]
  {
    match SelectArticles(resp, numArticles)
    case Err(e) => Page([], Some(e))
    case Ok(selected) =>
      assert resp.articles.ArticleList? ==> selected == SlicePrefix(resp.articles.items, numArticles);
      RenderPage(selected, summarize)
  }

  /** The inputs the summariser is called with, in call order. */
  function SummarizerCalls(entries: seq<Entry>): seq<string> {
    if entries == [] then []
    else
      (if entries[0].summary.Generated? then [entries[0].summary.input] else [])
      + SummarizerCalls(entries[1..])
  }

  /** The assembled texts of the articles that have one, in order. */
  function NonEmptyTexts(articles: seq<Article>): seq<string> {
    if articles == [] then []
    else
      (if PrepareArticleText(articles[0]) != "" then [PrepareArticleText(articles[0])] else [])
      + NonEmptyTexts(articles[1..])
  }

  /**
   * The summariser is called once per article whose assembled text is
   * non-empty, with that text, in article order, and never with "".
   */
  lemma {:induction false} SummarizerCalledOnlyOnText(articles: seq<Article>, summarize: string -> string)
    ensures SummarizerCalls(Entries(articles, summarize)) == NonEmptyTexts(articles)
    ensures forall s :: s in SummarizerCalls(Entries(articles, summarize)) ==> s != ""
    ensures |SummarizerCalls(Entries(articles, summarize))| <= |articles|
  {
    var entries := Entries(articles, summarize);
    if articles != [] {
      SummarizerCalledOnlyOnText(articles[1..], summarize);
      assert entries[1..] == Entries(articles[1..], summarize);
    }
  }

  /**
   * On a page, whether or not it ends early, the summariser has been called
   * exactly on the non-empty texts of the articles it got through, in order.
   */
  lemma {:induction false} PageCallsOnlyOnText(articles: seq<Article>, summarize: string -> string)
    ensures var p := RenderPage(articles, summarize);
      && SummarizerCalls(p.entries) == NonEmptyTexts(articles[..|p.entries|])
      && (forall s :: s in SummarizerCalls(p.entries) ==> s != "")
      && |SummarizerCalls(p.entries)| <= |p.entries|
  {
    var p := RenderPage(articles, summarize);
    var done := articles[..|p.entries|];
    RenderedSummaries(articles, summarize);
    SummarizerCalledOnlyOnText(done, summarize);
  }

  /** An article with no text gets no summariser call and shows exactly the placeholder. */
  lemma {:induction false} NoTextShowsPlaceholder(a: Article, summarize: string -> string)
    requires !Present(a.title) && !Present(a.description) && !Present(a.content)
    ensures SummaryFor(a, summarize) == Unavailable
    ensures ShownSummary(a, summarize) == Placeholder
  {
  }

  /**
   * For a list response whose selected articles all have their display keys,
   * and a non-negative count, the page completes with min(num_articles,
   * |fetched|) entries, in the service's order, each summarised only when its
   * text is non-empty.
   */
  lemma {:induction false} DigestFollowsFetchedOrder(items: seq<Article>, numArticles: int, summarize: string -> string)
    requires numArticles >= 0
    requires forall i :: 0 <= i < Min(numArticles, |items|) ==> Displayable(items[i])
    ensures var d := BuildDigest(Response(ArticleList(items)), numArticles, summarize);
      && d.error == None
      && |d.entries| == Min(numArticles, |items|)
      && forall i :: 0 <= i < |d.entries| ==>
           && d.entries[i].article == items[i]
           && (d.entries[i].summary.Generated? <==> PrepareArticleText(items[i]) != "")
  {
    var selected := SelectArticles(Response(ArticleList(items)), numArticles).value;
    assert forall i :: 0 <= i < |selected| ==> Displayable(selected[i]);
    RenderedSummaries(selected, summarize);
  }

  /**
   * A first selected article without a `title` key ends the page at once with
   * a KeyError, before any summariser call, whatever its other fields hold.
   */
  lemma {:induction false} MissingTitleStopsPage(items: seq<Article>, numArticles: int, summarize: string -> string)
    requires numArticles >= 1 && items != [] && items[0].title.Missing?
    ensures var d := BuildDigest(Response(ArticleList(items)), numArticles, summarize);
      && d == Page([], Some(KeyError("title")))
      && SummarizerCalls(d.entries) == []
  {
  }

  /**
   * A first selected article with its header keys but no `url` key ends the
   * page with a KeyError after its summary was made: the summariser has
   * already been called on its text when the text is non-empty.
   */
  lemma {:induction false} MissingUrlStopsAfterSummary(items: seq<Article>, numArticles: int, summarize: string -> string)
    requires numArticles >= 1 && items != []
    requires HeaderError(items[0]).None? && items[0].url.Missing?
    ensures var d := BuildDigest(Response(ArticleList(items)), numArticles, summarize);
      && d == Page([Entry(items[0], SummaryFor(items[0], summarize))], Some(KeyError("url")))
      && SummarizerCalls(d.entries) == NonEmptyTexts([items[0]])
  {
  }

  /**
   * Whatever the response, a page never holds more entries, or makes more
   * summariser calls, than the requested count, and never calls it on "".
   */
  lemma {:induction false} CallsBoundedByRequest(resp: Response, numArticles: int, summarize: string -> string)
    requires numArticles >= 0
    ensures var d := BuildDigest(resp, numArticles, summarize);
      && |d.entries| <= numArticles
      && |SummarizerCalls(d.entries)| <= numArticles
      && forall s :: s in SummarizerCalls(d.entries) ==> s != ""
  {
    match SelectArticles(resp, numArticles)
    case Err(_) =>
    case Ok(selected) =>
      PageCallsOnlyOnText(selected, summarize);
  }
}
