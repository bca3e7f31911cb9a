/**
 * Article selection: the response's `articles` list, read with
 * `.get('articles', [])`, cut to the requested count with `[:num_articles]`.
 */
module Selection {
  import opened News

  function Min(a: int, b: int): int { if a <= b then a else b }

  function Max(a: int, b: int): int { if a <= b then b else a }

  /**
   * Python's prefix slice `xs[:n]`: a non-negative bound keeps at most n
   * leading items and never pads; a negative bound drops |n| items from the end.
   */
  function SlicePrefix<T>(xs: seq<T>, n: int): (r: seq<T>)
    ensures |r| <= |xs| && r == xs[..|r|]
    ensures n >= 0 ==> |r| == Min(n, |xs|)
    ensures n < 0 ==> |r| == Max(0, |xs| + n)
  {
    if n >= |xs| then xs
    else if n >= 0 then xs[..n]
    else if |xs| + n >= 0 then xs[..|xs| + n]
    else []
  }

  /** `response.json().get('articles', [])`, with Python's `None` as `None`. */
  function FetchedArticles(resp: Response): (r: Option<seq<Article>>)
    ensures r == None <==> resp.articles.NullArticles?
    ensures resp.articles.NoArticlesKey? ==> r == Some([])
    ensures resp.articles.ArticleList? ==> r == Some(resp.articles.items)
  {
    match resp.articles
    case NoArticlesKey => Some([])
    case NullArticles => None
    case ArticleList(items) => Some(items)
  }

  /**
   * `fetch_news_articles(...)[:num_articles]` applied to the service's response.
   * Selection fails only on a null `articles` value, since slicing `None`
   * raises; a response without the key selects nothing, without error; a list
   * response gives its first min(num_articles, |list|) articles, in order.
   */
  function SelectArticles(resp: Response, numArticles: int): (r: Result<seq<Article>>)
    ensures r.Err? <==> resp.articles.NullArticles?
    ensures r.Err? ==> r.error == NotSubscriptable
    ensures resp.articles.NoArticlesKey? ==> r == Ok([])
    ensures r.Ok? && numArticles >= 0 ==> |r.value| <= numArticles
    ensures resp.articles.ArticleList? && numArticles >= 0 ==>
      && |r.value| == Min(numArticles, |resp.articles.items|)
      && forall i :: 0 <= i < |r.value| ==> r.value[i] == resp.articles.items[i]
  {
    match FetchedArticles(resp)
    case None => Err(NotSubscriptable)
    case Some(items) =>
      var selected := SlicePrefix(items, numArticles);
      assert selected == items[..|selected|];
      Ok(selected)
  }
}
