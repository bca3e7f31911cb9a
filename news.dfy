/**
 * The data the news digest works on: one article as the news-search service
 * returns it (a JSON object whose keys may be absent or null), the service's
 * response wrapping a list of such articles, and the errors Python raises
 * when the page looks up what is not there.
 */
module News {

  datatype Option<+T> = None | Some(value: T)

  /** The exceptions the page's lookups raise. */
  datatype Error =
    | NotSubscriptable       // indexing or slicing `None`
    | KeyError(key: string)  // `d[key]` on a dict without that key

  datatype Result<+T> = Ok(value: T) | Err(error: Error)

  /** One key of an article's JSON object: absent, present but null, or a string. */
  datatype Field = Missing | Null | Text(s: string)

  /** The `source` key of an article: absent, null, or an object with a `name` key. */
  datatype Source = NoSource | NullSource | SourceObject(name: Field)

  /**
   * The Python value `article.get(key, '')` yields: the string stored under the
   * key, the empty string when the key is absent, and `None` when it holds null.
   */
  datatype PyStr = PyNone | Str(s: string)

  /** Python truthiness of a `.get` result: `None` and `''` are false. */
  predicate Truthy(v: PyStr) {
    v.Str? && v.s != ""
  }

  /** A field that carries text; a string of blanks counts, nothing is trimmed. */
  predicate Present(f: Field) {
    f.Text? && f.s != ""
  }

  /** `article.get(key, '')`: truthy exactly for a field that carries text, and then that text. */
  function Get(f: Field): (v: PyStr)
    ensures Truthy(v) <==> Present(f)
    ensures Truthy(v) ==> v.s == f.s
    ensures !f.Null? ==> v.Str?
  {
    match f
    case Missing => Str("")
    case Null => PyNone
    case Text(s) => Str(s)
  }

  /**
   * A news article. Only title, description and content feed the summary; the
   * remaining keys are looked up when the article is displayed.
   */
  datatype Article = Article(
    title: Field,
    description: Field,
    content: Field,
    source: Source,
    publishedAt: Field,
    url: Field)

  /** The `articles` key of the service's JSON response. */
  datatype ArticlesField = NoArticlesKey | NullArticles | ArticleList(items: seq<Article>)

  datatype Response = Response(articles: ArticlesField)
}
