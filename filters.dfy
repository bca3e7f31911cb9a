/**
 * The fixed category-to-publisher-domain table the page offers as its
 * category choices; the chosen domain scopes the news search.
 */
module Filters {
  import opened News

  /**
   * The categories, in the order the selector lists them: the keys of
   * `CategoryToDomain` in insertion order. A Dafny map has no order, so the
   * list is written out; `DomainFor` proves it names exactly the map's keys.
   */
  const Categories: seq<string> := ["Technology", "Sports", "Science", "Business", "Entertainment"]

  const CategoryToDomain: map<string, string> := map[
    "Technology" := "techcrunch.com",
    "Sports" := "espn.com",
    "Science" := "nationalgeographic.com",
    "Business" := "bloomberg.com",
    "Entertainment" := "ew.com"
  ]

  /** `category_to_domain[category]`, with `None` where Python would raise a KeyError. */
  function DomainFor(category: string): (r: Option<string>)
    ensures r.Some? <==> category in Categories
    ensures r.Some? ==> r.value in CategoryToDomain.Values
  {
    if category in CategoryToDomain then Some(CategoryToDomain[category]) else None
  }
}
