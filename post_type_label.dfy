/**
 * The post type label block (plugins/ibt_customisation/blocks/post-type-label/render.php):
 * a search result's post type in words, as an `<h3>`.
 */
module PostTypeLabel {

  import opened Wrappers

  /** The known post types and their labels. */
  const LabelMap: map<string, string> := map[
    "ibt_event" := "Event",
    "product" := "Book",
    "library" := "Library",
    "post" := "News",
    "page" := "Page"
  ]

  const OtherLabel := "Other"

  /** `$map[$type] ?? 'Other'`; `None` is a `get_post_type` that gave `false`. */
  function Label(postType: Option<string>): (r: string)
    ensures r == OtherLabel <==> postType.None? || postType.value !in LabelMap
    ensures postType.Some? && postType.value in LabelMap ==> r == LabelMap[postType.value]
  {
    assert forall k :: k in LabelMap ==> LabelMap[k] != OtherLabel by {
      forall k | k in LabelMap ensures LabelMap[k] != OtherLabel {
        assert k in LabelMap.Keys;
        assert LabelMap.Keys == {"ibt_event", "product", "library", "post", "page"};
      }
    }
    if postType.Some? && postType.value in LabelMap then LabelMap[postType.value] else OtherLabel
  }

  /** The five known types read Event, Book, Library, News and Page. */
  lemma KnownLabels()
    ensures Label(Some("ibt_event")) == "Event"
    ensures Label(Some("product")) == "Book"
    ensures Label(Some("library")) == "Library"
    ensures Label(Some("post")) == "News"
    ensures Label(Some("page")) == "Page"
  {
  }

  const LabelOpen := "<h3 class=\"ibt-search-type-label\">"
  const LabelClose := "</h3>"

  /**
   * The block's output for the current post: nothing without a post id
   * (`get_the_ID()` giving `false` or 0), else the escaped label in the
   * heading.
   */
  function RenderLabel(postId: Option<int>, postTypeOf: int -> Option<string>, escHtml: string -> string): (r: string)
    ensures postId.None? || postId.value == 0 <==> r == ""
    ensures r != "" ==> LabelOpen <= r && r[|LabelOpen|..] == escHtml(Label(postTypeOf(postId.value))) + LabelClose
  {
    if postId.None? || postId.value == 0 then ""
    else LabelOpen + escHtml(Label(postTypeOf(postId.value))) + LabelClose
  }
}
