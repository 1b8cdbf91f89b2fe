/**
 * Book product fields (plugins/ibt_customisation/includes/author-isbn-fields.php):
 * the `ibt_safe` wrapper, the memoised Books category id set, the
 * `[ibt_author]` line and the ISBN row of the Additional information table.
 *
 * A product is its post id; `termsOf` is `wp_get_post_terms(..., 'product_cat',
 * ids)`, `None` for a `WP_Error`. A PHP array handed to the attribute filter
 * is a sequence of key/row entries in insertion order.
 */
module AuthorIsbn {

  import opened Wrappers
  import opened Text
  import opened Php

  // ---------------------------------------------------------------------
  // ibt_safe
  // ---------------------------------------------------------------------

  /** How a PHP call ended: with a value, or with a `Throwable` and its message. */
  datatype Outcome<T> = Returned(value: T) | Threw(message: string)

  /**
   * `ibt_safe($fn)`: the wrapped callable returns what `$fn` returns, and
   * `null` (here `None`) in place of any throw.
   */
  function Safe<A(!new), T>(f: A -> Outcome<T>): (g: A -> Option<T>)
    ensures forall a :: f(a).Returned? ==> g(a) == Some(f(a).value)
    ensures forall a :: f(a).Threw? ==> g(a) == None
  {
    a => match f(a) case Returned(v) => Some(v) case Threw(_) => None
  }

  // ---------------------------------------------------------------------
  // Books category ids
  // ---------------------------------------------------------------------

  predicate NoDuplicates(s: seq<int>) {
    forall i, j :: 0 <= i < j < |s| ==> s[i] != s[j]
  }

  /** `array_unique`: the first occurrence of every value, in order. */
  function Dedupe(s: seq<int>): (r: seq<int>)
    ensures NoDuplicates(r)
    ensures forall x :: x in r <==> x in s
    ensures |s| > 0 ==> |r| > 0 && r[0] == s[0]
    decreases |s|
  {
    if |s| == 0 then []
    else
      var d := Dedupe(s[..|s| - 1]);
      var x := s[|s| - 1];
      assert forall y :: y in s[..|s| - 1] ==> y in s;
      assert forall y :: y in s ==> y in s[..|s| - 1] || y == x;
      if x in d then d else d + [x]
  }

  /** The position of the first occurrence of `x` in `s`. */
  function FirstIndex(s: seq<int>, x: int): (i: nat)
    requires x in s
    ensures i < |s| && s[i] == x && x !in s[..i]
    decreases |s|
  {
    if s[0] == x then 0
    else
      var j := FirstIndex(s[1..], x);
      assert s[..j + 1] == [s[0]] + s[1..][..j];
      j + 1
  }

  /** A value of a prefix has its first occurrence inside that prefix. */
  lemma FirstIndexInPrefix(s: seq<int>, n: nat, x: int)
    requires n <= |s| && x in s[..n]
    ensures FirstIndex(s, x) == FirstIndex(s[..n], x)
  {
    var i := FirstIndex(s, x);
    var j := FirstIndex(s[..n], x);
    assert s[..n][..j] == s[..j];
  }

  /**
   * `array_unique` keeps the first occurrences in the order they occur:
   * together with the contract of `Dedupe`, this fixes its result.
   */
  lemma {:induction false} DedupeKeepsFirstOrder(s: seq<int>)
    ensures forall i, j :: 0 <= i < j < |Dedupe(s)| ==> FirstIndex(s, Dedupe(s)[i]) < FirstIndex(s, Dedupe(s)[j])
    decreases |s|
  {
    if |s| > 0 {
      var n := |s|;
      var p := s[..n - 1];
      var d := Dedupe(p);
      var x := s[n - 1];
      DedupeKeepsFirstOrder(p);
      assert s[..n - 1] == p;
      forall y | y in d ensures FirstIndex(s, y) == FirstIndex(p, y) && FirstIndex(p, y) < n - 1 {
        FirstIndexInPrefix(s, n - 1, y);
      }
      if x !in d {
        assert Dedupe(s) == d + [x];
        assert FirstIndex(s, x) == n - 1;
        forall i | 0 <= i < |d| ensures Dedupe(s)[i] == d[i] && d[i] in d { }
      } else {
        assert Dedupe(s) == d;
      }
    }
  }

  /** The Books id set: the root id first, then the distinct descendant ids; nothing without a root. */
  function BooksIds(root: Option<int>, descendants: Option<seq<int>>): (r: seq<int>)
    ensures root.None? <==> r == []
    ensures root.Some? ==> r[0] == root.value
    ensures NoDuplicates(r)
    ensures root.Some? ==> forall x :: x in r <==> x == root.value || (descendants.Some? && x in descendants.value)
  {
    match root
    case None => []
    case Some(id) =>
      match descendants
      case None => [id]
      case Some(desc) => Dedupe([id] + desc)
  }

  /**
   * The two `static` caches: the looked-up Books term (`None` while it is
   * still `null`; a lookup that found nothing is remembered as
   * `Some(None)`), and the id set (`None` while it is still `null`).
   */
  class BooksCache {
    var term: Option<Option<int>>
    var ids: Option<seq<int>>

    /** The start of a request: both caches are `null`. */
    constructor()
      ensures term.None? && ids.None?
    {
      term := None;
      ids := None;
    }

    /** `ibt_get_books_term()`; `lookup` is what `get_term_by` would give now. */
    method BooksTerm(lookup: Option<int>) returns (root: Option<int>)
      modifies this
      ensures old(term).Some? ==> term == old(term) && root == old(term).value
      ensures old(term).None? ==> term == Some(lookup) && root == lookup
      ensures ids == old(ids)
    {
      if term.None? {
        term := Some(lookup);
      }
      root := term.value;
    }

    /**
     * `ibt_get_books_and_descendant_ids()`: the cached set when there is
     * one; otherwise the set of the (possibly cached) root and the given
     * `get_terms` result (`None` when it is not an array), which is then
     * cached.
     */
    method BooksAndDescendantIds(lookup: Option<int>, descendants: Option<seq<int>>) returns (result: seq<int>)
      modifies this
      ensures old(ids).Some? ==> result == old(ids).value && ids == old(ids) && term == old(term)
      ensures old(ids).None? ==>
                var root := if old(term).Some? then old(term).value else lookup;
                && result == BooksIds(root, descendants)
                && ids == Some(result)
                && term == Some(root)
    {
      if ids.Some? {
        return ids.value;
      }
      var root := BooksTerm(lookup);
      if root.None? {
        ids := Some([]);
        return [];
      }
      result := [root.value];
      if descendants.Some? {
        result := Dedupe(result + descendants.value);
      }
      ids := Some(result);
    }
  }

  /** Once computed, the id set is the same on every later call of the request. */
  method CachedIdsAreStable(cache: BooksCache, lookup1: Option<int>, desc1: Option<seq<int>>,
                            lookup2: Option<int>, desc2: Option<seq<int>>)
    returns (first: seq<int>, second: seq<int>)
    modifies cache
    ensures first == second
    ensures old(cache.ids).None? && old(cache.term).None? ==> first == BooksIds(lookup1, desc1)
  {
    first := cache.BooksAndDescendantIds(lookup1, desc1);
    second := cache.BooksAndDescendantIds(lookup2, desc2);
  }

  /** `array_intersect($a, $b)` is non-empty. */
  predicate Intersects(a: seq<int>, b: seq<int>) {
    exists x :: x in a && x in b
  }

  // ---------------------------------------------------------------------
  // [ibt_author]
  // ---------------------------------------------------------------------

  const AllowedLevels := {"h2", "h3", "p"}
  const DefaultLevel := "h3"

  /** The `level` attribute, lower-cased, when it is `h2`, `h3` or `p`; `h3` otherwise. */
  function HeadingLevel(atts: map<string, string>): (r: string)
    ensures r in AllowedLevels
    ensures "level" in atts && Lower(atts["level"]) in AllowedLevels ==> r == Lower(atts["level"])
    ensures "level" in atts && Lower(atts["level"]) !in AllowedLevels ==> r == DefaultLevel
    ensures "level" !in atts ==> r == DefaultLevel
  {
    var level := if "level" in atts then atts["level"] else DefaultLevel;
    if Lower(level) in AllowedLevels then Lower(level) else DefaultLevel
  }

  /** `<L class="ibt-author-parastyle">Author: S</L>`. */
  function AuthorLine(tag: string, text: string): string {
    "<" + tag + " class=\"ibt-author-parastyle\">Author: " + text + "</" + tag + ">"
  }

  /** Whether a product is filed under the Books category or one of its descendants. */
  predicate IsBook(productId: int, booksIds: seq<int>, termsOf: int -> Option<seq<int>>) {
    |booksIds| > 0 && termsOf(productId).Some? && Intersects(booksIds, termsOf(productId).value)
  }

  /** `ibt_render_author($atts)` for the current product; `booksIds` is the cached id set. */
  function RenderAuthor(product: Option<int>, atts: map<string, string>, booksIds: seq<int>,
                        termsOf: int -> Option<seq<int>>, wp: Wp): (r: string)
    ensures r != "" <==>
              product.Some? && IsBook(product.value, booksIds, termsOf)
              && Truthy(wp.meta(product.value, "_ibt_subtitle"))
    ensures r != "" ==>
              r == AuthorLine(wp.escHtml(HeadingLevel(atts)), wp.escHtml(ToStr(wp.meta(product.value, "_ibt_subtitle"))))
  {
    if product.None? then ""
    else
      var level := HeadingLevel(atts);
      if |booksIds| == 0 then ""
      else
        var terms := termsOf(product.value);
        if terms.None? || !Intersects(booksIds, terms.value) then ""
        else
          var subtitle := wp.meta(product.value, "_ibt_subtitle");
          if !Truthy(subtitle) then ""
          else AuthorLine(wp.escHtml(level), wp.escHtml(ToStr(subtitle)))
  }

  // ---------------------------------------------------------------------
  // The ISBN row
  // ---------------------------------------------------------------------

  datatype Key = IntKey(i: int) | StrKey(s: string)

  /** One row of the Additional information table: its `label` (here `caption`) and `value`. */
  datatype Row = Row(caption: string, value: string)

  type Attrs = seq<(Key, Row)>

  const IsbnKey := StrKey("ibt_isbn")

  /**
   * `array_keys($a) === range(0, count($a) - 1)`. An empty array is not a
   * list here: `range(0, -1)` is `[0, -1]`.
   */
  predicate IsList(a: Attrs): (b: bool)
    ensures b ==> KeysUnique(a)
  {
    |a| > 0 && forall i :: 0 <= i < |a| ==> a[i].0 == IntKey(i)
  }

  predicate KeysUnique(a: Attrs) {
    forall i, j :: 0 <= i < j < |a| ==> a[i].0 != a[j].0
  }

  /** The entries of `a` whose key is not `k`, in order. */
  function WithoutKey(a: Attrs, k: Key): (r: Attrs)
    ensures forall e :: e in r <==> e in a && e.0 != k
    ensures |r| <= |a|
    ensures (forall i :: 0 <= i < |a| ==> a[i].0 != k) ==> r == a
    decreases |a|
  {
    if |a| == 0 then []
    else (if a[0].0 == k then [] else [a[0]]) + WithoutKey(a[1..], k)
  }

  lemma {:induction false} WithoutKeyKeepsUnique(a: Attrs, k: Key)
    requires KeysUnique(a)
    ensures KeysUnique(WithoutKey(a, k))
    decreases |a|
  {
    if |a| > 0 {
      WithoutKeyKeepsUnique(a[1..], k);
      var rest := WithoutKey(a[1..], k);
      if a[0].0 != k {
        forall e | e in rest ensures e.0 != a[0].0 {
          var j :| 0 <= j < |a[1..]| && a[1..][j] == e;
          assert a[j + 1] == e;
        }
      }
    }
  }

  /** `$a = array('ibt_isbn' => $row) + $a`: the row first, and the old `ibt_isbn` entry dropped. */
  function PrependKeyed(a: Attrs, row: Row): (r: Attrs)
    ensures |r| > 0 && r[0] == (IsbnKey, row)
    ensures forall e :: e in r[1..] <==> e in a && e.0 != IsbnKey
    ensures (forall i :: 0 <= i < |a| ==> a[i].0 != IsbnKey) ==> r == [(IsbnKey, row)] + a
  {
    [(IsbnKey, row)] + WithoutKey(a, IsbnKey)
  }

  /** The keyed prepend keeps keys unique: the ISBN row is the only `ibt_isbn` entry. */
  lemma PrependKeyedKeepsUnique(a: Attrs, row: Row)
    requires KeysUnique(a)
    ensures KeysUnique(PrependKeyed(a, row))
  {
    WithoutKeyKeepsUnique(a, IsbnKey);
    var r := PrependKeyed(a, row);
    forall j | 0 < j < |r| ensures r[0].0 != r[j].0 {
      assert r[j] in r[1..];
    }
  }

  /** `array_unshift`: integer keys are renumbered from 1 in order, string keys are kept. */
  function Renumbered(a: Attrs, next: int): (r: Attrs)
    ensures |r| == |a|
    ensures forall i :: 0 <= i < |a| ==> r[i].1 == a[i].1 && (r[i].0.IntKey? <==> a[i].0.IntKey?)
    ensures forall i :: 0 <= i < |a| && a[i].0.StrKey? ==> r[i] == a[i]
    decreases |a|
  {
    if |a| == 0 then []
    else if a[0].0.IntKey? then [(IntKey(next), a[0].1)] + Renumbered(a[1..], next + 1)
    else [a[0]] + Renumbered(a[1..], next)
  }

  /** `array_unshift($a, $row)`: the row first, then every old row in order, string keys kept. */
  function Unshift(a: Attrs, row: Row): (r: Attrs)
    ensures |r| == |a| + 1 && r[0] == (IntKey(0), row)
    ensures forall i :: 0 <= i < |a| ==> r[i + 1].1 == a[i].1
    ensures forall i :: 0 <= i < |a| && a[i].0.StrKey? ==> r[i + 1] == a[i]
  {
    [(IntKey(0), row)] + Renumbered(a, 1)
  }

  lemma {:induction false} RenumberedInts(a: Attrs, next: int)
    requires forall i :: 0 <= i < |a| ==> a[i].0.IntKey?
    ensures |Renumbered(a, next)| == |a|
    ensures forall i :: 0 <= i < |a| ==> Renumbered(a, next)[i] == (IntKey(next + i), a[i].1)
    decreases |a|
  {
    if |a| > 0 {
      RenumberedInts(a[1..], next + 1);
    }
  }

  /** Unshifting onto a list gives a list: the row at 0 and every old row one place later. */
  lemma UnshiftKeepsList(a: Attrs, row: Row)
    requires IsList(a)
    ensures IsList(Unshift(a, row))
    ensures |Unshift(a, row)| == |a| + 1 && Unshift(a, row)[0] == (IntKey(0), row)
    ensures forall i :: 0 <= i < |a| ==> Unshift(a, row)[i + 1].1 == a[i].1
  {
    RenumberedInts(a, 1);
  }

  /** The product the filter works on: its argument, else the global one, else the current post's. */
  function ResolveProduct(argument: Option<int>, global: Option<int>, currentPost: Option<int>): (r: Option<int>)
    ensures argument.Some? ==> r == argument
    ensures argument.None? && global.Some? ==> r == global
    ensures argument.None? && global.None? ==> r == currentPost
  {
    if argument.Some? then argument
    else if global.Some? then global
    else currentPost
  }

  /** Whether the filter adds the ISBN row for this product. */
  predicate AddsIsbn(productId: int, booksIds: seq<int>, termsOf: int -> Option<seq<int>>, wp: Wp) {
    wp.meta(productId, "_ibt_isbn") != PStr("") && IsBook(productId, booksIds, termsOf)
  }

  /** The `woocommerce_display_product_attributes` filter body. */
  method IsbnFilter(attrs: Attrs, argument: Option<int>, global: Option<int>, currentPost: Option<int>,
                    booksIds: seq<int>, termsOf: int -> Option<seq<int>>, wp: Wp)
    returns (out: Attrs)
    ensures var p := ResolveProduct(argument, global, currentPost);
            p.None? || !AddsIsbn(p.value, booksIds, termsOf, wp) ==> out == attrs
    ensures var p := ResolveProduct(argument, global, currentPost);
            p.Some? && AddsIsbn(p.value, booksIds, termsOf, wp) ==>
              var row := Row("ISBN", wp.escHtml(ToStr(wp.meta(p.value, "_ibt_isbn"))));
              out == (if IsList(attrs) then Unshift(attrs, row) else PrependKeyed(attrs, row))
  {
    var product := argument;
    if product.None? {
      product := if global.Some? then global else currentPost;
    }
    if product.None? {
      return attrs;
    }

    var isbn := wp.meta(product.value, "_ibt_isbn");
    if isbn == PStr("") {
      return attrs;
    }

    if |booksIds| == 0 {
      return attrs;
    }

    var terms := termsOf(product.value);
    if terms.None? || !Intersects(booksIds, terms.value) {
      return attrs;
    }

    var row := Row("ISBN", wp.escHtml(ToStr(isbn)));
    out := attrs;
    if !IsList(out) {
      out := [(IsbnKey, row)] + WithoutKey(out, IsbnKey);
    } else {
      out := Unshift(out, row);
    }
  }
}
