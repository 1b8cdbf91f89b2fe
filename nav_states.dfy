/**
 * The header navigation state engine (themes/ibt/includes/ibt-nav-states.php).
 *
 * The rendered navigation block is scanned for `<li class="has-child">`
 * submenu parents and for navigation anchors; each anchor is classified as
 * `active` (its path is the current path) or `ancestor` (its path is a
 * segment prefix of the current path, or it is the Books tab while the
 * current path is in the shop), a parent becomes `ancestor` when one of its
 * children is highlighted, and `data-ibt-state="..."` is written back into
 * the opening tags.
 *
 * The regular-expression scans are taken as given: `RawAnchor` is one
 * anchor-tag match with the capture of its `href` pattern, `ParentBlock` one
 * submenu match with its opening `<li ...>` tag. PHP arrays are values, so
 * each pipeline step is a method that takes the state bag's lists and
 * returns the new ones, with the source's loops.
 */
module NavStates {

  import opened Wrappers
  import opened Text
  import opened NavCommon

  // ---------------------------------------------------------------------
  // Section alias
  // ---------------------------------------------------------------------

  const NewsArticle := "/news-article"
  const News := "/news"

  /** `/news-article` and everything under it is treated as `/news`. */
  function ApplyAlias(path: string): (r: string)
    ensures path == NewsArticle ==> r == News
    ensures StartsWith(path, NewsArticle + "/") ==> r == News + RTrimSlash(path[|NewsArticle|..])
    ensures path != NewsArticle && !StartsWith(path, NewsArticle + "/") ==> r == path
  {
    if path == NewsArticle then News
    else if StartsWith(path, NewsArticle + "/") then
      var rest := path[|NewsArticle|..];
      var t := RTrimSlash(News + rest);
      RTrimSlashAppend(News, rest);
      if t == "" then "/" else t
    else path
  }

  /** What the alias produces is `/news` or lies under `/news/`. */
  lemma AliasOutputShape(path: string)
    requires path == NewsArticle || StartsWith(path, NewsArticle + "/")
    ensures ApplyAlias(path) == News || StartsWith(ApplyAlias(path), News + "/")
  {
    if path != NewsArticle {
      var rest := path[|NewsArticle|..];
      assert rest[0] == '/';
      var t := RTrimSlash(rest);
      if |t| > 0 {
        assert t[0] == rest[0];
        assert News + "/" <= News + t;
      } else {
        assert News + t == News;
      }
    }
  }

  /** Applying the alias twice is the same as applying it once. */
  lemma AliasIdempotent(path: string)
    ensures ApplyAlias(ApplyAlias(path)) == ApplyAlias(path)
  {
    var r := ApplyAlias(path);
    if path == NewsArticle || StartsWith(path, NewsArticle + "/") {
      AliasOutputShape(path);
      if |r| > |News| {
        assert r[5] == '/' && (NewsArticle + "/")[5] == '-';
      }
      assert r != NewsArticle && !StartsWith(r, NewsArticle + "/");
    }
  }

  /** The alias keeps a normalised path normalised. */
  lemma AliasKeepsNormal(path: string)
    requires IsNormal(path)
    ensures IsNormal(ApplyAlias(path))
  {
    if path != NewsArticle && StartsWith(path, NewsArticle + "/") {
      var rest := path[|NewsArticle|..];
      var t := RTrimSlash(rest);
      var r := News + t;
      assert r == ApplyAlias(path);
      forall i | 0 <= i < |r| ensures !IsUpper(r[i]) {
        if i >= |News| {
          assert r[i] == t[i - |News|] == path[|NewsArticle| + i - |News|];
        }
      }
    }
  }

  // ---------------------------------------------------------------------
  // Extraction
  // ---------------------------------------------------------------------

  datatype State = NoState | Active | Ancestor

  function StateName(s: State): string {
    match s
    case NoState => ""
    case Active => "active"
    case Ancestor => "ancestor"
  }

  /** One navigation-anchor match and the capture of `href="([^"]+)"`, if any. */
  datatype RawAnchor = RawAnchor(tag: string, href: Option<string>)

  /** One submenu-parent match: the whole `<li>...</li>` block and its opening tag. */
  datatype ParentBlock = ParentBlock(full: string, open: string)

  datatype Item = Item(tag: string, href: string, path: string, state: State, parentIndex: Option<nat>)

  datatype Parent = Parent(full: string, open: string, state: State)

  /** The first submenu block whose text contains the anchor tag. */
  function FirstParent(blocks: seq<ParentBlock>, tag: string): (r: Option<nat>)
    ensures r.Some? ==> r.value < |blocks| && Contains(blocks[r.value].full, tag)
    ensures r.Some? ==> forall j :: 0 <= j < r.value ==> !Contains(blocks[j].full, tag)
    ensures r.None? ==> forall j :: 0 <= j < |blocks| ==> !Contains(blocks[j].full, tag)
  {
    if |blocks| == 0 then None
    else if Contains(blocks[0].full, tag) then Some(0)
    else match FirstParent(blocks[1..], tag)
      case None => None
      case Some(i) => Some(i + 1)
  }

  /** The item an anchor yields: none without an `href` or for an external link. */
  function ItemOf(a: RawAnchor, blocks: seq<ParentBlock>, homeUrl: string,
                  parsePath: string -> Option<string>): Option<Item>
  {
    match a.href
    case None => None
    case Some(h) =>
      if IsInternal(h, homeUrl)
      then Some(Item(a.tag, h, LinkPath(h, parsePath), NoState, FirstParent(blocks, a.tag)))
      else None
  }

  /** The items of the anchors, in order. */
  function ExtractedItems(anchors: seq<RawAnchor>, blocks: seq<ParentBlock>, homeUrl: string,
                          parsePath: string -> Option<string>): seq<Item>
    decreases |anchors|
  {
    if |anchors| == 0 then []
    else
      ExtractedItems(anchors[..|anchors| - 1], blocks, homeUrl, parsePath)
      + match ItemOf(anchors[|anchors| - 1], blocks, homeUrl, parsePath)
        case None => []
        case Some(it) => [it]
  }

  function FreshParents(blocks: seq<ParentBlock>): seq<Parent> {
    seq(|blocks|, i requires 0 <= i < |blocks| => Parent(blocks[i].full, blocks[i].open, NoState))
  }

  /** An extracted item is well formed when it comes from one internal anchor as the source builds it. */
  predicate WellFormedItem(it: Item, anchors: seq<RawAnchor>, blocks: seq<ParentBlock>, homeUrl: string,
                           parsePath: string -> Option<string>)
  {
    && IsInternal(it.href, homeUrl)
    && it.path == LinkPath(it.href, parsePath)
    && IsNormal(it.path)
    && it.state == NoState
    && it.parentIndex == FirstParent(blocks, it.tag)
    && (it.parentIndex.Some? ==> it.parentIndex.value < |blocks|)
    && exists k :: 0 <= k < |anchors| && anchors[k] == RawAnchor(it.tag, Some(it.href))
  }

  /**
   * Every extracted item comes from an anchor with an internal `href`, has a
   * normalised path, no state yet, and the first submenu block containing
   * its tag as parent; anchors without an `href` or with an external one
   * yield nothing.
   */
  lemma {:induction false} ExtractedItemsWellFormed(anchors: seq<RawAnchor>, blocks: seq<ParentBlock>,
                                                   homeUrl: string, parsePath: string -> Option<string>)
    ensures |ExtractedItems(anchors, blocks, homeUrl, parsePath)| <= |anchors|
    ensures forall it :: it in ExtractedItems(anchors, blocks, homeUrl, parsePath) ==>
              WellFormedItem(it, anchors, blocks, homeUrl, parsePath)
    ensures (forall k :: 0 <= k < |anchors| ==>
               anchors[k].href.None? || !IsInternal(anchors[k].href.value, homeUrl))
            ==> ExtractedItems(anchors, blocks, homeUrl, parsePath) == []
  {
    if |anchors| > 0 {
      var init := anchors[..|anchors| - 1];
      var last := anchors[|anchors| - 1];
      ExtractedItemsWellFormed(init, blocks, homeUrl, parsePath);
      var rest := ExtractedItems(init, blocks, homeUrl, parsePath);
      var all := ExtractedItems(anchors, blocks, homeUrl, parsePath);
      forall it | it in all ensures WellFormedItem(it, anchors, blocks, homeUrl, parsePath) {
        if it in rest {
          assert WellFormedItem(it, init, blocks, homeUrl, parsePath);
          var k :| 0 <= k < |init| && init[k] == RawAnchor(it.tag, Some(it.href));
          assert anchors[k] == init[k];
        } else {
          assert ItemOf(last, blocks, homeUrl, parsePath) == Some(it);
          assert anchors[|anchors| - 1] == RawAnchor(it.tag, Some(it.href));
        }
      }
    }
  }

  /** Every anchor with an internal `href` yields its item: the extraction drops no other anchor. */
  lemma {:induction false} ExtractedItemsComplete(anchors: seq<RawAnchor>, blocks: seq<ParentBlock>,
                                                 homeUrl: string, parsePath: string -> Option<string>)
    ensures forall k :: 0 <= k < |anchors| && ItemOf(anchors[k], blocks, homeUrl, parsePath).Some? ==>
              ItemOf(anchors[k], blocks, homeUrl, parsePath).value in ExtractedItems(anchors, blocks, homeUrl, parsePath)
    decreases |anchors|
  {
    if |anchors| > 0 {
      var init := anchors[..|anchors| - 1];
      ExtractedItemsComplete(init, blocks, homeUrl, parsePath);
      forall k | 0 <= k < |init| ensures anchors[k] == init[k] { }
    }
  }

  /** The parent list: one stateless entry per submenu block, in order. */
  method CollectParents(blocks: seq<ParentBlock>) returns (parents: seq<Parent>)
    ensures parents == FreshParents(blocks)
  {
    parents := [];
    var i := 0;
    while i < |blocks|
      invariant 0 <= i <= |blocks|
      invariant parents == FreshParents(blocks[..i])
    {
      parents := parents + [Parent(blocks[i].full, blocks[i].open, NoState)];
      i := i + 1;
    }
    assert blocks[..|blocks|] == blocks;
  }

  /** The search for the first parent whose block text contains the anchor tag. */
  method FindParent(parents: seq<Parent>, blocks: seq<ParentBlock>, tag: string) returns (parentIndex: Option<nat>)
    requires parents == FreshParents(blocks)
    ensures parentIndex == FirstParent(blocks, tag)
  {
    parentIndex := None;
    var p := 0;
    while p < |parents|
      invariant 0 <= p <= |parents|
      invariant forall j :: 0 <= j < p ==> !Contains(blocks[j].full, tag)
    {
      if Contains(parents[p].full, tag) {
        parentIndex := Some(p);
        return;
      }
      p := p + 1;
    }
  }

  /** `ibt_nav_extract_items` over the scanned anchors and submenu blocks. */
  method ExtractItems(blocks: seq<ParentBlock>, anchors: seq<RawAnchor>, homeUrl: string,
                      parsePath: string -> Option<string>)
    returns (items: seq<Item>, parents: seq<Parent>)
    ensures parents == FreshParents(blocks)
    ensures items == ExtractedItems(anchors, blocks, homeUrl, parsePath)
  {
    parents := CollectParents(blocks);
    items := [];
    var k := 0;
    while k < |anchors|
      invariant 0 <= k <= |anchors|
      invariant items == ExtractedItems(anchors[..k], blocks, homeUrl, parsePath)
    {
      var a := anchors[k];
      assert anchors[..k + 1][..k] == anchors[..k];
      if a.href.Some? {
        var href := a.href.value;
        if IsInternal(href, homeUrl) {
          var path := Normalise(parsePath(href).GetOr("/"));
          var parentIndex := FindParent(parents, blocks, a.tag);
          items := items + [Item(a.tag, href, path, NoState, parentIndex)];
        }
      }
      k := k + 1;
    }
    assert anchors[..|anchors|] == anchors;
  }

  // ---------------------------------------------------------------------
  // State detection
  // ---------------------------------------------------------------------

  const ShopRoot := "/shop"
  const BooksPath := "/shop/category/books"

  /** The section-root table: current paths under the key highlight the menu path. */
  const SectionRoots: seq<(string, string)> := [(ShopRoot, BooksPath)]

  predicate InSection(current: string, root: string) {
    current == root || StartsWith(current, root + "/")
  }

  /** Pass 1: an exact path match is active. */
  function ExactRule(path: string, current: string, s: State): State {
    if path == current then Active else s
  }

  /** Pass 2: a non-root, non-active item whose path plus `/` prefixes the current path is an ancestor. */
  function PrefixRule(path: string, current: string, s: State): State {
    if path == "/" || s == Active then s
    else if StartsWith(current, path + "/") then Ancestor
    else s
  }

  /** Pass 2B: the Books tab is an ancestor anywhere in the shop unless it is active. */
  function BooksRule(path: string, current: string, s: State): State {
    if path == BooksPath && s != Active && InSection(current, ShopRoot) then Ancestor else s
  }

  /** Pass 3, one table entry. */
  function SectionRootRule(root: string, menuPath: string, path: string, current: string, s: State): State {
    if InSection(current, root) && path == menuPath && s != Active then Ancestor else s
  }

  /** Pass 3 over the first entries of the table, in order. */
  function SectionRootsRule(roots: seq<(string, string)>, path: string, current: string, s: State): State
    decreases |roots|
  {
    if |roots| == 0 then s
    else
      var last := roots[|roots| - 1];
      SectionRootRule(last.0, last.1, path, current, SectionRootsRule(roots[..|roots| - 1], path, current, s))
  }

  /** The state an item ends with, from the state it starts with. */
  function Classify(path: string, current: string, s: State): State {
    SectionRootsRule(SectionRoots, path, current,
      BooksRule(path, current, PrefixRule(path, current, ExactRule(path, current, s))))
  }

  lemma SectionRootsIsShopRule(path: string, current: string, s: State)
    ensures SectionRootsRule(SectionRoots, path, current, s) == SectionRootRule(ShopRoot, BooksPath, path, current, s)
  {
    assert SectionRoots[..0] == [];
  }

  /** No later pass overrides `active`: an item ends active iff it matches exactly or started active. */
  lemma ActiveIsFinal(path: string, current: string, s: State)
    ensures Classify(path, current, s) == Active <==> (path == current || s == Active)
  {
    SectionRootsIsShopRule(path, current, s);
    SectionRootsIsShopRule(path, current, BooksRule(path, current, PrefixRule(path, current, ExactRule(path, current, s))));
  }

  /**
   * For a freshly extracted item: active exactly on an exact match; ancestor
   * exactly when not active and either its path (other than `/`) plus `/`
   * prefixes the current path, or it is the Books tab and the current path
   * is `/shop` or under `/shop/`; otherwise no state.
   */
  lemma ClassifyFresh(path: string, current: string)
    ensures Classify(path, current, NoState) == Active <==> path == current
    ensures Classify(path, current, NoState) == Ancestor <==>
              path != current
              && ((path != "/" && StartsWith(current, path + "/"))
                  || (path == BooksPath && InSection(current, ShopRoot)))
    ensures path == "/" && current != "/" ==> Classify(path, current, NoState) == NoState
  {
    SectionRootsIsShopRule(path, current, BooksRule(path, current, PrefixRule(path, current, ExactRule(path, current, NoState))));
  }

  function ExactItem(it: Item, current: string): Item { it.(state := ExactRule(it.path, current, it.state)) }
  function PrefixItem(it: Item, current: string): Item { it.(state := PrefixRule(it.path, current, it.state)) }
  function BooksItem(it: Item, current: string): Item { it.(state := BooksRule(it.path, current, it.state)) }
  function RootsItem(roots: seq<(string, string)>, it: Item, current: string): Item {
    it.(state := SectionRootsRule(roots, it.path, current, it.state))
  }

  /** The item after the three item passes that precede the section-root table. */
  function PreRootsItem(it: Item, current: string): Item {
    BooksItem(PrefixItem(ExactItem(it, current), current), current)
  }

  function ClassifiedItems(items: seq<Item>, current: string): (r: seq<Item>)
    ensures |r| == |items|
    ensures forall i :: 0 <= i < |items| ==>
              r[i] == items[i].(state := Classify(items[i].path, current, items[i].state))
  {
    seq(|items|, i requires 0 <= i < |items| => RootsItem(SectionRoots, PreRootsItem(items[i], current), current))
  }

  /** An item that highlights submenu parent `p`. */
  predicate Highlights(it: Item, p: nat) {
    it.parentIndex == Some(p) && (it.state == Active || it.state == Ancestor)
  }

  predicate HasHighlightedChild(items: seq<Item>, p: nat) {
    exists j :: 0 <= j < |items| && Highlights(items[j], p)
  }

  function MarkedParents(parents: seq<Parent>, items: seq<Item>): (r: seq<Parent>)
    ensures |r| == |parents|
    ensures forall p :: 0 <= p < |parents| ==>
              r[p].full == parents[p].full && r[p].open == parents[p].open
              && r[p].state == (if HasHighlightedChild(items, p) then Ancestor else parents[p].state)
  {
    seq(|parents|, p requires 0 <= p < |parents| =>
      if HasHighlightedChild(items, p) then parents[p].(state := Ancestor) else parents[p])
  }

  /** Pass 1: every item whose path equals the current path becomes active. */
  method ExactPass(current: string, items: seq<Item>) returns (items': seq<Item>)
    ensures |items'| == |items|
    ensures forall j :: 0 <= j < |items| ==> items'[j] == ExactItem(items[j], current)
  {
    items' := items;
    var i := 0;
    while i < |items'|
      invariant |items'| == |items| && 0 <= i <= |items|
      invariant forall j :: 0 <= j < i ==> items'[j] == ExactItem(items[j], current)
      invariant forall j :: i <= j < |items| ==> items'[j] == items[j]
    {
      if items'[i].path == current {
        items' := items'[i := items'[i].(state := Active)];
      }
      i := i + 1;
    }
  }

  /** Pass 2: every item other than `/` whose path plus `/` prefixes the current path, and not active, becomes an ancestor. */
  method PrefixPass(current: string, items: seq<Item>) returns (items': seq<Item>)
    ensures |items'| == |items|
    ensures forall j :: 0 <= j < |items| ==> items'[j] == PrefixItem(items[j], current)
  {
    items' := items;
    var i := 0;
    while i < |items'|
      invariant |items'| == |items| && 0 <= i <= |items|
      invariant forall j :: 0 <= j < i ==> items'[j] == PrefixItem(items[j], current)
      invariant forall j :: i <= j < |items| ==> items'[j] == items[j]
    {
      if items'[i].path != "/" && items'[i].state != Active {
        if StartsWith(current, items'[i].path + "/") {
          items' := items'[i := items'[i].(state := Ancestor)];
        }
      }
      i := i + 1;
    }
  }

  /** Pass 2B: the Books tab, when not active, is an ancestor anywhere in the shop section. */
  method BooksPass(current: string, items: seq<Item>) returns (items': seq<Item>)
    ensures |items'| == |items|
    ensures forall j :: 0 <= j < |items| ==> items'[j] == BooksItem(items[j], current)
  {
    items' := items;
    var i := 0;
    while i < |items'|
      invariant |items'| == |items| && 0 <= i <= |items|
      invariant forall j :: 0 <= j < i ==> items'[j] == BooksItem(items[j], current)
      invariant forall j :: i <= j < |items| ==> items'[j] == items[j]
    {
      if items'[i].path == BooksPath {
        if items'[i].state != Active {
          if current == ShopRoot || StartsWith(current, ShopRoot + "/") {
            items' := items'[i := items'[i].(state := Ancestor)];
          }
        }
      }
      i := i + 1;
    }
  }

  /** Pass 3, one table entry: inside the section, the items linking to its menu path become ancestors unless active. */
  method SectionRootPass(root: string, menuPath: string, current: string, items: seq<Item>) returns (items': seq<Item>)
    ensures |items'| == |items|
    ensures forall j :: 0 <= j < |items| ==>
              items'[j] == items[j].(state := SectionRootRule(root, menuPath, items[j].path, current, items[j].state))
  {
    items' := items;
    if current == root || StartsWith(current, root + "/") {
      var i := 0;
      while i < |items'|
        invariant |items'| == |items| && 0 <= i <= |items|
        invariant forall j :: 0 <= j < i ==>
                    items'[j] == items[j].(state := SectionRootRule(root, menuPath, items[j].path, current, items[j].state))
        invariant forall j :: i <= j < |items| ==> items'[j] == items[j]
      {
        if items'[i].path == menuPath {
          if items'[i].state != Active {
            items' := items'[i := items'[i].(state := Ancestor)];
          }
        }
        i := i + 1;
      }
    }
  }

  /** Pass 3: the section-root table, entry by entry. */
  method SectionRootsPass(current: string, items: seq<Item>) returns (items': seq<Item>)
    ensures |items'| == |items|
    ensures forall j :: 0 <= j < |items| ==> items'[j] == RootsItem(SectionRoots, items[j], current)
  {
    items' := items;
    var r := 0;
    while r < |SectionRoots|
      invariant |items'| == |items| && 0 <= r <= |SectionRoots|
      invariant forall j :: 0 <= j < |items| ==> items'[j] == RootsItem(SectionRoots[..r], items[j], current)
    {
      var (root, menuPath) := SectionRoots[r];
      assert SectionRoots[..r + 1][..r] == SectionRoots[..r];
      items' := SectionRootPass(root, menuPath, current, items');
      r := r + 1;
    }
    assert SectionRoots[..|SectionRoots|] == SectionRoots;
  }

  /** Pass 4: a submenu parent becomes an ancestor when one of its children is active or an ancestor. */
  method ParentPass(items: seq<Item>, parents: seq<Parent>) returns (parents': seq<Parent>)
    ensures parents' == MarkedParents(parents, items)
  {
    parents' := parents;
    var p := 0;
    while p < |parents'|
      invariant |parents'| == |parents| && 0 <= p <= |parents|
      invariant forall q :: 0 <= q < p ==>
                  parents'[q] == (if HasHighlightedChild(items, q) then parents[q].(state := Ancestor) else parents[q])
      invariant forall q :: p <= q < |parents| ==> parents'[q] == parents[q]
    {
      ghost var before := parents';
      var k := 0;
      while k < |items|
        invariant 0 <= k <= |items|
        invariant parents' == before
        invariant forall j :: 0 <= j < k ==> !Highlights(items[j], p)
      {
        if items[k].parentIndex == Some(p) && (items[k].state == Active || items[k].state == Ancestor) {
          parents' := parents'[p := parents'[p].(state := Ancestor)];
          break;
        }
        k := k + 1;
      }
      p := p + 1;
    }
  }

  /** `ibt_nav_detect_states`: the item passes in order, then the parent pass. */
  method DetectStates(current: string, items: seq<Item>, parents: seq<Parent>)
    returns (items': seq<Item>, parents': seq<Parent>)
    ensures items' == ClassifiedItems(items, current)
    ensures parents' == MarkedParents(parents, items')
  {
    var exact := ExactPass(current, items);
    var prefixed := PrefixPass(current, exact);
    var books := BooksPass(current, prefixed);
    items' := SectionRootsPass(current, books);
    assert forall j :: 0 <= j < |items| ==> books[j] == PreRootsItem(items[j], current);
    parents' := ParentPass(items', parents);
  }

  // ---------------------------------------------------------------------
  // Writing the states back into the HTML
  // ---------------------------------------------------------------------

  /** `data-ibt-state="`, the text both attribute patterns start with. */
  const AttrOpen := "data-ibt-state=\""

  /** Whether `/\sdata-ibt-state="/i` matches. */
  predicate HasSpacedStateAttr(t: string)
    decreases |t|
  {
    |t| >= 17 && ((IsSpace(t[0]) && Lower(t[1..17]) == AttrOpen) || HasSpacedStateAttr(t[1..]))
  }

  /** Whether `/data-ibt-state="[^"]*"/i` matches somewhere in `t`. */
  predicate StateAttrMatches(t: string)
    decreases |t|
  {
    (AttrAt(t, 0) && IndexOf(t[16..], '"').Some?) || (|t| > 0 && StateAttrMatches(t[1..]))
  }

  /**
   * `preg_replace('/data-ibt-state="[^"]*"/i', 'data-ibt-state="NAME"', $t, 1)`;
   * text the pattern does not match comes back unchanged.
   */
  function ReplaceStateAttr(t: string, name: string): (r: string)
    ensures !StateAttrMatches(t) ==> r == t
    decreases |t|
  {
    if AttrAt(t, 0) && IndexOf(t[16..], '"').Some?
    then AttrOpen + name + "\"" + t[16 + IndexOf(t[16..], '"').value + 1..]
    else if |t| == 0 then t
    else [t[0]] + ReplaceStateAttr(t[1..], name)
  }

  /** The new opening `<a>` tag of a stated item. */
  function StatedTag(tag: string, s: State): string {
    if HasSpacedStateAttr(tag) then ReplaceStateAttr(tag, StateName(s)) else InjectState(tag, StateName(s))
  }

  /** A tag without the attribute gains ` data-ibt-state="S"` just before its final `>`. */
  lemma {:induction false} StatedTagInjects(tag: string, s: State)
    requires |tag| > 0 && tag[|tag| - 1] == '>'
    requires !HasSpacedStateAttr(tag)
    ensures StatedTag(tag, s) == tag[..|tag| - 1] + " data-ibt-state=\"" + StateName(s) + "\">"
  {
    assert StatedTag(tag, s) == InjectState(tag, StateName(s));
  }

  /** A space followed by the attribute anywhere in a tag is what `/\sdata-ibt-state="/i` finds. */
  lemma {:induction false} SpacedStateAttrAt(t: string, k: nat)
    requires k + 17 <= |t| && IsSpace(t[k]) && Lower(t[k + 1..k + 17]) == AttrOpen
    ensures HasSpacedStateAttr(t)
    decreases k
  {
    if k > 0 {
      assert t[1..][k - 1 + 1..k - 1 + 17] == t[k + 1..k + 17];
      SpacedStateAttrAt(t[1..], k - 1);
    } else {
      assert t[1..17] == t[k + 1..k + 17];
    }
  }

  /** No window of `pre` followed by ` data-ibt-state="` spells the attribute before the real one. */
  predicate NoStateAttrBefore(pre: string) {
    forall i :: 0 <= i <= |pre| ==> !AttrAt(pre + " " + AttrOpen, i)
  }

  /** Whether `data-ibt-state="`, in any letter case, starts at offset `i` of `w`. */
  predicate AttrAt(w: string, i: int) {
    0 <= i && i + 16 <= |w| && Lower(w[i..i + 16]) == AttrOpen
  }

  /** Where the attribute does not start, the replacement moves one character on. */
  lemma ReplaceStateAttrSkip(t: string, name: string)
    requires |t| > 0 && !AttrAt(t, 0)
    ensures ReplaceStateAttr(t, name) == [t[0]] + ReplaceStateAttr(t[1..], name)
  {
  }

  /** Text that opens with the attribute has it at position 0. */
  lemma AttrAtOpen(rest: string)
    ensures AttrAt(AttrOpen + rest, 0)
  {
    assert (AttrOpen + rest)[0..16] == AttrOpen;
    LowerOfLowerCase(AttrOpen);
  }

  /** Where the attribute starts, its value up to the closing quote is replaced. */
  lemma ReplaceStateAttrHere(prior: string, post: string, name: string)
    requires '"' !in prior
    ensures ReplaceStateAttr(AttrOpen + prior + "\"" + post, name) == AttrOpen + name + "\"" + post
  {
    var rest := prior + ['"'] + post;
    var u := AttrOpen + rest;
    assert u == AttrOpen + prior + "\"" + post;
    AttrAtOpen(rest);
    assert u[16..] == rest;
    IndexOfAfter(prior, '"', post);
    assert u[16 + |prior| + 1..] == post;
  }

  /** Dropping the first character shifts every window one place left. */
  lemma AttrAtShift(t: string, i: nat)
    requires |t| > 0
    ensures AttrAt(t[1..], i) == AttrAt(t, i + 1)
  {
    if i + 17 <= |t| {
      assert t[1..][i..i + 16] == t[i + 1..i + 17];
    }
  }

  /** Before the first place the attribute starts, the replacement copies the text unchanged. */
  lemma {:induction false} ReplaceStateAttrFrom(t: string, k: nat, name: string)
    requires k <= |t|
    requires forall i :: 0 <= i < k ==> !AttrAt(t, i)
    ensures ReplaceStateAttr(t, name) == t[..k] + ReplaceStateAttr(t[k..], name)
    decreases k
  {
    if k > 0 {
      var t1 := t[1..];
      forall i | 0 <= i < k - 1 ensures !AttrAt(t1, i) {
        AttrAtShift(t, i);
      }
      calc {
        ReplaceStateAttr(t, name);
        { ReplaceStateAttrSkip(t, name); }
        [t[0]] + ReplaceStateAttr(t1, name);
        { ReplaceStateAttrFrom(t1, k - 1, name); assert t1[k - 1..] == t[k..]; }
        [t[0]] + (t1[..k - 1] + ReplaceStateAttr(t[k..], name));
        ([t[0]] + t1[..k - 1]) + ReplaceStateAttr(t[k..], name);
        { assert [t[0]] + t1[..k - 1] == t[..k]; }
        t[..k] + ReplaceStateAttr(t[k..], name);
      }
    }
  }

  /** Appending text does not create the attribute in windows that lie inside `w`. */
  lemma NoAttrInPrefix(w: string, tail: string, n: nat)
    requires n + 15 <= |w|
    requires forall i :: 0 <= i < n ==> !AttrAt(w, i)
    ensures forall i :: 0 <= i < n ==> !AttrAt(w + tail, i)
  {
    forall i | 0 <= i < n ensures !AttrAt(w + tail, i) {
      assert !AttrAt(w, i);
      assert i + 16 <= |w|;
      assert (w + tail)[i..i + 16] == w[i..i + 16];
    }
  }

  /** Before a first attribute that follows `pre` and a space, the replacement copies `pre` and the space. */
  lemma ReplaceStateAttrAfter(pre: string, u: string, name: string)
    requires NoStateAttrBefore(pre)
    requires |u| >= 16 && u[..16] == AttrOpen
    ensures ReplaceStateAttr((pre + " ") + u, name) == (pre + " ") + ReplaceStateAttr(u, name)
  {
    var w := pre + " " + AttrOpen;
    var t := (pre + " ") + u;
    var k := |pre| + 1;
    assert t == w + u[16..];
    NoAttrInPrefix(w, u[16..], k);
    ReplaceStateAttrFrom(t, k, name);
    assert t[..k] == pre + " ";
    assert t[k..] == u;
  }

  /** The first `data-ibt-state="..."` gets the new value; the rest of the tag is kept. */
  lemma ReplaceStateAttrAt(pre: string, prior: string, post: string, name: string)
    requires NoStateAttrBefore(pre)
    requires '"' !in prior
    ensures ReplaceStateAttr((pre + " ") + (AttrOpen + prior + "\"" + post), name)
            == (pre + " ") + (AttrOpen + name + "\"" + post)
  {
    var u := AttrOpen + prior + "\"" + post;
    assert u[..16] == AttrOpen;
    ReplaceStateAttrAfter(pre, u, name);
    ReplaceStateAttrHere(prior, post, name);
  }

  /**
   * A tag that already carries `data-ibt-state="..."` (the first one in it,
   * after a space) has that value replaced by the item's state name.
   */
  lemma StatedTagReplaces(pre: string, prior: string, post: string, s: State)
    requires NoStateAttrBefore(pre)
    requires '"' !in prior
    ensures StatedTag((pre + " ") + (AttrOpen + prior + "\"" + post), s)
            == (pre + " ") + (AttrOpen + StateName(s) + "\"" + post)
  {
    var t := (pre + " ") + (AttrOpen + prior + "\"" + post);
    assert t[|pre|] == ' ';
    assert t[|pre| + 1..|pre| + 17] == AttrOpen;
    LowerOfLowerCase(AttrOpen);
    SpacedStateAttrAt(t, |pre|);
    ReplaceStateAttrAt(pre, prior, post, StateName(s));
  }

  /** Whether `/<li\b([^>]*)>/i` matches somewhere in `open`. */
  predicate LiTagMatches(open: string)
    decreases |open|
  {
    (|open| >= 4 && Lower(open[..3]) == "<li" && !IsWordChar(open[3]) && IndexOf(open[3..], '>').Some?)
    || (|open| > 0 && LiTagMatches(open[1..]))
  }

  /**
   * `preg_replace('/<li\b([^>]*)>/i', '<li$1 data-ibt-state="ancestor">', $open, 1)`;
   * text without an `<li ...>` tag comes back unchanged.
   */
  function ParentOpenTag(open: string): (r: string)
    ensures !LiTagMatches(open) ==> r == open
    decreases |open|
  {
    if |open| >= 4 && Lower(open[..3]) == "<li" && !IsWordChar(open[3]) && IndexOf(open[3..], '>').Some?
    then
      var q := IndexOf(open[3..], '>').value;
      "<li" + open[3..3 + q] + StateAttr("ancestor") + ">" + open[3 + q + 1..]
    else if |open| == 0 then open
    else [open[0]] + ParentOpenTag(open[1..])
  }

  /** An opening `<li ...>` tag gains ` data-ibt-state="ancestor"` before its `>`. */
  lemma {:induction false} ParentOpenTagOfLi(attrs: string)
    requires '>' !in attrs
    requires |attrs| > 0 && !IsWordChar(attrs[0])
    ensures ParentOpenTag("<li" + attrs + ">") == "<li" + attrs + " data-ibt-state=\"ancestor\">"
  {
    var open := "<li" + attrs + ">";
    assert open[..3] == "<li";
    assert Lower("<li") == "<li";
    assert open[3..] == attrs + ">";
    var q := IndexOf(open[3..], '>');
    assert (attrs + ">")[|attrs|] == '>';
    assert forall j :: 0 <= j < |attrs| ==> (attrs + ">")[j] == attrs[j];
    assert q == Some(|attrs|);
    assert open[3..3 + |attrs|] == attrs;
    assert open[3 + |attrs| + 1..] == "";
  }

  /** The content after the stated items' tags are rewritten, in item order. */
  function StatedItemsContent(content: string, items: seq<Item>): string
    decreases |items|
  {
    if |items| == 0 then content
    else
      var c := StatedItemsContent(content, items[..|items| - 1]);
      var it := items[|items| - 1];
      if it.state == NoState then c else ReplaceAll(c, it.tag, StatedTag(it.tag, it.state))
  }

  /** The content after the stated parents' opening tags are rewritten, in order. */
  function StatedParentsContent(content: string, parents: seq<Parent>): string
    decreases |parents|
  {
    if |parents| == 0 then content
    else
      var c := StatedParentsContent(content, parents[..|parents| - 1]);
      var p := parents[|parents| - 1];
      if p.state == NoState then c else ReplaceAll(c, p.open, ParentOpenTag(p.open))
  }

  function AppliedContent(content: string, items: seq<Item>, parents: seq<Parent>): string {
    StatedParentsContent(StatedItemsContent(content, items), parents)
  }

  /** Items and parents without a state leave the HTML exactly as it was. */
  lemma {:induction false} UnstatedLeavesContent(content: string, items: seq<Item>, parents: seq<Parent>)
    requires forall i :: 0 <= i < |items| ==> items[i].state == NoState
    requires forall p :: 0 <= p < |parents| ==> parents[p].state == NoState
    ensures AppliedContent(content, items, parents) == content
  {
    UnstatedItemsLeaveContent(content, items);
    UnstatedParentsLeaveContent(content, parents);
  }

  lemma {:induction false} UnstatedItemsLeaveContent(content: string, items: seq<Item>)
    requires forall i :: 0 <= i < |items| ==> items[i].state == NoState
    ensures StatedItemsContent(content, items) == content
  {
    if |items| > 0 {
      UnstatedItemsLeaveContent(content, items[..|items| - 1]);
    }
  }

  lemma {:induction false} UnstatedParentsLeaveContent(content: string, parents: seq<Parent>)
    requires forall p :: 0 <= p < |parents| ==> parents[p].state == NoState
    ensures StatedParentsContent(content, parents) == content
  {
    if |parents| > 0 {
      UnstatedParentsLeaveContent(content, parents[..|parents| - 1]);
    }
  }

  /** `ibt_nav_apply_states`: rewrite the stated anchors, then the stated parents. */
  method ApplyStates(content: string, items: seq<Item>, parents: seq<Parent>) returns (content': string)
    ensures content' == AppliedContent(content, items, parents)
  {
    content' := content;
    var i := 0;
    while i < |items|
      invariant 0 <= i <= |items|
      invariant content' == StatedItemsContent(content, items[..i])
    {
      assert items[..i + 1][..i] == items[..i];
      var item := items[i];
      if item.state != NoState {
        var old_ := item.tag;
        var new_;
        if HasSpacedStateAttr(old_) {
          new_ := ReplaceStateAttr(old_, StateName(item.state));
        } else {
          new_ := InjectState(old_, StateName(item.state));
        }
        content' := ReplaceAll(content', old_, new_);
      }
      i := i + 1;
    }
    assert items[..|items|] == items;
    ghost var afterItems := content';

    var p := 0;
    while p < |parents|
      invariant 0 <= p <= |parents|
      invariant content' == StatedParentsContent(afterItems, parents[..p])
    {
      assert parents[..p + 1][..p] == parents[..p];
      var parent := parents[p];
      if parent.state != NoState {
        var oldOpen := parent.open;
        var newOpen := ParentOpenTag(oldOpen);
        content' := ReplaceAll(content', oldOpen, newOpen);
      }
      p := p + 1;
    }
    assert parents[..|parents|] == parents;
  }

  // ---------------------------------------------------------------------
  // The render_block filter
  // ---------------------------------------------------------------------

  /** What the filter returns, stated as one composition of the steps. */
  function Rendered(content: string, block: Block, requestPath: Option<string>,
                    blocks: seq<ParentBlock>, anchors: seq<RawAnchor>, homeUrl: string,
                    parsePath: string -> Option<string>): string
  {
    if !IsDesktopNav(block) then content
    else
      var current := ApplyAlias(CurrentPath(requestPath));
      var items := ClassifiedItems(ExtractedItems(anchors, blocks, homeUrl, parsePath), current);
      AppliedContent(content, items, MarkedParents(FreshParents(blocks), items))
  }

  /** `ibt_nav_states_render`: guard, then alias, extract, detect, apply. */
  method Render(content: string, block: Block, requestPath: Option<string>,
                blocks: seq<ParentBlock>, anchors: seq<RawAnchor>, homeUrl: string,
                parsePath: string -> Option<string>)
    returns (out: string)
    ensures !IsDesktopNav(block) ==> out == content
    ensures out == Rendered(content, block, requestPath, blocks, anchors, homeUrl, parsePath)
  {
    if block.name != Some(NavigationBlock) {
      return content;
    }
    var cls := block.className.GetOr("");
    if !Contains(cls, DesktopNavClass) {
      return content;
    }
    var current := CurrentPath(requestPath);
    current := ApplyAlias(current);
    var items, parents := ExtractItems(blocks, anchors, homeUrl, parsePath);
    items, parents := DetectStates(current, items, parents);
    out := ApplyStates(content, items, parents);
  }

  /**
   * On a page that no menu item matches (no exact match, no segment-prefix
   * ancestor, no Books-in-shop rule), the navigation HTML is returned
   * unchanged: no parent is highlighted either.
   */
  lemma {:induction false} QuietPageLeavesNavigation(content: string, block: Block, requestPath: Option<string>,
                                                    blocks: seq<ParentBlock>, anchors: seq<RawAnchor>,
                                                    homeUrl: string, parsePath: string -> Option<string>)
    requires forall it :: it in ExtractedItems(anchors, blocks, homeUrl, parsePath) ==>
               Classify(it.path, ApplyAlias(CurrentPath(requestPath)), NoState) == NoState
    ensures Rendered(content, block, requestPath, blocks, anchors, homeUrl, parsePath) == content
  {
    if IsDesktopNav(block) {
      var current := ApplyAlias(CurrentPath(requestPath));
      var extracted := ExtractedItems(anchors, blocks, homeUrl, parsePath);
      ExtractedItemsWellFormed(anchors, blocks, homeUrl, parsePath);
      var items := ClassifiedItems(extracted, current);
      forall i | 0 <= i < |items| ensures items[i].state == NoState {
        assert extracted[i] in extracted;
      }
      var parents := MarkedParents(FreshParents(blocks), items);
      forall p | 0 <= p < |parents| ensures parents[p].state == NoState {
        assert !HasHighlightedChild(items, p);
      }
      UnstatedLeavesContent(content, items, parents);
    }
  }
}
