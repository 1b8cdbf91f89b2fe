/**
 * The older header-navigation highlighter and the account-icon filter
 * (themes/ibt/functions.php).
 *
 * `ibt_highlight_navigation` rewrites at most one anchor: the first whose
 * path is the current path (`active`), or, only when there is none, the
 * first non-root anchor whose path plus `/` prefixes the current path
 * (`ancestor`). Then every submenu that now holds a highlighted anchor has
 * its `<button>` marked `ancestor`.
 *
 * The regular-expression scans are taken as given: `RawTag` is one
 * `<a ...>` match, with whether its class list holds
 * `wp-block-navigation-item__content` and the capture of its `href`
 * pattern; `scanSubmenus` is the submenu scan of the content as it stands
 * after the anchor has been marked.
 */
module HighlightNav {

  import opened Wrappers
  import opened Text
  import opened Php
  import opened NavCommon
  import NavStates

  // ---------------------------------------------------------------------
  // Customer-account icon
  // ---------------------------------------------------------------------

  const AccountBlock := "woocommerce/customer-account"
  const AnchorOpen := "<a"
  const AccountAttrs := " title=\"Your account\" aria-label=\"Your account\""
  const AccountAnchorOpen := AnchorOpen + AccountAttrs

  /** Every `<a` of a customer-account block gains a title and an aria-label. */
  function AccountFilter(content: string, blockName: Option<string>): (r: string)
    ensures blockName != Some(AccountBlock) ==> r == content
    ensures !Contains(content, AnchorOpen) ==> r == content
  {
    if blockName == Some(AccountBlock) && Contains(content, AnchorOpen)
    then ReplaceAll(content, AnchorOpen, AccountAnchorOpen)
    else content
  }

  lemma {:induction false} AccountRewriteHead(t: string)
    requires |t| > 0
    ensures |ReplaceAll(t, AnchorOpen, AccountAnchorOpen)| > 0
    ensures ReplaceAll(t, AnchorOpen, AccountAnchorOpen)[0] == t[0]
  {
    if AnchorOpen <= t {
      assert ReplaceAll(t, AnchorOpen, AccountAnchorOpen)
               == AccountAnchorOpen + ReplaceAll(t[2..], AnchorOpen, AccountAnchorOpen);
      assert AccountAnchorOpen[0] == '<';
    } else {
      assert ReplaceAll(t, AnchorOpen, AccountAnchorOpen) == [t[0]] + ReplaceAll(t[1..], AnchorOpen, AccountAnchorOpen);
    }
  }

  /**
   * On a customer-account block the rewrite loses nothing: turning every
   * inserted `<a title="Your account" aria-label="Your account"` back into
   * `<a` gives back the block's HTML.
   */
  lemma AccountFilterReversible(content: string)
    ensures ReplaceAll(AccountFilter(content, Some(AccountBlock)), AccountAnchorOpen, AnchorOpen) == content
  {
    AccountRewriteRoundTrip(content);
    if !Contains(content, AnchorOpen) {
      ReplaceAllAbsent(content, AnchorOpen, AccountAnchorOpen);
    }
  }

  lemma {:induction false} AccountRewriteRoundTrip(s: string)
    ensures ReplaceAll(ReplaceAll(s, AnchorOpen, AccountAnchorOpen), AccountAnchorOpen, AnchorOpen) == s
  {
    var f := ReplaceAll(s, AnchorOpen, AccountAnchorOpen);
    if |s| == 0 {
    } else if AnchorOpen <= s {
      var rest := ReplaceAll(s[2..], AnchorOpen, AccountAnchorOpen);
      assert f == AccountAnchorOpen + rest;
      assert (AccountAnchorOpen + rest)[|AccountAnchorOpen|..] == rest;
      AccountRewriteRoundTrip(s[2..]);
      assert AnchorOpen + s[2..] == s;
    } else {
      var rest := ReplaceAll(s[1..], AnchorOpen, AccountAnchorOpen);
      assert f == [s[0]] + rest;
      if |s| > 1 {
        AccountRewriteHead(s[1..]);
        assert rest[0] == s[1];
        assert !(AnchorOpen <= s);
        assert !(AccountAnchorOpen <= f) by {
          if s[0] == '<' {
            assert s[..2] != AnchorOpen;
            assert s[..2] == [s[0], s[1]];
            assert AccountAnchorOpen[1] == 'a';
            assert f[1] == s[1] != 'a';
          } else {
            assert AccountAnchorOpen[0] == '<';
            assert f[0] == s[0] != '<';
          }
        }
      } else {
        assert |f| == 1;
      }
      assert f[1..] == rest;
      AccountRewriteRoundTrip(s[1..]);
      assert [s[0]] + s[1..] == s;
    }
  }

  // ---------------------------------------------------------------------
  // Alias map
  // ---------------------------------------------------------------------

  /** The alias map: `/more/...` behaves like `/...`. */
  const MoreAliases: seq<(string, string)> := [("/more", "")]

  /**
   * The alias loop: the first prefix entry that matches rewrites the path
   * and stops; an exact match replaces the path (by `/` when the
   * replacement is falsy) and the loop goes on.
   */
  function MoreAlias(aliases: seq<(string, string)>, path: string): (r: string)
    ensures !AliasApplies(aliases, path) ==> r == path
    decreases |aliases|
  {
    if |aliases| == 0 then path
    else
      var prefix := aliases[0].0;
      var replacement := aliases[0].1;
      if prefix != "" && StartsWith(path, prefix + "/") then Normalise(replacement + path[|prefix|..])
      else if path == prefix then MoreAlias(aliases[1..], if TruthyString(replacement) then replacement else "/")
      else MoreAlias(aliases[1..], path)
  }

  /** Whether some entry's prefix, exactly or followed by `/`, starts the path. */
  predicate AliasApplies(aliases: seq<(string, string)>, path: string)
    decreases |aliases|
  {
    |aliases| > 0
    && (path == aliases[0].0 || (aliases[0].0 != "" && StartsWith(path, aliases[0].0 + "/"))
        || AliasApplies(aliases[1..], path))
  }

  /** `/more` becomes `/`, `/more/x` becomes the normal form of `/x`, other paths stay. */
  lemma MoreAliasCases(path: string)
    ensures path == "/more" ==> MoreAlias(MoreAliases, path) == "/"
    ensures StartsWith(path, "/more/") ==> MoreAlias(MoreAliases, path) == Normalise(path[|"/more"|..])
    ensures path != "/more" && !StartsWith(path, "/more/") ==> MoreAlias(MoreAliases, path) == path
    ensures IsNormal(path) ==> IsNormal(MoreAlias(MoreAliases, path))
  {
    MoreAliasUnfold(path);
    assert IsNormal("/");
  }

  /** The one-entry table, unfolded. */
  lemma MoreAliasUnfold(path: string)
    ensures MoreAlias(MoreAliases, path)
              == if StartsWith(path, "/more/") then Normalise(path[5..]) else if path == "/more" then "/" else path
  {
    assert MoreAliases[0] == ("/more", "") && MoreAliases[1..] == [];
    assert "/more" + "/" == "/more/";
    if StartsWith(path, "/more/") {
      assert "" + path[5..] == path[5..];
    }
  }

  /** The alias loop of `ibt_highlight_navigation`. */
  method ApplyMoreAlias(aliases: seq<(string, string)>, path: string) returns (current: string)
    ensures current == MoreAlias(aliases, path)
  {
    current := path;
    var i := 0;
    while i < |aliases|
      invariant 0 <= i <= |aliases|
      invariant MoreAlias(aliases[i..], current) == MoreAlias(aliases, path)
    {
      var prefix := aliases[i].0;
      var replacement := aliases[i].1;
      assert aliases[i..][1..] == aliases[i + 1..];
      if prefix != "" && StartsWith(current, prefix + "/") {
        current := replacement + current[|prefix|..];
        if current == "" {
          current := "/";
        }
        current := Lower(RTrimSlash(current));
        if current == "" {
          current := "/";
        }
        assert Normalise("/") == "/" by { assert RTrimSlash("/") == RTrimSlash(""); }
        return;
      } else if current == prefix {
        current := if TruthyString(replacement) then replacement else "/";
      }
      i := i + 1;
    }
  }

  // ---------------------------------------------------------------------
  // Anchors
  // ---------------------------------------------------------------------

  /** One `<a ...>` match: whether it carries the navigation item class, and its `href` capture. */
  datatype RawTag = RawTag(tag: string, navClass: bool, href: Option<string>)

  datatype Anchor = Anchor(full: string, href: string, path: string)

  function AnchorOf(t: RawTag, homeUrl: string, parsePath: string -> Option<string>): Option<Anchor> {
    if !t.navClass || t.href.None? || !IsInternal(t.href.value, homeUrl) then None
    else Some(Anchor(t.tag, t.href.value, LinkPath(t.href.value, parsePath)))
  }

  function AnchorsOf(tags: seq<RawTag>, homeUrl: string, parsePath: string -> Option<string>): seq<Anchor>
    decreases |tags|
  {
    if |tags| == 0 then []
    else
      AnchorsOf(tags[..|tags| - 1], homeUrl, parsePath)
      + match AnchorOf(tags[|tags| - 1], homeUrl, parsePath)
        case None => []
        case Some(a) => [a]
  }

  /**
   * Every gathered anchor comes from a navigation-item tag with an internal
   * `href`, and carries that link's normalised path.
   */
  lemma {:induction false} AnchorsOfWellFormed(tags: seq<RawTag>, homeUrl: string, parsePath: string -> Option<string>)
    ensures forall a :: a in AnchorsOf(tags, homeUrl, parsePath) ==>
              && IsInternal(a.href, homeUrl)
              && a.path == LinkPath(a.href, parsePath)
              && IsNormal(a.path)
              && exists k :: 0 <= k < |tags| && tags[k] == RawTag(a.full, true, Some(a.href))
  {
    if |tags| > 0 {
      var init := tags[..|tags| - 1];
      AnchorsOfWellFormed(init, homeUrl, parsePath);
      forall a | a in AnchorsOf(tags, homeUrl, parsePath)
        ensures exists k :: 0 <= k < |tags| && tags[k] == RawTag(a.full, true, Some(a.href))
      {
        if a in AnchorsOf(init, homeUrl, parsePath) {
          var k :| 0 <= k < |init| && init[k] == RawTag(a.full, true, Some(a.href));
          assert tags[k] == init[k];
        } else {
          assert tags[|tags| - 1] == RawTag(a.full, true, Some(a.href));
        }
      }
    }
  }

  /** Every navigation-item tag with an internal `href` yields its anchor: the gathering drops no other tag. */
  lemma {:induction false} AnchorsOfComplete(tags: seq<RawTag>, homeUrl: string, parsePath: string -> Option<string>)
    ensures forall k :: 0 <= k < |tags| && AnchorOf(tags[k], homeUrl, parsePath).Some? ==>
              AnchorOf(tags[k], homeUrl, parsePath).value in AnchorsOf(tags, homeUrl, parsePath)
    decreases |tags|
  {
    if |tags| > 0 {
      var init := tags[..|tags| - 1];
      AnchorsOfComplete(init, homeUrl, parsePath);
      forall k | 0 <= k < |init| ensures tags[k] == init[k] { }
    }
  }

  /** The anchor-gathering loop. */
  method GatherAnchors(tags: seq<RawTag>, homeUrl: string, parsePath: string -> Option<string>)
    returns (anchors: seq<Anchor>)
    ensures anchors == AnchorsOf(tags, homeUrl, parsePath)
  {
    anchors := [];
    var k := 0;
    while k < |tags|
      invariant 0 <= k <= |tags|
      invariant anchors == AnchorsOf(tags[..k], homeUrl, parsePath)
    {
      assert tags[..k + 1][..k] == tags[..k];
      var t := tags[k];
      k := k + 1;
      if !t.navClass {
        continue;
      }
      if t.href.None? {
        continue;
      }
      var href := t.href.value;
      if !IsInternal(href, homeUrl) {
        continue;
      }
      var linkPath := Normalise(parsePath(href).GetOr("/"));
      anchors := anchors + [Anchor(t.tag, href, linkPath)];
    }
    assert tags[..|tags|] == tags;
  }

  /** The first anchor whose path is the current path. */
  function FirstExact(anchors: seq<Anchor>, current: string): (r: Option<nat>)
    ensures r.Some? ==> r.value < |anchors| && anchors[r.value].path == current
    ensures r.Some? ==> forall j :: 0 <= j < r.value ==> anchors[j].path != current
    ensures r.None? <==> forall j :: 0 <= j < |anchors| ==> anchors[j].path != current
  {
    if |anchors| == 0 then None
    else if anchors[0].path == current then Some(0)
    else match FirstExact(anchors[1..], current)
      case None => None
      case Some(i) => Some(i + 1)
  }

  /** An anchor path that is an ancestor of the current path: not the root, and `path/` prefixes it. */
  predicate IsAncestorPath(path: string, current: string) {
    path != "/" && path != "" && StartsWith(current, path + "/")
  }

  /** The first anchor whose path is an ancestor of the current path. */
  function FirstAncestor(anchors: seq<Anchor>, current: string): (r: Option<nat>)
    ensures r.Some? ==> r.value < |anchors| && IsAncestorPath(anchors[r.value].path, current)
    ensures r.Some? ==> forall j :: 0 <= j < r.value ==> !IsAncestorPath(anchors[j].path, current)
    ensures r.None? <==> forall j :: 0 <= j < |anchors| ==> !IsAncestorPath(anchors[j].path, current)
  {
    if |anchors| == 0 then None
    else if IsAncestorPath(anchors[0].path, current) then Some(0)
    else match FirstAncestor(anchors[1..], current)
      case None => None
      case Some(i) => Some(i + 1)
  }

  /** The content after the one chosen anchor, if any, has been marked. */
  function Marked(content: string, anchors: seq<Anchor>, current: string): string {
    match FirstExact(anchors, current)
    case Some(i) => ReplaceAll(content, anchors[i].full, InjectState(anchors[i].full, "active"))
    case None =>
      match FirstAncestor(anchors, current)
      case Some(i) => ReplaceAll(content, anchors[i].full, InjectState(anchors[i].full, "ancestor"))
      case None => content
  }

  /**
   * Exactly one anchor is rewritten, and only when one qualifies: the first
   * exact match as `active`; failing that, the first ancestor as `ancestor`.
   * A page no anchor matches keeps its HTML.
   */
  lemma MarkedCases(content: string, anchors: seq<Anchor>, current: string)
    ensures forall i :: (0 <= i < |anchors| && anchors[i].path == current
                         && (forall j :: 0 <= j < i ==> anchors[j].path != current)) ==>
              Marked(content, anchors, current)
                == ReplaceAll(content, anchors[i].full, InjectState(anchors[i].full, "active"))
    ensures forall i :: (0 <= i < |anchors| && IsAncestorPath(anchors[i].path, current)
                         && (forall j :: 0 <= j < |anchors| ==> anchors[j].path != current)
                         && (forall j :: 0 <= j < i ==> !IsAncestorPath(anchors[j].path, current))) ==>
              Marked(content, anchors, current)
                == ReplaceAll(content, anchors[i].full, InjectState(anchors[i].full, "ancestor"))
    ensures (forall j :: 0 <= j < |anchors| ==> anchors[j].path != current && !IsAncestorPath(anchors[j].path, current))
            ==> Marked(content, anchors, current) == content
  {
    forall i | 0 <= i < |anchors| && anchors[i].path == current
               && (forall j :: 0 <= j < i ==> anchors[j].path != current)
      ensures FirstExact(anchors, current) == Some(i)
    {
      var r := FirstExact(anchors, current);
      assert r.Some?;
      assert !(r.value < i);
      assert !(r.value > i);
    }
    forall i | 0 <= i < |anchors| && IsAncestorPath(anchors[i].path, current)
               && (forall j :: 0 <= j < i ==> !IsAncestorPath(anchors[j].path, current))
      ensures FirstAncestor(anchors, current) == Some(i)
    {
      var r := FirstAncestor(anchors, current);
      assert r.Some?;
      assert !(r.value < i);
      assert !(r.value > i);
    }
  }

  // ---------------------------------------------------------------------
  // Virtual ancestor
  // ---------------------------------------------------------------------

  const ButtonOpen := "<button"

  /** Whether `/(<button[^>]*)(>)/i` matches somewhere in `s`. */
  predicate ButtonMatches(s: string)
    decreases |s|
  {
    (|s| >= 7 && Lower(s[..7]) == ButtonOpen && IndexOf(s[7..], '>').Some?) || (|s| > 0 && ButtonMatches(s[1..]))
  }

  /**
   * `preg_replace('/(<button[^>]*)(>)/i', '$1 data-ibt-state="ancestor"$2', $s, 1)`;
   * text without a `<button ...>` tag comes back unchanged.
   */
  function MarkButton(s: string): (r: string)
    ensures !ButtonMatches(s) ==> r == s
    decreases |s|
  {
    if |s| >= 7 && Lower(s[..7]) == ButtonOpen && IndexOf(s[7..], '>').Some?
    then s[..7 + IndexOf(s[7..], '>').value] + StateAttr("ancestor") + s[7 + IndexOf(s[7..], '>').value..]
    else if |s| == 0 then s
    else [s[0]] + MarkButton(s[1..])
  }

  /** A submenu starting with a `<button ...>` tag has the attribute added just inside that tag. */
  lemma {:induction false} MarkButtonOfButton(attrs: string, rest: string)
    requires '>' !in attrs
    ensures MarkButton(ButtonOpen + attrs + ">" + rest)
              == ButtonOpen + attrs + " data-ibt-state=\"ancestor\">" + rest
  {
    var s := ButtonOpen + attrs + ">" + rest;
    var k := 7 + |attrs|;
    assert s[..7] == ButtonOpen;
    assert Lower(ButtonOpen) == ButtonOpen;
    assert s[7..] == attrs + ['>'] + rest;
    IndexOfAfter(attrs, '>', rest);
    assert MarkButton(s) == s[..k] + StateAttr("ancestor") + s[k..];
    assert s[..k] == ButtonOpen + attrs;
    assert s[k..] == ">" + rest;
    assert StateAttr("ancestor") + ">" == " data-ibt-state=\"ancestor\">";
  }

  /** A submenu with an anchor whose state is `active` or `ancestor` (in any letter case). */
  predicate HighlightedSubmenu(sub: string) {
    ContainsIgnoringCase(sub, "data-ibt-state=\"active\"") || ContainsIgnoringCase(sub, "data-ibt-state=\"ancestor\"")
  }

  /**
   * The content after the button of each highlighted submenu is marked, in
   * order; submenus that hold no active or ancestor entry leave the HTML unchanged.
   */
  function VirtualAncestors(content: string, subs: seq<string>): (r: string)
    ensures (forall k :: 0 <= k < |subs| ==> !HighlightedSubmenu(subs[k])) ==> r == content
    decreases |subs|
  {
    if |subs| == 0 then content
    else
      var c := VirtualAncestors(content, subs[..|subs| - 1]);
      var sub := subs[|subs| - 1];
      if HighlightedSubmenu(sub) then ReplaceAll(c, sub, MarkButton(sub)) else c
  }

  // ---------------------------------------------------------------------
  // The render_block filter
  // ---------------------------------------------------------------------

  /** What `ibt_highlight_navigation` returns, stated as one composition of its steps. */
  function Highlighted(content: string, block: Block, requestPath: Option<string>, tags: seq<RawTag>,
                       homeUrl: string, parsePath: string -> Option<string>,
                       scanSubmenus: string -> seq<string>): (r: string)
    ensures !IsDesktopNav(block) || |tags| == 0 ==> r == content
    ensures var anchors := AnchorsOf(tags, homeUrl, parsePath);
            var current := MoreAlias(MoreAliases, CurrentPath(requestPath));
            FirstExact(anchors, current).None? && FirstAncestor(anchors, current).None?
            && (forall k :: 0 <= k < |scanSubmenus(content)| ==> !HighlightedSubmenu(scanSubmenus(content)[k]))
            ==> r == content
  {
    if !IsDesktopNav(block) || |tags| == 0 then content
    else
      var current := MoreAlias(MoreAliases, CurrentPath(requestPath));
      var marked := Marked(content, AnchorsOf(tags, homeUrl, parsePath), current);
      VirtualAncestors(marked, scanSubmenus(marked))
  }

  /** Which of the highlighting steps took effect (the source keeps it for a debug log). */
  datatype Outcome = Untouched | MarkedActive | MarkedAncestor | MarkedVirtualAncestor

  method HighlightNavigation(content: string, block: Block, requestPath: Option<string>, tags: seq<RawTag>,
                             homeUrl: string, parsePath: string -> Option<string>,
                             scanSubmenus: string -> seq<string>)
    returns (out: string)
    ensures !IsDesktopNav(block) || |tags| == 0 ==> out == content
    ensures out == Highlighted(content, block, requestPath, tags, homeUrl, parsePath, scanSubmenus)
  {
    if block.name.None? || block.name.value != NavigationBlock {
      return content;
    }
    var cls := block.className.GetOr("");
    if !Contains(cls, DesktopNavClass) {
      return content;
    }

    var current := ApplyMoreAlias(MoreAliases, CurrentPath(requestPath));

    if |tags| == 0 {
      return content;
    }
    var anchors := GatherAnchors(tags, homeUrl, parsePath);

    var state;
    out, state := MarkFirstMatch(content, anchors, current);

    // 3) virtual ancestor
    var subs := scanSubmenus(out);
    var any;
    out, any := MarkVirtualAncestors(out, subs);
    if any {
      state := MarkedVirtualAncestor;
    }
  }

  /** Steps 1 and 2 of `ibt_highlight_navigation`: the first exact match, else the first ancestor. */
  method MarkFirstMatch(content: string, anchors: seq<Anchor>, current: string)
    returns (out: string, state: Outcome)
    ensures out == Marked(content, anchors, current)
    ensures state == MarkedActive <==> FirstExact(anchors, current).Some?
    ensures state == MarkedAncestor <==> FirstExact(anchors, current).None? && FirstAncestor(anchors, current).Some?
    ensures state == Untouched <==> FirstExact(anchors, current).None? && FirstAncestor(anchors, current).None?
  {
    out := content;
    state := Untouched;

    // 1) exact match
    var i := 0;
    while i < |anchors|
      invariant 0 <= i <= |anchors|
      invariant forall j :: 0 <= j < i ==> anchors[j].path != current
      invariant state == Untouched && out == content
    {
      if anchors[i].path == current {
        out := ReplaceAll(out, anchors[i].full, InjectState(anchors[i].full, "active"));
        state := MarkedActive;
        assert FirstExact(anchors, current) == Some(i) by {
          var r := FirstExact(anchors, current);
          assert !(r.value < i);
          assert !(r.value > i);
        }
        break;
      }
      i := i + 1;
    }

    // 2) ancestor match, only when nothing is active
    if state == Untouched {
      i := 0;
      while i < |anchors|
        invariant 0 <= i <= |anchors|
        invariant forall j :: 0 <= j < i ==> !IsAncestorPath(anchors[j].path, current)
        invariant state == Untouched && out == content
      {
        if anchors[i].path == "/" || anchors[i].path == "" {
          i := i + 1;
          continue;
        }
        var prefix := anchors[i].path + "/";
        if StartsWith(current, prefix) {
          out := ReplaceAll(out, anchors[i].full, InjectState(anchors[i].full, "ancestor"));
          state := MarkedAncestor;
          assert FirstAncestor(anchors, current) == Some(i) by {
            var r := FirstAncestor(anchors, current);
            assert !(r.value < i);
            assert !(r.value > i);
          }
          break;
        }
        i := i + 1;
      }
    }
  }

  /** Step 3 of `ibt_highlight_navigation`: mark the button of every highlighted submenu. */
  method MarkVirtualAncestors(content: string, subs: seq<string>) returns (out: string, any: bool)
    ensures out == VirtualAncestors(content, subs)
    ensures any <==> exists k :: 0 <= k < |subs| && HighlightedSubmenu(subs[k])
  {
    out := content;
    any := false;
    var k := 0;
    while k < |subs|
      invariant 0 <= k <= |subs|
      invariant out == VirtualAncestors(content, subs[..k])
      invariant any <==> exists j :: 0 <= j < k && HighlightedSubmenu(subs[j])
    {
      assert subs[..k + 1][..k] == subs[..k];
      var submenu := subs[k];
      if HighlightedSubmenu(submenu) {
        var new_ := MarkButton(submenu);
        out := ReplaceAll(out, submenu, new_);
        any := true;
      }
      k := k + 1;
    }
    assert subs[..|subs|] == subs;
  }

  /**
   * The two engines agree on the anchor the older one picks: its `active`
   * anchor is classified active by the current engine, and its `ancestor`
   * anchor is classified ancestor, for the same current path.
   */
  lemma ChosenAnchorAgrees(anchors: seq<Anchor>, current: string)
    ensures FirstExact(anchors, current).Some? ==>
              NavStates.Classify(anchors[FirstExact(anchors, current).value].path, current, NavStates.NoState)
                == NavStates.Active
    ensures FirstExact(anchors, current).None? && FirstAncestor(anchors, current).Some? ==>
              NavStates.Classify(anchors[FirstAncestor(anchors, current).value].path, current, NavStates.NoState)
                == NavStates.Ancestor
  {
    match FirstExact(anchors, current)
    case Some(i) =>
      NavStates.ClassifyFresh(anchors[i].path, current);
    case None =>
      match FirstAncestor(anchors, current)
      case Some(i) =>
        NavStates.ClassifyFresh(anchors[i].path, current);
      case None =>
  }
}
