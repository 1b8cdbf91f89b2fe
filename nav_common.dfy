/**
 * What the two header-navigation highlighters share: the block guard, the
 * normalisation of request and link paths, the internal-link test and the
 * rewrite that adds `data-ibt-state="..."` before the closing `>` of a tag.
 */
module NavCommon {

  import opened Wrappers
  import opened Text

  const NavigationBlock := "core/navigation"
  const DesktopNavClass := "ibt-header-nav-desktop"

  /** The parts of a parsed block the filters look at. */
  datatype Block = Block(name: Option<string>, className: Option<string>)

  /** The filters act only on the desktop header navigation block. */
  predicate IsDesktopNav(b: Block) {
    b.name == Some(NavigationBlock) && Contains(b.className.GetOr(""), DesktopNavClass)
  }

  /** A normalised path: lower case, and either `/` or without a trailing slash. */
  predicate IsNormal(p: string) {
    IsLowerCase(p) && (p == "/" || (|p| > 0 && p[|p| - 1] != '/'))
  }

  /** `strtolower(rtrim($path, '/'))`, with the empty result read as `/`. */
  function Normalise(path: string): (r: string)
    ensures IsNormal(r)
  {
    var t := Lower(RTrimSlash(path));
    if t == "" then "/" else t
  }

  /** Normalising is idempotent: a normal path is its own normal form. */
  lemma {:induction false} NormaliseFixesNormal(p: string)
    requires IsNormal(p)
    ensures Normalise(p) == p
  {
    if p == "/" {
      assert RTrimSlash(p) == RTrimSlash(p[..0]);
      assert Lower("") == "";
    } else {
      RTrimSlashOfTrimmed(p);
      LowerOfLowerCase(p);
    }
  }

  lemma NormaliseIdempotent(p: string)
    ensures Normalise(Normalise(p)) == Normalise(p)
  {
    NormaliseFixesNormal(Normalise(p));
  }

  /**
   * The request path: the path part of REQUEST_URI (`None` when `parse_url`
   * yields none), `/` by default, normalised.
   */
  function CurrentPath(requestPath: Option<string>): (r: string)
    ensures IsNormal(r)
    ensures requestPath.None? ==> r == "/"
  {
    Normalise(requestPath.GetOr("/"))
  }

  /** A link is internal when it is site-relative or starts with `home_url('/')`. */
  predicate IsInternal(href: string, homeUrl: string) {
    StartsWith(href, "/") || StartsWith(href, homeUrl)
  }

  /** The normalised path of a link, through the given `parse_url($href, PHP_URL_PATH)`. */
  function LinkPath(href: string, parsePath: string -> Option<string>): (r: string)
    ensures IsNormal(r)
  {
    Normalise(parsePath(href).GetOr("/"))
  }

  /** ` data-ibt-state="NAME"` */
  function StateAttr(name: string): string {
    " data-ibt-state=\"" + name + "\""
  }

  /**
   * `preg_replace('/>$/', ' data-ibt-state="NAME">', $tag, 1)`: the final `>`
   * (or a `>` followed only by a final newline, as PCRE's `$` allows) gets
   * the attribute in front of it; a tag without one is returned as it is.
   */
  function InjectState(tag: string, name: string): (r: string)
    ensures |r| >= |tag|
    ensures |tag| > 0 && tag[|tag| - 1] == '>' ==>
              r[..|tag| - 1] + ">" == tag && r[|tag| - 1..] == StateAttr(name) + ">"
    ensures !EndsWithClose(tag) ==> r == tag
  {
    var n := |tag|;
    if n > 0 && tag[n - 1] == '>' then tag[..n - 1] + StateAttr(name) + ">"
    else if n > 1 && tag[n - 2] == '>' && tag[n - 1] == '\n' then tag[..n - 2] + StateAttr(name) + ">\n"
    else tag
  }

  /** Whether `/>$/` matches. */
  predicate EndsWithClose(tag: string) {
    (|tag| > 0 && tag[|tag| - 1] == '>') || (|tag| > 1 && tag[|tag| - 2] == '>' && tag[|tag| - 1] == '\n')
  }
}
