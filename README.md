# IBT theme and customisation plugin — a verified model of the core

The IBT site runs on a WordPress block theme (`ibt`) and a companion plugin
(`ibt_customisation`). This project models and proves properties of the PHP
logic at the heart of both:

- **Header navigation states** (`ibt-nav-states.php`). This is a `render_block` filter on the
  desktop header navigation block. It works out the request path and applies the
  `/news-article → /news` alias. It extracts the navigation anchors and the
  `has-child` submenu parents. It classifies each anchor as active or ancestor and marks
  as ancestor every parent with such an anchor. Finally it injects `data-ibt-state="…"`
  attributes into the HTML.
- **The earlier highlighter and the account-link filter** (`functions.php`).
  `ibt_highlight_navigation` uses the `/more` alias, takes the first exact
  match or else the first ancestor match, and then marks virtual-ancestor submenu
  buttons. The account-link filter adds a `title` and an `aria-label` to the
  account icon link.
- **Event field helpers** (`ibt-events-helpers.php` and its
  customisation twin). These combine date and time meta into MySQL datetimes,
  format start and end dates (time only for a same-day end), sanitise prices, and
  dispatch `ibt_events_get_field` on the meta key.
- **Author and ISBN fields** (`author-isbn-fields.php`). These cover the static caches of
  the Books term and its descendant ids, the `[ibt_author]` renderer, and
  the WooCommerce additional-information filter that prepends an ISBN row.
- **Post type label block** (`post-type-label/render.php`). It maps post
  types to labels and renders the label as an `h3` heading.

Everything is modelled on values, following the source's own style. PHP arrays are copied
on assignment, so each pipeline step is a `method` with `while` loops. The
method takes and returns sequences and is proved equal to a recursive
specification function; lemmas then state what the step promises. The two
`static` caches of the Books term lookup are fields of the class
`AuthorIsbn.BooksCache`. Regular-expression scans, `parse_url`,
`home_url`, the date functions, escaping and meta lookups are parameters:
their results are inputs to the model (see "Left out").

Modules: `Wrappers` (Option), `Text` (lower-casing, `rtrim`, `str_replace`),
`Php` (PHP values, truthiness, string/int casts, the WordPress routines as
parameters), `NavCommon`, `NavStates`, `HighlightNav`, `EventFields`,
`EventsHelpers`, `CustomisationEventsHelpers`, `AuthorIsbn`, `PostTypeLabel`.

## Model

| member | source | states |
|---|---|---|
| Text.Lower | themes/ibt/includes/ibt-nav-states.php:103 | `strtolower` keeps the length and maps each character through the ASCII lower-casing, so the result has no upper-case letter |
| Text.LowerOfLowerCase | themes/ibt/includes/ibt-nav-states.php:103 | lower-casing a string with no upper-case letter changes nothing |
| Text.RTrimSlash | themes/ibt/includes/ibt-nav-states.php:103 | `rtrim($s, '/')` is a prefix of its input whose dropped tail is all slashes, and it does not end in `/` |
| Text.RTrimSlashOfTrimmed | themes/ibt/includes/ibt-nav-states.php:103 | `rtrim` leaves a string without a trailing slash unchanged |
| Text.RTrimSlashAppend | themes/ibt/includes/ibt-nav-states.php:150 | trimming `a + b`, where `a` is non-empty and does not end in `/`, is `a` followed by the trimmed `b` |
| Text.ReplaceAllAbsent | themes/ibt/functions.php:88-95 | `str_replace` returns the subject unchanged when the search string does not occur in it |
| Text.ReplaceAllSelf | themes/ibt/functions.php:90-94 | replacing a search string by itself is the identity |
| Text.ReplaceAll | themes/ibt/functions.php:209 | `str_replace` with an empty search string changes nothing, and one whose replacement has the search string's length keeps the subject's length |
| Text.IndexOf | themes/ibt/functions.php:204-209 | the offset of the first occurrence of a character, and `None` exactly when it does not occur |
| Text.IndexOfAfter | themes/ibt/functions.php:204-209 | in `a + [c] + b` with no `c` in `a`, the first `c` is at the offset equal to the length of `a` |
| Php.NatToDecimal | plugins/ibt_customisation/includes/author-isbn-fields.php:206 | the decimal rendering of a natural number is non-empty and made of digits only |
| Php.ToStr | plugins/ibt_customisation/includes/author-isbn-fields.php:206 | the string cast of a truthy value is never empty |
| Php.Truthy | plugins/ibt_customisation/includes/events/ibt-events-helpers.php:102 | a value is falsy exactly when it is `''`, `'0'`, 0, false or null |
| Php.ToInt | plugins/ibt_customisation/includes/events/ibt-events-helpers.php:109 | a value whose `(int)` cast is non-zero is truthy, and for a non-string a value is truthy exactly when its cast is non-zero |
| NavCommon.Normalise | themes/ibt/includes/ibt-nav-states.php:103-106 | `strtolower(rtrim($p,'/'))`, with `''` read as `/`, always yields a normal path: lower case, and `/` or without a trailing slash |
| NavCommon.NormaliseFixesNormal | themes/ibt/includes/ibt-nav-states.php:103-106 | every normal path is its own normal form |
| NavCommon.NormaliseIdempotent | themes/ibt/includes/ibt-nav-states.php:233-237 | normalising twice gives the same as normalising once |
| NavCommon.CurrentPath | themes/ibt/includes/ibt-nav-states.php:98-109 | the detected request path is normal, and is `/` when `parse_url` yields no path |
| NavCommon.LinkPath | themes/ibt/includes/ibt-nav-states.php:233-237 | the stored path of a link is normal |
| NavCommon.InjectState | themes/ibt/includes/ibt-nav-states.php:505-510 | `preg_replace('/>$/', …)` puts ` data-ibt-state="…"` just before a final `>` and keeps everything before it; a tag that `/>$/` does not match is unchanged; the result is never shorter |
| NavStates.ApplyAlias | themes/ibt/includes/ibt-nav-states.php:129-158 | `/news-article` becomes `/news`; `/news-article/rest` becomes `/news` followed by `/rest` with trailing slashes trimmed; any other path is returned unchanged |
| NavStates.AliasOutputShape | themes/ibt/includes/ibt-nav-states.php:143-153 | an aliased path is `/news` or starts with `/news/` |
| NavStates.AliasIdempotent | themes/ibt/includes/ibt-nav-states.php:129-158 | applying the alias twice gives the same as applying it once |
| NavStates.AliasKeepsNormal | themes/ibt/includes/ibt-nav-states.php:129-158 | the alias maps normal paths to normal paths |
| NavStates.FirstParent | themes/ibt/includes/ibt-nav-states.php:246-254 | the parent index is the first `has-child` block whose text contains the anchor tag, and `None` only when no block contains it |
| NavStates.ExtractedItemsWellFormed | themes/ibt/includes/ibt-nav-states.php:211-266 | there are at most as many items as anchors. Each item comes from an anchor with an internal href, with its normalised link path, no state, and the first containing block as in-range parent. Without any internal anchor the list is empty |
| NavStates.ExtractedItemsComplete | themes/ibt/includes/ibt-nav-states.php:211-266 | every anchor with an `href` to an internal link yields its item: only anchors without an `href` or with an external one are skipped |
| NavStates.CollectParents | themes/ibt/includes/ibt-nav-states.php:186-195 | the submenu-block loop yields one stateless parent per block, in block order, keeping its full text and opening tag |
| NavStates.FindParent | themes/ibt/includes/ibt-nav-states.php:246-254 | the parent search returns the index of the first block whose text contains the anchor tag, and none when no block does |
| NavStates.ExtractItems | themes/ibt/includes/ibt-nav-states.php:167-281 | the extraction loops yield exactly the fresh parents (one per block, no state) and the items of the extraction specification |
| NavStates.SectionRootsIsShopRule | themes/ibt/includes/ibt-nav-states.php:394-413 | the section-roots pass, whose table has the single entry `/shop` → `/shop/category/books`, is that one rule |
| NavStates.ActiveIsFinal | themes/ibt/includes/ibt-nav-states.php:300-413 | after all passes an item is active exactly when its path equals the current path or it was active before: no later pass overrides `active` |
| NavStates.ClassifyFresh | themes/ibt/includes/ibt-nav-states.php:300-413 | a fresh item ends active iff its path is the current path. It ends ancestor iff it is not active and either its non-root path plus `/` prefixes the current path, or it is `/shop/category/books` while the current path is `/shop` or under `/shop/`. The root item never becomes an ancestor of another page |
| NavStates.ClassifiedItems | themes/ibt/includes/ibt-nav-states.php:300-413 | detection keeps the number of items and every field but the state, and gives each item the state of the four passes |
| NavStates.MarkedParents | themes/ibt/includes/ibt-nav-states.php:424-437 | a parent becomes an ancestor exactly when some item with its index is active or an ancestor; every other parent is unchanged |
| NavStates.ExactPass | themes/ibt/includes/ibt-nav-states.php:310-314 | pass 1 keeps every item but makes active exactly those whose path equals the current path |
| NavStates.PrefixPass | themes/ibt/includes/ibt-nav-states.php:332-348 | pass 2 makes an item an ancestor when its path is not `/`, it is not active, and its path plus `/` prefixes the current path; nothing else changes |
| NavStates.BooksPass | themes/ibt/includes/ibt-nav-states.php:365-378 | pass 2B makes the Books tab an ancestor, unless active, when the current path is `/shop` or under `/shop/`; nothing else changes |
| NavStates.SectionRootPass | themes/ibt/includes/ibt-nav-states.php:401-412 | for one table entry, inside its section the items linking to the menu path become ancestors unless active; outside it nothing changes |
| NavStates.SectionRootsPass | themes/ibt/includes/ibt-nav-states.php:398-413 | pass 3 applies the table entries in order, giving every item the state of the section-root rule |
| NavStates.ParentPass | themes/ibt/includes/ibt-nav-states.php:424-437 | pass 4 yields exactly the marked parents: an ancestor where some child is active or an ancestor, unchanged elsewhere |
| NavStates.DetectStates | themes/ibt/includes/ibt-nav-states.php:288-458 | the four item passes and the parent pass compute exactly the classified items, and then the parents marked from those items |
| NavStates.StatedTagInjects | themes/ibt/includes/ibt-nav-states.php:482-518 | a stated item whose tag ends in `>` and has no ` data-ibt-state="` gets exactly ` data-ibt-state="NAME"` before its final `>` |
| NavStates.ReplaceStateAttrAt | themes/ibt/includes/ibt-nav-states.php:495-502 | `preg_replace('/data-ibt-state="[^"]*"/i', …, 1)` replaces the value of the first attribute occurrence up to its closing quote and keeps the rest of the tag |
| NavStates.ReplaceStateAttr | themes/ibt/includes/ibt-nav-states.php:497-502 | a tag that `/data-ibt-state="[^"]*"/i` does not match comes back unchanged |
| NavStates.StatedTagReplaces | themes/ibt/includes/ibt-nav-states.php:495-502 | a stated item whose tag already carries ` data-ibt-state="…"` has that value replaced by its state, and the rest of the tag is kept |
| NavStates.ParentOpenTagOfLi | themes/ibt/includes/ibt-nav-states.php:538-543 | an `<li…>` opener gets ` data-ibt-state="ancestor"` just before its `>` |
| NavStates.ParentOpenTag | themes/ibt/includes/ibt-nav-states.php:538-543 | an opener that `/<li\b([^>]*)>/i` does not match comes back unchanged |
| NavStates.UnstatedLeavesContent | themes/ibt/includes/ibt-nav-states.php:465-558 | when no item and no parent has a state, the rewrite returns the HTML unchanged |
| NavStates.UnstatedItemsLeaveContent | themes/ibt/includes/ibt-nav-states.php:482-485 | items without a state leave the HTML unchanged |
| NavStates.UnstatedParentsLeaveContent | themes/ibt/includes/ibt-nav-states.php:529-533 | parents without a state leave the HTML unchanged |
| NavStates.ApplyStates | themes/ibt/includes/ibt-nav-states.php:465-558 | the two rewrite loops produce exactly the specified HTML: items first, in order, then parents |
| NavStates.Render | themes/ibt/includes/ibt-nav-states.php:47-91 | any block other than the desktop header navigation is returned unchanged; otherwise the result is alias, extraction, detection and rewrite in that order |
| NavStates.QuietPageLeavesNavigation | themes/ibt/includes/ibt-nav-states.php:47-91 | when no extracted item classifies as active or ancestor on the current page, the filter returns the HTML unchanged |
| HighlightNav.AccountFilter | themes/ibt/functions.php:86-97 | any block other than `woocommerce/customer-account`, and any content without `<a`, is returned unchanged |
| HighlightNav.AccountRewriteHead | themes/ibt/functions.php:90-94 | a rewritten string starts with the same character as the original |
| HighlightNav.AccountFilterReversible | themes/ibt/functions.php:86-97 | on the account block the rewrite loses nothing: replacing each `<a title="Your account" aria-label="Your account"` back by `<a` restores the original content |
| HighlightNav.AccountRewriteRoundTrip | themes/ibt/functions.php:90-94 | replacing `<a` by the long opener and back is the identity on every string |
| HighlightNav.MoreAliasCases | themes/ibt/functions.php:123-143 | `/more` becomes `/`; `/more/x` becomes the normalised `/x`; any other path is unchanged; normal paths stay normal |
| HighlightNav.MoreAlias | themes/ibt/functions.php:133-143 | a path that no entry of the alias table matches, exactly or as a prefix followed by `/`, comes back unchanged |
| HighlightNav.ApplyMoreAlias | themes/ibt/functions.php:133-143 | the alias loop returns exactly the alias specification, for any alias table |
| HighlightNav.AnchorsOfWellFormed | themes/ibt/functions.php:146-168 | every gathered anchor comes from a navigation-item tag of the content, with an internal href and its normal link path |
| HighlightNav.AnchorsOfComplete | themes/ibt/functions.php:146-168 | every navigation-item tag with an internal `href` yields its anchor: no other tag is dropped |
| HighlightNav.GatherAnchors | themes/ibt/functions.php:146-168 | the gathering loop keeps exactly the specified anchors, in tag order |
| HighlightNav.FirstExact | themes/ibt/functions.php:178-184 | the first anchor whose path equals the current path, and `None` exactly when there is none |
| HighlightNav.FirstAncestor | themes/ibt/functions.php:187-197 | the first anchor whose non-root path plus `/` prefixes the current path, and `None` exactly when there is none |
| HighlightNav.MarkedCases | themes/ibt/functions.php:175-197 | with an exact match, the first matching anchor is marked active. With none, the first ancestor anchor is marked ancestor. With neither, the HTML is unchanged |
| HighlightNav.MarkButtonOfButton | themes/ibt/functions.php:204-209 | a submenu `<button…>` gets ` data-ibt-state="ancestor"` just before its first `>` |
| HighlightNav.MarkButton | themes/ibt/functions.php:203-208 | a submenu that `/(<button[^>]*)(>)/i` does not match comes back unchanged |
| HighlightNav.VirtualAncestors | themes/ibt/functions.php:200-213 | submenus that hold no active or ancestor entry leave the HTML unchanged |
| HighlightNav.HighlightNavigation | themes/ibt/functions.php:109-219 | blocks other than the desktop navigation, and content without any `<a>` tag, are returned unchanged; otherwise the result is the specified highlighting |
| HighlightNav.Highlighted | themes/ibt/functions.php:109-219 | blocks other than the desktop navigation, and content without any `<a>` tag, are returned unchanged; so is content with no exact match, no ancestor match and no submenu holding an active or ancestor entry |
| HighlightNav.MarkFirstMatch | themes/ibt/functions.php:175-197 | the exact and ancestor loops give the marked HTML. The state is active iff an exact match exists, ancestor iff only an ancestor match exists, and untouched iff neither exists |
| HighlightNav.MarkVirtualAncestors | themes/ibt/functions.php:200-213 | the submenu loop gives the specified HTML, and reports a virtual ancestor iff some submenu holds an active or ancestor entry |
| HighlightNav.ChosenAnchorAgrees | themes/ibt/functions.php:175-197 | the anchor the old highlighter marks active (or ancestor) gets the same state from the state engine's classification |
| EventFields.FirstCaseAt | plugins/ibt_customisation/includes/events/ibt-events-helpers.php:98-208 | when label `i` equals the key and no earlier label does, the `switch` runs the body of label `i` |
| EventFields.FirstCaseNoMatch | plugins/ibt_customisation/includes/events/ibt-events-helpers.php:98-208 | a key that equals no label runs the `default` body |
| EventFields.FirstCaseChoosesLabel | plugins/ibt_customisation/includes/events/ibt-events-helpers.php:98-208 | the body run is `default` or the body of a label equal to the key |
| EventFields.FirstCaseDefault | plugins/ibt_customisation/includes/events/ibt-events-helpers.php:98-208 | for a table with no `default` entries, the `default` body runs exactly when no label equals the key |
| EventFields.LaterDuplicateUnreachable | plugins/ibt_customisation/includes/events/ibt-customisation-events-helpers.php:185-189 | a case whose label repeats an earlier case label is never taken |
| EventFields.FirstCaseReturnsFirst | plugins/ibt_customisation/includes/events/ibt-events-helpers.php:98-208 | when some label equals the key, the switch takes the body of a matching label at or before it |
| EventFields.CombineDatetime | plugins/ibt_customisation/includes/events/ibt-events-helpers.php:25-32 | an empty date, or a combined date and time whose `strtotime` is false or 0, gives `''`. A truthy date whose combination parses gives the `Y-m-d H:i:s` form of that timestamp, the time being `00:00` when falsy; the copy in ibt-customisation-events-helpers.php, lines 10-17, is the same |
| EventFields.CombineDefaultsTime | plugins/ibt_customisation/includes/events/ibt-events-helpers.php:25-32 | an empty time or `'0'` gives the same result as `00:00` |
| EventFields.FormatDatetime | plugins/ibt_customisation/includes/events/ibt-events-helpers.php:49-61 | a falsy stored value, or one whose site-time timestamp is false or 0, gives `''`; otherwise the localised long format of that site-time timestamp; the copy in ibt-customisation-events-helpers.php, lines 32-44, is the same |
| EventFields.FormatEnd | plugins/ibt_customisation/includes/events/ibt-events-helpers.php:70-86 | an empty end, or a start or end that does not parse, gives `''`; the copy in ibt-customisation-events-helpers.php, lines 52-68, is the same |
| EventFields.FormatEndChoosesFormat | plugins/ibt_customisation/includes/events/ibt-events-helpers.php:77-85 | the end is shown as a time only exactly when it falls on the start's day (same `Ymd`), otherwise in the long format |
| EventFields.FormatEndDependsOnStartDay | plugins/ibt_customisation/includes/events/ibt-events-helpers.php:77-85 | two starts on the same day give the same end text |
| EventFields.FormatEndAtStart | plugins/ibt_customisation/includes/events/ibt-events-helpers.php:77-85 | an end equal to the start is shown as a time only |
| EventFields.KeepPriceChars | plugins/ibt_customisation/includes/events/ibt-events-helpers.php:39 | the filtered string is no longer than its input and holds only digits and dots |
| EventFields.KeepPriceCharsOfPrice | plugins/ibt_customisation/includes/events/ibt-events-helpers.php:39 | a string of digits and dots passes through the filter unchanged |
| EventFields.KeepPriceCharsOne | plugins/ibt_customisation/includes/events/ibt-events-helpers.php:39 | one character is kept exactly when it is a digit or a dot |
| EventFields.KeepPriceCharsAppend | plugins/ibt_customisation/includes/events/ibt-events-helpers.php:39 | the filter works character by character: filtering `a + b` gives the filtered `a` followed by the filtered `b` |
| EventFields.SanitizePrice | plugins/ibt_customisation/includes/events/ibt-events-helpers.php:38-41 | the result is the digits and dots of the string cast, all of them when there are at most 10 and their first 10 otherwise; so it holds only digits and dots and is at most 10 long; the copy in ibt-customisation-events-helpers.php, lines 22-25, is the same |
| EventFields.SanitizePriceIdempotent | plugins/ibt_customisation/includes/events/ibt-events-helpers.php:38-41 | sanitising a sanitised price changes nothing |
| EventFields.PriceText | plugins/ibt_customisation/includes/events/ibt-events-helpers.php:155-161 | the price text is empty exactly when the stored meta is `''` |
| EventFields.VenueLabel | plugins/ibt_customisation/includes/events/ibt-events-helpers.php:113-121 | the label is empty iff neither the title nor the island is truthy. With only the title it is the title, with only the island it is the island, and with both it is `title, island` |
| EventFields.RemoteFlag | plugins/ibt_customisation/includes/events/ibt-events-helpers.php:150-152 | the remote field is `'1'` exactly when the meta casts to a non-zero integer, and `''` otherwise |
| EventFields.OnlineImpliesRemote | plugins/ibt_customisation/includes/events/ibt-events-helpers.php:150-176 | an online event is always remote. The converse fails: `'2'` is remote but not online, and `'yes'` is neither |
| EventFields.MapUrl | plugins/ibt_customisation/includes/events/ibt-events-helpers.php:197-199 | the map link is the Google Maps search prefix followed by the url-encoded location |
| EventsHelpers.DispatchIsByLabel | plugins/ibt_customisation/includes/events/ibt-events-helpers.php:96-209 | the default is taken exactly for keys that are not case labels |
| EventsHelpers.GetField | plugins/ibt_customisation/includes/events/ibt-events-helpers.php:96-209 | the `case` the key selects decides the output: the default gives the escaped meta; start and end give `''` for a falsy value; the venue fields give `''` when the venue id casts to 0; a price field is `''` iff its meta is `''`; the remote flag is `1` or `''` |
| EventsHelpers.PriceField | plugins/ibt_customisation/includes/events/ibt-events-helpers.php:155-161 | both price keys give `''` exactly for an empty meta, and otherwise `£` followed by the money format |
| EventsHelpers.VenueFieldsNeedVenue | plugins/ibt_customisation/includes/events/ibt-events-helpers.php:108-147 | venue, venue name and venue address are `''` when the venue id casts to 0 |
| EventsHelpers.VenueField | plugins/ibt_customisation/includes/events/ibt-events-helpers.php:108-124 | with a venue, the venue field is the label of the venue's title and island |
| EventsHelpers.VenueNameField | plugins/ibt_customisation/includes/events/ibt-events-helpers.php:126-132 | with a venue, the venue name is the escaped title, or `''` when the title is empty |
| EventsHelpers.RemoteField | plugins/ibt_customisation/includes/events/ibt-events-helpers.php:150-152 | the remote field is `'1'` or `''`, and `'1'` exactly when the flag casts to a non-zero integer |
| EventsHelpers.OnlineField | plugins/ibt_customisation/includes/events/ibt-events-helpers.php:169-176 | the online field is the online text exactly for an online flag, and `''` otherwise |
| EventsHelpers.MapButtonField | plugins/ibt_customisation/includes/events/ibt-events-helpers.php:190-202 | the map button is `''` without a truthy venue id and location, and otherwise the Maps search URL of the location |
| EventsHelpers.StartField | plugins/ibt_customisation/includes/events/ibt-events-helpers.php:101-102 | the start field is `''` for an empty start, and otherwise the start's site-time timestamp in the long format |
| EventsHelpers.EndField | plugins/ibt_customisation/includes/events/ibt-events-helpers.php:104-106 | the end field is `''` for an empty end. When start and end parse, it is the end's time alone on the start's day, and the long format otherwise |
| EventsHelpers.AddressField | plugins/ibt_customisation/includes/events/ibt-events-helpers.php:134-147 | with a venue, the address is `''` when unset and otherwise `<p>`, the escaped address with line breaks, `</p>` |
| EventsHelpers.PresenterField | plugins/ibt_customisation/includes/events/ibt-events-helpers.php:164-166 | the presenter field is the escaped presenter, or `''` when none is stored |
| EventsHelpers.ExcerptField | plugins/ibt_customisation/includes/events/ibt-events-helpers.php:179-187 | the excerpt field is the escaped, word-trimmed excerpt, or `''` for an empty excerpt |
| EventsHelpers.DefaultField | plugins/ibt_customisation/includes/events/ibt-events-helpers.php:206-207 | any other key gives its meta, cast to string and escaped |
| CustomisationEventsHelpers.PublicDuplicateUnreachable | plugins/ibt_customisation/includes/events/ibt-customisation-events-helpers.php:185-187 | the second `ibt_event_price_public` case is never taken, for any key |
| CustomisationEventsHelpers.MemberDuplicateUnreachable | plugins/ibt_customisation/includes/events/ibt-customisation-events-helpers.php:188-190 | the second `ibt_event_price_member` case is never taken, for any key |
| CustomisationEventsHelpers.PriceField | plugins/ibt_customisation/includes/events/ibt-customisation-events-helpers.php:136-142 | both price keys give `''` exactly for an empty meta, and otherwise `£` followed by the money format |
| CustomisationEventsHelpers.VenueFieldsNeedVenue | plugins/ibt_customisation/includes/events/ibt-customisation-events-helpers.php:89-128 | venue, venue name and venue address are `''` when the venue id casts to 0 |
| CustomisationEventsHelpers.VenueField | plugins/ibt_customisation/includes/events/ibt-customisation-events-helpers.php:89-105 | with a venue, the venue field is the label of the venue's title and island |
| CustomisationEventsHelpers.VenueNameField | plugins/ibt_customisation/includes/events/ibt-customisation-events-helpers.php:107-113 | with a venue, the venue name is its title unescaped, or `''` when the title is empty |
| CustomisationEventsHelpers.RemoteField | plugins/ibt_customisation/includes/events/ibt-customisation-events-helpers.php:131-133 | the remote field is `'1'` or `''`, and `'1'` exactly when the flag casts to a non-zero integer |
| CustomisationEventsHelpers.OnlineField | plugins/ibt_customisation/includes/events/ibt-customisation-events-helpers.php:150-155 | the online field is the online paragraph exactly for an online flag, and `''` otherwise |
| CustomisationEventsHelpers.MapButtonField | plugins/ibt_customisation/includes/events/ibt-customisation-events-helpers.php:169-183 | the map field is `''` without a truthy venue id and location, and otherwise the button markup around the escaped Maps search URL |
| CustomisationEventsHelpers.StartField | plugins/ibt_customisation/includes/events/ibt-customisation-events-helpers.php:82-83 | the start field is `''` for an empty start, and otherwise the start's site-time timestamp in the long format |
| CustomisationEventsHelpers.EndField | plugins/ibt_customisation/includes/events/ibt-customisation-events-helpers.php:85-87 | the end field is `''` for an empty end. When start and end parse, it is the end's time alone on the start's day, and the long format otherwise |
| CustomisationEventsHelpers.AddressField | plugins/ibt_customisation/includes/events/ibt-customisation-events-helpers.php:115-128 | with a venue, the address is `''` when unset and otherwise `<p>`, the escaped address with line breaks, `</p>` |
| CustomisationEventsHelpers.PresenterField | plugins/ibt_customisation/includes/events/ibt-customisation-events-helpers.php:145-147 | the presenter field is the escaped presenter, or `''` when none is stored |
| CustomisationEventsHelpers.ExcerptField | plugins/ibt_customisation/includes/events/ibt-customisation-events-helpers.php:158-166 | the excerpt field is the escaped, word-trimmed excerpt, or `''` for an empty excerpt |
| CustomisationEventsHelpers.GetField | plugins/ibt_customisation/includes/events/ibt-customisation-events-helpers.php:77-194 | the same per-`case` promises as the first variant: escaped meta by default, `''` for a falsy start or end, `''` venue fields when the venue id casts to 0, a price `''` iff its meta is `''`, a remote flag of `1` or `''` |
| CustomisationEventsHelpers.DefaultField | plugins/ibt_customisation/includes/events/ibt-customisation-events-helpers.php:191-192 | any other key gives its meta, cast to string and escaped |
| AuthorIsbn.Safe | plugins/ibt_customisation/includes/author-isbn-fields.php:9-18 | the wrapped callable returns what the callable returns, and `null` exactly when it throws |
| AuthorIsbn.Dedupe | plugins/ibt_customisation/includes/author-isbn-fields.php:50 | `array_unique` keeps exactly the same members, without duplicates, and keeps the first element first |
| AuthorIsbn.FirstIndex | plugins/ibt_customisation/includes/author-isbn-fields.php:50 | the position of a value's first occurrence: it holds the value, and no earlier position does |
| AuthorIsbn.DedupeKeepsFirstOrder | plugins/ibt_customisation/includes/author-isbn-fields.php:50 | `array_unique` lists the kept values in the order of their first occurrences |
| AuthorIsbn.BooksIds | plugins/ibt_customisation/includes/author-isbn-fields.php:38-53 | without a Books term the list is empty. Otherwise the root id comes first, there are no duplicates, and the members are exactly the root and its descendants |
| AuthorIsbn.BooksCache.constructor | plugins/ibt_customisation/includes/author-isbn-fields.php:24-33 | both static caches start as `null` |
| AuthorIsbn.BooksCache.BooksTerm | plugins/ibt_customisation/includes/author-isbn-fields.php:24-30 | the first call stores the lookup result; every later call returns the stored term |
| AuthorIsbn.BooksCache.BooksAndDescendantIds | plugins/ibt_customisation/includes/author-isbn-fields.php:32-54 | a cached list is returned unchanged. Otherwise the list is computed from the cached or looked-up term, then stored |
| AuthorIsbn.CachedIdsAreStable | plugins/ibt_customisation/includes/author-isbn-fields.php:32-54 | two calls in one request return the same list; from empty caches it is the list of the first lookup |
| AuthorIsbn.HeadingLevel | plugins/ibt_customisation/includes/author-isbn-fields.php:153-164 | the level is the lower-cased `level` attribute when that is `h2`, `h3` or `p`, and `h3` otherwise |
| AuthorIsbn.RenderAuthor | plugins/ibt_customisation/includes/author-isbn-fields.php:148-180 | the output is non-empty iff there is a product, it is in a Books category and its subtitle is truthy. It is then `<L class="ibt-author-parastyle">Author: S</L>` with the escaped level and subtitle |
| AuthorIsbn.WithoutKey | plugins/ibt_customisation/includes/author-isbn-fields.php:208 | keeps exactly the entries with another key, is never longer, and is the array itself when no entry has the key |
| AuthorIsbn.WithoutKeyKeepsUnique | plugins/ibt_customisation/includes/author-isbn-fields.php:208 | removing a key keeps the keys unique |
| AuthorIsbn.PrependKeyed | plugins/ibt_customisation/includes/author-isbn-fields.php:208 | `['ibt_isbn' => $row] + $attrs` puts the ISBN row first, followed by exactly the entries under another key; without an `ibt_isbn` entry it is the row followed by the whole array in its order |
| AuthorIsbn.PrependKeyedKeepsUnique | plugins/ibt_customisation/includes/author-isbn-fields.php:208 | the keyed prepend keeps the keys unique |
| AuthorIsbn.RenumberedInts | plugins/ibt_customisation/includes/author-isbn-fields.php:210 | renumbering integer-keyed entries gives consecutive keys from the start value, with every row unchanged |
| AuthorIsbn.IsList | plugins/ibt_customisation/includes/author-isbn-fields.php:207 | the `array_keys($attrs) !== range(0, count - 1)` test: a list has keys 0, 1, … in order, and so unique keys |
| AuthorIsbn.Renumbered | plugins/ibt_customisation/includes/author-isbn-fields.php:210 | `array_unshift` renumbering keeps the length and every row, keeps integer keys integer, and leaves string-keyed entries as they were |
| AuthorIsbn.Unshift | plugins/ibt_customisation/includes/author-isbn-fields.php:210 | `array_unshift` puts the row first under key 0, followed by every old row in order, with string-keyed entries kept |
| AuthorIsbn.UnshiftKeepsList | plugins/ibt_customisation/includes/author-isbn-fields.php:207-210 | `array_unshift` on a list gives a list one longer, with the ISBN row at 0 and every old row one place later |
| AuthorIsbn.ResolveProduct | plugins/ibt_customisation/includes/author-isbn-fields.php:189-195 | the product is the argument if given, else the global product, else the current post's product |
| AuthorIsbn.IsbnFilter | plugins/ibt_customisation/includes/author-isbn-fields.php:186-213 | attributes are unchanged unless there is a product with a non-empty ISBN in a Books category. The row `ISBN` with the escaped ISBN is then unshifted onto a list, or prepended under `ibt_isbn` otherwise |
| PostTypeLabel.Label | plugins/ibt_customisation/blocks/post-type-label/render.php:19-27 | a known post type maps to its label; an unknown or missing type, and only such a type, gives `Other` |
| PostTypeLabel.KnownLabels | plugins/ibt_customisation/blocks/post-type-label/render.php:19-25 | the five known types map to Event, Book, Library, News and Page |
| PostTypeLabel.RenderLabel | plugins/ibt_customisation/blocks/post-type-label/render.php:12-31 | the output is empty exactly for a falsy post id; otherwise it is the `h3` label heading around the escaped label |

## Left out

- Regular-expression scans are inputs to the model rather than computed: the anchor and `has-child` block scans, `href` extraction, the `<li>` opener match, and the scan for highlighted submenus. The model receives their match lists. Anchored rewrites (`/>$/`, the `<li` and `<button` openers) are modelled exactly.
- `parse_url`, `home_url`, `$_SERVER['REQUEST_URI']` are parameters.
- `strtotime`, `date`, `date_i18n`, `current_time`, the site timezone, `number_format`/`wc_price`, `esc_html`, `esc_url`, `rawurlencode`, `nl2br`, `wp_trim_words`, `get_the_excerpt`, `get_the_title` and `get_post_meta` are opaque function parameters. Their own behaviour, such as date parsing and HTML escaping, is not modelled.
- `__()` translation is taken as the identity.
- `error_log` debugging, hook and shortcode registration, asset enqueueing, favicons, theme supports, admin metaboxes, meta saving, the editor scripts and the event listing and archive renderers are not part of this model.
- `Php.ToInt`: the `(int)` cast reads optional leading whitespace, an optional sign and the leading decimal digits. Float and exponent forms such as `"1e3"`, and integer overflow, are not modelled.
- `AuthorIsbn.Dedupe`: `array_unique` keeps each value under the key of its first occurrence, leaving gaps in the keys. The model keeps the values, in first-occurrence order, as a list without those keys; `in_array` and `array_intersect` look only at the values.
- `AuthorIsbn.IsbnFilter`: the source assigns the resolved product to the global `$product`. The model returns the attributes only, and does not model the non-array `$attrs` case. The `ibt_safe` wrapper around the whole filter is modelled separately as `AuthorIsbn.Safe`, not composed with the filter.
- `AuthorIsbn.BooksIds`: the `get_terms` descendant lookup and the `get_term_by` root lookup are parameters; a non-array `get_terms` result is `None`, which leaves the root alone.
- Post ids from `get_post_meta` go through `(int)`/`absint`. These are modelled as `Php.ToInt`, without the absolute value of `absint` applied to negative ids. The map-button case (ibt-events-helpers.php:192-197) passes the raw venue-id meta to `get_post_meta`, which gives `false` for a non-numeric id; the model looks up the cast id instead. Venue ids are saved through `absint` (ibt-customisation-events-rest.php:40-42), so a non-numeric stored id does not arise.
- The inner `strtotime` of `ibt_events_format_datetime` (ibt-events-helpers.php:55) is not checked before the timezone round trip. An unparsable value becomes `gmdate('Y-m-d H:i:s', false)`, the epoch, which the site timezone can shift to a truthy timestamp and so a displayed date. The model folds that whole chain into the opaque `siteTimestamp` parameter: the case is allowed, not computed.
- NavStates.CollectParents: the `index` entry of each parent record is not kept; it always equals the parent's position in the list, which the model uses instead.
- Concurrency and request lifetime: the static caches live for one PHP request, and the model's `BooksCache` object stands for that request.
