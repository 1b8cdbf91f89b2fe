/**
 * `ibt_events_get_field` of
 * plugins/ibt_customisation/includes/events/ibt-customisation-events-helpers.php,
 * the near-duplicate variant: dates read `12:15 pm on 18 October 25`, the
 * venue name is not escaped, the online flag is a `<p>` and the map button
 * is a block-button `<div>` around the escaped URL. Its `switch` repeats
 * the two price labels after the map button; those later cases are never
 * reached.
 */
module CustomisationEventsHelpers {

  import opened Php
  import opened EventFields

  const LongFormat := "g:ia \\o\\n j F y"
  const OnlineHtml := "<p>Online - Remote Accessible</p>"

  const VenueIdKey := "ibt_event_venue_id"
  const RemoteKey := "ibt_event_remote"
  const PricePublicKey := "ibt_event_price_public"
  const PriceMemberKey := "ibt_event_price_member"

  /** The `case` labels of the `switch`, in source order, with the repeated price labels last. */
  const Labels: seq<(string, Field)> := [
    ("ibt_event_start", Start),
    ("ibt_event_end", End),
    ("ibt_event_venue", Venue),
    ("ibt_event_venue_name", VenueName),
    ("ibt_event_venue_address", VenueAddress),
    (RemoteKey, Remote),
    (PricePublicKey, PricePublic),
    (PriceMemberKey, PriceMember),
    ("ibt_event_presenter", Presenter),
    ("ibt_event_online", Online),
    ("ibt_event_excerpt", Excerpt),
    ("ibt_event_map_button", MapButton),
    (PricePublicKey, PricePublicDup),
    (PriceMemberKey, PriceMemberDup)
  ]

  predicate IsLabel(key: string) {
    exists i :: 0 <= i < |Labels| && Labels[i].0 == key
  }

  /** The map button: a block-button `<div>` linking to the escaped URL in a new tab. */
  const MapButtonOpen := "<div class=\"wp-block-button ibt-event-field ibt-event-field--ibt-event-map-button\">\n\t\t\t\t\t\t"
    + "<a class=\"wp-block-button__link ibt-event-map-btn\" href=\""
  const MapButtonClose := "\" target=\"_blank\" rel=\"noopener\">View on Google Maps</a>\n\t\t\t\t\t</div>"

  function MapButtonHtml(escapedUrl: string): string {
    MapButtonOpen + escapedUrl + MapButtonClose
  }

  /**
   * `ibt_events_get_field($post_id, $key)`: the `case` the key selects decides
   * the output, and an unknown key gives its escaped meta value.
   */
  function GetField(wp: Wp, postId: int, key: string): (r: string)
    ensures FirstCase(Labels, key) == Other ==> r == wp.escHtml(ToStr(wp.meta(postId, key)))
    ensures FirstCase(Labels, key) in {Start, End} && !Truthy(wp.meta(postId, key)) ==> r == ""
    ensures FirstCase(Labels, key) in {Venue, VenueName, VenueAddress} && ToInt(wp.meta(postId, VenueIdKey)) == 0 ==> r == ""
    ensures FirstCase(Labels, key) in {PricePublic, PriceMember} ==> (r == "" <==> wp.meta(postId, key) == PStr(""))
    ensures FirstCase(Labels, key) == Remote ==> r == "1" || r == ""
  {
    var value := wp.meta(postId, key);
    match FirstCase(Labels, key)
    case Start =>
      if Truthy(value) then FormatDatetime(ToStr(value), LongFormat, wp) else ""
    case End =>
      var start := wp.meta(postId, "ibt_event_start");
      if Truthy(value) then FormatEnd(ToStr(start), ToStr(value), LongFormat, wp) else ""
    case Venue =>
      var venueId := ToInt(wp.meta(postId, VenueIdKey));
      if venueId == 0 then ""
      else VenueLabel(wp.title(venueId), wp.meta(venueId, "ibt_venue_island"))
    case VenueName =>
      var venueId := ToInt(wp.meta(postId, VenueIdKey));
      if venueId == 0 then ""
      else
        var venueName := wp.title(venueId);
        if TruthyString(venueName) then venueName else ""
    case VenueAddress =>
      var venueId := ToInt(wp.meta(postId, VenueIdKey));
      if venueId == 0 then ""
      else
        var address := wp.meta(venueId, "ibt_venue_address");
        if !Truthy(address) then "" else "<p>" + wp.nl2br(wp.escHtml(ToStr(address))) + "</p>"
    case Remote =>
      RemoteFlag(wp.meta(postId, RemoteKey))
    case PricePublic =>
      PriceText(wp.meta(postId, key), wp)
    case PriceMember =>
      PriceText(wp.meta(postId, key), wp)
    case Presenter =>
      var presenter := wp.meta(postId, "ibt_event_presenter");
      if Truthy(presenter) then wp.escHtml(ToStr(presenter)) else ""
    case Online =>
      if IsOnlineFlag(wp.meta(postId, RemoteKey)) then OnlineHtml else ""
    case Excerpt =>
      var excerpt := wp.excerpt(postId);
      if !TruthyString(excerpt) then "" else wp.escHtml(wp.trimWords(excerpt))
    case MapButton =>
      var venueId := wp.meta(postId, VenueIdKey);
      if !Truthy(venueId) then ""
      else
        var location := wp.meta(ToInt(venueId), "ibt_venue_maplocation");
        if !Truthy(location) then ""
        else MapButtonHtml(wp.escUrl(MapUrl(location, wp)))
    case PricePublicDup =>
      PriceText(value, wp)
    case PriceMemberDup =>
      PriceText(value, wp)
    case Other =>
      wp.escHtml(ToStr(value))
  }

  /** The repeated public-price label is dead: the `switch` takes the first one. */
  lemma PublicDuplicateUnreachable(key: string)
    ensures FirstCase(Labels, key) != PricePublicDup
  {
    LaterDuplicateUnreachable(Labels, key, 6, 12);
  }

  /** The repeated member-price label is dead: the `switch` takes the first one. */
  lemma MemberDuplicateUnreachable(key: string)
    ensures FirstCase(Labels, key) != PriceMemberDup
  {
    LaterDuplicateUnreachable(Labels, key, 7, 13);
  }

  /** A price key with an empty stored value shows nothing; any other value shows `£` and the formatted amount. */
  lemma PriceField(wp: Wp, postId: int, key: string)
    requires key == PricePublicKey || key == PriceMemberKey
    ensures GetField(wp, postId, key) == "" <==> wp.meta(postId, key) == PStr("")
    ensures wp.meta(postId, key) != PStr("") ==> GetField(wp, postId, key) == "£" + wp.money(wp.meta(postId, key))
  {
    var i := if key == PricePublicKey then 6 else 7;
    assert Labels[i].0 == key;
    assert forall j :: 0 <= j < i ==> Labels[j].0 != key;
    FirstCaseAt(Labels, key, i);
  }

  /** The three venue fields are empty when the venue id casts to 0. */
  lemma VenueFieldsNeedVenue(wp: Wp, postId: int, key: string)
    requires key == "ibt_event_venue" || key == "ibt_event_venue_name" || key == "ibt_event_venue_address"
    requires ToInt(wp.meta(postId, VenueIdKey)) == 0
    ensures GetField(wp, postId, key) == ""
  {
    var i := if key == "ibt_event_venue" then 2 else if key == "ibt_event_venue_name" then 3 else 4;
    assert Labels[i].0 == key;
    assert forall j :: 0 <= j < i ==> Labels[j].0 != key;
    FirstCaseAt(Labels, key, i);
  }

  /** With a venue, the venue field is the label of the venue's title and island. */
  lemma VenueField(wp: Wp, postId: int)
    requires ToInt(wp.meta(postId, VenueIdKey)) != 0
    ensures var venueId := ToInt(wp.meta(postId, VenueIdKey));
            GetField(wp, postId, "ibt_event_venue") == VenueLabel(wp.title(venueId), wp.meta(venueId, "ibt_venue_island"))
  {
    assert forall j :: 0 <= j < 2 ==> Labels[j].0 != "ibt_event_venue";
    FirstCaseAt(Labels, "ibt_event_venue", 2);
  }

  /** With a venue, the venue name field is the venue's title, or nothing when it has none. */
  lemma VenueNameField(wp: Wp, postId: int)
    requires ToInt(wp.meta(postId, VenueIdKey)) != 0
    ensures var title := wp.title(ToInt(wp.meta(postId, VenueIdKey)));
            GetField(wp, postId, "ibt_event_venue_name") == (if TruthyString(title) then wp.title(ToInt(wp.meta(postId, VenueIdKey))) else "")
  {
    assert forall j :: 0 <= j < 3 ==> Labels[j].0 != "ibt_event_venue_name";
    FirstCaseAt(Labels, "ibt_event_venue_name", 3);
  }

  /** The remote field is `'1'` exactly when the stored flag casts to a non-zero integer, else `''`. */
  lemma RemoteField(wp: Wp, postId: int)
    ensures GetField(wp, postId, RemoteKey) == "1" || GetField(wp, postId, RemoteKey) == ""
    ensures GetField(wp, postId, RemoteKey) == "1" <==> ToInt(wp.meta(postId, RemoteKey)) != 0
  {
    assert forall j :: 0 <= j < 5 ==> Labels[j].0 != RemoteKey;
    FirstCaseAt(Labels, RemoteKey, 5);
  }

  /** The online field is the fixed text exactly for a stored `'1'`, `1` or `true`, else `''`. */
  lemma OnlineField(wp: Wp, postId: int)
    ensures GetField(wp, postId, "ibt_event_online") == OnlineHtml || GetField(wp, postId, "ibt_event_online") == ""
    ensures GetField(wp, postId, "ibt_event_online") == OnlineHtml <==> IsOnlineFlag(wp.meta(postId, RemoteKey))
  {
    assert forall j :: 0 <= j < 9 ==> Labels[j].0 != "ibt_event_online";
    FirstCaseAt(Labels, "ibt_event_online", 9);
  }

  /** The map button is empty without a venue or a stored location, and otherwise links to the Maps search. */
  lemma MapButtonField(wp: Wp, postId: int)
    ensures var venueId := wp.meta(postId, VenueIdKey);
            var location := wp.meta(ToInt(venueId), "ibt_venue_maplocation");
            (!Truthy(venueId) || !Truthy(location) ==> GetField(wp, postId, "ibt_event_map_button") == "")
            && (Truthy(venueId) && Truthy(location) ==>
                  GetField(wp, postId, "ibt_event_map_button") == MapButtonHtml(wp.escUrl(MapUrl(location, wp))))
  {
    assert forall j :: 0 <= j < 11 ==> Labels[j].0 != "ibt_event_map_button";
    FirstCaseAt(Labels, "ibt_event_map_button", 11);
  }

  /** Any other key shows its stored value, escaped. */
  lemma DefaultField(wp: Wp, postId: int, key: string)
    requires !IsLabel(key)
    ensures GetField(wp, postId, key) == wp.escHtml(ToStr(wp.meta(postId, key)))
  {
    FirstCaseNoMatch(Labels, key);
  }

  /** The start field is the start in the long format; nothing when the stored start is empty. */
  lemma StartField(wp: Wp, postId: int)
    ensures var v := wp.meta(postId, "ibt_event_start");
            var r := GetField(wp, postId, "ibt_event_start");
            (!Truthy(v) ==> r == "")
            && (Truthy(v) && Parsed(wp.siteTimestamp(ToStr(v))) ==>
                  r == wp.dateI18n(LongFormat, wp.siteTimestamp(ToStr(v)).value))
  {
    FirstCaseAt(Labels, "ibt_event_start", 0);
  }

  /**
   * The end field is empty for an empty end; when start and end both parse,
   * it is the end's time alone on the start's day and the long format otherwise.
   */
  lemma EndField(wp: Wp, postId: int)
    ensures var e := wp.meta(postId, "ibt_event_end");
            var s := wp.strtotime(ToStr(wp.meta(postId, "ibt_event_start")));
            var t := wp.strtotime(ToStr(e));
            var r := GetField(wp, postId, "ibt_event_end");
            (!Truthy(e) ==> r == "")
            && (Truthy(e) && Parsed(s) && Parsed(t) ==>
                  r == if SameDay(s.value, t.value, wp) then wp.dateI18n(TimeOnlyFormat, t.value)
                       else wp.dateI18n(LongFormat, t.value))
  {
    assert Labels[0].0 != "ibt_event_end";
    FirstCaseAt(Labels, "ibt_event_end", 1);
  }

  /** With a venue, the address is empty when unset and otherwise one escaped paragraph with line breaks. */
  lemma AddressField(wp: Wp, postId: int)
    requires ToInt(wp.meta(postId, VenueIdKey)) != 0
    ensures var address := wp.meta(ToInt(wp.meta(postId, VenueIdKey)), "ibt_venue_address");
            var r := GetField(wp, postId, "ibt_event_venue_address");
            (!Truthy(address) ==> r == "")
            && (Truthy(address) ==> r == "<p>" + wp.nl2br(wp.escHtml(ToStr(address))) + "</p>")
  {
    assert forall j :: 0 <= j < 4 ==> Labels[j].0 != "ibt_event_venue_address";
    FirstCaseAt(Labels, "ibt_event_venue_address", 4);
  }

  /** The presenter field is the escaped presenter, or nothing when none is stored. */
  lemma PresenterField(wp: Wp, postId: int)
    ensures var p := wp.meta(postId, "ibt_event_presenter");
            var r := GetField(wp, postId, "ibt_event_presenter");
            (!Truthy(p) ==> r == "") && (Truthy(p) ==> r == wp.escHtml(ToStr(p)))
  {
    assert forall j :: 0 <= j < 8 ==> Labels[j].0 != "ibt_event_presenter";
    FirstCaseAt(Labels, "ibt_event_presenter", 8);
  }

  /** The excerpt field is the escaped, word-trimmed excerpt, or nothing for an empty excerpt. */
  lemma ExcerptField(wp: Wp, postId: int)
    ensures var x := wp.excerpt(postId);
            var r := GetField(wp, postId, "ibt_event_excerpt");
            (!TruthyString(x) ==> r == "") && (TruthyString(x) ==> r == wp.escHtml(wp.trimWords(x)))
  {
    assert forall j :: 0 <= j < 10 ==> Labels[j].0 != "ibt_event_excerpt";
    FirstCaseAt(Labels, "ibt_event_excerpt", 10);
  }
}
