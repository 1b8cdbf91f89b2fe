/**
 * The event field helpers that the two helper files
 * (plugins/ibt_customisation/includes/events/ibt-events-helpers.php and
 * ibt-customisation-events-helpers.php) write out identically or with only
 * a format string changed: combining a date and a time, sanitising a price,
 * formatting a start and an end, the venue label, the remote and online
 * flags, the map URL, and the first-match dispatch of a `switch` on the
 * field key.
 *
 * Date parsing and formatting are the `Wp` routines: `strtotime` yields
 * `None` for `false`, and PHP's `$ts ? ... : ''` treats a timestamp of 0
 * as a failure too.
 */
module EventFields {

  import opened Wrappers
  import opened Php

  // ---------------------------------------------------------------------
  // The field keys
  // ---------------------------------------------------------------------

  /** The branches of `ibt_events_get_field`'s `switch`. */
  datatype Field =
    | Start | End | Venue | VenueName | VenueAddress | Remote | PricePublic | PriceMember
    | Presenter | Online | Excerpt | MapButton | PricePublicDup | PriceMemberDup | Other

  /**
   * A `switch` on a string key: the first `case` label equal to the key, else
   * `default`. Its properties are the lemmas below rather than postconditions,
   * so that a call on a literal table does not bring quantifiers over the whole
   * table into every proof that mentions it.
   */
  function FirstCase(labels: seq<(string, Field)>, key: string): Field
    decreases |labels|
  {
    if |labels| == 0 then Other
    else if labels[0].0 == key then labels[0].1
    else FirstCase(labels[1..], key)
  }

  /** The `switch` takes the body of label `i` when no earlier label equals the key. */
  lemma {:induction false} FirstCaseAt(labels: seq<(string, Field)>, key: string, i: nat)
    requires i < |labels| && labels[i].0 == key
    requires forall j :: 0 <= j < i ==> labels[j].0 != key
    ensures FirstCase(labels, key) == labels[i].1
    decreases i
  {
    if i > 0 {
      assert labels[0].0 != key;
      assert forall j :: 0 <= j < i - 1 ==> labels[1..][j] == labels[j + 1];
      FirstCaseAt(labels[1..], key, i - 1);
    }
  }

  /** A key that no label equals falls to `default`. */
  lemma {:induction false} FirstCaseNoMatch(labels: seq<(string, Field)>, key: string)
    requires forall i :: 0 <= i < |labels| ==> labels[i].0 != key
    ensures FirstCase(labels, key) == Other
    decreases |labels|
  {
    if |labels| > 0 {
      assert forall i :: 0 <= i < |labels| - 1 ==> labels[1..][i] == labels[i + 1];
      FirstCaseNoMatch(labels[1..], key);
    }
  }

  /** The body taken is `default` or the body of a label equal to the key. */
  lemma {:induction false} FirstCaseChoosesLabel(labels: seq<(string, Field)>, key: string)
    ensures FirstCase(labels, key) == Other
            || exists i :: 0 <= i < |labels| && labels[i] == (key, FirstCase(labels, key))
    decreases |labels|
  {
    if |labels| > 0 && labels[0].0 != key {
      FirstCaseChoosesLabel(labels[1..], key);
      if FirstCase(labels, key) != Other {
        var i :| 0 <= i < |labels[1..]| && labels[1..][i] == (key, FirstCase(labels[1..], key));
        assert labels[i + 1] == labels[1..][i];
      }
    }
  }

  /** When no label carries the default, the `switch` falls to `default` exactly for a key no label equals. */
  lemma {:induction false} FirstCaseDefault(labels: seq<(string, Field)>, key: string)
    requires forall i :: 0 <= i < |labels| ==> labels[i].1 != Other
    ensures FirstCase(labels, key) == Other <==> forall i :: 0 <= i < |labels| ==> labels[i].0 != key
  {
    if forall i :: 0 <= i < |labels| ==> labels[i].0 != key {
      FirstCaseNoMatch(labels, key);
    } else {
      FirstCaseChoosesLabel(labels, key);
      if FirstCase(labels, key) == Other {
        var i :| 0 <= i < |labels| && labels[i].0 == key;
        FirstCaseReturnsFirst(labels, key, i);
      }
    }
  }

  lemma {:induction false} FirstCaseReturnsFirst(labels: seq<(string, Field)>, key: string, i: nat)
    requires i < |labels| && labels[i].0 == key
    ensures exists m :: 0 <= m <= i && labels[m].0 == key && FirstCase(labels, key) == labels[m].1
    decreases |labels|
  {
    if labels[0].0 != key {
      FirstCaseReturnsFirst(labels[1..], key, i - 1);
      var m :| 0 <= m <= i - 1 && labels[1..][m].0 == key && FirstCase(labels[1..], key) == labels[1..][m].1;
      assert labels[m + 1] == labels[1..][m];
    }
  }

  /**
   * A label that appears again later is never reached the second time: the
   * key selects the branch of its first appearance.
   */
  lemma LaterDuplicateUnreachable(labels: seq<(string, Field)>, key: string, i: nat, j: nat)
    requires i < j < |labels| && labels[i].0 == labels[j].0 && labels[j].1 != Other
    requires forall k :: 0 <= k < |labels| && k != j ==> labels[k].1 != labels[j].1
    ensures FirstCase(labels, key) != labels[j].1
  {
    var r := FirstCase(labels, key);
    if r == labels[j].1 {
      FirstCaseChoosesLabel(labels, key);
      var k :| 0 <= k < |labels| && labels[k] == (key, r);
      assert k == j;
      FirstCaseReturnsFirst(labels, key, i);
      assert false;
    }
  }

  // ---------------------------------------------------------------------
  // Dates
  // ---------------------------------------------------------------------

  const MysqlFormat := "Y-m-d H:i:s"
  const DayKeyFormat := "Ymd"
  const TimeOnlyFormat := "g:ia"
  const DefaultTime := "00:00"

  /** PHP's truthiness of a `strtotime` result: parsed, and not the epoch. */
  predicate Parsed(ts: Option<int>) { ts.Some? && ts.value != 0 }

  /** `ibt_events_combine_datetime`: `Y-m-d H:i:s` of `"$date $time"`, with `00:00` for a falsy time. */
  function CombineDatetime(date: string, time: string, wp: Wp): (r: string)
    ensures !TruthyString(date) ==> r == ""
    ensures !Parsed(wp.strtotime(date + " " + (if TruthyString(time) then time else DefaultTime))) ==> r == ""
    ensures TruthyString(date) && Parsed(wp.strtotime(date + " " + (if TruthyString(time) then time else DefaultTime))) ==>
              r == wp.date(MysqlFormat, wp.strtotime(date + " " + (if TruthyString(time) then time else DefaultTime)).value)
  {
    if !TruthyString(date) then ""
    else
      var t := if TruthyString(time) then time else DefaultTime;
      var ts := wp.strtotime(date + " " + t);
      if Parsed(ts) then wp.date(MysqlFormat, ts.value) else ""
  }

  /**
   * A missing time means midnight: an empty time, and also `"0"` (falsy in
   * PHP), combine exactly as `00:00` does.
   */
  lemma CombineDefaultsTime(date: string, wp: Wp)
    ensures CombineDatetime(date, "", wp) == CombineDatetime(date, DefaultTime, wp)
    ensures CombineDatetime(date, "0", wp) == CombineDatetime(date, DefaultTime, wp)
  {
    assert TruthyString(DefaultTime);
  }

  /**
   * `ibt_events_format_datetime` with the variant's long format, applied to
   * the site-time timestamp of the stored value. A falsy stored value, or
   * one whose site-time timestamp is false or 0, gives `''`.
   */
  function FormatDatetime(stored: string, longFormat: string, wp: Wp): (r: string)
    ensures !TruthyString(stored) || !Parsed(wp.siteTimestamp(stored)) ==> r == ""
    ensures TruthyString(stored) && Parsed(wp.siteTimestamp(stored)) ==>
              r == wp.dateI18n(longFormat, wp.siteTimestamp(stored).value)
  {
    if !TruthyString(stored) then ""
    else
      var ts := wp.siteTimestamp(stored);
      if !Parsed(ts) then "" else wp.dateI18n(longFormat, ts.value)
  }

  /** Whether two timestamps fall on the same calendar day, by their `Ymd` keys. */
  predicate SameDay(startTs: int, endTs: int, wp: Wp) {
    wp.date(DayKeyFormat, startTs) == wp.date(DayKeyFormat, endTs)
  }

  /** `ibt_events_format_end`: the end time alone on the start's day, else the long format. */
  function FormatEnd(start: string, end: string, longFormat: string, wp: Wp): (r: string)
    ensures !TruthyString(end) ==> r == ""
    ensures !Parsed(wp.strtotime(start)) || !Parsed(wp.strtotime(end)) ==> r == ""
  {
    if !TruthyString(end) then ""
    else
      var startTs := wp.strtotime(start);
      var endTs := wp.strtotime(end);
      if !Parsed(startTs) || !Parsed(endTs) then ""
      else if SameDay(startTs.value, endTs.value, wp) then wp.dateI18n(TimeOnlyFormat, endTs.value)
      else wp.dateI18n(longFormat, endTs.value)
  }

  /**
   * When both ends parse, the end is rendered from its own timestamp, in the
   * time-only format exactly when it falls on the start's day and in the
   * long format exactly when it does not.
   */
  lemma FormatEndChoosesFormat(start: string, end: string, longFormat: string, wp: Wp)
    requires TruthyString(end) && Parsed(wp.strtotime(start)) && Parsed(wp.strtotime(end))
    ensures var e := wp.strtotime(end).value;
            SameDay(wp.strtotime(start).value, e, wp) ==> FormatEnd(start, end, longFormat, wp) == wp.dateI18n(TimeOnlyFormat, e)
    ensures var e := wp.strtotime(end).value;
            !SameDay(wp.strtotime(start).value, e, wp) ==> FormatEnd(start, end, longFormat, wp) == wp.dateI18n(longFormat, e)
  {
  }

  /** The start matters only through its day: two starts on the same day give the same end text. */
  lemma FormatEndDependsOnStartDay(start1: string, start2: string, end: string, longFormat: string, wp: Wp)
    requires Parsed(wp.strtotime(start1)) && Parsed(wp.strtotime(start2))
    requires wp.date(DayKeyFormat, wp.strtotime(start1).value) == wp.date(DayKeyFormat, wp.strtotime(start2).value)
    ensures FormatEnd(start1, end, longFormat, wp) == FormatEnd(start2, end, longFormat, wp)
  {
  }

  /** An event that ends when it starts shows only the time. */
  lemma FormatEndAtStart(when: string, longFormat: string, wp: Wp)
    requires TruthyString(when) && Parsed(wp.strtotime(when))
    ensures FormatEnd(when, when, longFormat, wp) == wp.dateI18n(TimeOnlyFormat, wp.strtotime(when).value)
  {
  }

  // ---------------------------------------------------------------------
  // Prices
  // ---------------------------------------------------------------------

  predicate IsPriceChar(c: char) { IsDigit(c) || c == '.' }

  /** `preg_replace('/[^0-9.]/', '', $s)`. */
  function KeepPriceChars(s: string): (r: string)
    ensures |r| <= |s|
    ensures forall i :: 0 <= i < |r| ==> IsPriceChar(r[i])
    decreases |s|
  {
    if |s| == 0 then ""
    else (if IsPriceChar(s[0]) then [s[0]] else []) + KeepPriceChars(s[1..])
  }

  /** One character is kept exactly when it is a digit or `.`. */
  lemma KeepPriceCharsOne(c: char)
    ensures KeepPriceChars([c]) == if IsPriceChar(c) then [c] else []
  {
    assert [c][1..] == [];
  }

  /** The filter works character by character: it distributes over concatenation. */
  lemma {:induction false} KeepPriceCharsAppend(a: string, b: string)
    ensures KeepPriceChars(a + b) == KeepPriceChars(a) + KeepPriceChars(b)
    decreases |a|
  {
    if |a| == 0 {
      assert a + b == b;
    } else {
      assert (a + b)[0] == a[0];
      assert (a + b)[1..] == a[1..] + b;
      KeepPriceCharsAppend(a[1..], b);
    }
  }

  lemma {:induction false} KeepPriceCharsOfPrice(s: string)
    requires forall i :: 0 <= i < |s| ==> IsPriceChar(s[i])
    ensures KeepPriceChars(s) == s
    decreases |s|
  {
    if |s| > 0 {
      KeepPriceCharsOfPrice(s[1..]);
      assert [s[0]] + s[1..] == s;
    }
  }

  /** `ibt_events_sanitize_price`: digits and `.` only, at most ten of them. */
  function SanitizePrice(v: PhpValue): (r: string)
    ensures forall i :: 0 <= i < |r| ==> IsPriceChar(r[i])
    ensures |r| <= 10
    ensures r <= KeepPriceChars(ToStr(v))
    ensures |KeepPriceChars(ToStr(v))| <= 10 ==> r == KeepPriceChars(ToStr(v))
    ensures |KeepPriceChars(ToStr(v))| > 10 ==> r == KeepPriceChars(ToStr(v))[..10]
  {
    var t := KeepPriceChars(ToStr(v));
    if |t| <= 10 then t else t[..10]
  }

  /** Sanitising a sanitised price changes nothing. */
  lemma SanitizePriceIdempotent(v: PhpValue)
    ensures SanitizePrice(PStr(SanitizePrice(v))) == SanitizePrice(v)
  {
    KeepPriceCharsOfPrice(SanitizePrice(v));
  }

  /** The displayed price: `£` and `number_format((float) $v, 2)`; nothing for a stored empty string. */
  function PriceText(v: PhpValue, wp: Wp): (r: string)
    ensures v == PStr("") <==> r == ""
  {
    if v == PStr("") then "" else "£" + wp.money(v)
  }

  // ---------------------------------------------------------------------
  // Venue, remote and online
  // ---------------------------------------------------------------------

  /** `"name, island"` when both are present, else whichever is, else `''`. */
  function VenueLabel(name: string, island: PhpValue): (r: string)
    ensures r == "" <==> !TruthyString(name) && !Truthy(island)
    ensures TruthyString(name) ==> name <= r
    ensures Truthy(island) && !TruthyString(name) ==> r == ToStr(island)
    ensures TruthyString(name) && !Truthy(island) ==> r == name
    ensures TruthyString(name) && Truthy(island) ==> r == name + ", " + ToStr(island)
  {
    if TruthyString(name) && Truthy(island) then name + ", " + ToStr(island)
    else if TruthyString(name) then name
    else if Truthy(island) then ToStr(island)
    else ""
  }

  /** The remote flag: `'1'` when the meta value casts to a non-zero integer, else `''`. */
  function RemoteFlag(v: PhpValue): (r: string)
    ensures r == "1" || r == ""
    ensures r == "1" <==> ToInt(v) != 0
  {
    if ToInt(v) != 0 then "1" else ""
  }

  /** The online test: truthy, and exactly `'1'`, `1` or `true`. */
  predicate IsOnlineFlag(v: PhpValue) {
    Truthy(v) && (v == PStr("1") || v == PInt(1) || v == PBool(true))
  }

  /**
   * An event shown as online is always flagged remote; the converse fails,
   * as a stored `'2'` is remote but not online, and a stored `'yes'` is
   * neither since `(int) 'yes'` is 0.
   */
  lemma OnlineImpliesRemote(v: PhpValue)
    ensures IsOnlineFlag(v) ==> RemoteFlag(v) == "1"
    ensures RemoteFlag(PStr("2")) == "1" && !IsOnlineFlag(PStr("2"))
    ensures RemoteFlag(PStr("yes")) == "" && !IsOnlineFlag(PStr("yes"))
  {
    if v == PStr("1") {
      assert SkipSpaces("1") == "1";
      assert LeadingDigitsValue("1", 0) == LeadingDigitsValue("", 1);
    }
    assert SkipSpaces("2") == "2";
    assert LeadingDigitsValue("2", 0) == LeadingDigitsValue("", 2);
    assert SkipSpaces("yes") == "yes";
  }

  const MapsSearchPrefix := "https://www.google.com/maps/search/?api=1&query="

  /** The Google Maps search URL of a stored location. */
  function MapUrl(location: PhpValue, wp: Wp): (r: string)
    ensures MapsSearchPrefix <= r
    ensures r[|MapsSearchPrefix|..] == wp.rawUrlEncode(ToStr(location))
  {
    MapsSearchPrefix + wp.rawUrlEncode(ToStr(location))
  }
}
