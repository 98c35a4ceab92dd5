/**
 * The `/filter-restaurants` handler of `app.py`: reject a request without a
 * dining time or a map selection, parse the times with `%H:%M`, and keep every
 * restaurant open at the dining time, inclusive at both ends. Flask's request
 * and response plumbing is reduced to the two values read from the JSON body
 * and a `Response` value.
 */
module OpeningHours {
  import opened Wrappers
  import opened Selection

  /** A JSON value as `request.json` delivers it; a missing key reads as `JNull`, like `None`. */
  datatype Json =
    | JNull
    | JBool(b: bool)
    | JNumber(n: real)
    | JString(s: string)
    | JArray(items: seq<Json>)
    | JObject(fields: seq<(string, Json)>)

  /** Python truthiness of the decoded value: `None`, `False`, zero and empty containers are false. */
  predicate Truthy(v: Json)
  {
    match v
    case JNull => false
    case JBool(b) => b
    case JNumber(n) => n != 0.0
    case JString(s) => s != ""
    case JArray(items) => items != []
    case JObject(fields) => fields != []
  }

  /** A `datetime.time` produced by `%H:%M` (seconds and microseconds are zero). */
  datatype Clock = Clock(hour: nat, minute: nat)

  predicate ValidClock(c: Clock)
  {
    c.hour < 24 && c.minute < 60
  }

  function Minutes(c: Clock): nat
  {
    c.hour * 60 + c.minute
  }

  /** `a <= b` on `datetime.time`: lexicographic on (hour, minute). */
  predicate NotAfter(a: Clock, b: Clock)
  {
    a.hour < b.hour || (a.hour == b.hour && a.minute <= b.minute)
  }

  predicate IsDigit(ch: char)
  {
    '0' <= ch <= '9'
  }

  /** One or two decimal digits, the widths `%H` and `%M` accept. */
  predicate DigitField(s: string)
  {
    && 1 <= |s| <= 2
    && IsDigit(s[0])
    && (|s| == 2 ==> IsDigit(s[1]))
  }

  /** The value of one or two decimal digits. */
  function DigitsValue(s: string): nat
    requires DigitField(s)
  {
    if |s| == 1 then (s[0] - '0') as nat
    else 10 * (s[0] - '0') as nat + (s[1] - '0') as nat
  }

  /**
   * `datetime.strptime(s, "%H:%M").time()` on ASCII input: an hour of one or
   * two digits up to 23, a colon, a minute of one or two digits up to 59, and
   * nothing after it. Since each field has one or two digits, the colon is at
   * index 1 or 2. Anything else raises `ValueError`, modelled as `None`.
   */
  function ParseClock(s: string): (r: Option<Clock>)
    ensures r.Some? ==> ValidClock(r.value)
  {
    if 3 <= |s| <= 5 && s[1] == ':' then ParseFields(s[..1], s[2..])
    else if 4 <= |s| <= 5 && s[2] == ':' then ParseFields(s[..2], s[3..])
    else None
  }

  /** The hour and minute fields on either side of the colon. */
  function ParseFields(hh: string, mm: string): (r: Option<Clock>)
    ensures r.Some? ==> ValidClock(r.value)
  {
    if DigitField(hh) && DigitField(mm)
       && DigitsValue(hh) < 24 && DigitsValue(mm) < 60
    then Some(Clock(DigitsValue(hh), DigitsValue(mm)))
    else None
  }

  /** Two-digit zero-padded `HH:MM`, the form the restaurant table uses. */
  function FormatClock(c: Clock): (s: string)
    requires ValidClock(c)
  {
    [(c.hour / 10) as char + '0', (c.hour % 10) as char + '0', ':',
     (c.minute / 10) as char + '0', (c.minute % 10) as char + '0']
  }

  /** Formatting a valid time and parsing it back gives the same time. */
  lemma ParseFormatRoundTrip(c: Clock)
    requires ValidClock(c)
    ensures ParseClock(FormatClock(c)) == Some(c)
  {
    var s := FormatClock(c);
    assert s[1] != ':' && s[2] == ':';
    assert s[..2] == [s[0], s[1]];
    assert s[3..] == [s[3], s[4]];
  }

  /** `%H` and `%M` also take single digits; an hour past 23 or a trailing character is refused. */
  lemma ParseClockEdges()
    ensures ParseClock("9:5") == Some(Clock(9, 5))
    ensures ParseClock("24:00") == None
    ensures ParseClock("12:000") == None
    ensures ParseClock("1200") == None
  {
    assert "9:5"[..1] == "9" && "9:5"[2..] == "5";
    assert "24:00"[..2] == "24";
  }

  /** Comparing parsed times as `datetime.time` values is comparing minutes since midnight. */
  lemma NotAfterIsMinuteOrder(a: Clock, b: Clock)
    requires ValidClock(a) && ValidClock(b)
    ensures NotAfter(a, b) <==> Minutes(a) <= Minutes(b)
  {
    if a.hour < b.hour {
      assert a.hour * 60 + 60 <= b.hour * 60;
    } else if a.hour > b.hour {
      assert b.hour * 60 + 60 <= a.hour * 60;
    }
  }

  /** An entry of `RESTAURANTS`. */
  datatype Restaurant = Restaurant(name: string, cuisine: string, openTime: string, closeTime: string)

  const RESTAURANTS: seq<Restaurant> := [
    Restaurant("Olle - KBBQ", "Korean", "17:00", "23:00"),
    Restaurant("Bab n Sul - KBBQ", "Korean", "16:00", "22:00"),
    Restaurant("Haidilao - Hot Pot", "Chinese", "12:00", "23:00")
  ]

  /** Both of the restaurant's times parse. */
  predicate HoursParse(r: Restaurant)
  {
    ParseClock(r.openTime).Some? && ParseClock(r.closeTime).Some?
  }

  /** `open_time <= dining_time <= close_time`. */
  predicate OpenAt(r: Restaurant, dining: Clock)
  {
    match (ParseClock(r.openTime), ParseClock(r.closeTime))
    case (Some(open), Some(close)) => NotAfter(open, dining) && NotAfter(dining, close)
    case _ => false
  }

  /** The criterion of the loop, as a value that `Select` can take. */
  function OpenFilter(dining: Clock): Restaurant -> bool
  {
    r => OpenAt(r, dining)
  }

  /** What the handler answers. */
  datatype Response =
    | BadRequest(error: string)            // `{"error": "Invalid input"}`, status 400
    | Restaurants(restaurants: seq<Restaurant>)  // `{"restaurants": [...]}`, status 200
    | Unhandled                            // `strptime` raised; Flask answers status 500

  function Status(r: Response): nat
  {
    match r
    case BadRequest(_) => 400
    case Restaurants(_) => 200
    case Unhandled => 500
  }

  /**
   * What the loop of `filter_restaurants` produces over `table`: `None` as
   * soon as an opening or closing time fails to parse, otherwise the open
   * entries in table order.
   */
  function OpenEntries(table: seq<Restaurant>, dining: Clock): (r: Option<seq<Restaurant>>)
    ensures r.Some? ==> |r.value| <= |table|
  {
    if table == [] then Some([])
    else
      var last := table[|table| - 1];
      match OpenEntries(table[..|table| - 1], dining)
      case None => None
      case Some(acc) =>
        if !HoursParse(last) then None
        else Some(acc + (if OpenAt(last, dining) then [last] else []))
  }

  /** The handler's answer for a table and the two request values. */
  function Handle(table: seq<Restaurant>, diningTime: Json, mapSelection: Json): (r: Response)
    ensures r.BadRequest? ==> r.error == "Invalid input"
    ensures r.Restaurants? ==> |r.restaurants| <= |table|
  {
    if !Truthy(diningTime) || !Truthy(mapSelection) then BadRequest("Invalid input")
    else if !diningTime.JString? then Unhandled
    else match ParseClock(diningTime.s)
      case None => Unhandled
      case Some(dining) =>
        match OpenEntries(table, dining)
        case None => Unhandled
        case Some(available) => Restaurants(available)
  }

  /** The Flask application: its module-level table, which no request changes. */
  class App {
    var restaurants: seq<Restaurant>

    constructor ()
      ensures restaurants == RESTAURANTS
    {
      restaurants := RESTAURANTS;
    }

    /** `filter_restaurants`: an early rejection, then a loop appending each restaurant open at the dining time. */
    method FilterRestaurants(diningTime: Json, mapSelection: Json) returns (response: Response)
      ensures response == Handle(restaurants, diningTime, mapSelection)
    {
      if !Truthy(diningTime) || !Truthy(mapSelection) {
        return BadRequest("Invalid input");
      }
      if !diningTime.JString? {
        return Unhandled;
      }
      var parsed := ParseClock(diningTime.s);
      if parsed.None? {
        return Unhandled;
      }
      var dining := parsed.value;

      var available: seq<Restaurant> := [];
      for i := 0 to |restaurants|
        invariant OpenEntries(restaurants[..i], dining) == Some(available)
      {
        var restaurant := restaurants[i];
        OpenEntriesStep(restaurants, i, dining);
        var open := ParseClock(restaurant.openTime);
        if open.None? {
          FailurePersists(restaurants, i + 1, dining);
          return Unhandled;
        }
        var close := ParseClock(restaurant.closeTime);
        if close.None? {
          FailurePersists(restaurants, i + 1, dining);
          return Unhandled;
        }
        assert HoursParse(restaurant);
        if NotAfter(open.value, dining) && NotAfter(dining, close.value) {
          available := available + [restaurant];
        } else {
          assert available + [] == available;
        }
      }
      assert restaurants[..|restaurants|] == restaurants;
      return Restaurants(available);
    }
  }

  /** The loop's outcome over one more entry. */
  lemma OpenEntriesStep(table: seq<Restaurant>, i: nat, dining: Clock)
    requires i < |table|
    ensures OpenEntries(table[..i + 1], dining)
            == match OpenEntries(table[..i], dining)
               case None => None
               case Some(acc) =>
                 if !HoursParse(table[i]) then None
                 else Some(acc + (if OpenAt(table[i], dining) then [table[i]] else []))
  {
    assert table[..i + 1][..i] == table[..i];
  }

  /** Once an entry fails to parse, the loop fails on every longer table: the request cannot succeed. */
  lemma {:induction false} FailurePersists(table: seq<Restaurant>, n: nat, dining: Clock)
    requires n <= |table| && OpenEntries(table[..n], dining) == None
    ensures OpenEntries(table, dining) == None
    decreases |table| - n
  {
    if n < |table| {
      assert table[..n + 1][..n] == table[..n];
      FailurePersists(table, n + 1, dining);
    } else {
      assert table[..n] == table;
    }
  }

  /**
   * The loop succeeds exactly when every opening and closing time parses, and
   * then it keeps the entries open at the dining time, in table order.
   */
  lemma {:induction false} OpenEntriesIsSelect(table: seq<Restaurant>, dining: Clock)
    ensures OpenEntries(table, dining).Some? <==> forall i :: 0 <= i < |table| ==> HoursParse(table[i])
    ensures OpenEntries(table, dining).Some? ==> OpenEntries(table, dining).value == Select(table, OpenFilter(dining))
  {
    if table != [] {
      var prefix, last := table[..|table| - 1], table[|table| - 1];
      OpenEntriesIsSelect(prefix, dining);
      assert table == prefix + [last];
      SelectSnoc(prefix, last, OpenFilter(dining));
      if OpenEntries(table, dining).Some? {
        assert forall i :: 0 <= i < |table| - 1 ==> table[i] == prefix[i];
      } else if OpenEntries(prefix, dining).Some? {
        assert !HoursParse(table[|table| - 1]);
      } else {
        var j :| 0 <= j < |prefix| && !HoursParse(prefix[j]);
        assert table[j] == prefix[j];
      }
    }
  }

  /** The restaurant's hours parse and the dining minute lies between them, ends included. */
  predicate OpenInMinutes(r: Restaurant, dining: Clock)
  {
    match (ParseClock(r.openTime), ParseClock(r.closeTime))
    case (Some(open), Some(close)) => Minutes(open) <= Minutes(dining) <= Minutes(close)
    case _ => false
  }

  /** The handler answers 400 with "Invalid input" exactly when the dining time or the map selection is missing or falsy. */
  lemma RejectedExactlyWhenInputMissing(table: seq<Restaurant>, diningTime: Json, mapSelection: Json)
    ensures Handle(table, diningTime, mapSelection).BadRequest?
        <==> !Truthy(diningTime) || !Truthy(mapSelection)
    ensures Handle(table, diningTime, mapSelection).BadRequest? ==>
              Handle(table, diningTime, mapSelection) == BadRequest("Invalid input")
              && Status(Handle(table, diningTime, mapSelection)) == 400
  {
  }

  /**
   * A successful answer lists, in table order, exactly the restaurants whose
   * opening minute is at most, and whose closing minute is at least, the
   * dining minute.
   */
  lemma {:induction false} IncludedExactlyWhenOpen(table: seq<Restaurant>, diningTime: Json, mapSelection: Json, kept: seq<Restaurant>)
    requires Handle(table, diningTime, mapSelection) == Restaurants(kept)
    ensures diningTime.JString? && ParseClock(diningTime.s).Some?
    ensures IsSubsequence(kept, table)
    ensures forall i :: 0 <= i < |table| ==>
              (table[i] in kept <==> OpenInMinutes(table[i], ParseClock(diningTime.s).value))
    ensures forall x :: multiset(kept)[x] ==
              if OpenInMinutes(x, ParseClock(diningTime.s).value) then multiset(table)[x] else 0
  {
    var dining := ParseClock(diningTime.s).value;
    OpenEntriesIsSelect(table, dining);
    SelectIsSubsequence(table, OpenFilter(dining));
    SelectMembers(table, OpenFilter(dining));
    SelectCount(table, OpenFilter(dining));
    forall x: Restaurant
      ensures OpenAt(x, dining) <==> OpenInMinutes(x, dining)
    {
      OpenIsMinuteWindow(x, dining);
    }
  }

  /** Being open at a valid dining time is lying in the restaurant's minute window. */
  lemma OpenIsMinuteWindow(r: Restaurant, dining: Clock)
    requires ValidClock(dining)
    ensures OpenAt(r, dining) <==> OpenInMinutes(r, dining)
  {
    var open, close := ParseClock(r.openTime), ParseClock(r.closeTime);
    if open.Some? && close.Some? {
      NotAfterIsMinuteOrder(open.value, dining);
      NotAfterIsMinuteOrder(dining, close.value);
    }
  }

  /**
   * A request with both inputs present fails with status 500 exactly when the
   * dining time is not a string that parses, or some opening or closing time
   * of the table does not parse.
   */
  lemma HandleOutcome(table: seq<Restaurant>, diningTime: Json, mapSelection: Json)
    ensures Handle(table, diningTime, mapSelection).Unhandled?
        <==> && Truthy(diningTime) && Truthy(mapSelection)
             && (|| !diningTime.JString?
                 || ParseClock(diningTime.s).None?
                 || exists i :: 0 <= i < |table| && !HoursParse(table[i]))
  {
    if diningTime.JString? && ParseClock(diningTime.s).Some? {
      OpenEntriesIsSelect(table, ParseClock(diningTime.s).value);
    }
  }

  /** There is no wrap past midnight: a restaurant closing before it opens is never included. */
  lemma ClosingBeforeOpeningNeverIncluded(r: Restaurant, dining: Clock)
    requires ValidClock(dining)
    requires HoursParse(r)
    requires Minutes(ParseClock(r.closeTime).value) < Minutes(ParseClock(r.openTime).value)
    ensures !OpenAt(r, dining)
  {
    NotAfterIsMinuteOrder(ParseClock(r.openTime).value, dining);
    NotAfterIsMinuteOrder(dining, ParseClock(r.closeTime).value);
  }

  /** The map selection is only checked for presence: any two truthy selections give the same answer. */
  lemma MapSelectionOnlyChecked(table: seq<Restaurant>, diningTime: Json, selection: Json, other: Json)
    requires Truthy(selection) && Truthy(other)
    ensures Handle(table, diningTime, selection) == Handle(table, diningTime, other)
  {
  }

  /** A zero-padded whole hour `HH:00` parses to that hour. */
  lemma WholeHourParses(s: string, hour: nat)
    requires hour < 24 && |s| == 5 && s[2] == ':' && s[3] == '0' && s[4] == '0'
    requires s[0] == (hour / 10) as char + '0' && s[1] == (hour % 10) as char + '0'
    ensures ParseClock(s) == Some(Clock(hour, 0))
  {
    ParseFormatRoundTrip(Clock(hour, 0));
    assert s == FormatClock(Clock(hour, 0));
  }

  /** The times of `RESTAURANTS` parse to whole hours. */
  lemma TableHours()
    ensures ParseClock("23:00") == Some(Clock(23, 0))
    ensures ParseClock("22:00") == Some(Clock(22, 0))
    ensures ParseClock("17:00") == Some(Clock(17, 0))
    ensures ParseClock("16:00") == Some(Clock(16, 0))
    ensures ParseClock("12:00") == Some(Clock(12, 0))
  {
    WholeHourParses("23:00", 23);
    WholeHourParses("22:00", 22);
    WholeHourParses("17:00", 17);
    WholeHourParses("16:00", 16);
    WholeHourParses("12:00", 12);
  }

  /** At 23:00 the two restaurants closing at 23:00 are still open; the one closing at 22:00 is not. */
  lemma OpenAtElevenPm()
    ensures Select(RESTAURANTS, OpenFilter(Clock(23, 0))) == [RESTAURANTS[0], RESTAURANTS[2]]
  {
    TableHours();
    var keep := OpenFilter(Clock(23, 0));
    assert keep(RESTAURANTS[0]) && !keep(RESTAURANTS[1]) && keep(RESTAURANTS[2]);
    SelectSnoc(RESTAURANTS[..2], RESTAURANTS[2], keep);
    SelectSnoc(RESTAURANTS[..1], RESTAURANTS[1], keep);
    SelectSingleton(RESTAURANTS[0], keep);
    assert RESTAURANTS[..1] == [RESTAURANTS[0]];
    assert RESTAURANTS[..2] == RESTAURANTS[..1] + [RESTAURANTS[1]];
    assert RESTAURANTS == RESTAURANTS[..2] + [RESTAURANTS[2]];
  }

  /** With `RESTAURANTS`, every request with a map selection and a dining time that parses gets a list. */
  lemma ParsedTimeGetsList(s: string, mapSelection: Json)
    requires Truthy(mapSelection) && ParseClock(s).Some?
    ensures Handle(RESTAURANTS, JString(s), mapSelection).Restaurants?
  {
    TableParses();
    HandleOutcome(RESTAURANTS, JString(s), mapSelection);
  }

  /** Every opening and closing time of `RESTAURANTS` parses. */
  lemma TableParses()
    ensures forall i :: 0 <= i < |RESTAURANTS| ==> HoursParse(RESTAURANTS[i])
  {
    TableHours();
  }

  /** A request for 23:00 answers with the two restaurants that close at 23:00, in table order: the closing minute is included. */
  lemma ClosingMinuteIncluded(mapSelection: Json)
    requires Truthy(mapSelection)
    ensures Handle(RESTAURANTS, JString("23:00"), mapSelection) == Restaurants([RESTAURANTS[0], RESTAURANTS[2]])
  {
    OpenAtElevenPm();
    TableParses();
    OpenEntriesIsSelect(RESTAURANTS, Clock(23, 0));
  }
}
