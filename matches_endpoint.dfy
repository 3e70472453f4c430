/** The `GET /api/matches` handler of server/api/matches.js: the collection
    catalogue, the first collection's records, the home-venue and
    today-or-later filter, the sort, the today-or-next-date policy and the
    success and error envelopes.

    The network is not modelled: the catalogue reply, the collection source
    (a function from a collection name to its records, `None` when the fetch
    failed in any way) and the clock are parameters, and so is the
    Europe/Amsterdam conversion `zone` (see `AmsterdamDate`). */
module MatchesEndpoint {
  import opened Wrappers
  import opened Seqs
  import opened Fixtures
  import opened AmsterdamDate
  import opened MatchSelection

  const HomeVenue := "Amsterdamse Bos (Pinoké)"
  const ServerError := "Server Error"
  const ServerErrorStatus := 500
  /** The message of the `TypeError` raised by `m.data` on a `null` element. */
  const NullDataMessage := "Cannot read properties of null (reading 'data')"

  /** What `fetchCollections` gets back: the decoded names (`""` for a missing
      name), a non-success HTTP status, or an exception with its message. */
  datatype CatalogReply =
    | CatalogOk(names: seq<string>)
    | CatalogNotOk(status: nat, statusText: string)
    | CatalogThrew(message: string)

  /** One element of a collection's decoded array: `null`, or an object whose
      `data` field may be absent. */
  datatype Entry = NullEntry | Item(data: Option<MatchRecord>)

  datatype Response =
    | Listing(matches: seq<Match>, isToday: bool, serverTime: int)
    | ErrorEnvelope(statusCode: int, statusMessage: string, message: string)

  /** The number a run of decimal digits denotes, most significant first. */
  function DigitsValue(s: string): int
  {
    if s == [] then 0 else DigitsValue(s[..|s| - 1]) * 10 + (s[|s| - 1] as int - '0' as int)
  }

  /** The decimal text of an HTTP status, as a template literal prints it:
      digits only, no leading zero, denoting the status. */
  function Decimal(n: nat): (s: string)
    ensures |s| >= 1
    ensures forall i :: 0 <= i < |s| ==> '0' <= s[i] <= '9'
    ensures DigitsValue(s) == n
    ensures s[0] != '0' || n == 0
  {
    var digit := ['0' + (n % 10) as char];
    if n < 10 then
      assert digit[..0] == [];
      digit
    else
      var prefix := Decimal(n / 10);
      assert (prefix + digit)[..|prefix + digit| - 1] == prefix;
      prefix + digit
  }

  /** `.filter(Boolean)` on the catalogue's names: the non-empty ones, in order. */
  function CollectionNames(raw: seq<string>): (names: seq<string>)
    ensures forall n :: n in names <==> n in raw && n != ""
    ensures forall n :: multiset(names)[n] == if n != "" then multiset(raw)[n] else 0
    ensures IsSubsequence(names, raw)
    ensures |names| > 0 ==> exists i :: 0 <= i < |raw| && raw[i] == names[0] &&
                                       forall j :: 0 <= j < i ==> raw[j] == ""
  {
    var named := (n: string) => n != "";
    FilterIsSubsequence(raw, named);
    FilterCounts(raw, named);
    if Filter(raw, named) != [] then FilterFirst(raw, named); Filter(raw, named)
    else Filter(raw, named)
  }

  /** `fetchCollections` (server/api/matches.js:40-54): the names, or the
      message of the error it throws. */
  function FetchCollections(reply: CatalogReply): (r: Result<seq<string>>)
    ensures r.Success? <==> reply.CatalogOk?
    ensures r.Success? ==> "" !in r.value
    ensures reply.CatalogOk? ==> r.value == CollectionNames(reply.names)
    ensures reply.CatalogNotOk? ==>
      r.error == "Collections fetch failed: " + Decimal(reply.status) + " " + reply.statusText
    ensures reply.CatalogThrew? ==> r.error == reply.message
    ensures reply.CatalogNotOk? ==> r.error != ""
  {
    match reply
    case CatalogOk(raw) => Success(CollectionNames(raw))
    case CatalogNotOk(status, text) =>
      Failure("Collections fetch failed: " + Decimal(status) + " " + text)
    case CatalogThrew(message) => Failure(message)
  }

  /** The records of the first collection only; a failed fetch, whether it
      returned early or threw, counts as an empty collection. */
  function FirstCollection(names: seq<string>, source: string -> Option<seq<Entry>>): seq<Entry>
  {
    if |names| == 0 then []
    else match source(names[0])
      case Some(entries) => entries
      case None => []
  }

  /** `.map(m => m.data)`, which throws on a `null` element. */
  function Records(entries: seq<Entry>): (r: Result<seq<Option<MatchRecord>>>)
    ensures r.Failure? <==> NullEntry in entries
    ensures r.Failure? ==> r.error == NullDataMessage
    ensures r.Success? ==>
      |r.value| == |entries| && (forall i :: 0 <= i < |entries| ==> entries[i] == Item(r.value[i]))
  {
    if entries == [] then Success([])
    else match entries[0]
      case NullEntry => Failure(NullDataMessage)
      case Item(data) =>
        match Records(entries[1..])
        case Failure(e) => Failure(e)
        case Success(rest) => Success([data] + rest)
  }

  /** `{ ...match, utcDate }` with the instant of server/api/matches.js:150-151. */
  function Annotate(r: MatchRecord, zone: string -> Option<int>): Match
  {
    Match(r, ParseAmsterdamDate(r.date, r.time, zone))
  }

  /** The test `match?.location?.name === 'Amsterdamse Bos (Pinoké)'`. */
  const AtHome := (x: Option<MatchRecord>) => x.Some? && x.value.venue == HomeVenue

  /** The home-venue filter and the annotation (server/api/matches.js:148-152):
      the home records, each with its instant, in collection order. */
  function HomeMatches(data: seq<Option<MatchRecord>>, zone: string -> Option<int>): (ms: seq<Match>)
    ensures |ms| == |Filter(data, AtHome)|
    ensures forall i :: 0 <= i < |ms| ==>
      Filter(data, AtHome)[i].Some? && ms[i] == Annotate(Filter(data, AtHome)[i].value, zone)
    ensures forall m :: m in ms ==>
      m.record.venue == HomeVenue && m == Annotate(m.record, zone) && Some(m.record) in data
    ensures forall r :: Some(r) in data && r.venue == HomeVenue ==> Annotate(r, zone) in ms
  {
    if data == [] then []
    else
      var rest := HomeMatches(data[1..], zone);
      var ms := if AtHome(data[0]) then [Annotate(data[0].value, zone)] + rest else rest;
      HomeStep(data, zone, rest);
      HomeMembers(data, zone, ms);
      ms
  }

  /** One step of the recursion: the annotated home records of `data[1..]`,
      with `data[0]` annotated in front when it is a home record. */
  lemma HomeStep(data: seq<Option<MatchRecord>>, zone: string -> Option<int>, rest: seq<Match>)
    requires data != []
    requires |rest| == |Filter(data[1..], AtHome)|
    requires forall i :: 0 <= i < |rest| ==>
      Filter(data[1..], AtHome)[i].Some? && rest[i] == Annotate(Filter(data[1..], AtHome)[i].value, zone)
    ensures var ms := if AtHome(data[0]) then [Annotate(data[0].value, zone)] + rest else rest;
      |ms| == |Filter(data, AtHome)| &&
      forall i :: 0 <= i < |ms| ==>
        Filter(data, AtHome)[i].Some? && ms[i] == Annotate(Filter(data, AtHome)[i].value, zone)
  {
    var home, tail := Filter(data, AtHome), Filter(data[1..], AtHome);
    if AtHome(data[0]) {
      assert home == [data[0]] + tail;
      var ms := [Annotate(data[0].value, zone)] + rest;
      forall i | 0 <= i < |ms|
        ensures home[i].Some? && ms[i] == Annotate(home[i].value, zone)
      {
        if i > 0 {
          assert home[i] == tail[i - 1] && ms[i] == rest[i - 1];
        }
      }
    } else {
      assert home == tail;
    }
  }

  /** The annotated home records, position by position, are exactly the
      annotations of the home records of `data`. */
  lemma HomeMembers(data: seq<Option<MatchRecord>>, zone: string -> Option<int>, ms: seq<Match>)
    requires |ms| == |Filter(data, AtHome)|
    requires forall i :: 0 <= i < |ms| ==>
      Filter(data, AtHome)[i].Some? && ms[i] == Annotate(Filter(data, AtHome)[i].value, zone)
    ensures forall m :: m in ms ==>
      m.record.venue == HomeVenue && m == Annotate(m.record, zone) && Some(m.record) in data
    ensures forall r :: Some(r) in data && r.venue == HomeVenue ==> Annotate(r, zone) in ms
  {
    var home := Filter(data, AtHome);
    forall m | m in ms
      ensures m.record.venue == HomeVenue && m == Annotate(m.record, zone) && Some(m.record) in data
    {
      var i :| 0 <= i < |ms| && ms[i] == m;
      assert home[i] in home;
    }
    forall r | Some(r) in data && r.venue == HomeVenue
      ensures Annotate(r, zone) in ms
    {
      assert AtHome(Some(r));
      var i :| 0 <= i < |home| && home[i] == Some(r);
      assert ms[i] == Annotate(r, zone);
    }
  }

  /** The working list before the sort. */
  function Qualify(data: seq<Option<MatchRecord>>, zone: string -> Option<int>, today: int): (u: seq<Match>)
    ensures Qualified(u, today)
    ensures IsSubsequence(u, HomeMatches(data, zone))
    ensures forall r :: Some(r) in data && r.venue == HomeVenue && UpcomingFrom(today)(Annotate(r, zone))
                        ==> Annotate(r, zone) in u
    ensures forall m :: multiset(u)[m] ==
                        if UpcomingFrom(today)(m) then multiset(HomeMatches(data, zone))[m] else 0
  {
    FilterCounts(HomeMatches(data, zone), UpcomingFrom(today));
    FilterIsSubsequence(HomeMatches(data, zone), UpcomingFrom(today));
    Filter(HomeMatches(data, zone), UpcomingFrom(today))
  }

  /** The error envelope of server/api/matches.js:176-181. */
  function Envelope(message: string): (r: Response)
    ensures r.ErrorEnvelope? && r.statusCode == 500 && r.statusMessage == ServerError
    ensures r.message != "" && (message != "" ==> r.message == message)
    ensures message == "" ==> r.message == ServerError
  {
    ErrorEnvelope(ServerErrorStatus, ServerError, if message == "" then ServerError else message)
  }

  /** What the handler answers for a catalogue reply, a collection source, a
      time-zone conversion and the clock `now`. */
  function Respond(catalog: CatalogReply, source: string -> Option<seq<Entry>>,
                   zone: string -> Option<int>, now: int): Response
  {
    match FetchCollections(catalog)
    case Failure(message) => Envelope(message)
    case Success(names) =>
      match Records(FirstCollection(names, source))
      case Failure(message) => Envelope(message)
      case Success(data) =>
        var sel := Select(Sort(Qualify(data, zone, DayKey(now))), DayKey(now));
        Listing(sel.matches, sel.isToday, now)
  }

  /** The handler, step by step as the source takes them. */
  method Handle(catalog: CatalogReply, source: string -> Option<seq<Entry>>,
                zone: string -> Option<int>, now: int) returns (resp: Response)
    ensures resp == Respond(catalog, source, zone, now)
  {
    var names := FetchCollections(catalog);
    if names.Failure? {
      return Envelope(names.error);
    }
    var allCollectionMatches: seq<seq<Entry>> := [];
    if |names.value| > 0 {
      var fetched := source(names.value[0]);
      if fetched.Some? {
        allCollectionMatches := allCollectionMatches + [fetched.value];
      } else {
        allCollectionMatches := allCollectionMatches + [[]];
      }
    }
    var allEntries := Flatten(allCollectionMatches);
    assert allEntries == FirstCollection(names.value, source) by {
      if |allCollectionMatches| == 1 {
        assert Flatten(allCollectionMatches) == allCollectionMatches[0] + Flatten([]);
      }
    }
    var data := Records(allEntries);
    if data.Failure? {
      return Envelope(data.error);
    }
    var today := DayKey(now);
    var upcoming := Qualify(data.value, zone, today);
    var matchesToReturn, isToday := PickDay(upcoming, today);
    resp := Listing(matchesToReturn, isToday, now);
  }

  /** Server/api/matches.js:156-171: sort the working list in place, then keep
      today's matches or, failing those, the first four of the next date. */
  method PickDay(upcoming: seq<Match>, today: int) returns (matchesToReturn: seq<Match>, isToday: bool)
    ensures Selection(matchesToReturn, isToday) == Select(Sort(upcoming), today)
  {
    var allMatches := new Match[|upcoming|](i requires 0 <= i < |upcoming| => upcoming[i]);
    assert allMatches[..] == upcoming;
    SortByInstant(allMatches);
    var sorted := allMatches[..];
    matchesToReturn := Filter(sorted, OnDay(today));
    if |matchesToReturn| == 0 && |sorted| > 0 {
      var nextDate := Day(sorted[0]);
      matchesToReturn := Take(Filter(sorted, OnDay(nextDate)), NextDateCap);
    }
    isToday := exists m :: m in matchesToReturn && Day(m) == today;
  }

  /** Every match listed is a home match whose instant is the converted local
      date and time, valid, and on today's UTC day or later; the list is
      sorted, on one day, and empty only when nothing qualifies. */
  lemma ListingProperties(catalog: CatalogReply, source: string -> Option<seq<Entry>>,
                          zone: string -> Option<int>, now: int)
    requires Respond(catalog, source, zone, now).Listing?
    ensures var r := Respond(catalog, source, zone, now);
      r.serverTime == now &&
      (forall m :: m in r.matches ==>
         m.record.venue == HomeVenue && m.utcDate.Some? &&
         m.utcDate == ParseAmsterdamDate(m.record.date, m.record.time, zone) &&
         DayKey(m.utcDate.value) >= DayKey(now)) &&
      Sorted(r.matches) &&
      (forall i, j :: 0 <= i < |r.matches| && 0 <= j < |r.matches|
         ==> Day(r.matches[i]) == Day(r.matches[j])) &&
      (r.matches == [] <==>
         Qualify(Records(FirstCollection(FetchCollections(catalog).value, source)).value, zone, DayKey(now)) == [])
  {
    var names := FetchCollections(catalog).value;
    var data := Records(FirstCollection(names, source)).value;
    var today := DayKey(now);
    var u := Qualify(data, zone, today);
    SelectionShape(u, today);
    ListedAreHome(data, zone, today);
    var sel := Select(Sort(u), today);
    assert Respond(catalog, source, zone, now) == Listing(sel.matches, sel.isToday, now);
  }

  /** Every match the selection keeps is a home match carrying its converted,
      valid instant, on `today` or later. */
  lemma ListedAreHome(data: seq<Option<MatchRecord>>, zone: string -> Option<int>, today: int)
    ensures forall m :: m in Select(Sort(Qualify(data, zone, today)), today).matches ==>
      m.record.venue == HomeVenue && m.utcDate.Some? &&
      m.utcDate == ParseAmsterdamDate(m.record.date, m.record.time, zone) &&
      DayKey(m.utcDate.value) >= today
  {
    var u := Qualify(data, zone, today);
    SelectionShape(u, today);
    var home := HomeMatches(data, zone);
    forall m | m in Select(Sort(u), today).matches
      ensures m.record.venue == HomeVenue && m.utcDate.Some? &&
        m.utcDate == ParseAmsterdamDate(m.record.date, m.record.time, zone) &&
        DayKey(m.utcDate.value) >= today
    {
      assert m in u;
      assert UpcomingFrom(today)(m);
      assert m in home;
    }
  }

  /** The handler answers with the error envelope exactly when the catalogue
      fetch failed or the first collection holds a `null` element; the
      envelope always says 500 and "Server Error" and carries a message. */
  lemma ErrorCases(catalog: CatalogReply, source: string -> Option<seq<Entry>>,
                   zone: string -> Option<int>, now: int)
    ensures var r := Respond(catalog, source, zone, now);
      r.ErrorEnvelope? <==>
        (!catalog.CatalogOk? ||
         NullEntry in FirstCollection(FetchCollections(catalog).value, source))
    ensures var r := Respond(catalog, source, zone, now);
      r.ErrorEnvelope? ==> r.statusCode == 500 && r.statusMessage == ServerError && r.message != ""
  {
  }

  /** A home record of the first collection whose instant is valid and on
      today's UTC day is listed, and the listing is flagged as today's. */
  lemma TodayRecordListed(raw: seq<string>, source: string -> Option<seq<Entry>>,
                          zone: string -> Option<int>, now: int, r: MatchRecord)
    requires NullEntry !in FirstCollection(CollectionNames(raw), source)
    requires Item(Some(r)) in FirstCollection(CollectionNames(raw), source)
    requires r.venue == HomeVenue
    requires var t := ParseAmsterdamDate(r.date, r.time, zone); t.Some? && DayKey(t.value) == DayKey(now)
    ensures var resp := Respond(CatalogOk(raw), source, zone, now);
      resp.Listing? && Annotate(r, zone) in resp.matches && resp.isToday
  {
    var entries := FirstCollection(CollectionNames(raw), source);
    var data := Records(entries).value;
    var i :| 0 <= i < |entries| && entries[i] == Item(Some(r));
    assert data[i] == Some(r);
    var today := DayKey(now);
    var m := Annotate(r, zone);
    var u := Qualify(data, zone, today);
    assert m in u;
    TodayBranch(u, today);
    FilterCount(u, OnDay(today), m);
    var sel := Select(Sort(u), today);
    assert m in multiset(sel.matches);
  }

  /** Only the first collection of the catalogue is ever read. */
  lemma OnlyFirstCollection(raw: seq<string>, source1: string -> Option<seq<Entry>>,
                            source2: string -> Option<seq<Entry>>, zone: string -> Option<int>, now: int)
    requires var names := CollectionNames(raw); |names| > 0 ==> source1(names[0]) == source2(names[0])
    ensures Respond(CatalogOk(raw), source1, zone, now) == Respond(CatalogOk(raw), source2, zone, now)
  {
    var names := CollectionNames(raw);
    assert FirstCollection(names, source1) == FirstCollection(names, source2);
  }
}
