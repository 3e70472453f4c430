/** The display's state holder, app/composables/usePinokeMatches.js: the
    rule that decides whether a match is still being played, and the two
    state updates that use it. The clock (`new Date()`) is a parameter
    `now`, in milliseconds since the epoch; the request to the endpoint is
    replaced by the reply it produced. */
module LiveMatches {
  import opened Wrappers
  import opened Seqs
  import opened Fixtures
  import MatchesEndpoint

  const MsPerMinute := 60 * 1000
  const JongsteJeugd := "Jongste jeugd"
  const Onder12 := "Onder 12"
  const Onder14 := "Onder 14"
  const Trimhockey := "Trimhockey"

  /** `s.includes(part)`. */
  predicate Contains(s: string, part: string)
    decreases |s|
  {
    (|part| <= |s| && s[..|part|] == part) || (s != [] && Contains(s[1..], part))
  }

  /** How long a match lasts, in minutes (app/composables/usePinokeMatches.js:35-44).
      The rules are tried in order and the first that applies wins, so the
      youngest-youth category beats an age group in the sub-category. */
  function DurationMinutes(r: MatchRecord): (minutes: nat)
    ensures minutes in {50, 60, 70, 90}
    ensures minutes == 50 <==> r.category == JongsteJeugd
    ensures minutes == 70 <==>
      r.category != JongsteJeugd && (Contains(r.subCategory, Onder12) || Contains(r.subCategory, Onder14))
    ensures minutes == 60 <==>
      r.category != JongsteJeugd && !Contains(r.subCategory, Onder12) && !Contains(r.subCategory, Onder14)
      && r.subCategory == Trimhockey
  {
    if r.category == JongsteJeugd then 50
    else if r.subCategory != "" && (Contains(r.subCategory, Onder12) || Contains(r.subCategory, Onder14)) then 70
    else if r.subCategory == Trimhockey then 60
    else 90
  }

  /** The instant the match is expected to end. */
  function EndTime(m: Match): int
    requires Timed(m)
  {
    Instant(m) + DurationMinutes(m.record) * MsPerMinute
  }

  /** A match is still on until its end instant; one without an instant never is. */
  predicate IsActive(m: Match, now: int)
  {
    Timed(m) && now < EndTime(m)
  }

  function ActiveAt(now: int): Match -> bool
  {
    m => IsActive(m, now)
  }

  /** `filterActiveMatches` (app/composables/usePinokeMatches.js:25-49): the
      matches still on at `now`, all of them, in their order. */
  function FilterActiveMatches(matchList: seq<Match>, now: int): (r: seq<Match>)
    ensures forall m :: m in r ==> m in matchList && Timed(m) && now < EndTime(m)
    ensures forall m :: m in matchList && Timed(m) && now < EndTime(m) ==> m in r
    ensures IsSubsequence(r, matchList)
    ensures forall m :: multiset(r)[m] == if IsActive(m, now) then multiset(matchList)[m] else 0
  {
    FilterIsSubsequence(matchList, ActiveAt(now));
    FilterCounts(matchList, ActiveAt(now));
    Filter(matchList, ActiveAt(now))
  }

  /** Filtering again at the same instant changes nothing. */
  lemma FilterActiveIdempotent(matchList: seq<Match>, now: int)
    ensures FilterActiveMatches(FilterActiveMatches(matchList, now), now) == FilterActiveMatches(matchList, now)
  {
    FilterIdempotent(matchList, ActiveAt(now));
  }

  /** A match that has ended stays ended: filtering at an earlier instant and
      then at a later one is filtering at the later one. This is what makes
      the minute-by-minute re-filtering of the list consistent. */
  lemma FilterActiveLater(matchList: seq<Match>, earlier: int, later: int)
    requires earlier <= later
    ensures FilterActiveMatches(FilterActiveMatches(matchList, earlier), later)
         == FilterActiveMatches(matchList, later)
  {
    FilterOfFilter(matchList, ActiveAt(earlier), ActiveAt(later));
  }

  /** What `fetchMatches` gets from `/api/matches`: a failure of the request
      itself (rejected fetch, non-success status, undecodable body), or the
      decoded body with its `error`, `matches` and `isToday` fields, the last
      two possibly absent. */
  datatype Reply =
    | HttpFailure
    | Payload(error: bool, matches: Option<seq<Match>>, isToday: Option<bool>)

  /** The request throws before any state but `loading` and `error` is touched. */
  predicate Failed(reply: Reply)
  {
    reply.HttpFailure? || reply.error
  }

  /** `data.matches || []`. */
  function Delivered(reply: Reply): seq<Match>
    requires reply.Payload?
  {
    if reply.matches.Some? then reply.matches.value else []
  }

  /** `data.isToday || false`. */
  function TodayFlag(reply: Reply): bool
    requires reply.Payload?
  {
    reply.isToday.Some? && reply.isToday.value
  }

  /** The body the endpoint's answer decodes to. */
  function Received(resp: MatchesEndpoint.Response): (reply: Reply)
    ensures Failed(reply) <==> resp.ErrorEnvelope?
    ensures resp.Listing? ==> Delivered(reply) == resp.matches && TodayFlag(reply) == resp.isToday
  {
    match resp
    case Listing(ms, today, _) => Payload(false, Some(ms), Some(today))
    case ErrorEnvelope(_, _, _) => Payload(true, None, None)
  }

  /** The refs returned by `usePinokeMatches`. `lastUpdate` holds the clock
      reading of the last refresh; its formatting as a local time of day is
      not modelled. */
  class MatchesState {
    var loading: bool
    var error: bool
    var matches: seq<Match>
    var isToday: bool
    var lastUpdate: Option<int>

    /** Every listed match has an instant, and a list shown as today's holds
        only matches that were still on at the last refresh. */
    ghost predicate Valid()
      reads this
    {
      (forall m :: m in matches ==> Timed(m)) &&
      (isToday ==> lastUpdate.Some? && forall m :: m in matches ==> IsActive(m, lastUpdate.value))
    }

    constructor ()
      ensures Valid()
      ensures loading && !error && matches == [] && !isToday && lastUpdate == None
    {
      loading := true;
      error := false;
      matches := [];
      isToday := false;
      lastUpdate := None;
    }

    /** `updateMatches` (app/composables/usePinokeMatches.js:54-60): a list of
        today's matches drops those that have ended; any other list stays. */
    method UpdateMatches(now: int)
      requires Valid()
      modifies this
      ensures Valid()
      ensures matches == if old(isToday) then FilterActiveMatches(old(matches), now) else old(matches)
      ensures isToday == old(isToday) && loading == old(loading) && error == old(error)
      ensures lastUpdate == Some(now)
    {
      if isToday {
        var activeMatches := FilterActiveMatches(matches, now);
        matches := activeMatches;
      }
      lastUpdate := Some(now);
    }

    /** `fetchMatches` (app/composables/usePinokeMatches.js:90-124) once the
        request has settled with `reply`. On success the list is replaced by
        the delivered matches still on at `now`; on failure only `error` is
        set and the previous list and flag stay. Either way `loading` ends
        false. */
    method FetchMatches(reply: Reply, now: int)
      requires Valid()
      modifies this
      ensures Valid()
      ensures !loading
      ensures error <==> Failed(reply)
      ensures !Failed(reply) ==>
        matches == FilterActiveMatches(Delivered(reply), now) &&
        isToday == TodayFlag(reply) && lastUpdate == Some(now)
      ensures Failed(reply) ==>
        matches == old(matches) && isToday == old(isToday) && lastUpdate == old(lastUpdate)
    {
      loading := true;
      error := false;
      if reply.HttpFailure? || reply.error {
        error := true;
      } else {
        matches := if reply.matches.Some? then reply.matches.value else [];
        isToday := reply.isToday.Some? && reply.isToday.value;
        // An array is always truthy, so the list is always filtered.
        matches := FilterActiveMatches(matches, now);
        lastUpdate := Some(now);
      }
      loading := false;
    }
  }
}
