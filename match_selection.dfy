/** The ordering and the today-or-next-date policy of the matches endpoint
    (server/api/matches.js:155-171). Instants are milliseconds since the
    epoch; the date half of `utcDate.toISO()` is the UTC calendar day, which
    is `DayKey` here, and comparing two "YYYY-MM-DD" texts is comparing their
    day keys. */
module MatchSelection {
  import opened Seqs
  import opened Fixtures

  const MsPerDay := 86400000
  /** The most matches returned for a later date (`slice(0, 4)`). */
  const NextDateCap := 4

  /** The UTC calendar day of an instant (`toISO().split('T')[0]`). */
  function DayKey(t: int): int
  {
    t / MsPerDay
  }

  lemma DayKeyMonotone(a: int, b: int)
    requires a <= b
    ensures DayKey(a) <= DayKey(b)
  {
  }

  function Day(m: Match): int
  {
    DayKey(Instant(m))
  }

  /** The test `match.utcDate.toISO().split('T')[0] === d`. */
  function OnDay(d: int): Match -> bool
  {
    m => Day(m) == d
  }

  predicate Sorted(s: seq<Match>)
  {
    forall i, j :: 0 <= i < j < |s| ==> Instant(s[i]) <= Instant(s[j])
  }

  // ---------------------------------------------------------------------
  // `allMatches.sort((a, b) => a.utcDate - b.utcDate)`: a stable sort by
  // instant, specified as insertion sort.

  /** Puts `x` after every element of `t` that is not later than it. */
  function Insert(t: seq<Match>, x: Match): seq<Match>
    decreases |t|
  {
    if t == [] || Instant(t[|t| - 1]) <= Instant(x) then t + [x]
    else Insert(t[..|t| - 1], x) + [t[|t| - 1]]
  }

  function Sort(s: seq<Match>): seq<Match>
    decreases |s|
  {
    if s == [] then [] else Insert(Sort(s[..|s| - 1]), s[|s| - 1])
  }

  lemma {:induction false} InsertPermutes(t: seq<Match>, x: Match)
    ensures multiset(Insert(t, x)) == multiset(t) + multiset{x}
    decreases |t|
  {
    if t != [] && Instant(t[|t| - 1]) > Instant(x) {
      var init, last := t[..|t| - 1], t[|t| - 1];
      InsertPermutes(init, x);
      assert t == init + [last];
    }
  }

  /** Inserting below a bound keeps every element below it. */
  lemma {:induction false} InsertBounded(t: seq<Match>, x: Match, b: int)
    requires forall i :: 0 <= i < |t| ==> Instant(t[i]) <= b
    requires Instant(x) <= b
    ensures forall i :: 0 <= i < |Insert(t, x)| ==> Instant(Insert(t, x)[i]) <= b
    decreases |t|
  {
    if t != [] && Instant(t[|t| - 1]) > Instant(x) {
      InsertBounded(t[..|t| - 1], x, b);
    }
  }

  lemma {:induction false} InsertSorted(t: seq<Match>, x: Match)
    requires Sorted(t)
    ensures Sorted(Insert(t, x))
    decreases |t|
  {
    if t != [] && Instant(t[|t| - 1]) > Instant(x) {
      var init, last := t[..|t| - 1], t[|t| - 1];
      InsertSorted(init, x);
      InsertBounded(init, x, Instant(last));
      assert Insert(t, x) == Insert(init, x) + [last];
    }
  }

  /** The sort keeps every match, as often as it occurs. */
  lemma {:induction false} SortPermutes(s: seq<Match>)
    ensures multiset(Sort(s)) == multiset(s)
    decreases |s|
  {
    if s != [] {
      var init, last := s[..|s| - 1], s[|s| - 1];
      SortPermutes(init);
      InsertPermutes(Sort(init), last);
      assert s == init + [last];
    }
  }

  lemma {:induction false} SortSorted(s: seq<Match>)
    ensures Sorted(Sort(s))
    decreases |s|
  {
    if s != [] {
      SortSorted(s[..|s| - 1]);
      InsertSorted(Sort(s[..|s| - 1]), s[|s| - 1]);
    }
  }

  /** The test "starts at instant `k`". */
  function AtInstant(k: int): Match -> bool
  {
    m => Instant(m) == k
  }

  lemma FilterSingle(x: Match, k: int)
    ensures Filter([x], AtInstant(k)) == if Instant(x) == k then [x] else []
  {
    assert [x][1..] == [];
  }

  lemma {:induction false} InsertStable(t: seq<Match>, x: Match, k: int)
    ensures Filter(Insert(t, x), AtInstant(k))
         == Filter(t, AtInstant(k)) + Filter([x], AtInstant(k))
    decreases |t|
  {
    var p := AtInstant(k);
    if t == [] || Instant(t[|t| - 1]) <= Instant(x) {
      assert Insert(t, x) == t + [x];
      FilterConcat(t, [x], p);
    } else {
      var init, last := t[..|t| - 1], t[|t| - 1];
      var r := Insert(init, x);
      assert Insert(t, x) == r + [last];
      assert t == init + [last];
      InsertStable(init, x, k);
      FilterConcat(r, [last], p);
      FilterConcat(init, [last], p);
      FilterSingle(x, k);
      FilterSingle(last, k);
      InsertStableStep(Filter(init, p), Filter([x], p), Filter([last], p));
    }
  }

  /** The two singletons of the step above never both survive, so they commute. */
  lemma InsertStableStep(f: seq<Match>, fx: seq<Match>, fl: seq<Match>)
    requires fx == [] || fl == []
    ensures f + fx + fl == f + fl + fx
  {
  }

  /** The sort is stable: matches that start at the same instant keep the
      order in which the collection listed them. */
  lemma {:induction false} SortStable(s: seq<Match>, k: int)
    ensures Filter(Sort(s), AtInstant(k)) == Filter(s, AtInstant(k))
    decreases |s|
  {
    if s != [] {
      var init, last := s[..|s| - 1], s[|s| - 1];
      SortStable(init, k);
      InsertStable(Sort(init), last, k);
      FilterConcat(init, [last], AtInstant(k));
      assert s == init + [last];
    }
  }

  /** One step of the inner loop: `x` moves left past a later element. */
  lemma InsertShift(done: seq<Match>, j: nat, x: Match, rest: seq<Match>)
    requires 0 < j <= |done|
    requires Instant(done[j - 1]) > Instant(x)
    ensures Insert(done[..j], x) + done[j..] == Insert(done[..j - 1], x) + done[j - 1..]
    ensures (done[..j] + [x] + done[j..] + rest)[j - 1 := x][j := done[j - 1]]
         == done[..j - 1] + [x] + done[j - 1..] + rest
  {
    assert done[..j][..j - 1] == done[..j - 1];
    assert done[j - 1..] == [done[j - 1]] + done[j..];
  }

  /** Sorting one more element of `s` inserts it into the sorted prefix. */
  lemma SortPrefixStep(s: seq<Match>, i: nat)
    requires i < |s|
    ensures Sort(s[..i + 1]) == Insert(Sort(s[..i]), s[i])
    ensures |Sort(s[..i + 1])| == |Sort(s[..i])| + 1
  {
    assert s[..i + 1][..i] == s[..i];
    InsertPermutes(Sort(s[..i]), s[i]);
    assert |multiset(Insert(Sort(s[..i]), s[i]))| == |multiset(Sort(s[..i]))| + 1;
  }

  /** The in-place sort of server/api/matches.js:156. */
  method SortByInstant(a: array<Match>)
    modifies a
    ensures a[..] == Sort(old(a[..]))
  {
    ghost var orig := a[..];
    ghost var done: seq<Match> := [];
    var i := 0;
    while i < a.Length
      invariant 0 <= i <= a.Length
      invariant done == Sort(orig[..i]) && |done| == i
      invariant a[..] == done + orig[i..]
    {
      assert orig[i..] == [orig[i]] + orig[i + 1..];
      SinkInto(a, i, done, orig[i], orig[i + 1..]);
      SortPrefixStep(orig, i);
      done := Insert(done, orig[i]);
      i := i + 1;
    }
    assert orig[..a.Length] == orig;
  }

  /** One pass of the sort: the element at `i` moves left past every later
      element of the sorted prefix before it. */
  method SinkInto(a: array<Match>, i: nat, ghost done: seq<Match>, ghost x: Match, ghost rest: seq<Match>)
    requires |done| == i < a.Length
    requires a[..] == done + [x] + rest
    modifies a
    ensures a[..] == Insert(done, x) + rest
  {
    var j := i;
    assert done[..j] == done && done[j..] == [];
    while j > 0 && Instant(a[j - 1]) > Instant(a[j])
      invariant 0 <= j <= i
      invariant a[..] == done[..j] + [x] + done[j..] + rest
      invariant Insert(done, x) == Insert(done[..j], x) + done[j..]
    {
      ghost var before := a[..];
      assert before[j - 1] == done[j - 1] && before[j] == x;
      InsertShift(done, j, x, rest);
      a[j - 1], a[j] := a[j], a[j - 1];
      assert a[..] == before[j - 1 := x][j := done[j - 1]];
      j := j - 1;
    }
    assert Insert(done[..j], x) == done[..j] + [x];
  }

  // ---------------------------------------------------------------------
  // The today-or-next-date policy (server/api/matches.js:159-171).

  datatype Selection = Selection(matches: seq<Match>, isToday: bool)

  /** The test of server/api/matches.js:153: a valid instant on today's UTC day or later. */
  function UpcomingFrom(today: int): Match -> bool
  {
    (m: Match) => Timed(m) && Day(m) >= today
  }

  /** Every match that survived the filter of server/api/matches.js:153. */
  predicate Qualified(u: seq<Match>, today: int)
  {
    forall m :: m in u ==> UpcomingFrom(today)(m)
  }

  /** `matchesToReturn` and `isToday` for the sorted list `sorted`. */
  function Select(sorted: seq<Match>, today: int): Selection
  {
    var todays := Filter(sorted, OnDay(today));
    var chosen :=
      if |todays| == 0 && |sorted| > 0
      then Take(Filter(sorted, OnDay(Day(sorted[0]))), NextDateCap)
      else todays;
    Selection(chosen, exists m :: m in chosen && Day(m) == today)
  }

  lemma {:induction false} FilterSorted(s: seq<Match>, p: Match -> bool)
    requires Sorted(s)
    ensures Sorted(Filter(s, p))
  {
    if s != [] {
      FilterSorted(s[1..], p);
      var r := Filter(s[1..], p);
      forall m | m in r
        ensures Instant(s[0]) <= Instant(m)
      {
        var j :| 0 <= j < |s[1..]| && s[1..][j] == m;
        assert s[j + 1] == m;
      }
    }
  }

  /** The first match of a sorted list is on the earliest day of all. */
  lemma FirstIsEarliest(s: seq<Match>, m: Match)
    requires Sorted(s) && m in s
    ensures Day(s[0]) <= Day(m)
  {
    var j :| 0 <= j < |s| && s[j] == m;
    DayKeyMonotone(Instant(s[0]), Instant(m));
  }

  /** Some match of the qualified list is dated today: the result is exactly
      today's matches, every one of them and nothing else, in sorted order,
      and `isToday` is set. */
  lemma TodayBranch(u: seq<Match>, today: int)
    requires Qualified(u, today)
    requires exists m :: m in u && Day(m) == today
    ensures var sel := Select(Sort(u), today);
      sel.isToday &&
      sel.matches == Filter(Sort(u), OnDay(today)) &&
      multiset(sel.matches) == multiset(Filter(u, OnDay(today))) &&
      Sorted(sel.matches)
  {
    var sorted := Sort(u);
    SortPermutes(u);
    SortSorted(u);
    var m :| m in u && Day(m) == today;
    assert m in multiset(u);
    assert m in sorted;
    var todays := Filter(sorted, OnDay(today));
    assert m in todays;
    FilterPermutation(sorted, u, OnDay(today));
    FilterSorted(sorted, OnDay(today));
  }

  /** The day of the first sorted match when none is dated today: strictly
      after today and no later than any qualifying match. */
  lemma NextDay(u: seq<Match>, today: int)
    requires Qualified(u, today)
    requires u != []
    requires forall m :: m in u ==> Day(m) != today
    ensures var sorted := Sort(u);
      |sorted| > 0 && Filter(sorted, OnDay(today)) == [] &&
      Day(sorted[0]) > today && (forall m :: m in u ==> Day(sorted[0]) <= Day(m))
  {
    var sorted := Sort(u);
    SortPermutes(u);
    SortSorted(u);
    assert |sorted| == |u|;
    assert sorted[0] in multiset(u);
    assert UpcomingFrom(today)(sorted[0]);
    forall m | m in sorted
      ensures !OnDay(today)(m)
    {
      assert m in multiset(u);
    }
    FilterNone(sorted, OnDay(today));
    forall m | m in u
      ensures Day(sorted[0]) <= Day(m)
    {
      assert m in multiset(sorted);
      FirstIsEarliest(sorted, m);
    }
  }

  /** Cutting a sorted list keeps its earliest elements. */
  lemma TakeSorted(all: seq<Match>, n: nat)
    requires Sorted(all)
    ensures Sorted(Take(all, n))
    ensures multiset(Take(all, n)) <= multiset(all)
    ensures forall m, k :: m in all && m !in Take(all, n) && 0 <= k < |Take(all, n)|
              ==> Instant(Take(all, n)[k]) <= Instant(m)
  {
    var chosen := Take(all, n);
    assert all == chosen + all[|chosen|..];
    assert multiset(all) == multiset(chosen) + multiset(all[|chosen|..]);
    forall m, k | m in all && m !in chosen && 0 <= k < |chosen|
      ensures Instant(chosen[k]) <= Instant(m)
    {
      var j :| 0 <= j < |all| && all[j] == m;
      assert j >= |chosen|;
    }
  }

  /** No match is dated today but some qualify: the result is the first at
      most four matches, in sorted order, of the earliest day, which lies
      after today, and `isToday` is false. */
  lemma NextDateBranch(u: seq<Match>, today: int)
    requires Qualified(u, today)
    requires u != []
    requires forall m :: m in u ==> Day(m) != today
    ensures var sel := Select(Sort(u), today);
      !sel.isToday && sel.matches != [] &&
      var d := Day(sel.matches[0]);
      d > today &&
      (forall m :: m in u ==> d <= Day(m)) &&
      (forall m :: m in sel.matches ==> Day(m) == d) &&
      sel.matches == Take(Filter(Sort(u), OnDay(d)), NextDateCap)
  {
    NextDay(u, today);
    var sorted := Sort(u);
    var d := Day(sorted[0]);
    var all := Filter(sorted, OnDay(d));
    assert sorted[0] in all;
    var chosen := Take(all, NextDateCap);
    var sel := Select(sorted, today);
    assert sel.matches == chosen;
    assert chosen[0] == all[0];
    assert Day(chosen[0]) == d;
    assert forall m :: m in chosen ==> m in all;
    assert !sel.isToday;
  }

  /** What the next-date result holds: as many of the earliest day's matches
      as the cap allows, taken from the earliest instants of that day. */
  lemma NextDateContents(u: seq<Match>, d: int)
    ensures var chosen := Take(Filter(Sort(u), OnDay(d)), NextDateCap);
      var all := Filter(u, OnDay(d));
      |chosen| == (if |all| < NextDateCap then |all| else NextDateCap) &&
      multiset(chosen) <= multiset(all) &&
      Sorted(chosen) &&
      (forall m, k :: m in u && Day(m) == d && m !in chosen && 0 <= k < |chosen|
         ==> Instant(chosen[k]) <= Instant(m))
  {
    var sorted := Sort(u);
    SortPermutes(u);
    SortSorted(u);
    FilterPermutation(sorted, u, OnDay(d));
    FilterSorted(sorted, OnDay(d));
    var all := Filter(sorted, OnDay(d));
    assert |all| == |multiset(all)| == |Filter(u, OnDay(d))|;
    TakeSorted(all, NextDateCap);
    forall m | m in u && Day(m) == d
      ensures m in all
    {
      assert m in multiset(sorted);
    }
  }

  /** Whatever the branch, the result is taken from the sorted list, keeps its
      order and lies on a single day. */
  lemma SelectFromSorted(sorted: seq<Match>, today: int)
    requires Sorted(sorted)
    ensures var sel := Select(sorted, today);
      (forall m :: m in sel.matches ==> m in sorted) &&
      Sorted(sel.matches) &&
      (forall i, j :: 0 <= i < |sel.matches| && 0 <= j < |sel.matches|
         ==> Day(sel.matches[i]) == Day(sel.matches[j]))
  {
    var todays := Filter(sorted, OnDay(today));
    if |todays| == 0 && |sorted| > 0 {
      var all := Filter(sorted, OnDay(Day(sorted[0])));
      FilterSorted(sorted, OnDay(Day(sorted[0])));
      TakeSorted(all, NextDateCap);
      assert forall m :: m in Take(all, NextDateCap) ==> m in all;
    } else {
      FilterSorted(sorted, OnDay(today));
      forall i | 0 <= i < |todays|
        ensures Day(todays[i]) == today
      {
        assert todays[i] in todays;
      }
    }
  }

  /** What holds whichever branch is taken: nothing is invented, the result
      is sorted and on one day, it is empty only when nothing qualifies, and
      `isToday` says whether some qualifying match is dated today. */
  lemma SelectionShape(u: seq<Match>, today: int)
    requires Qualified(u, today)
    ensures var sel := Select(Sort(u), today);
      (forall m :: m in sel.matches ==> m in u) &&
      Sorted(sel.matches) &&
      (forall i, j :: 0 <= i < |sel.matches| && 0 <= j < |sel.matches|
         ==> Day(sel.matches[i]) == Day(sel.matches[j])) &&
      (sel.matches == [] <==> u == []) &&
      (sel.isToday <==> exists m :: m in u && Day(m) == today)
  {
    var sel := Select(Sort(u), today);
    SortPermutes(u);
    SortSorted(u);
    SelectFromSorted(Sort(u), today);
    if exists m :: m in u && Day(m) == today {
      TodayBranch(u, today);
      assert u != [];
    } else if u != [] {
      NextDateBranch(u, today);
    } else {
      assert Sort(u) == [];
    }
    forall m | m in sel.matches
      ensures m in u
    {
      assert m in multiset(Sort(u));
    }
  }
}
