/** `parseAmsterdamDate` in server/api/matches.js: the reshaping of the site's
    "dd-mm-yyyy" date and "HH:mm" time into the local ISO text that is handed
    to the time-zone library. The conversion itself (Europe/Amsterdam with
    its daylight-saving rules, to UTC) is a parameter `zone`: it maps the
    local ISO text to an instant in milliseconds, or to `None` when the
    library's result is invalid. */
module AmsterdamDate {
  import opened Wrappers

  const DefaultTime := "00:00"
  /** What a template literal prints for a destructured part that is missing. */
  const Undefined := "undefined"

  /** `s.split(sep)` for a one-character separator: never empty, no part
      holds the separator. */
  function Split(s: string, sep: char): (parts: seq<string>)
    ensures |parts| >= 1
    ensures forall i :: 0 <= i < |parts| ==> sep !in parts[i]
  {
    if s == [] then [""]
    else
      var rest := Split(s[1..], sep);
      if s[0] == sep then [""] + rest
      else [[s[0]] + rest[0]] + rest[1..]
  }

  /** `parts.join(sep)`. */
  function Join(parts: seq<string>, sep: char): string
    requires |parts| >= 1
  {
    if |parts| == 1 then parts[0] else parts[0] + [sep] + Join(parts[1..], sep)
  }

  /** Splitting loses nothing: joining the parts gives the text back. */
  lemma {:induction false} JoinSplit(s: string, sep: char)
    ensures Join(Split(s, sep), sep) == s
  {
    if s != [] {
      JoinSplit(s[1..], sep);
      var rest := Split(s[1..], sep);
      if s[0] == sep {
        assert ([""] + rest)[1..] == rest;
      } else {
        var parts := [[s[0]] + rest[0]] + rest[1..];
        if |rest| > 1 {
          assert parts[1..] == rest[1..];
          assert Join(rest, sep) == rest[0] + [sep] + Join(rest[1..], sep);
        }
      }
    }
  }

  /** Text without the separator followed by more text: the text becomes the
      head of the first part. */
  lemma {:induction false} SplitAfterWord(w: string, t: string, sep: char)
    requires sep !in w
    ensures Split(w + t, sep) == [w + Split(t, sep)[0]] + Split(t, sep)[1..]
  {
    if w != [] {
      assert (w + t)[1..] == w[1..] + t;
      assert w[0] != sep;
      SplitAfterWord(w[1..], t, sep);
      assert [w[0]] + (w[1..] + Split(t, sep)[0]) == w + Split(t, sep)[0];
    } else {
      assert w + t == t;
      var parts := Split(t, sep);
      assert w + parts[0] == parts[0];
      assert parts == [parts[0]] + parts[1..];
    }
  }

  /** Joining parts that hold no separator and splitting again gives the parts back. */
  lemma {:induction false} SplitJoin(parts: seq<string>, sep: char)
    requires |parts| >= 1
    requires forall i :: 0 <= i < |parts| ==> sep !in parts[i]
    ensures Split(Join(parts, sep), sep) == parts
  {
    if |parts| == 1 {
      SplitAfterWord(parts[0], "", sep);
      assert parts[0] + "" == parts[0];
    } else {
      var tail := Join(parts[1..], sep);
      var rest := [sep] + tail;
      SplitJoin(parts[1..], sep);
      assert Join(parts, sep) == parts[0] + rest;
      SplitAfterWord(parts[0], rest, sep);
      assert rest[1..] == tail;
      assert Split(rest, sep) == [""] + parts[1..];
      calc {
        Split(Join(parts, sep), sep);
        [parts[0] + Split(rest, sep)[0]] + Split(rest, sep)[1..];
        { assert parts[0] + "" == parts[0]; }
        [parts[0]] + parts[1..];
        parts;
      }
    }
  }

  /** Part `i` of the destructuring `const [d, m, y] = parts`. */
  function Part(parts: seq<string>, i: nat): string
  {
    if i < |parts| then parts[i] else Undefined
  }

  /** The text `${y}-${m}-${d}T${time}` built at server/api/matches.js:29-32,
      or `None` for the early `return null` on an empty date. */
  function LocalIso(dateStr: string, timeStr: string): (iso: Option<string>)
    ensures iso.None? <==> dateStr == ""
  {
    if dateStr == "" then None
    else
      var parts := Split(dateStr, '-');
      var time := if timeStr == "" then DefaultTime else timeStr;
      Some(Part(parts, 2) + "-" + Part(parts, 1) + "-" + Part(parts, 0) + "T" + time)
  }

  /** For a well-formed date the day and year swap places, and a missing time
      becomes midnight. */
  lemma LocalIsoReorders(d: string, m: string, y: string, timeStr: string)
    requires '-' !in d && '-' !in m && '-' !in y
    ensures LocalIso(d + "-" + m + "-" + y, timeStr)
         == Some(y + "-" + m + "-" + d + "T" + (if timeStr == "" then DefaultTime else timeStr))
  {
    var parts := [d, m, y];
    assert Join(parts, '-') == d + "-" + m + "-" + y by {
      assert parts[1..] == [m, y];
      assert [m, y][1..] == [y];
      assert Join([y], '-') == y;
      assert Join([m, y], '-') == m + "-" + y;
    }
    SplitJoin(parts, '-');
  }

  /** `parseAmsterdamDate(dateStr, timeStr)` followed by the validity test of
      server/api/matches.js:151: an instant, or `None` for `null` and for an
      invalid date-time alike. */
  function ParseAmsterdamDate(dateStr: string, timeStr: string, zone: string -> Option<int>): (t: Option<int>)
    ensures dateStr == "" ==> t == None
  {
    match LocalIso(dateStr, timeStr)
    case None => None
    case Some(iso) => zone(iso)
  }
}
