/** The cumulative counts of the respondents chart: for every date with completions, how many
    respondents completed by then. Dates are timestamps, as `Date.parse` gives them. */
module ChartCount {

  /** One entry of `completedByDate`. */
  datatype DateCount = DateCount(date: int, count: int)

  /** `cumulativeCountFor(d, completedByDate)`: the `reduce` adding the count of every entry
      dated no later than `d`, in order. */
  function CumulativeCountFor(d: int, entries: seq<DateCount>): int {
    if entries == [] then 0
    else
      var last := entries[|entries| - 1];
      CumulativeCountFor(d, entries[..|entries| - 1]) + (if last.date <= d then last.count else 0)
  }

  /** The same sum split at any point. */
  lemma {:induction false} CountForAppend(d: int, a: seq<DateCount>, b: seq<DateCount>)
    ensures CumulativeCountFor(d, a + b) == CumulativeCountFor(d, a) + CumulativeCountFor(d, b)
    decreases |b|
  {
    if b == [] {
      assert a + b == a;
    } else {
      var b' := b[..|b| - 1];
      CountForAppend(d, a, b');
      assert (a + b)[..|a + b| - 1] == a + b';
    }
  }

  /** With counts that are not negative, a later date never has a smaller cumulative count. */
  lemma {:induction false} CountForMonotone(d1: int, d2: int, entries: seq<DateCount>)
    requires d1 <= d2
    requires forall k :: 0 <= k < |entries| ==> entries[k].count >= 0
    ensures CumulativeCountFor(d1, entries) <= CumulativeCountFor(d2, entries)
  {
    if entries != [] {
      CountForMonotone(d1, d2, entries[..|entries| - 1]);
    }
  }

  /** The sum of all counts. */
  function Total(entries: seq<DateCount>): int {
    if entries == [] then 0 else Total(entries[..|entries| - 1]) + entries[|entries| - 1].count
  }

  /** From a date no entry is after, the cumulative count is the total. */
  lemma {:induction false} CountForLatestIsTotal(d: int, entries: seq<DateCount>)
    requires forall k :: 0 <= k < |entries| ==> entries[k].date <= d
    ensures CumulativeCountFor(d, entries) == Total(entries)
  {
    if entries != [] {
      CountForLatestIsTotal(d, entries[..|entries| - 1]);
    }
  }

  /** Before every date, nothing has completed. */
  lemma {:induction false} CountForEarliestIsZero(d: int, entries: seq<DateCount>)
    requires forall k :: 0 <= k < |entries| ==> d < entries[k].date
    ensures CumulativeCountFor(d, entries) == 0
  {
    if entries != [] {
      CountForEarliestIsZero(d, entries[..|entries| - 1]);
    }
  }

  /** The loop of `cumulativeCount`: one entry per input entry, with its date and the cumulative
      count at that date (before it is scaled to the target). */
  method CumulativeCount(entries: seq<DateCount>) returns (r: seq<DateCount>)
    ensures |r| == |entries|
    ensures forall i :: 0 <= i < |r| ==>
      r[i].date == entries[i].date && r[i].count == CumulativeCountFor(entries[i].date, entries)
  {
    r := [];
    for i := 0 to |entries|
      invariant |r| == i
      invariant forall k :: 0 <= k < i ==>
        r[k].date == entries[k].date && r[k].count == CumulativeCountFor(entries[k].date, entries)
    {
      var d := entries[i].date;
      r := r + [DateCount(d, CumulativeCountFor(d, entries))];
    }
  }

  /** `reached` of `respondentsReachedPercentage`: none for no entries, otherwise the cumulative
      count at the date of the last entry. */
  function Reached(entries: seq<DateCount>): (reached: int)
    ensures entries == [] ==> reached == 0
    ensures entries != [] ==> reached == CumulativeCountFor(entries[|entries| - 1].date, entries)
    ensures NonNegative(entries) ==> 0 <= reached <= Total(entries)
    ensures NonNegative(entries) && entries != [] ==> reached >= entries[|entries| - 1].count
  {
    if |entries| == 0 then 0
    else
      CountForBetween(entries[|entries| - 1].date, entries);
      CountForBetween(entries[|entries| - 1].date, entries[..|entries| - 1]);
      assert NonNegative(entries) ==> NonNegative(entries[..|entries| - 1]);
      CumulativeCountFor(entries[|entries| - 1].date, entries)
  }

  predicate NonNegative(entries: seq<DateCount>) {
    forall k :: 0 <= k < |entries| ==> entries[k].count >= 0
  }

  /** With counts that are not negative, a cumulative count lies between none and the total. */
  lemma {:induction false} CountForBetween(d: int, entries: seq<DateCount>)
    ensures NonNegative(entries) ==> 0 <= CumulativeCountFor(d, entries) <= Total(entries)
  {
    if entries != [] {
      CountForBetween(d, entries[..|entries| - 1]);
    }
  }

  /** When the entries come in date order, everything has been reached by the last one. */
  lemma ReachedIsTotalWhenOrdered(entries: seq<DateCount>)
    requires forall i, j :: 0 <= i < j < |entries| ==> entries[i].date <= entries[j].date
    ensures Reached(entries) == Total(entries)
  {
    if entries != [] {
      CountForLatestIsTotal(entries[|entries| - 1].date, entries);
    }
  }
}
