/** CHANGE_NUMERIC_RANGES: the boundaries of a numeric step are checked for strict ascending
    order and, when they pass, turned into contiguous ranges that keep the skip logic of
    identical old ranges. */
module NumericRanges {
  import opened Js
  import opened QuestionnaireModel

  /** `value ? parseInt(value) : null` for a min/max field. A number reaching this point is
      an integer or NaN, and `parseInt` of an integer's text is that integer. */
  function ParseBound(v: JsValue): (r: Option<Num>)
    ensures r.None? <==> !Truthy(v)
    ensures v.JStr? && v.s != "" ==> r == Some(ParseInt(v.s))
    ensures v.JNum? && v.num.Int? && v.num.n != 0 ==> r == Some(v.num)
  {
    if !Truthy(v) then None
    else match v
      case JStr(s) => Some(ParseInt(s))
      case JNum(x) => Some(x)
      case JNull => None
  }

  /** `rangesDelimiters ? rangesDelimiters.split(',').map(parseInt) : []` */
  function ParseDelimiters(text: string): (r: seq<Num>)
    ensures text == "" ==> r == []
    ensures text != "" ==> |r| == |Split(text, ',')|
    ensures text != "" ==> forall k :: 0 <= k < |r| ==> r[k] == ParseInt(Split(text, ',')[k])
  {
    if text == "" then []
    else
      var parts := Split(text, ',');
      seq(|parts|, k requires 0 <= k < |parts| => ParseInt(parts[k]))
  }

  /** `[min?, ...delimiters, max?]`, the sequence that must be strictly ascending. */
  function Values(min: Option<Num>, delims: seq<Num>, max: Option<Num>): seq<Num> {
    (if min.Some? then [min.value] else []) + delims + (if max.Some? then [max.value] else [])
  }

  predicate StrictlyAscending(values: seq<Num>) {
    forall i :: 0 <= i < |values| - 1 ==> Less(values[i], values[i + 1])
  }

  /** The lower bounds of the generated ranges: min (null when absent), then each delimiter. */
  function Froms(min: Option<Num>, delims: seq<Num>): (r: seq<Option<Num>>)
    ensures |r| == |delims| + 1 && r[0] == min
    ensures forall k :: 0 <= k < |delims| ==> r[k + 1] == Some(delims[k])
  {
    [min] + seq(|delims|, k requires 0 <= k < |delims| => Some(delims[k]))
  }

  predicate SameBounds(r: Range, from: Option<Num>, to: Option<Num>) {
    LooseEqNum(r.from, from) && LooseEqNum(r.to, to)
  }

  /** The position `ranges.find(r => r.from == from && r.to == to)` stops at, or -1. */
  function FindRange(ranges: seq<Range>, from: Option<Num>, to: Option<Num>): (k: int)
    ensures -1 <= k < |ranges|
    ensures k >= 0 ==> SameBounds(ranges[k], from, to)
    ensures k >= 0 ==> forall j :: 0 <= j < k ==> !SameBounds(ranges[j], from, to)
    ensures k == -1 ==> forall j :: 0 <= j < |ranges| ==> !SameBounds(ranges[j], from, to)
  {
    if |ranges| == 0 then -1
    else if SameBounds(ranges[0], from, to) then 0
    else
      var k := FindRange(ranges[1..], from, to);
      if k == -1 then -1 else k + 1
  }

  /** The range generated for [from, to]: a copy of the first old range with those bounds, else a fresh one. */
  function Inherit(previous: seq<Range>, from: Option<Num>, to: Option<Num>): Range {
    var k := FindRange(previous, from, to);
    if k >= 0 then previous[k] else Range(from, to, None)
  }

  /** The upper bound of range `i`: one below the next lower bound, or the max for the last range. */
  function UpperBound(froms: seq<Option<Num>>, i: nat, max: Option<Num>): Option<Num>
    requires i < |froms|
  {
    if i < |froms| - 1 then Decrement(froms[i + 1]) else max
  }

  function GenerateRanges(previous: seq<Range>, froms: seq<Option<Num>>, max: Option<Num>): (rs: seq<Range>)
    ensures |rs| == |froms|
    ensures forall i :: 0 <= i < |froms| ==> rs[i] == Inherit(previous, froms[i], UpperBound(froms, i, max))
  {
    seq(|froms|, i requires 0 <= i < |froms| => Inherit(previous, froms[i], UpperBound(froms, i, max)))
  }

  /** Whether the new boundaries pass the ascending check, so that ranges are regenerated. */
  predicate Materialises(minText: JsValue, maxText: JsValue, delimiters: string) {
    StrictlyAscending(Values(ParseBound(minText), ParseDelimiters(delimiters), ParseBound(maxText)))
  }

  /** The step CHANGE_NUMERIC_RANGES produces from a numeric step. */
  function ChangeNumericRanges(step: Step, minText: JsValue, maxText: JsValue, delimiters: string): (r: Step)
    requires step.kind.Numeric?
    ensures r.kind.Numeric? && r.(kind := step.kind) == step
  {
    var min := ParseBound(minText);
    var max := ParseBound(maxText);
    var kind := step.kind.(minValue := min, maxValue := max, rangesDelimiters := Some(delimiters));
    if !Materialises(minText, maxText, delimiters) then step.(kind := kind)
    else step.(kind := kind.(ranges := GenerateRanges(step.kind.ranges, Froms(min, ParseDelimiters(delimiters)), max)))
  }

  /** The scan over the collected values: stops at the first pair out of order. */
  method CheckAscending(values: seq<Num>) returns (isValid: bool)
    ensures isValid <==> StrictlyAscending(values)
  {
    isValid := true;
    var i := 0;
    while isValid && i < |values| - 1
      invariant 0 <= i <= |values|
      invariant isValid ==> forall j :: 0 <= j < i && j < |values| - 1 ==> Less(values[j], values[j + 1])
      invariant !isValid ==> 1 <= i < |values| && !Less(values[i - 1], values[i])
      decreases |values| - i
    {
      isValid := Less(values[i], values[i + 1]);
      i := i + 1;
    }
  }

  /** The loop that builds one range per lower bound, each reusing an identical old range. */
  method BuildRanges(previous: seq<Range>, bounds: seq<Option<Num>>, maxValue: Option<Num>) returns (ranges: seq<Range>)
    ensures ranges == GenerateRanges(previous, bounds, maxValue)
  {
    ranges := [];
    var j := 0;
    while j < |bounds|
      invariant 0 <= j <= |bounds|
      invariant |ranges| == j
      invariant forall k :: 0 <= k < j ==> ranges[k] == Inherit(previous, bounds[k], UpperBound(bounds, k, maxValue))
    {
      var to := if j < |bounds| - 1 then Decrement(bounds[j + 1]) else maxValue;
      var prev := FindRange(previous, bounds[j], to);
      if prev >= 0 {
        ranges := ranges + [previous[prev]];
      } else {
        ranges := ranges + [Range(bounds[j], to, None)];
      }
      j := j + 1;
    }
  }

  /** `values.map(v => v)` read as nullable bounds. */
  function AsBounds(values: seq<Num>): (bounds: seq<Option<Num>>)
    ensures |bounds| == |values|
    ensures forall k :: 0 <= k < |values| ==> bounds[k] == Some(values[k])
  {
    seq(|values|, k requires 0 <= k < |values| => Some(values[k]))
  }

  /** The lower bounds as the source derives them from the collected values: prepend null when
      there is no min, drop the max when there is one. */
  lemma BoundsFromValues(min: Option<Num>, delims: seq<Num>, max: Option<Num>)
    ensures var values := Values(min, delims, max);
      var bounds := (if min.None? then [None] else []) + AsBounds(values);
      (if max.Some? then bounds[..|bounds| - 1] else bounds) == Froms(min, delims)
  {
    var values := Values(min, delims, max);
    var bounds := (if min.None? then [None] else []) + AsBounds(values);
    var trimmed := if max.Some? then bounds[..|bounds| - 1] else bounds;
    var froms := Froms(min, delims);
    assert |trimmed| == |froms|;
    forall k | 0 <= k < |froms|
      ensures trimmed[k] == froms[k]
    {
      if k > 0 {
        assert trimmed[k] == Some(delims[k - 1]);
      }
    }
  }

  /** The values to check: the min if any, the delimiters if the text is not empty, the max if any. */
  method CollectValues(minValue: Option<Num>, maxValue: Option<Num>, rangesDelimiters: string) returns (values: seq<Num>)
    ensures values == Values(minValue, ParseDelimiters(rangesDelimiters), maxValue)
  {
    ghost var head := if minValue.Some? then [minValue.value] else [];
    values := [];
    if minValue.Some? {
      values := values + [minValue.value];
    }
    assert values == head;
    if rangesDelimiters != "" {
      values := values + ParseDelimiters(rangesDelimiters);
    }
    assert values == head + ParseDelimiters(rangesDelimiters);
    if maxValue.Some? {
      values := values + [maxValue.value];
    }
  }

  /** The lower bounds of the ranges, from the checked values. */
  method LowerBounds(minValue: Option<Num>, delims: seq<Num>, maxValue: Option<Num>) returns (bounds: seq<Option<Num>>)
    ensures bounds == Froms(minValue, delims)
  {
    bounds := AsBounds(Values(minValue, delims, maxValue));
    if minValue.None? {
      bounds := [None] + bounds;
    }
    if maxValue.Some? {
      bounds := bounds[..|bounds| - 1];
    }
    BoundsFromValues(minValue, delims, maxValue);
  }

  /** The source's step-by-step computation: collect the values, scan them for ascending order,
      then build the ranges one by one. */
  method ApplyChangeNumericRanges(step: Step, minText: JsValue, maxText: JsValue, rangesDelimiters: string)
    returns (r: Step)
    requires step.kind.Numeric?
    ensures r == ChangeNumericRanges(step, minText, maxText, rangesDelimiters)
  {
    var minValue := ParseBound(minText);
    var maxValue := ParseBound(maxText);
    var values := CollectValues(minValue, maxValue, rangesDelimiters);
    var isValid := CheckAscending(values);
    var kind := step.kind.(minValue := minValue, maxValue := maxValue, rangesDelimiters := Some(rangesDelimiters));
    if !isValid {
      return step.(kind := kind);
    }
    var bounds := LowerBounds(minValue, ParseDelimiters(rangesDelimiters), maxValue);
    var ranges := BuildRanges(step.kind.ranges, bounds, maxValue);
    r := step.(kind := kind.(ranges := ranges));
  }

  // ---------------------------------------------------------------------------
  // What the generated ranges look like

  /** A generated range has exactly the bounds it was generated for, inherited or not. */
  lemma InheritBounds(previous: seq<Range>, from: Option<Num>, to: Option<Num>)
    ensures Inherit(previous, from, to).from == from && Inherit(previous, from, to).to == to
    ensures FindRange(previous, from, to) >= 0 ==> Inherit(previous, from, to) == previous[FindRange(previous, from, to)]
    ensures FindRange(previous, from, to) == -1 ==> Inherit(previous, from, to).skipLogic.None?
  {
    var k := FindRange(previous, from, to);
    if k >= 0 {
      LooseEqNumIsEquality(previous[k].from, from);
      LooseEqNumIsEquality(previous[k].to, to);
    }
  }

  /** When the check fails only minValue, maxValue and rangesDelimiters change; the ranges are kept. */
  lemma PendingEditKeepsRanges(step: Step, minText: JsValue, maxText: JsValue, delimiters: string)
    requires step.kind.Numeric?
    requires !Materialises(minText, maxText, delimiters)
    ensures var r := ChangeNumericRanges(step, minText, maxText, delimiters);
      && r.kind.Numeric?
      && r.kind.ranges == step.kind.ranges
      && r.kind.minValue == ParseBound(minText)
      && r.kind.maxValue == ParseBound(maxText)
      && r.kind.rangesDelimiters == Some(delimiters)
      && r.(kind := step.kind) == step
  {
  }

  /** Each generated range has the bounds it was generated for and inherits only skip logic. */
  lemma {:induction false} GeneratedBounds(previous: seq<Range>, froms: seq<Option<Num>>, max: Option<Num>)
    ensures var rs := GenerateRanges(previous, froms, max);
      forall i :: 0 <= i < |rs| ==>
        && rs[i].from == froms[i]
        && rs[i].to == UpperBound(froms, i, max)
        && rs[i].skipLogic == Inherit(previous, rs[i].from, rs[i].to).skipLogic
  {
    var rs := GenerateRanges(previous, froms, max);
    forall i | 0 <= i < |rs|
      ensures rs[i].from == froms[i] && rs[i].to == UpperBound(froms, i, max)
    {
      InheritBounds(previous, froms[i], UpperBound(froms, i, max));
    }
  }

  /** The ranges generated from a min, delimiters and a max: one per delimiter plus one, the first
      starting at the min (or open), the last ending at the max (or open), each ending one below
      the next one's start, inner ranges starting at the delimiters, and each with the skip logic
      of the first old range with the same bounds (none when there is no such range). */
  predicate GeneratedShape(rs: seq<Range>, min: Option<Num>, delims: seq<Num>, max: Option<Num>, previous: seq<Range>) {
    && |rs| == |delims| + 1
    && rs[0].from == min
    && rs[|rs| - 1].to == max
    && (forall i :: 0 <= i < |rs| - 1 ==> rs[i].to == Decrement(rs[i + 1].from))
    && (forall i :: 0 < i < |rs| ==> rs[i].from == Some(delims[i - 1]))
    && (forall i :: 0 <= i < |rs| ==> rs[i].skipLogic == Inherit(previous, rs[i].from, rs[i].to).skipLogic)
  }

  /** When the check passes the ranges are generated in that shape from the parsed min,
      delimiters and max. */
  lemma {:induction false} MaterialisedRanges(step: Step, minText: JsValue, maxText: JsValue, delimiters: string)
    requires step.kind.Numeric?
    requires Materialises(minText, maxText, delimiters)
    ensures GeneratedShape(ChangeNumericRanges(step, minText, maxText, delimiters).kind.ranges,
                           ParseBound(minText), ParseDelimiters(delimiters), ParseBound(maxText), step.kind.ranges)
  {
    var max := ParseBound(maxText);
    var froms := Froms(ParseBound(minText), ParseDelimiters(delimiters));
    assert ChangeNumericRanges(step, minText, maxText, delimiters).kind.ranges == GenerateRanges(step.kind.ranges, froms, max);
    GeneratedBounds(step.kind.ranges, froms, max);
  }

  // ---------------------------------------------------------------------------
  // The ranges partition the integers between min and max

  predicate IsInt(x: Option<Num>) {
    x.Some? && x.value.Int?
  }

  /** `x` lies at or above a lower bound (null is open). */
  predicate AtLeast(bound: Option<Num>, x: int) {
    bound.None? || (bound.value.Int? && bound.value.n <= x)
  }

  /** `x` lies at or below an upper bound (null is open). */
  predicate AtMost(bound: Option<Num>, x: int) {
    bound.None? || (bound.value.Int? && x <= bound.value.n)
  }

  predicate Contains(r: Range, x: int) {
    AtLeast(r.from, x) && AtMost(r.to, x)
  }

  /** The shape of a partition: inner bounds are integers, each range ends one below the next
      one's start, and no range is empty. */
  predicate Contiguous(rs: seq<Range>) {
    && |rs| >= 1
    && (forall i :: 0 < i < |rs| ==> IsInt(rs[i].from))
    && (forall i :: 0 <= i < |rs| - 1 ==> IsInt(rs[i].to) && rs[i].to.value.n == rs[i + 1].from.value.n - 1)
    && (rs[0].from.None? || IsInt(rs[0].from))
    && (rs[|rs| - 1].to.None? || IsInt(rs[|rs| - 1].to))
    && (forall i :: 0 <= i < |rs| ==> IsInt(rs[i].from) && IsInt(rs[i].to) ==> rs[i].from.value.n <= rs[i].to.value.n)
  }

  lemma {:induction false} FromsIncrease(rs: seq<Range>, i: nat, j: nat)
    requires Contiguous(rs)
    requires 0 < i <= j < |rs|
    ensures rs[i].from.value.n <= rs[j].from.value.n
    decreases j - i
  {
    if i < j {
      FromsIncrease(rs, i + 1, j);
    }
  }

  /** Any integer lies in at most one range of a contiguous sequence. */
  lemma {:induction false} ContiguousDisjoint(rs: seq<Range>, x: int, i: nat, j: nat)
    requires Contiguous(rs)
    requires i < j < |rs|
    ensures !(Contains(rs[i], x) && Contains(rs[j], x))
  {
    FromsIncrease(rs, i + 1, j);
  }

  /** An integer lies in some range of a contiguous sequence exactly when it lies between the
      first lower bound and the last upper bound. */
  lemma {:induction false} ContiguousCovers(rs: seq<Range>, x: int)
    requires Contiguous(rs)
    ensures (exists i :: 0 <= i < |rs| && Contains(rs[i], x)) <==> AtLeast(rs[0].from, x) && AtMost(rs[|rs| - 1].to, x)
  {
    var last := |rs| - 1;
    if AtLeast(rs[0].from, x) && AtMost(rs[last].to, x) {
      var i := 0;
      while i < last && rs[i + 1].from.value.n <= x
        invariant 0 <= i <= last
        invariant AtLeast(rs[i].from, x)
      {
        i := i + 1;
      }
      assert Contains(rs[i], x);
    }
    if exists i :: 0 <= i < |rs| && Contains(rs[i], x) {
      var i :| 0 <= i < |rs| && Contains(rs[i], x);
      if i > 0 {
        FromsIncrease(rs, 1, i);
        assert AtLeast(rs[0].from, x);
      }
      if i < last {
        FromsIncrease(rs, i + 1, last);
        assert AtMost(rs[last].to, x);
      }
    }
  }

  predicate AllInts(values: seq<Num>) {
    forall k :: 0 <= k < |values| ==> values[k].Int?
  }

  lemma {:induction false} AscendingIncreases(values: seq<Num>, i: nat, j: nat)
    requires StrictlyAscending(values) && AllInts(values)
    requires i < j < |values|
    ensures values[i].n < values[j].n
    decreases j - i
  {
    if i + 1 < j {
      AscendingIncreases(values, i + 1, j);
    }
  }

  /** Every pair of values, not only neighbours, is in order. */
  predicate Increasing(values: seq<Num>) {
    forall i, j :: 0 <= i < j < |values| ==> Less(values[i], values[j])
  }

  lemma {:induction false} AscendingIsIncreasing(values: seq<Num>)
    requires StrictlyAscending(values) && AllInts(values)
    ensures Increasing(values)
  {
    forall i, j | 0 <= i < j < |values|
      ensures Less(values[i], values[j])
    {
      AscendingIncreases(values, i, j);
    }
  }

  /** Lower bounds and max in the order the ascending check demands: inner bounds are integers
      and every integer bound lies below every later one and below the max. */
  predicate OrderedBounds(froms: seq<Option<Num>>, max: Option<Num>) {
    && |froms| >= 1
    && (forall i :: 0 < i < |froms| ==> IsInt(froms[i]))
    && (froms[0].None? || IsInt(froms[0]))
    && (forall i, j :: 0 <= i < j < |froms| && IsInt(froms[i]) && IsInt(froms[j]) ==> froms[i].value.n < froms[j].value.n)
    && (max.None? || IsInt(max))
    && (forall i :: 0 <= i < |froms| && IsInt(froms[i]) && IsInt(max) ==> froms[i].value.n < max.value.n)
  }

  /** Where lower bound `i` sits among the collected values. */
  function ValueIndex(min: Option<Num>, i: nat): nat {
    if i == 0 then 0 else (if min.Some? then 1 else 0) + i - 1
  }

  /** Each integer lower bound is one of the collected values, before the max, and lower bounds
      further on sit further on. */
  lemma FromIsValue(min: Option<Num>, delims: seq<Num>, max: Option<Num>, i: nat)
    requires i < |delims| + 1 && Froms(min, delims)[i].Some?
    ensures var values := Values(min, delims, max);
      && ValueIndex(min, i) < |values| - (if max.Some? then 1 else 0)
      && Froms(min, delims)[i].value == values[ValueIndex(min, i)]
  {
    var values := Values(min, delims, max);
    var off := if min.Some? then 1 else 0;
    if i > 0 {
      assert values[off + i - 1] == delims[i - 1];
    }
  }

  /** The max is the last collected value. */
  lemma MaxIsLastValue(min: Option<Num>, delims: seq<Num>, max: Option<Num>)
    requires max.Some?
    ensures |Values(min, delims, max)| > 0 && Values(min, delims, max)[|Values(min, delims, max)| - 1] == max.value
  {
  }

  /** Ascending integer values give ordered lower bounds. */
  lemma {:induction false} BoundsOrdered(min: Option<Num>, delims: seq<Num>, max: Option<Num>)
    requires Increasing(Values(min, delims, max)) && AllInts(Values(min, delims, max))
    ensures OrderedBounds(Froms(min, delims), max)
  {
    var values := Values(min, delims, max);
    var froms := Froms(min, delims);
    forall i | 0 < i < |froms|
      ensures IsInt(froms[i])
    {
      FromIsValue(min, delims, max, i);
    }
    if froms[0].Some? {
      FromIsValue(min, delims, max, 0);
    }
    if max.Some? {
      MaxIsLastValue(min, delims, max);
    }
    forall i, j | 0 <= i < j < |froms| && IsInt(froms[i]) && IsInt(froms[j])
      ensures froms[i].value.n < froms[j].value.n
    {
      FromIsValue(min, delims, max, i);
      FromIsValue(min, delims, max, j);
      assert Less(values[ValueIndex(min, i)], values[ValueIndex(min, j)]);
    }
    forall i | 0 <= i < |froms| && IsInt(froms[i]) && IsInt(max)
      ensures froms[i].value.n < max.value.n
    {
      FromIsValue(min, delims, max, i);
      MaxIsLastValue(min, delims, max);
      assert Less(values[ValueIndex(min, i)], values[|values| - 1]);
    }
  }

  /** Ranges generated from ordered bounds are contiguous. */
  lemma {:induction false} GeneratedIsContiguous(previous: seq<Range>, froms: seq<Option<Num>>, max: Option<Num>)
    requires OrderedBounds(froms, max)
    ensures Contiguous(GenerateRanges(previous, froms, max))
  {
    var rs := GenerateRanges(previous, froms, max);
    GeneratedBounds(previous, froms, max);
    forall i | 0 <= i < |rs| - 1
      ensures IsInt(rs[i].to) && rs[i].to.value.n == rs[i + 1].from.value.n - 1
    {
      assert rs[i].to == Decrement(froms[i + 1]);
    }
    forall i | 0 <= i < |rs| && IsInt(rs[i].from) && IsInt(rs[i].to)
      ensures rs[i].from.value.n <= rs[i].to.value.n
    {
      if i < |rs| - 1 {
        assert rs[i].to == Decrement(froms[i + 1]);
        assert froms[i].value.n < froms[i + 1].value.n;
      }
    }
  }

  /** Materialised ranges over integer boundaries are contiguous. */
  lemma {:induction false} MaterialisedIsContiguous(step: Step, minText: JsValue, maxText: JsValue, delimiters: string)
    requires step.kind.Numeric?
    requires Materialises(minText, maxText, delimiters)
    requires AllInts(Values(ParseBound(minText), ParseDelimiters(delimiters), ParseBound(maxText)))
    ensures Contiguous(ChangeNumericRanges(step, minText, maxText, delimiters).kind.ranges)
  {
    var min, delims, max := ParseBound(minText), ParseDelimiters(delimiters), ParseBound(maxText);
    AscendingIsIncreasing(Values(min, delims, max));
    BoundsOrdered(min, delims, max);
    GeneratedIsContiguous(step.kind.ranges, Froms(min, delims), max);
  }

  /** After a materialising CHANGE_NUMERIC_RANGES over integer boundaries, every integer from
      the min (or from minus infinity) to the max (or to plus infinity) lies in exactly one of
      the new ranges, and no other integer lies in any. */
  lemma {:induction false} MaterialisedPartition(step: Step, minText: JsValue, maxText: JsValue, delimiters: string, x: int)
    requires step.kind.Numeric?
    requires Materialises(minText, maxText, delimiters)
    requires AllInts(Values(ParseBound(minText), ParseDelimiters(delimiters), ParseBound(maxText)))
    ensures var rs := ChangeNumericRanges(step, minText, maxText, delimiters).kind.ranges;
      && ((exists i :: 0 <= i < |rs| && Contains(rs[i], x)) <==> AtLeast(ParseBound(minText), x) && AtMost(ParseBound(maxText), x))
      && (forall i, j :: 0 <= i < j < |rs| ==> !(Contains(rs[i], x) && Contains(rs[j], x)))
  {
    var rs := ChangeNumericRanges(step, minText, maxText, delimiters).kind.ranges;
    assert |rs| >= 1 && rs[0].from == ParseBound(minText) && rs[|rs| - 1].to == ParseBound(maxText) by {
      MaterialisedRanges(step, minText, maxText, delimiters);
    }
    MaterialisedIsContiguous(step, minText, maxText, delimiters);
    ContiguousCovers(rs, x);
    forall i, j | 0 <= i < j < |rs|
      ensures !(Contains(rs[i], x) && Contains(rs[j], x))
    {
      ContiguousDisjoint(rs, x, i, j);
    }
  }
}
