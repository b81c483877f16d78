/** The retries histogram of a survey: the retry schedule as steps with delays and cumulative
    offsets, and the number of respondents active at each hour of the schedule. */
module RetriesHistogram {
  import opened Js

  /** A step of the schedule as the server sends it. */
  datatype FlowStep = FlowStep(delay: int, kind: string, caption: string)

  /** A step as the histogram shows it: adjusted delay, display type, and offset. */
  datatype ShownStep = ShownStep(delay: int, kind: string, caption: string, offset: int)

  /** The respondents waiting at one hour. */
  datatype Slot = Slot(hour: int, respondents: int)

  datatype Reference = Reference(caption: string, className: string)

  datatype Histogram = Histogram(actives: seq<int>, flow: seq<ShownStep>, references: seq<Reference>, quota: int)

  /** `translateType`: the voice channel and the final discard are named for display. */
  function TranslateType(kind: string): (r: string)
    ensures kind == "ivr" ==> r == "voice"
    ensures kind == "end" ==> r == "discard"
    ensures kind != "ivr" && kind != "end" ==> r == kind
  {
    if kind == "ivr" then "voice" else if kind == "end" then "discard" else kind
  }

  /** A zero delay counts as one hour, except on the first step. */
  function AdjustDelay(index: int, delay: int): (d: int)
    ensures index != 0 && delay == 0 ==> d == 1
    ensures index == 0 || delay != 0 ==> d == delay
  {
    if index != 0 && delay == 0 then 1 else delay
  }

  function AdjustedDelays(flow: seq<FlowStep>): (ds: seq<int>)
    ensures |ds| == |flow|
    ensures forall i :: 0 <= i < |flow| ==> ds[i] == AdjustDelay(i, flow[i].delay)
  {
    seq(|flow|, i requires 0 <= i < |flow| => AdjustDelay(i, flow[i].delay))
  }

  function Sum(xs: seq<int>): int {
    if xs == [] then 0 else Sum(xs[..|xs| - 1]) + xs[|xs| - 1]
  }

  /** The length `reduce` computes: every delay, a zero one counted as one hour. */
  function HistLength(delays: seq<int>): int {
    if delays == [] then 0
    else HistLength(delays[..|delays| - 1]) + (if delays[|delays| - 1] != 0 then delays[|delays| - 1] else 1)
  }

  /** Counting zeros as ones adds one hour per zero delay; after the adjustment only the first
      delay can be zero, so the histogram is one hour longer than the last offset exactly when
      the first step has no delay. */
  lemma {:induction false} HistLengthOfAdjusted(flow: seq<FlowStep>, n: nat)
    requires n <= |flow|
    ensures var ds := AdjustedDelays(flow)[..n];
      HistLength(ds) == Sum(ds) + (if n > 0 && flow[0].delay == 0 then 1 else 0)
  {
    if n > 0 {
      HistLengthOfAdjusted(flow, n - 1);
      var ds := AdjustedDelays(flow)[..n];
      assert ds[..n - 1] == AdjustedDelays(flow)[..n - 1];
    }
  }

  /** The array after `new Array(n)` and the loop writing `{value: 0}` into each slot. */
  function Zeros(n: nat): (z: seq<int>)
    ensures |z| == n && forall i :: 0 <= i < n ==> z[i] == 0
  {
    seq(n, i => 0)
  }

  /** The `forEach` over the active slots: each writes its count at its hour; an hour outside the
      array reads `undefined` and setting its value is a TypeError. */
  function Fill(actives: seq<int>, slots: seq<Slot>): (r: Outcome<seq<int>>)
    ensures r.Done? ==> |r.value| == |actives|
    ensures r.Done? <==> forall k :: 0 <= k < |slots| ==> 0 <= slots[k].hour < |actives|
    decreases |slots|
  {
    if slots == [] then Done(actives)
    else if !(0 <= slots[0].hour < |actives|) then Thrown("TypeError: Cannot set property 'value' of undefined")
    else
      var r := Fill(actives[slots[0].hour := slots[0].respondents], slots[1..]);
      assert forall k :: 1 <= k < |slots| ==> slots[k] == slots[1..][k - 1];
      r
  }

  /** The count the last slot at an hour wrote, if any. */
  function LastWrite(slots: seq<Slot>, hour: int): Option<int> {
    if slots == [] then None
    else
      var last := slots[|slots| - 1];
      if last.hour == hour then Some(last.respondents) else LastWrite(slots[..|slots| - 1], hour)
  }

  /** Writing one more slot after a sequence. */
  lemma {:induction false} FillAppend(actives: seq<int>, slots: seq<Slot>, slot: Slot)
    requires Fill(actives, slots).Done?
    ensures Fill(actives, slots + [slot]) ==
      if 0 <= slot.hour < |actives| then Done(Fill(actives, slots).value[slot.hour := slot.respondents])
      else Thrown("TypeError: Cannot set property 'value' of undefined")
    decreases |slots|
  {
    if slots == [] {
      assert [slot][1..] == [];
    } else {
      var next := actives[slots[0].hour := slots[0].respondents];
      assert (slots + [slot])[1..] == slots[1..] + [slot];
      FillAppend(next, slots[1..], slot);
    }
  }

  /** Every hour holds the count of the last slot written at it, and 0 when none was; a later slot
      at the same hour overwrites an earlier one. */
  lemma {:induction false} FillLastWriteWins(n: nat, slots: seq<Slot>, hour: int)
    requires Fill(Zeros(n), slots).Done? && 0 <= hour < n
    ensures Fill(Zeros(n), slots).value[hour] == if LastWrite(slots, hour).Some? then LastWrite(slots, hour).value else 0
  {
    if slots != [] {
      var init := slots[..|slots| - 1];
      var slot := slots[|slots| - 1];
      assert slots == init + [slot];
      assert Fill(Zeros(n), init).Done? by {
        assert forall k :: 0 <= k < |init| ==> init[k] == slots[k];
      }
      FillAppend(Zeros(n), init, slot);
      FillLastWriteWins(n, init, hour);
    }
  }

  /** The steps as shown: adjusted delays, display types, and each offset the sum of the adjusted
      delays up to and including its step. */
  function Shown(flow: seq<FlowStep>): (r: seq<ShownStep>)
    ensures |r| == |flow|
  {
    var ds := AdjustedDelays(flow);
    seq(|flow|, i requires 0 <= i < |flow| =>
      ShownStep(ds[i], TranslateType(flow[i].kind), flow[i].caption, Sum(ds[..i + 1])))
  }

  /** The `forEach` accumulating the offsets into the steps. */
  method ShowFlow(flow: seq<FlowStep>) returns (shown: seq<ShownStep>)
    ensures shown == Shown(flow)
  {
    var delays := AdjustedDelays(flow);
    shown := [];
    var offset := 0;
    for i := 0 to |flow|
      invariant |shown| == i && offset == Sum(delays[..i])
      invariant forall k :: 0 <= k < i ==> shown[k] == Shown(flow)[k]
    {
      assert delays[..i + 1][..i] == delays[..i];
      offset := offset + delays[i];
      shown := shown + [ShownStep(delays[i], TranslateType(flow[i].kind), flow[i].caption, offset)];
    }
  }

  /** The array of actives: zeroed by the `for` loop, then written slot by slot in place. */
  method FillActives(histLength: nat, slots: seq<Slot>) returns (r: Outcome<array<int>>)
    ensures r.Done? <==> Fill(Zeros(histLength), slots).Done?
    ensures r.Done? ==> fresh(r.value) && r.value[..] == Fill(Zeros(histLength), slots).value
  {
    var histActives := new int[histLength];
    for i := 0 to histLength
      invariant forall k :: 0 <= k < i ==> histActives[k] == 0
    {
      histActives[i] := 0;
    }
    assert histActives[..] == Zeros(histLength);
    for j := 0 to |slots|
      invariant Fill(histActives[..], slots[j..]) == Fill(Zeros(histLength), slots)
    {
      var slot := slots[j];
      assert slots[j..][0] == slot && slots[j..][1..] == slots[j + 1..];
      if !(0 <= slot.hour < histLength) {
        return Thrown("TypeError: Cannot set property 'value' of undefined");
      }
      histActives[slot.hour] := slot.respondents;
    }
    assert slots[|slots|..] == [];
    r := Done(histActives);
  }

  /** Each offset after the first adds the step's own delay, at least one hour when the delays are
      not negative; the first offset is the first delay. */
  lemma OffsetsIncrease(flow: seq<FlowStep>, k: int)
    requires 0 < k < |flow|
    requires forall i :: 0 <= i < |flow| ==> flow[i].delay >= 0
    ensures Shown(flow)[0].offset == flow[0].delay
    ensures Shown(flow)[k].offset == Shown(flow)[k - 1].offset + Shown(flow)[k].delay
    ensures Shown(flow)[k].offset > Shown(flow)[k - 1].offset
  {
    var ds := AdjustedDelays(flow);
    assert ds[..k + 1][..k] == ds[..k];
    assert Sum(ds[..1]) == Sum(ds[..1][..0]) + ds[0];
    assert ds[..1][..0] == [];
  }

  /** The histogram covers the schedule up to the last offset, with one more hour when the first
      step has no delay. */
  lemma HistLengthAndLastOffset(flow: seq<FlowStep>)
    requires |flow| > 0
    ensures HistLength(AdjustedDelays(flow)) ==
      Shown(flow)[|flow| - 1].offset + (if flow[0].delay == 0 then 1 else 0)
  {
    HistLengthOfAdjusted(flow, |flow|);
    assert AdjustedDelays(flow)[..|flow|] == AdjustedDelays(flow);
  }

  /** `getHistogram`: the shown flow, and the actives over as many hours as the schedule lasts. */
  method GetHistogram(flow: seq<FlowStep>, slots: seq<Slot>) returns (r: Outcome<Histogram>)
    ensures HistLength(AdjustedDelays(flow)) < 0 ==> r.Thrown?
    ensures HistLength(AdjustedDelays(flow)) >= 0 ==>
      (r.Done? <==> Fill(Zeros(HistLength(AdjustedDelays(flow))), slots).Done?)
    ensures r.Done? ==>
      && r.value.actives == Fill(Zeros(HistLength(AdjustedDelays(flow))), slots).value
      && r.value.flow == Shown(flow)
      && r.value.quota == 100
  {
    var shown := ShowFlow(flow);
    var histLength := HistLength(AdjustedDelays(flow));
    if histLength < 0 {
      return Thrown("RangeError: Invalid array length");
    }
    var actives := FillActives(histLength, slots);
    if actives.Thrown? {
      return Thrown(actives.message);
    }
    r := Done(Histogram(actives.value[..], shown, [Reference("Trying", "trying"), Reference("Stand by", "standby")], 100));
  }

  /** The completes of a rendered histogram: none for each hour. */
  function Completes(actives: seq<int>): (r: seq<bool>)
    ensures |r| == |actives| && forall i :: 0 <= i < |r| ==> !r[i]
  {
    seq(|actives|, i => false)
  }

  /** The time windows of a rendered histogram: open at each hour. */
  function Timewindows(actives: seq<int>): (r: seq<bool>)
    ensures |r| == |actives| && forall i :: 0 <= i < |r| ==> r[i]
  {
    seq(|actives|, i => true)
  }
}
