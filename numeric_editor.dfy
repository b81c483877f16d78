/** The numeric step editor: its form state (the step's bounds and delimiters as editable text),
    the delimiters text it derives from the ranges, and the actions it emits. */
module NumericEditor {
  import opened Js
  import opened QuestionnaireModel
  import N = NumericRanges
  import E = StepEdits
  import R = QuestionnaireReducer

  // ---------------------------------------------------------------------------
  // delimitersFromRanges

  /** The `from` of every range but the first, as `join` renders it. */
  function DelimiterTexts(ranges: seq<Range>): (r: seq<string>)
    ensures |ranges| <= 1 ==> r == []
    ensures |ranges| > 1 ==> |r| == |ranges| - 1 && forall k :: 0 <= k < |r| ==> r[k] == NumText(ranges[k + 1].from)
  {
    if |ranges| <= 1 then []
    else seq(|ranges| - 1, k requires 0 <= k < |ranges| - 1 => NumText(ranges[k + 1].from))
  }

  /** `delimitersFromRanges(ranges)` */
  function DelimitersFromRanges(ranges: seq<Range>): string {
    Join(DelimiterTexts(ranges), ",")
  }

  /** The loop as written: push the `from` of every range after the first, then join. */
  method DelimitersOf(ranges: seq<Range>) returns (text: string)
    ensures text == DelimitersFromRanges(ranges)
  {
    var delimiters: seq<string> := [];
    var index := 0;
    while index < |ranges|
      invariant 0 <= index <= |ranges|
      invariant |delimiters| == if index == 0 then 0 else index - 1
      invariant forall k :: 0 <= k < |delimiters| ==> delimiters[k] == NumText(ranges[k + 1].from)
    {
      if index > 0 {
        delimiters := delimiters + [NumText(ranges[index].from)];
      }
      index := index + 1;
    }
    assert delimiters == DelimiterTexts(ranges);
    text := Join(delimiters, ",");
  }

  /** Zero or one range has no delimiters. */
  lemma NoDelimiters(ranges: seq<Range>)
    requires |ranges| <= 1
    ensures DelimitersFromRanges(ranges) == ""
  {
  }

  /** No integer's text holds a comma. */
  lemma {:induction false} NoCommaInInteger(n: int)
    ensures ',' !in IntToString(n)
  {
    var digits := NatToString(if n < 0 then -n else n);
    assert forall i :: 0 <= i < |digits| ==> IsDigit(digits[i]);
    if n < 0 {
      assert IntToString(n) == "-" + digits;
    }
  }

  /** The texts of integer delimiters, as `join` renders them. */
  function IntegerTexts(delims: seq<Num>): (r: seq<string>)
    requires forall k :: 0 <= k < |delims| ==> delims[k].Int?
    ensures |r| == |delims| && forall k :: 0 <= k < |r| ==> r[k] == IntToString(delims[k].n)
  {
    seq(|delims|, k requires 0 <= k < |delims| => IntToString(delims[k].n))
  }

  /** The canonical text of integer delimiters, "d1,...,dk". */
  function DelimitersText(delims: seq<Num>): string
    requires forall k :: 0 <= k < |delims| ==> delims[k].Int?
  {
    Join(IntegerTexts(delims), ",")
  }

  /** A joined text is at least as long as its first part. */
  lemma JoinCoversFirst(parts: seq<string>)
    requires |parts| >= 1
    ensures |Join(parts, ",")| >= |parts[0]|
  {
  }

  /** The canonical text of integer delimiters parses back to them. */
  lemma IntegerDelimitersParse(delims: seq<Num>)
    requires forall k :: 0 <= k < |delims| ==> delims[k].Int?
    ensures N.ParseDelimiters(DelimitersText(delims)) == delims
  {
    var texts := IntegerTexts(delims);
    if |delims| > 0 {
      forall k | 0 <= k < |texts|
        ensures ',' !in texts[k] && ParseInt(texts[k]) == delims[k]
      {
        NoCommaInInteger(delims[k].n);
        ParseIntOfIntToString(delims[k].n);
      }
      SplitJoin(texts, ',');
      JoinCoversFirst(texts);
    }
  }

  /** The ranges CHANGE_NUMERIC_RANGES generates show their delimiters again. */
  lemma {:induction false} MaterialisedDelimiters(step: Step, minText: JsValue, maxText: JsValue, delimiters: string, delims: seq<Num>)
    requires step.kind.Numeric? && N.Materialises(minText, maxText, delimiters)
    requires delims == N.ParseDelimiters(delimiters)
    requires forall k :: 0 <= k < |delims| ==> delims[k].Int?
    ensures N.ChangeNumericRanges(step, minText, maxText, delimiters).kind.Numeric?
    ensures DelimiterTexts(N.ChangeNumericRanges(step, minText, maxText, delimiters).kind.ranges) == IntegerTexts(delims)
  {
    var ranges := N.ChangeNumericRanges(step, minText, maxText, delimiters).kind.ranges;
    N.MaterialisedRanges(step, minText, maxText, delimiters);
    var texts := DelimiterTexts(ranges);
    assert |texts| == |delims|;
    forall k | 0 <= k < |texts|
      ensures texts[k] == IntToString(delims[k].n)
    {
      assert ranges[k + 1].from == Some(delims[k]);
    }
  }

  /** After a CHANGE_NUMERIC_RANGES that generated the ranges from integer delimiters d1..dk,
      the editor shows "d1,...,dk"; parsing that text again gives the same delimiters. */
  lemma DelimitersRoundTrip(step: Step, minText: JsValue, maxText: JsValue, delimiters: string)
    requires step.kind.Numeric? && N.Materialises(minText, maxText, delimiters)
    requires forall k :: 0 <= k < |N.ParseDelimiters(delimiters)| ==> N.ParseDelimiters(delimiters)[k].Int?
    ensures var ranges := N.ChangeNumericRanges(step, minText, maxText, delimiters).kind.ranges;
      && DelimitersFromRanges(ranges) == DelimitersText(N.ParseDelimiters(delimiters))
      && N.ParseDelimiters(DelimitersFromRanges(ranges)) == N.ParseDelimiters(delimiters)
  {
    MaterialisedDelimiters(step, minText, maxText, delimiters, N.ParseDelimiters(delimiters));
    IntegerDelimitersParse(N.ParseDelimiters(delimiters));
  }

  // ---------------------------------------------------------------------------
  // stateFromProps

  /** The fields of a numeric step the editor reads; `ranges` may be missing in what the server
      sends. */
  datatype NumericProps = NumericProps(id: string, minValue: Option<Num>, maxValue: Option<Num>, ranges: Option<seq<Range>>)

  /** `step.minValue == null ? '' : step.minValue`: the number itself is kept. */
  function BoundAsWritten(bound: Option<Num>): (v: JsValue)
    ensures bound.None? ==> v == JStr("")
    ensures bound.Some? ==> v == JNum(bound.value)
  {
    if bound.None? then JStr("") else JNum(bound.value)
  }

  /** A stored minimum of 0, shown unchanged and submitted again with another field, comes back
      as no minimum: the reducer reads the number 0 as falsy. */
  lemma ZeroBoundLost()
    ensures N.ParseBound(BoundAsWritten(Some(Int(0)))) == None
  {
  }

  /** A bound held as written comes back from the reducer unchanged unless it is falsy: 0 and
      NaN are lost. */
  lemma BoundAsWrittenParsed(bound: Option<Num>)
    ensures N.ParseBound(BoundAsWritten(bound)) == (if bound in {Some(Int(0)), Some(NaN)} then None else bound)
  {
    match bound
    case None =>
    case Some(Int(k)) =>
      if k == 0 {
        assert bound in {Some(Int(0)), Some(NaN)};
      }
    case Some(NaN) =>
      assert bound in {Some(Int(0)), Some(NaN)};
  }

  /** The bound as the text of its number, as an input shows it; null stays ''. */
  function BoundText(bound: Option<Num>): (v: JsValue)
    ensures v.JStr? && (bound.None? <==> v.s == "")
  {
    JStr(NumText(bound))
  }

  /** "NaN" parses as NaN. */
  lemma ParseNaNText()
    ensures ParseInt("NaN") == NaN
  {
    assert !IsSpace('N') && !IsDigit('N');
    assert TrimStart("NaN") == "NaN";
    assert DigitPrefix("NaN") == "";
  }

  /** A bound shown as text and submitted unchanged is the bound again, 0 included. */
  lemma BoundTextRoundTrip(bound: Option<Num>)
    ensures N.ParseBound(BoundText(bound)) == bound
  {
    match bound
    case None =>
    case Some(Int(k)) =>
      ParseIntOfIntToString(k);
    case Some(NaN) =>
      ParseNaNText();
  }

  /** The form state of the editor. */
  class Editor {
    var stepId: string
    var minValue: JsValue
    var maxValue: JsValue
    var rangesDelimiters: string
    var ranges: seq<Range>

    /** `stateFromProps`, with the bounds held as text: a null bound is '', missing ranges are none
        and give no delimiters. */
    constructor (props: NumericProps)
      ensures stepId == props.id
      ensures minValue == BoundText(props.minValue) && maxValue == BoundText(props.maxValue)
      ensures ranges == (if props.ranges.Some? then props.ranges.value else [])
      ensures rangesDelimiters == (if props.ranges.Some? then DelimitersFromRanges(props.ranges.value) else "")
    {
      stepId := props.id;
      minValue := BoundText(props.minValue);
      maxValue := BoundText(props.maxValue);
      ranges := if props.ranges.Some? then props.ranges.value else [];
      var delimiters := "";
      if props.ranges.Some? {
        delimiters := DelimitersOf(props.ranges.value);
      }
      rangesDelimiters := delimiters;
    }

    /** `stateFromProps` as written: a stored bound is held as the number itself. */
    constructor AsWritten(props: NumericProps)
      ensures stepId == props.id
      ensures minValue == BoundAsWritten(props.minValue) && maxValue == BoundAsWritten(props.maxValue)
      ensures ranges == (if props.ranges.Some? then props.ranges.value else [])
      ensures rangesDelimiters == (if props.ranges.Some? then DelimitersFromRanges(props.ranges.value) else "")
    {
      stepId := props.id;
      minValue := BoundAsWritten(props.minValue);
      maxValue := BoundAsWritten(props.maxValue);
      ranges := if props.ranges.Some? then props.ranges.value else [];
      var delimiters := "";
      if props.ranges.Some? {
        delimiters := DelimitersOf(props.ranges.value);
      }
      rangesDelimiters := delimiters;
    }

    /** `minValueChange`: the typed text replaces the minimum. */
    method MinValueChange(text: string)
      modifies this
      ensures minValue == JStr(text)
      ensures stepId == old(stepId) && maxValue == old(maxValue) && rangesDelimiters == old(rangesDelimiters) && ranges == old(ranges)
    {
      minValue := JStr(text);
    }

    /** `maxValueChange` */
    method MaxValueChange(text: string)
      modifies this
      ensures maxValue == JStr(text)
      ensures stepId == old(stepId) && minValue == old(minValue) && rangesDelimiters == old(rangesDelimiters) && ranges == old(ranges)
    {
      maxValue := JStr(text);
    }

    /** `rangesDelimitersChange` */
    method RangesDelimitersChange(text: string)
      modifies this
      ensures rangesDelimiters == text
      ensures stepId == old(stepId) && minValue == old(minValue) && maxValue == old(maxValue) && ranges == old(ranges)
    {
      rangesDelimiters := text;
    }

    /** The three submits: CHANGE_NUMERIC_RANGES with the whole form. */
    method Submit() returns (op: R.Op)
      ensures op == R.ChangeNumericRanges(stepId, minValue, maxValue, rangesDelimiters)
    {
      op := R.ChangeNumericRanges(stepId, minValue, maxValue, rangesDelimiters);
    }

    /** `skipLogicChange`: replace the skip logic of one range of the form, then emit
        CHANGE_RANGE_SKIP_LOGIC with it. The index is one of the ranges shown. */
    method SkipLogicChange(skipOption: Option<string>, rangeIndex: int) returns (op: R.Op)
      requires 0 <= rangeIndex < |ranges|
      modifies this
      ensures ranges == old(ranges)[rangeIndex := old(ranges)[rangeIndex].(skipLogic := skipOption)]
      ensures stepId == old(stepId) && minValue == old(minValue) && maxValue == old(maxValue)
      ensures rangesDelimiters == old(rangesDelimiters)
      ensures op == R.ChangeRangeSkipLogic(stepId, skipOption, rangeIndex)
    {
      ranges := E.WithSkipLogic(ranges, skipOption, rangeIndex);
      op := R.ChangeRangeSkipLogic(stepId, ranges[rangeIndex].skipLogic, rangeIndex);
    }
  }

  /** What the editor reads of a numeric step of the questionnaire. */
  function PropsOf(step: Step): NumericProps
    requires step.kind.Numeric?
  {
    NumericProps(step.id, step.kind.minValue, step.kind.maxValue, Some(step.kind.ranges))
  }

  /** CHANGE_NUMERIC_RANGES on a numeric step of the questionnaire replaces that step, and only
      it, by the edited step. */
  lemma ReduceNumericRanges(q: Questionnaire, op: R.Op)
    requires op.ChangeNumericRanges? && HasStep(q.steps, op.stepId) && q.steps[FindStep(q.steps, op.stepId)].kind.Numeric?
    ensures R.Applicable(q, op)
    ensures var k := FindStep(q.steps, op.stepId);
      R.Reduce(q, op) == Done(q.(steps := q.steps[k := R.EditStep(q, op, q.steps[k]).value]))
  {
  }

  /** The edited numeric step has the parsed texts as its bounds and the submitted delimiters. */
  lemma EditedBounds(q: Questionnaire, op: R.Op, step: Step)
    requires op.ChangeNumericRanges? && step.kind.Numeric?
    ensures var t := R.EditStep(q, op, step);
      && t.Done? && t.value.kind.Numeric?
      && t.value.kind.minValue == N.ParseBound(op.minValue) && t.value.kind.maxValue == N.ParseBound(op.maxValue)
      && t.value.kind.rangesDelimiters == Some(op.rangesDelimiters)
      && t.value.(kind := step.kind) == step
  {
  }

  /** The editor opened on a numeric step and submitted with no field edited: the reducer keeps
      the step's bounds, whether or not the ascending check regenerates the ranges, and stores
      the delimiters the form showed; no other step and no other field changes. */
  method ResubmitLoaded(q: Questionnaire, stepId: string) returns (r: Outcome<Questionnaire>)
    requires HasStep(q.steps, stepId) && q.steps[FindStep(q.steps, stepId)].kind.Numeric?
    ensures var k := FindStep(q.steps, stepId);
      var s := q.steps[k];
      && r.Done? && |r.value.steps| == |q.steps|
      && r.value == q.(steps := q.steps[k := r.value.steps[k]])
      && r.value.steps[k].kind.Numeric?
      && r.value.steps[k].kind.minValue == s.kind.minValue
      && r.value.steps[k].kind.maxValue == s.kind.maxValue
      && r.value.steps[k].kind.rangesDelimiters == Some(DelimitersFromRanges(s.kind.ranges))
      && r.value.steps[k].(kind := s.kind) == s
  {
    var s := q.steps[FindStep(q.steps, stepId)];
    var editor := new Editor(PropsOf(s));
    var op := editor.Submit();
    BoundTextRoundTrip(s.kind.minValue);
    BoundTextRoundTrip(s.kind.maxValue);
    ReduceNumericRanges(q, op);
    EditedBounds(q, op, s);
    r := R.Reduce(q, op);
  }

  /** The same with the form as written: a bound of 0 (or NaN) is submitted as that number, the
      reducer reads it as falsy, and the step loses it; every other bound is kept. */
  method ResubmitLoadedAsWritten(q: Questionnaire, stepId: string) returns (r: Outcome<Questionnaire>)
    requires HasStep(q.steps, stepId) && q.steps[FindStep(q.steps, stepId)].kind.Numeric?
    ensures var k := FindStep(q.steps, stepId);
      var s := q.steps[k];
      && r.Done? && |r.value.steps| == |q.steps|
      && r.value == q.(steps := q.steps[k := r.value.steps[k]])
      && r.value.steps[k].kind.Numeric?
      && r.value.steps[k].kind.minValue == (if s.kind.minValue in {Some(Int(0)), Some(NaN)} then None else s.kind.minValue)
      && r.value.steps[k].kind.maxValue == (if s.kind.maxValue in {Some(Int(0)), Some(NaN)} then None else s.kind.maxValue)
      && r.value.steps[k].kind.rangesDelimiters == Some(DelimitersFromRanges(s.kind.ranges))
      && r.value.steps[k].(kind := s.kind) == s
  {
    var s := q.steps[FindStep(q.steps, stepId)];
    var editor := new Editor.AsWritten(PropsOf(s));
    var op := editor.Submit();
    BoundAsWrittenParsed(s.kind.minValue);
    BoundAsWrittenParsed(s.kind.maxValue);
    ReduceNumericRanges(q, op);
    EditedBounds(q, op, s);
    r := R.Reduce(q, op);
  }

  /** The ranges a form keeps after a skip-logic change are exactly those CHANGE_RANGE_SKIP_LOGIC
      computes for the step, so form and store agree. */
  lemma SkipLogicAgrees(step: Step, skipOption: Option<string>, rangeIndex: int)
    requires step.kind.Numeric? && 0 <= rangeIndex < |step.kind.ranges|
    ensures E.ChangeRangeSkipLogic(step, skipOption, rangeIndex).Done?
    ensures E.ChangeRangeSkipLogic(step, skipOption, rangeIndex).value.kind.ranges ==
      E.WithSkipLogic(step.kind.ranges, skipOption, rangeIndex)
    ensures var rs := E.WithSkipLogic(step.kind.ranges, skipOption, rangeIndex);
      && |rs| == |step.kind.ranges| && rs[rangeIndex].skipLogic == skipOption
      && rs[rangeIndex].from == step.kind.ranges[rangeIndex].from && rs[rangeIndex].to == step.kind.ranges[rangeIndex].to
      && forall k :: 0 <= k < |rs| && k != rangeIndex ==> rs[k] == step.kind.ranges[k]
  {
  }
}
