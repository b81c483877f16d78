/** `csvForTranslation`: the texts of a questionnaire as a matrix of cells, one column per
    language (the default language first) and one row per distinct text of the default language:
    SMS prompts, voice prompts and the SMS responses of choices. Cells are the text between double
    quotes, with no escaping of quotes inside it. */
module TranslationCsv {
  import opened Js
  import opened QuestionnaireModel

  /** A cell; `None` is the `undefined` the voice-prompt row leaves for a language without a
      voice prompt. */
  type Cell = Option<string>

  type Row = seq<Cell>

  /** `` `"${s}"` `` */
  function Quote(s: string): (r: string)
    ensures |r| == |s| + 2 && r[0] == '"' && r[|r| - 1] == '"' && r[1..|r| - 1] == s
  {
    "\"" + s + "\""
  }

  /** The text inside a quoted cell. */
  function Unquote(s: string): string {
    if |s| < 2 then s else s[1..|s| - 1]
  }

  lemma UnquoteQuote(s: string)
    ensures Unquote(Quote(s)) == s
  {
  }

  /** The default language, then the other languages in their order. */
  function Headers(q: Questionnaire): (h: seq<string>)
    ensures |h| >= 1 && h[0] == q.defaultLanguage
    ensures forall l :: l in h[1..] <==> l in q.languages && l != q.defaultLanguage
    ensures multiset(h[1..]) == multiset(q.languages)[q.defaultLanguage := 0]
  {
    WithoutCounts(q.languages, q.defaultLanguage);
    [q.defaultLanguage] + Without(q.languages, q.defaultLanguage)
  }

  /** The other languages keep their order: a questionnaire with only its default language has
      the one column, and one more language adds its column last unless it is the default. */
  lemma HeadersInOrder(q: Questionnaire, language: string)
    ensures Headers(q.(languages := [])) == [q.defaultLanguage]
    ensures Headers(q.(languages := q.languages + [language])) ==
      Headers(q) + (if language == q.defaultLanguage then [] else [language])
  {
    WithoutAppend(q.languages, [language], q.defaultLanguage);
    assert [language][1..] == [];
  }

  function HeaderRow(headers: seq<string>): (r: Row)
    ensures |r| == |headers| && forall k :: 0 <= k < |r| ==> r[k] == Some(Quote(headers[k]))
  {
    seq(|headers|, k requires 0 <= k < |headers| => Some(Quote(headers[k])))
  }

  /** `"${text}"` of a possibly absent text. */
  function TextCell(text: Option<string>): string {
    if text.Some? then Quote(text.value) else Quote("undefined")
  }

  /** The SMS prompt of a language when it is a non-empty string, else `""`. */
  function SmsCell(prompt: Prompt, lang: string): Cell {
    if lang in prompt && prompt[lang].sms.Some? && prompt[lang].sms.value != "" then Some(Quote(prompt[lang].sms.value))
    else Some(Quote(""))
  }

  /** The voice text of a language with a voice prompt; none otherwise. */
  function IvrCell(prompt: Prompt, lang: string): Cell {
    if lang in prompt && prompt[lang].ivr.Some? then Some(TextCell(prompt[lang].ivr.value.text)) else None
  }

  function SmsRow(prompt: Prompt, headers: seq<string>): (r: Row)
    ensures |r| == |headers| && forall k :: 0 <= k < |r| ==> r[k] == SmsCell(prompt, headers[k])
  {
    seq(|headers|, k requires 0 <= k < |headers| => SmsCell(prompt, headers[k]))
  }

  function IvrRow(prompt: Prompt, headers: seq<string>): (r: Row)
    ensures |r| == |headers| && forall k :: 0 <= k < |r| ==> r[k] == IvrCell(prompt, headers[k])
  {
    seq(|headers|, k requires 0 <= k < |headers| => IvrCell(prompt, headers[k]))
  }

  /** The SMS responses of a language joined with ", ", `""` without that language; a language
      entry without an SMS list is a TypeError. */
  function ChoiceCell(choice: Choice, lang: string): Outcome<Cell> {
    if lang !in choice.responses then Done(Some(Quote("")))
    else if choice.responses[lang].sms.None? then Thrown("TypeError: choice.responses[lang].sms is undefined")
    else Done(Some(Quote(Join(choice.responses[lang].sms.value, ", "))))
  }

  /** `headers.map(...)` for a choice: the first TypeError ends it. */
  function ChoiceRow(choice: Choice, headers: seq<string>): (r: Outcome<Row>)
    ensures r.Done? ==> |r.value| == |headers|
    ensures r.Done? ==> forall k :: 0 <= k < |headers| ==> ChoiceCell(choice, headers[k]) == Done(r.value[k])
  {
    if headers == [] then Done([])
    else
      match ChoiceCell(choice, headers[0])
      case Thrown(e) => Thrown(e)
      case Done(cell) =>
        match ChoiceRow(choice, headers[1..])
        case Thrown(e) => Thrown(e)
        case Done(rest) => Done([cell] + rest)
  }

  /** The key of the SMS prompt row: the default-language SMS text when it is not blank. */
  function SmsKey(prompt: Prompt, dl: string): (key: Option<string>)
    ensures key.Some? ==> |Trim(key.value)| != 0
  {
    if dl in prompt && prompt[dl].sms.Some? && prompt[dl].sms.value != "" && |Trim(prompt[dl].sms.value)| != 0
    then prompt[dl].sms else None
  }

  /** The key of the voice prompt row: the default-language voice text when it is not blank. */
  function IvrKey(prompt: Prompt, dl: string): (key: Option<string>)
    ensures key.Some? ==> |Trim(key.value)| != 0
  {
    if dl in prompt && prompt[dl].ivr.Some? && prompt[dl].ivr.value.text.Some?
       && prompt[dl].ivr.value.text.value != "" && |Trim(prompt[dl].ivr.value.text.value)| != 0
    then prompt[dl].ivr.value.text else None
  }

  /** The rows so far and the texts already exported, in the order of their rows. */
  datatype Export = Export(rows: seq<Row>, exported: seq<string>)

  /** Add a row for a text not exported yet. */
  function Offer(e: Export, key: string, row: Row): (r: Export)
    ensures key in e.exported ==> r == e
    ensures key !in e.exported ==> r.rows == e.rows + [row] && r.exported == e.exported + [key]
  {
    if key in e.exported then e else Export(e.rows + [row], e.exported + [key])
  }

  /** The rows of one choice: its default-language SMS responses, joined, when they are not blank
      and not exported yet. A choice without default-language responses is a TypeError. */
  function ExportChoice(e: Export, choice: Choice, dl: string, headers: seq<string>): Outcome<Export> {
    if dl !in choice.responses then Thrown("TypeError: choice.responses[defaultLang] is undefined")
    else if choice.responses[dl].sms.None? then Thrown("TypeError: choice.responses[defaultLang].sms is undefined")
    else
      var key := Join(choice.responses[dl].sms.value, ", ");
      if |Trim(key)| == 0 || key in e.exported then Done(e)
      else
        match ChoiceRow(choice, headers)
        case Thrown(m) => Thrown(m)
        case Done(row) => Done(Export(e.rows + [row], e.exported + [key]))
  }

  function ExportChoices(e: Export, choices: seq<Choice>, dl: string, headers: seq<string>): Outcome<Export>
    decreases |choices|
  {
    if choices == [] then Done(e)
    else
      match ExportChoice(e, choices[0], dl, headers)
      case Thrown(m) => Thrown(m)
      case Done(e') => ExportChoices(e', choices[1..], dl, headers)
  }

  /** The SMS and voice prompt rows of a step that has a prompt. */
  function ExportPrompt(e: Export, prompt: Prompt, dl: string, headers: seq<string>): Export {
    var afterSms := if SmsKey(prompt, dl).Some? then Offer(e, SmsKey(prompt, dl).value, SmsRow(prompt, headers)) else e;
    if IvrKey(prompt, dl).Some? then Offer(afterSms, IvrKey(prompt, dl).value, IvrRow(prompt, headers)) else afterSms
  }

  /** The rows of one step: none for the language selection; reading the prompt of a step without
      one is a TypeError. */
  function ExportStep(e: Export, step: Step, dl: string, headers: seq<string>): Outcome<Export> {
    if step.kind.LanguageSelection? then Done(e)
    else if step.prompt.None? then Thrown("TypeError: step.prompt is undefined")
    else
      var e' := ExportPrompt(e, step.prompt.value, dl, headers);
      if step.kind.MultipleChoice? then ExportChoices(e', step.kind.choices, dl, headers) else Done(e')
  }

  function ExportSteps(e: Export, steps: seq<Step>, dl: string, headers: seq<string>): Outcome<Export>
    decreases |steps|
  {
    if steps == [] then Done(e)
    else
      match ExportStep(e, steps[0], dl, headers)
      case Thrown(m) => Thrown(m)
      case Done(e') => ExportSteps(e', steps[1..], dl, headers)
  }

  /** `csvForTranslation(questionnaire)` */
  function CsvForTranslation(q: Questionnaire): Outcome<seq<Row>> {
    var headers := Headers(q);
    match ExportSteps(Export([HeaderRow(headers)], []), q.steps, q.defaultLanguage, headers)
    case Thrown(m) => Thrown(m)
    case Done(e) => Done(e.rows)
  }

  // ---------------------------------------------------------------------------
  // the shape of the result

  /** The header row first, then one row per exported text, as wide as the header row, with
      the quoted text in its first cell; the texts are distinct and not blank. */
  predicate Consistent(e: Export, headers: seq<string>) {
    && |e.rows| == |e.exported| + 1 && |headers| >= 1
    && e.rows[0] == HeaderRow(headers)
    && (forall i :: 0 <= i < |e.rows| ==> |e.rows[i]| == |headers|)
    && (forall i :: 0 <= i < |e.exported| ==> e.rows[i + 1][0] == Some(Quote(e.exported[i])))
    && (forall i :: 0 <= i < |e.exported| ==> |Trim(e.exported[i])| != 0)
    && (forall i, j :: 0 <= i < j < |e.exported| ==> e.exported[i] != e.exported[j])
  }

  /** Adding a row for a new non-blank text, quoted in its first cell, keeps the shape. */
  lemma OfferKeeps(e: Export, key: string, row: Row, headers: seq<string>)
    requires Consistent(e, headers) && |row| == |headers| && row[0] == Some(Quote(key)) && |Trim(key)| != 0
    ensures Consistent(Offer(e, key, row), headers)
    ensures key in Offer(e, key, row).exported && (forall k :: k in e.exported ==> k in Offer(e, key, row).exported)
  {
  }

  lemma ExportPromptKeeps(e: Export, prompt: Prompt, dl: string, headers: seq<string>)
    requires Consistent(e, headers) && headers[0] == dl
    ensures Consistent(ExportPrompt(e, prompt, dl, headers), headers)
    ensures forall k :: k in e.exported ==> k in ExportPrompt(e, prompt, dl, headers).exported
    ensures SmsKey(prompt, dl).Some? ==> SmsKey(prompt, dl).value in ExportPrompt(e, prompt, dl, headers).exported
    ensures IvrKey(prompt, dl).Some? ==> IvrKey(prompt, dl).value in ExportPrompt(e, prompt, dl, headers).exported
  {
    var afterSms := e;
    if SmsKey(prompt, dl).Some? {
      var row := SmsRow(prompt, headers);
      assert row[0] == SmsCell(prompt, dl);
      OfferKeeps(e, SmsKey(prompt, dl).value, row, headers);
      afterSms := Offer(e, SmsKey(prompt, dl).value, row);
    }
    if IvrKey(prompt, dl).Some? {
      var row := IvrRow(prompt, headers);
      assert row[0] == IvrCell(prompt, dl);
      OfferKeeps(afterSms, IvrKey(prompt, dl).value, row, headers);
    }
  }

  lemma ExportChoiceKeeps(e: Export, choice: Choice, dl: string, headers: seq<string>)
    requires Consistent(e, headers) && headers[0] == dl
    requires ExportChoice(e, choice, dl, headers).Done?
    ensures Consistent(ExportChoice(e, choice, dl, headers).value, headers)
    ensures forall k :: k in e.exported ==> k in ExportChoice(e, choice, dl, headers).value.exported
  {
    var key := Join(choice.responses[dl].sms.value, ", ");
    if |Trim(key)| != 0 && key !in e.exported {
      var row := ChoiceRow(choice, headers).value;
      assert ChoiceCell(choice, headers[0]) == Done(row[0]);
      OfferKeeps(e, key, row, headers);
    }
  }

  lemma {:induction false} ExportChoicesKeeps(e: Export, choices: seq<Choice>, dl: string, headers: seq<string>)
    requires Consistent(e, headers) && headers[0] == dl
    requires ExportChoices(e, choices, dl, headers).Done?
    ensures Consistent(ExportChoices(e, choices, dl, headers).value, headers)
    ensures forall k :: k in e.exported ==> k in ExportChoices(e, choices, dl, headers).value.exported
    decreases |choices|
  {
    if choices != [] {
      ExportChoiceKeeps(e, choices[0], dl, headers);
      ExportChoicesKeeps(ExportChoice(e, choices[0], dl, headers).value, choices[1..], dl, headers);
    }
  }

  lemma ExportStepKeeps(e: Export, step: Step, dl: string, headers: seq<string>)
    requires Consistent(e, headers) && headers[0] == dl
    requires ExportStep(e, step, dl, headers).Done?
    ensures Consistent(ExportStep(e, step, dl, headers).value, headers)
    ensures forall k :: k in e.exported ==> k in ExportStep(e, step, dl, headers).value.exported
  {
    if !step.kind.LanguageSelection? {
      ExportPromptKeeps(e, step.prompt.value, dl, headers);
      if step.kind.MultipleChoice? {
        ExportChoicesKeeps(ExportPrompt(e, step.prompt.value, dl, headers), step.kind.choices, dl, headers);
      }
    }
  }

  lemma {:induction false} ExportStepsKeeps(e: Export, steps: seq<Step>, dl: string, headers: seq<string>)
    requires Consistent(e, headers) && headers[0] == dl
    requires ExportSteps(e, steps, dl, headers).Done?
    ensures Consistent(ExportSteps(e, steps, dl, headers).value, headers)
    ensures forall k :: k in e.exported ==> k in ExportSteps(e, steps, dl, headers).value.exported
    decreases |steps|
  {
    if steps != [] {
      ExportStepKeeps(e, steps[0], dl, headers);
      ExportStepsKeeps(ExportStep(e, steps[0], dl, headers).value, steps[1..], dl, headers);
    }
  }

  /** The matrix: the quoted language codes first, then rows as wide as the header row, each for
      a distinct non-blank default-language text, quoted in the first column. */
  lemma CsvShape(q: Questionnaire)
    requires CsvForTranslation(q).Done?
    ensures var rows := CsvForTranslation(q).value;
      && |rows| >= 1 && rows[0] == HeaderRow(Headers(q))
      && (forall i :: 0 <= i < |rows| ==> |rows[i]| == |Headers(q)|)
      && (forall i :: 1 <= i < |rows| ==> rows[i][0].Some? && 2 <= |rows[i][0].value| && |Trim(Unquote(rows[i][0].value))| != 0)
      && (forall i, j :: 1 <= i < j < |rows| ==> rows[i][0] != rows[j][0])
  {
    var headers := Headers(q);
    var start := Export([HeaderRow(headers)], []);
    ExportStepsKeeps(start, q.steps, q.defaultLanguage, headers);
    var e := ExportSteps(start, q.steps, q.defaultLanguage, headers).value;
    var rows: seq<Row> := e.rows;
    forall i | 1 <= i < |rows|
      ensures rows[i][0].Some? && 2 <= |rows[i][0].value| && |Trim(Unquote(rows[i][0].value))| != 0
    {
      UnquoteQuote(e.exported[i - 1]);
    }
    forall i, j | 1 <= i < j < |rows|
      ensures rows[i][0] != rows[j][0]
    {
      UnquoteQuote(e.exported[i - 1]);
      UnquoteQuote(e.exported[j - 1]);
    }
  }

  /** Every processed step with a prompt has its non-blank default-language prompt texts exported. */
  lemma {:induction false} StepTextsExported(e: Export, steps: seq<Step>, dl: string, headers: seq<string>, i: nat)
    requires Consistent(e, headers) && headers[0] == dl
    requires ExportSteps(e, steps, dl, headers).Done?
    requires i < |steps| && !steps[i].kind.LanguageSelection?
    ensures steps[i].prompt.Some?
    ensures var p := steps[i].prompt.value;
      && (SmsKey(p, dl).Some? ==> SmsKey(p, dl).value in ExportSteps(e, steps, dl, headers).value.exported)
      && (IvrKey(p, dl).Some? ==> IvrKey(p, dl).value in ExportSteps(e, steps, dl, headers).value.exported)
    decreases i
  {
    var e' := ExportStep(e, steps[0], dl, headers).value;
    ExportStepKeeps(e, steps[0], dl, headers);
    if i == 0 {
      var p := steps[0].prompt.value;
      ExportPromptKeeps(e, p, dl, headers);
      if steps[0].kind.MultipleChoice? {
        ExportChoicesKeeps(ExportPrompt(e, p, dl, headers), steps[0].kind.choices, dl, headers);
      }
      ExportStepsKeeps(e', steps[1..], dl, headers);
    } else {
      StepTextsExported(e', steps[1..], dl, headers, i - 1);
    }
  }

  /** An exported text has its row, the text quoted in the first cell. */
  lemma ExportedHasRow(e: Export, headers: seq<string>, key: string)
    requires Consistent(e, headers) && key in e.exported
    ensures exists k :: 1 <= k < |e.rows| && |e.rows[k]| > 0 && e.rows[k][0] == Some(Quote(key))
  {
    var k :| 0 <= k < |e.exported| && e.exported[k] == key;
    assert e.rows[k + 1][0] == Some(Quote(key));
  }

  /** No text is lost: every step other than the language selection has a row for its non-blank
      default-language SMS prompt and one for its voice prompt text (a single row when the texts
      are equal, or equal to an earlier step's). */
  lemma PromptTextsExported(q: Questionnaire, i: nat)
    requires CsvForTranslation(q).Done? && i < |q.steps| && !q.steps[i].kind.LanguageSelection?
    ensures q.steps[i].prompt.Some?
    ensures var p := q.steps[i].prompt.value; var rows := CsvForTranslation(q).value;
      && (SmsKey(p, q.defaultLanguage).Some? ==> exists k :: 1 <= k < |rows| && |rows[k]| > 0 && rows[k][0] == Some(Quote(SmsKey(p, q.defaultLanguage).value)))
      && (IvrKey(p, q.defaultLanguage).Some? ==> exists k :: 1 <= k < |rows| && |rows[k]| > 0 && rows[k][0] == Some(Quote(IvrKey(p, q.defaultLanguage).value)))
  {
    var headers := Headers(q);
    var dl := q.defaultLanguage;
    var start := Export([HeaderRow(headers)], []);
    StepTextsExported(start, q.steps, dl, headers, i);
    ExportStepsKeeps(start, q.steps, dl, headers);
    var e := ExportSteps(start, q.steps, dl, headers).value;
    var p := q.steps[i].prompt.value;
    if SmsKey(p, dl).Some? {
      ExportedHasRow(e, headers, SmsKey(p, dl).value);
    }
    if IvrKey(p, dl).Some? {
      ExportedHasRow(e, headers, IvrKey(p, dl).value);
    }
  }

  /** The key of a choice's row: its default-language SMS responses joined, when they are not
      blank. */
  function ChoiceKey(choice: Choice, dl: string): (key: Option<string>)
    ensures key.Some? ==> |Trim(key.value)| != 0
    ensures key.Some? ==> dl in choice.responses && choice.responses[dl].sms.Some?
  {
    if dl in choice.responses && choice.responses[dl].sms.Some? && |Trim(Join(choice.responses[dl].sms.value, ", "))| != 0
    then Some(Join(choice.responses[dl].sms.value, ", ")) else None
  }

  /** A choice's non-blank response text is exported by its own step of the loop. */
  lemma ChoiceTextOffered(e: Export, choice: Choice, dl: string, headers: seq<string>)
    requires ExportChoice(e, choice, dl, headers).Done?
    ensures ChoiceKey(choice, dl).Some? ==> ChoiceKey(choice, dl).value in ExportChoice(e, choice, dl, headers).value.exported
  {
  }

  /** Every processed choice has its non-blank default-language response text exported. */
  lemma {:induction false} ChoiceListTextsExported(e: Export, choices: seq<Choice>, dl: string, headers: seq<string>, j: nat)
    requires Consistent(e, headers) && headers[0] == dl
    requires ExportChoices(e, choices, dl, headers).Done? && j < |choices|
    ensures ChoiceKey(choices[j], dl).Some? ==> ChoiceKey(choices[j], dl).value in ExportChoices(e, choices, dl, headers).value.exported
    decreases j
  {
    ExportChoiceKeeps(e, choices[0], dl, headers);
    var e' := ExportChoice(e, choices[0], dl, headers).value;
    assert ExportChoices(e, choices, dl, headers) == ExportChoices(e', choices[1..], dl, headers);
    if j == 0 {
      ChoiceTextOffered(e, choices[0], dl, headers);
      ExportChoicesKeeps(e', choices[1..], dl, headers);
    } else {
      ChoiceListTextsExported(e', choices[1..], dl, headers, j - 1);
    }
  }

  /** Every processed multiple-choice step has each choice's non-blank response text exported. */
  lemma {:induction false} StepChoiceTextsExported(e: Export, steps: seq<Step>, dl: string, headers: seq<string>, i: nat, j: nat)
    requires Consistent(e, headers) && headers[0] == dl
    requires ExportSteps(e, steps, dl, headers).Done?
    requires i < |steps| && steps[i].kind.MultipleChoice? && j < |steps[i].kind.choices|
    ensures var c := steps[i].kind.choices[j];
      ChoiceKey(c, dl).Some? ==> ChoiceKey(c, dl).value in ExportSteps(e, steps, dl, headers).value.exported
    decreases i
  {
    ExportStepKeeps(e, steps[0], dl, headers);
    var e' := ExportStep(e, steps[0], dl, headers).value;
    if i == 0 {
      var p := steps[0].prompt.value;
      ExportPromptKeeps(e, p, dl, headers);
      ChoiceListTextsExported(ExportPrompt(e, p, dl, headers), steps[0].kind.choices, dl, headers, j);
      ExportStepsKeeps(e', steps[1..], dl, headers);
    } else {
      StepChoiceTextsExported(e', steps[1..], dl, headers, i - 1, j);
    }
  }

  /** No response text is lost either: every choice of a multiple-choice step has a row for its
      non-blank default-language SMS responses, joined by ', ' (a single row when equal to an
      earlier text). */
  lemma ChoiceTextsExported(q: Questionnaire, i: nat, j: nat)
    requires CsvForTranslation(q).Done? && i < |q.steps| && q.steps[i].kind.MultipleChoice?
    requires j < |q.steps[i].kind.choices|
    ensures var c := q.steps[i].kind.choices[j]; var rows := CsvForTranslation(q).value;
      ChoiceKey(c, q.defaultLanguage).Some? ==>
        exists k :: 1 <= k < |rows| && |rows[k]| > 0 && rows[k][0] == Some(Quote(ChoiceKey(c, q.defaultLanguage).value))
  {
    var headers := Headers(q);
    var dl := q.defaultLanguage;
    var start := Export([HeaderRow(headers)], []);
    StepChoiceTextsExported(start, q.steps, dl, headers, i, j);
    ExportStepsKeeps(start, q.steps, dl, headers);
    var e := ExportSteps(start, q.steps, dl, headers).value;
    var c := q.steps[i].kind.choices[j];
    if ChoiceKey(c, dl).Some? {
      ExportedHasRow(e, headers, ChoiceKey(c, dl).value);
    }
  }

  // ---------------------------------------------------------------------------
  // the export as written: `forEach` loops pushing rows and marking texts exported

  /** `step.choices.forEach(...)` */
  method AddChoiceRows(e: Export, choices: seq<Choice>, dl: string, headers: seq<string>) returns (r: Outcome<Export>)
    ensures r == ExportChoices(e, choices, dl, headers)
  {
    var rows := e.rows;
    var exported := e.exported;
    var i := 0;
    while i < |choices|
      invariant 0 <= i <= |choices|
      invariant ExportChoices(Export(rows, exported), choices[i..], dl, headers) == ExportChoices(e, choices, dl, headers)
    {
      var choice := choices[i];
      assert choices[i..][0] == choice && choices[i..][1..] == choices[i + 1..];
      if dl !in choice.responses {
        return Thrown("TypeError: choice.responses[defaultLang] is undefined");
      }
      if choice.responses[dl].sms.None? {
        return Thrown("TypeError: choice.responses[defaultLang].sms is undefined");
      }
      var key := Join(choice.responses[dl].sms.value, ", ");
      if |Trim(key)| != 0 && key !in exported {
        var row := ChoiceRow(choice, headers);
        if row.Thrown? {
          return Thrown(row.message);
        }
        exported := exported + [key];
        rows := rows + [row.value];
      }
      i := i + 1;
    }
    assert choices[i..] == [];
    return Done(Export(rows, exported));
  }

  /** `csvForTranslation` as written: the rows grow step by step. */
  method CsvRows(q: Questionnaire) returns (r: Outcome<seq<Row>>)
    ensures r == CsvForTranslation(q)
  {
    var dl := q.defaultLanguage;
    var headers := Headers(q);
    var rows := [HeaderRow(headers)];
    var exported: seq<string> := [];
    ghost var start := Export(rows, exported);
    var i := 0;
    while i < |q.steps|
      invariant 0 <= i <= |q.steps|
      invariant ExportSteps(Export(rows, exported), q.steps[i..], dl, headers) == ExportSteps(start, q.steps, dl, headers)
    {
      var step := q.steps[i];
      assert q.steps[i..][0] == step && q.steps[i..][1..] == q.steps[i + 1..];
      if !step.kind.LanguageSelection? {
        if step.prompt.None? {
          return Thrown("TypeError: step.prompt is undefined");
        }
        var prompt := step.prompt.value;
        ghost var before := Export(rows, exported);
        var sms := SmsKey(prompt, dl);
        if sms.Some? && sms.value !in exported {
          exported := exported + [sms.value];
          rows := rows + [SmsRow(prompt, headers)];
        }
        var ivr := IvrKey(prompt, dl);
        if ivr.Some? && ivr.value !in exported {
          exported := exported + [ivr.value];
          rows := rows + [IvrRow(prompt, headers)];
        }
        assert Export(rows, exported) == ExportPrompt(before, prompt, dl, headers);
        if step.kind.MultipleChoice? {
          var out := AddChoiceRows(Export(rows, exported), step.kind.choices, dl, headers);
          if out.Thrown? {
            return Thrown(out.message);
          }
          rows, exported := out.value.rows, out.value.exported;
        }
      }
      i := i + 1;
    }
    assert q.steps[i..] == [];
    return Done(rows);
  }
}
