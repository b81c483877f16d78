/** The questionnaire validator: after every action the errors are rebuilt from scratch as a
    map from a path into the questionnaire (`steps[0].choices[1].sms`) to the messages reported
    there, in the order the checks report them. The specification is a list of errors; the map
    is that list grouped by path. */
module Validation {
  import opened Js
  import opened QuestionnaireModel

  /** A validation message; `Text` gives the words the editor shows. */
  datatype Message =
    | SmsPromptBlank | VoicePromptBlank | TooFewResponses | ResponseBlank | SmsBlank
    | PhoneCallBlank | PhoneCallKeys | ValueUsed | TokenUsed(token: string)

  function Text(m: Message): string {
    match m
    case SmsPromptBlank => "SMS prompt must not be blank"
    case VoicePromptBlank => "Voice prompt must not be blank"
    case TooFewResponses => "Must have at least two responses"
    case ResponseBlank => "Response must not be blank"
    case SmsBlank => "SMS must not be blank"
    case PhoneCallBlank => "\"Phone call\" must not be blank"
    case PhoneCallKeys => "\"Phone call\" must only consist of single digits, \"#\" or \"*\""
    case ValueUsed => "Value already used in a previous response"
    case TokenUsed(token) => "Value \"" + token + "\" already used in a previous response"
  }

  datatype Error = Error(path: string, message: Message)
  type Errors = map<string, seq<Message>>

  /** The part of the state the checks read: which modes are on and the default language. */
  datatype Context = Context(sms: bool, ivr: bool, defaultLanguage: string)

  /** The context of a questionnaire: a mode is on when it is among the modes. */
  function ContextOf(q: Questionnaire): (ctx: Context)
    ensures ctx.sms <==> "sms" in q.modes
    ensures ctx.ivr <==> "ivr" in q.modes
    ensures ctx.defaultLanguage == q.defaultLanguage
  {
    Context(IndexOf(q.modes, "sms") != -1, IndexOf(q.modes, "ivr") != -1, q.defaultLanguage)
  }

  /** `${path}[${i}]` */
  function Indexed(path: string, i: nat): string {
    path + "[" + IntToString(i) + "]"
  }

  /** ---- grouping errors by path ---- */

  /** The messages recorded at a path, none when the path has no entry. */
  function Get(errors: Errors, path: string): seq<Message> {
    if path in errors then errors[path] else []
  }

  /** `addError`: append the message to the list at its path, creating the list if needed. */
  function AddError(errors: Errors, e: Error): Errors {
    errors[e.path := Get(errors, e.path) + [e.message]]
  }

  /** The errors added one after another, in order. */
  function Collect(errors: Errors, es: seq<Error>): Errors
    decreases |es|
  {
    if es == [] then errors else Collect(AddError(errors, es[0]), es[1..])
  }

  /** The messages of the errors at one path, in order. */
  function MessagesAt(es: seq<Error>, path: string): (r: seq<Message>)
    ensures forall m :: m in r <==> Error(path, m) in es
    decreases |es|
  {
    if es == [] then []
    else (if es[0].path == path then [es[0].message] else []) + MessagesAt(es[1..], path)
  }

  /** Collecting groups the errors by path and keeps their order: a path has an entry exactly when
      it had one or an error names it, and its messages are the earlier ones followed by the new. */
  lemma {:induction false} CollectGroups(errors: Errors, es: seq<Error>, path: string)
    ensures path in Collect(errors, es) <==> path in errors || MessagesAt(es, path) != []
    ensures Get(Collect(errors, es), path) == Get(errors, path) + MessagesAt(es, path)
    decreases |es|
  {
    if es != [] {
      CollectGroups(AddError(errors, es[0]), es[1..], path);
    }
  }

  /** Collecting a concatenation is collecting one part after the other. */
  lemma {:induction false} CollectAppend(errors: Errors, a: seq<Error>, b: seq<Error>)
    ensures Collect(errors, a + b) == Collect(Collect(errors, a), b)
    decreases |a|
  {
    if a != [] {
      assert (a + b)[1..] == a[1..] + b;
      CollectAppend(AddError(errors, a[0]), a[1..], b);
    } else {
      assert a + b == b;
    }
  }

  /** A message is reported at a path of the rebuilt errors exactly when the list has it there. */
  lemma ReportedIff(es: seq<Error>, path: string, message: Message)
    ensures (path in Collect(map[], es) && message in Collect(map[], es)[path]) <==> Error(path, message) in es
  {
    CollectGroups(map[], es, path);
  }

  /** ---- lists of errors made of blocks ---- */

  /** The blocks of errors one after the other. */
  function Flatten(blocks: seq<seq<Error>>): seq<Error> {
    if blocks == [] then [] else Flatten(blocks[..|blocks| - 1]) + blocks[|blocks| - 1]
  }

  /** An error is in the flattened list exactly when it is in one of the blocks. */
  lemma {:induction false} FlattenMembers(blocks: seq<seq<Error>>, e: Error)
    ensures e in Flatten(blocks) <==> exists k :: 0 <= k < |blocks| && e in blocks[k]
  {
    if blocks != [] {
      var init := blocks[..|blocks| - 1];
      FlattenMembers(init, e);
      assert forall k :: 0 <= k < |init| ==> init[k] == blocks[k];
    }
  }

  /** Flattening one more block appends it. */
  lemma FlattenNext(blocks: seq<seq<Error>>, i: nat)
    requires i < |blocks|
    ensures Flatten(blocks[..i + 1]) == Flatten(blocks[..i]) + blocks[i]
  {
    assert blocks[..i + 1][..i] == blocks[..i];
  }

  /** The blocks one after the other up to the first that throws, whose error ends it. */
  function FlattenAll(blocks: seq<Outcome<seq<Error>>>): (r: Outcome<seq<Error>>)
    ensures r.Done? <==> forall k :: 0 <= k < |blocks| ==> blocks[k].Done?
  {
    if blocks == [] then Done([])
    else
      var init := blocks[..|blocks| - 1];
      assert forall k :: 0 <= k < |init| ==> init[k] == blocks[k];
      match FlattenAll(init)
      case Thrown(m) => Thrown(m)
      case Done(es) =>
        match blocks[|blocks| - 1]
        case Thrown(m) => Thrown(m)
        case Done(more) => Done(es + more)
  }

  /** An error is in the flattened list exactly when it is in one of the blocks. */
  lemma {:induction false} FlattenAllMembers(blocks: seq<Outcome<seq<Error>>>, e: Error)
    requires FlattenAll(blocks).Done?
    ensures e in FlattenAll(blocks).value <==> exists k :: 0 <= k < |blocks| && e in blocks[k].value
  {
    if blocks != [] {
      var init := blocks[..|blocks| - 1];
      assert forall k :: 0 <= k < |init| ==> init[k] == blocks[k];
      FlattenAllMembers(init, e);
    }
  }

  /** Extending the prefix by one block when the prefix succeeded. */
  lemma FlattenAllNext(blocks: seq<Outcome<seq<Error>>>, i: nat)
    requires i < |blocks| && FlattenAll(blocks[..i]).Done?
    ensures FlattenAll(blocks[..i + 1]) ==
      (match blocks[i]
       case Thrown(m) => Thrown(m)
       case Done(more) => Done(FlattenAll(blocks[..i]).value + more))
  {
    assert blocks[..i + 1][..i] == blocks[..i];
  }

  /** The first block that throws decides the outcome, whatever comes after it. */
  lemma {:induction false} FlattenAllThrown(blocks: seq<Outcome<seq<Error>>>, i: nat)
    requires i <= |blocks| && FlattenAll(blocks[..i]).Thrown?
    ensures FlattenAll(blocks) == FlattenAll(blocks[..i])
    decreases |blocks| - i
  {
    if i < |blocks| {
      FlattenAllThrown(blocks, i + 1);
      assert blocks[..i + 1][..i] == blocks[..i];
    } else {
      assert blocks[..i] == blocks;
    }
  }

  /** ---- paths ---- */

  /** Paths built by indexing are told apart by the index and by what follows the index. */
  lemma IndexedInjective(path: string, i: nat, k: nat, s1: string, s2: string)
    requires Indexed(path, i) + s1 == Indexed(path, k) + s2
    ensures i == k && s1 == s2
  {
    var a, b := IntToString(i), IntToString(k);
    var left, right := a + "]" + s1, b + "]" + s2;
    var prefix := path + "[";
    assert Indexed(path, i) + s1 == prefix + left;
    assert Indexed(path, k) + s2 == prefix + right;
    assert left == (prefix + left)[|prefix|..];
    assert right == (prefix + right)[|prefix|..];
    UpToBracket(a, b, s1, s2);
    ParseIntOfIntToString(i);
    ParseIntOfIntToString(k);
  }

  /** Two digit texts, each followed by a closing bracket, are split at that bracket. */
  lemma UpToBracket(a: string, b: string, s1: string, s2: string)
    requires forall c :: c in a ==> IsDigit(c)
    requires forall c :: c in b ==> IsDigit(c)
    requires a + "]" + s1 == b + "]" + s2
    ensures a == b && s1 == s2
  {
    if |a| < |b| {
      BracketAfterShorter(a, b, s1, s2);
    } else if |b| < |a| {
      BracketAfterShorter(b, a, s2, s1);
    }
    var left, right := a + "]" + s1, b + "]" + s2;
    assert a == left[..|a|] && b == right[..|b|];
    assert s1 == left[|a| + 1..] && s2 == right[|b| + 1..];
  }

  /** The bracket after the shorter digit text falls on a digit of the longer one. */
  lemma BracketAfterShorter(a: string, b: string, s1: string, s2: string)
    requires forall c :: c in b ==> IsDigit(c)
    requires |a| < |b|
    ensures a + "]" + s1 != b + "]" + s2
  {
    assert (a + "]" + s1)[|a|] == ']';
    assert (b + "]" + s2)[|a|] == b[|a|] && b[|a|] in b;
  }

  /** ---- the checks of one choice ---- */

  /** `responses[defaultLanguage].sms`, or nothing when that language has no responses. */
  function SmsOf(choice: Choice, dl: string): Option<seq<string>> {
    if dl in choice.responses then choice.responses[dl].sms else None
  }

  function IvrOf(choice: Choice, dl: string): Option<seq<string>> {
    if dl in choice.responses then choice.responses[dl].ivr else None
  }

  /** Matches `^[0-9#*]*$`. */
  predicate IsKeypad(token: string) {
    forall i :: 0 <= i < |token| ==> IsDigit(token[i]) || token[i] == '#' || token[i] == '*'
  }

  /** Every token matches `^[0-9#*]*$`. */
  predicate AllKeypad(tokens: seq<string>) {
    forall t :: t in tokens ==> IsKeypad(t)
  }

  /** The SMS messages need the SMS mode and the voice messages the voice mode. */
  predicate ModeOn(m: Message, ctx: Context) {
    && (m.SmsPromptBlank? || m.SmsBlank? ==> ctx.sms)
    && (m.VoicePromptBlank? || m.PhoneCallBlank? || m.PhoneCallKeys? ==> ctx.ivr)
  }

  /** The messages `validateChoice` reports. */
  predicate ChoiceMessage(m: Message) {
    m.ResponseBlank? || m.SmsBlank? || m.PhoneCallBlank? || m.PhoneCallKeys?
  }

  /** The blank-value check of `validateChoice`. */
  function ValueCheck(path: string, choice: Choice): (r: seq<Error>)
    ensures forall e :: e in r ==> e.message.ResponseBlank?
  {
    if IsBlank(Some(choice.value)) then [Error(path + ".value", ResponseBlank)] else []
  }

  /** The SMS and voice checks of `validateChoice`, each under its mode. */
  function TokenChecks(path: string, choice: Choice, ctx: Context): (r: seq<Error>)
    ensures forall e :: e in r ==> ChoiceMessage(e.message) && ModeOn(e.message, ctx)
  {
    var ivr := IvrOf(choice, ctx.defaultLanguage);
    (if ctx.sms && SmsOf(choice, ctx.defaultLanguage) == Some([]) then [Error(path + ".sms", SmsBlank)] else [])
    + (if ctx.ivr && ivr == Some([]) then [Error(path + ".ivr", PhoneCallBlank)] else [])
    + (if ctx.ivr && ivr.Some? && !AllKeypad(ivr.value) then [Error(path + ".ivr", PhoneCallKeys)] else [])
  }

  /** `validateChoice`, at the path of the choice. */
  function ChoiceErrors(path: string, choice: Choice, ctx: Context): (r: seq<Error>)
    ensures forall e :: e in r ==> ChoiceMessage(e.message) && ModeOn(e.message, ctx)
  {
    ValueCheck(path, choice) + TokenChecks(path, choice, ctx)
  }

  /** The value check reports exactly when the value is blank. */
  lemma ValueChecked(path: string, choice: Choice, ctx: Context)
    ensures Error(path + ".value", ResponseBlank) in ChoiceErrors(path, choice, ctx) <==> IsBlank(Some(choice.value))
  {
    assert Error(path + ".value", ResponseBlank) !in TokenChecks(path, choice, ctx);
  }

  /** The SMS and voice checks report exactly when their conditions hold: an empty SMS token list
      with SMS on, an empty voice token list or a voice token off the keypad with voice on. */
  lemma TokensChecked(path: string, choice: Choice, ctx: Context)
    ensures Error(path + ".sms", SmsBlank) in ChoiceErrors(path, choice, ctx) <==>
      ctx.sms && SmsOf(choice, ctx.defaultLanguage) == Some([])
    ensures Error(path + ".ivr", PhoneCallBlank) in ChoiceErrors(path, choice, ctx) <==>
      ctx.ivr && IvrOf(choice, ctx.defaultLanguage) == Some([])
    ensures Error(path + ".ivr", PhoneCallKeys) in ChoiceErrors(path, choice, ctx) <==>
      ctx.ivr && IvrOf(choice, ctx.defaultLanguage).Some? && exists t :: t in IvrOf(choice, ctx.defaultLanguage).value && !IsKeypad(t)
  {
    var value := ValueCheck(path, choice);
    assert forall e :: e in value ==> e.message.ResponseBlank?;
  }

  /** ---- repeated values and tokens across the choices of a step ---- */

  /** The tokens of an optional token list, none when it is absent. */
  function TokensOf(tokens: Option<seq<string>>): seq<string> {
    if tokens.Some? then tokens.value else []
  }

  /** The SMS tokens of the choices, one choice after the other. */
  function SmsTokens(choices: seq<Choice>, dl: string): seq<string> {
    if choices == [] then [] else SmsTokens(choices[..|choices| - 1], dl) + TokensOf(SmsOf(choices[|choices| - 1], dl))
  }

  function IvrTokens(choices: seq<Choice>, dl: string): seq<string> {
    if choices == [] then [] else IvrTokens(choices[..|choices| - 1], dl) + TokensOf(IvrOf(choices[|choices| - 1], dl))
  }

  /** The values and tokens of one more choice follow those of the earlier ones. */
  lemma SeenNext(choices: seq<Choice>, i: nat, dl: string)
    requires i < |choices|
    ensures ValuesOf(choices[..i + 1]) == ValuesOf(choices[..i]) + [choices[i].value]
    ensures SmsTokens(choices[..i + 1], dl) == SmsTokens(choices[..i], dl) + TokensOf(SmsOf(choices[i], dl))
    ensures IvrTokens(choices[..i + 1], dl) == IvrTokens(choices[..i], dl) + TokensOf(IvrOf(choices[i], dl))
  {
    assert choices[..i + 1][..i] == choices[..i];
  }

  /** A token is among the SMS tokens of the first i choices when one of them has it. */
  lemma {:induction false} EarlierSms(choices: seq<Choice>, i: nat, t: string, dl: string)
    requires i <= |choices|
    ensures t in SmsTokens(choices[..i], dl) <==> exists j :: 0 <= j < i && t in TokensOf(SmsOf(choices[j], dl))
  {
    if i > 0 {
      EarlierSms(choices, i - 1, t, dl);
      assert choices[..i][..i - 1] == choices[..i - 1];
    }
  }

  lemma {:induction false} EarlierIvr(choices: seq<Choice>, i: nat, t: string, dl: string)
    requires i <= |choices|
    ensures t in IvrTokens(choices[..i], dl) <==> exists j :: 0 <= j < i && t in TokensOf(IvrOf(choices[j], dl))
  {
    if i > 0 {
      EarlierIvr(choices, i - 1, t, dl);
      assert choices[..i][..i - 1] == choices[..i - 1];
    }
  }

  /** One error per token already among the earlier tokens, in the order of the tokens. */
  function TokenDuplicates(path: string, tokens: seq<string>, earlier: seq<string>): seq<Error> {
    if tokens == [] then []
    else
      var last := tokens[|tokens| - 1];
      TokenDuplicates(path, tokens[..|tokens| - 1], earlier) + (if last in earlier then [Error(path, TokenUsed(last))] else [])
  }

  /** A token is reported exactly when it is among the tokens and among the earlier ones. */
  lemma {:induction false} TokenDuplicatesMembers(path: string, tokens: seq<string>, earlier: seq<string>, e: Error)
    ensures e in TokenDuplicates(path, tokens, earlier) <==>
      e.path == path && e.message.TokenUsed? && e.message.token in tokens && e.message.token in earlier
  {
    if tokens != [] {
      var init := tokens[..|tokens| - 1];
      TokenDuplicatesMembers(path, init, earlier, e);
      assert tokens == init + [tokens[|tokens| - 1]];
    }
  }

  /** The repeated-value errors of the choice at index k, given the choices before it. */
  function DuplicatesAt(path: string, choices: seq<Choice>, dl: string, k: nat): seq<Error>
    requires k < |choices|
  {
    var choice, before, at := choices[k], choices[..k], Indexed(path, k);
    (if choice.value in ValuesOf(before) then [Error(at + ".value", ValueUsed)] else [])
    + TokenDuplicates(at + ".sms", TokensOf(SmsOf(choice, dl)), SmsTokens(before, dl))
    + TokenDuplicates(at + ".ivr", TokensOf(IvrOf(choice, dl)), IvrTokens(before, dl))
  }

  /** What the duplicate checks of one choice report: its value when an earlier choice has it, and
      each of its SMS and voice tokens an earlier choice has. */
  lemma DuplicatesAtMembers(path: string, choices: seq<Choice>, dl: string, k: nat, e: Error)
    requires k < |choices|
    ensures e in DuplicatesAt(path, choices, dl, k) <==>
      || (e == Error(Indexed(path, k) + ".value", ValueUsed) && choices[k].value in ValuesOf(choices[..k]))
      || (e.path == Indexed(path, k) + ".sms" && e.message.TokenUsed?
          && e.message.token in TokensOf(SmsOf(choices[k], dl)) && e.message.token in SmsTokens(choices[..k], dl))
      || (e.path == Indexed(path, k) + ".ivr" && e.message.TokenUsed?
          && e.message.token in TokensOf(IvrOf(choices[k], dl)) && e.message.token in IvrTokens(choices[..k], dl))
  {
    var at := Indexed(path, k);
    TokenDuplicatesMembers(at + ".sms", TokensOf(SmsOf(choices[k], dl)), SmsTokens(choices[..k], dl), e);
    TokenDuplicatesMembers(at + ".ivr", TokensOf(IvrOf(choices[k], dl)), IvrTokens(choices[..k], dl), e);
  }

  /** ---- the checks of the choices of a step ---- */

  /** The single-choice errors, one block per choice. */
  function ChoiceBlocks(path: string, choices: seq<Choice>, ctx: Context): seq<seq<Error>> {
    seq(|choices|, k requires 0 <= k < |choices| => ChoiceErrors(Indexed(path, k), choices[k], ctx))
  }

  /** The repeated-value errors, one block per choice. */
  function DuplicateBlocks(path: string, choices: seq<Choice>, dl: string): seq<seq<Error>> {
    seq(|choices|, k requires 0 <= k < |choices| => DuplicatesAt(path, choices, dl, k))
  }

  /** `validateChoices` */
  function ChoicesErrors(path: string, choices: seq<Choice>, ctx: Context): seq<Error> {
    (if |choices| < 2 then [Error(path, TooFewResponses)] else [])
    + Flatten(ChoiceBlocks(path, choices, ctx))
    + Flatten(DuplicateBlocks(path, choices, ctx.defaultLanguage))
  }

  /** Where an error of `validateChoices` comes from: the count check, the checks of one choice,
      or the duplicate checks of one choice. */
  lemma ChoicesMembers(path: string, choices: seq<Choice>, ctx: Context, e: Error)
    ensures e in ChoicesErrors(path, choices, ctx) <==>
      || (e == Error(path, TooFewResponses) && |choices| < 2)
      || (exists k :: 0 <= k < |choices| && e in ChoiceBlocks(path, choices, ctx)[k])
      || (exists k :: 0 <= k < |choices| && e in DuplicateBlocks(path, choices, ctx.defaultLanguage)[k])
  {
    FlattenMembers(ChoiceBlocks(path, choices, ctx), e);
    FlattenMembers(DuplicateBlocks(path, choices, ctx.defaultLanguage), e);
  }

  /** The checks of single choices report only their own messages, each under its mode. */
  lemma ChoiceBlockMessages(path: string, choices: seq<Choice>, ctx: Context, e: Error)
    requires exists k :: 0 <= k < |choices| && e in ChoiceBlocks(path, choices, ctx)[k]
    ensures ChoiceMessage(e.message) && ModeOn(e.message, ctx)
  {
    var k :| 0 <= k < |choices| && e in ChoiceBlocks(path, choices, ctx)[k];
    assert ChoiceBlocks(path, choices, ctx)[k] == ChoiceErrors(Indexed(path, k), choices[k], ctx);
  }

  /** The duplicate checks report only repeated values and tokens. */
  lemma DuplicateBlockMessages(path: string, choices: seq<Choice>, dl: string, e: Error)
    requires exists k :: 0 <= k < |choices| && e in DuplicateBlocks(path, choices, dl)[k]
    ensures e.message.ValueUsed? || e.message.TokenUsed?
  {
    var k :| 0 <= k < |choices| && e in DuplicateBlocks(path, choices, dl)[k];
    DuplicatesAtMembers(path, choices, dl, k, e);
  }

  /** A step with fewer than two choices is reported at the path of its choices. */
  lemma TooFewChoicesReported(path: string, choices: seq<Choice>, ctx: Context)
    ensures Error(path, TooFewResponses) in ChoicesErrors(path, choices, ctx) <==> |choices| < 2
  {
    var e := Error(path, TooFewResponses);
    ChoicesMembers(path, choices, ctx, e);
    if exists k :: 0 <= k < |choices| && e in ChoiceBlocks(path, choices, ctx)[k] {
      ChoiceBlockMessages(path, choices, ctx, e);
    }
    if exists k :: 0 <= k < |choices| && e in DuplicateBlocks(path, choices, ctx.defaultLanguage)[k] {
      DuplicateBlockMessages(path, choices, ctx.defaultLanguage, e);
    }
  }

  /** The checks of the choices report SMS messages only with SMS on and voice messages only with voice on. */
  lemma ChoicesFollowModes(path: string, choices: seq<Choice>, ctx: Context, e: Error)
    requires e in ChoicesErrors(path, choices, ctx)
    ensures ModeOn(e.message, ctx)
  {
    ChoicesMembers(path, choices, ctx, e);
    if exists k :: 0 <= k < |choices| && e in ChoiceBlocks(path, choices, ctx)[k] {
      ChoiceBlockMessages(path, choices, ctx, e);
    }
    if exists k :: 0 <= k < |choices| && e in DuplicateBlocks(path, choices, ctx.defaultLanguage)[k] {
      DuplicateBlockMessages(path, choices, ctx.defaultLanguage, e);
    }
  }

  /** A repeated-value message of `validateChoices` comes from the duplicate checks of one choice. */
  lemma DuplicateErrorIn(path: string, choices: seq<Choice>, ctx: Context, e: Error)
    requires e.message.ValueUsed? || e.message.TokenUsed?
    ensures e in ChoicesErrors(path, choices, ctx) <==>
      exists k :: 0 <= k < |choices| && e in DuplicatesAt(path, choices, ctx.defaultLanguage, k)
  {
    ChoicesMembers(path, choices, ctx, e);
    if exists k :: 0 <= k < |choices| && e in ChoiceBlocks(path, choices, ctx)[k] {
      ChoiceBlockMessages(path, choices, ctx, e);
    }
    var blocks := DuplicateBlocks(path, choices, ctx.defaultLanguage);
    assert forall k :: 0 <= k < |choices| ==> blocks[k] == DuplicatesAt(path, choices, ctx.defaultLanguage, k);
  }

  /** A choice is reported as repeating a value exactly when an earlier choice has that value. */
  lemma DuplicateValueReported(path: string, choices: seq<Choice>, ctx: Context, i: nat)
    requires i < |choices|
    ensures Error(Indexed(path, i) + ".value", ValueUsed) in ChoicesErrors(path, choices, ctx) <==>
      exists j :: 0 <= j < i && choices[j].value == choices[i].value
  {
    var dl := ctx.defaultLanguage;
    var e := Error(Indexed(path, i) + ".value", ValueUsed);
    assert (exists j :: 0 <= j < i && choices[j].value == choices[i].value) <==> choices[i].value in ValuesOf(choices[..i]) by {
      assert forall j :: 0 <= j < i ==> ValuesOf(choices[..i])[j] == choices[j].value;
    }
    DuplicateErrorIn(path, choices, ctx, e);
    DuplicatesAtMembers(path, choices, dl, i, e);
    if e in ChoicesErrors(path, choices, ctx) {
      var k :| 0 <= k < |choices| && e in DuplicatesAt(path, choices, dl, k);
      DuplicatesAtMembers(path, choices, dl, k, e);
      IndexedInjective(path, i, k, ".value", ".value");
    }
  }

  /** An SMS token of a choice is reported as repeated exactly when an earlier choice has it. */
  lemma DuplicateSmsReported(path: string, choices: seq<Choice>, ctx: Context, i: nat, t: string)
    requires i < |choices|
    ensures Error(Indexed(path, i) + ".sms", TokenUsed(t)) in ChoicesErrors(path, choices, ctx) <==>
      t in TokensOf(SmsOf(choices[i], ctx.defaultLanguage))
      && exists j :: 0 <= j < i && t in TokensOf(SmsOf(choices[j], ctx.defaultLanguage))
  {
    var dl := ctx.defaultLanguage;
    var e := Error(Indexed(path, i) + ".sms", TokenUsed(t));
    EarlierSms(choices, i, t, dl);
    DuplicateErrorIn(path, choices, ctx, e);
    DuplicatesAtMembers(path, choices, dl, i, e);
    if e in ChoicesErrors(path, choices, ctx) {
      var k :| 0 <= k < |choices| && e in DuplicatesAt(path, choices, dl, k);
      DuplicatesAtMembers(path, choices, dl, k, e);
      if e.path == Indexed(path, k) + ".ivr" {
        IndexedInjective(path, i, k, ".sms", ".ivr");
      }
      IndexedInjective(path, i, k, ".sms", ".sms");
    }
  }

  /** A voice token of a choice is reported as repeated exactly when an earlier choice has it. */
  lemma DuplicateIvrReported(path: string, choices: seq<Choice>, ctx: Context, i: nat, t: string)
    requires i < |choices|
    ensures Error(Indexed(path, i) + ".ivr", TokenUsed(t)) in ChoicesErrors(path, choices, ctx) <==>
      t in TokensOf(IvrOf(choices[i], ctx.defaultLanguage))
      && exists j :: 0 <= j < i && t in TokensOf(IvrOf(choices[j], ctx.defaultLanguage))
  {
    var dl := ctx.defaultLanguage;
    var e := Error(Indexed(path, i) + ".ivr", TokenUsed(t));
    EarlierIvr(choices, i, t, dl);
    DuplicateErrorIn(path, choices, ctx, e);
    DuplicatesAtMembers(path, choices, dl, i, e);
    if e in ChoicesErrors(path, choices, ctx) {
      var k :| 0 <= k < |choices| && e in DuplicatesAt(path, choices, dl, k);
      DuplicatesAtMembers(path, choices, dl, k, e);
      if e.path == Indexed(path, k) + ".sms" {
        IndexedInjective(path, i, k, ".ivr", ".sms");
      }
      IndexedInjective(path, i, k, ".ivr", ".ivr");
    }
  }

  /** ---- the checks of one step ---- */

  /** The SMS prompt is blank when the language has no prompt, no SMS text, or a blank one. */
  predicate SmsPromptIsBlank(prompt: Prompt, dl: string) {
    dl !in prompt || IsBlank(prompt[dl].sms)
  }

  /** The voice prompt needs text only when it is read by text-to-speech. */
  predicate VoicePromptIsBlank(prompt: Prompt, dl: string) {
    dl in prompt && prompt[dl].ivr.Some? && prompt[dl].ivr.value.audioSource == Some("tts") && IsBlank(prompt[dl].ivr.value.text)
  }

  /** `validateStep`: reading the prompt of a step without one is a TypeError once a mode is on. */
  function StepErrors(path: string, step: Step, ctx: Context): (r: Outcome<seq<Error>>)
    ensures r.Thrown? <==> (ctx.sms || ctx.ivr) && step.prompt.None?
  {
    if (ctx.sms || ctx.ivr) && step.prompt.None? then Thrown("TypeError: step.prompt is undefined")
    else
      var dl := ctx.defaultLanguage;
      Done(
        (if ctx.sms && SmsPromptIsBlank(step.prompt.value, dl) then [Error(path + ".prompt.sms", SmsPromptBlank)] else [])
        + (if ctx.ivr && VoicePromptIsBlank(step.prompt.value, dl) then [Error(path + ".prompt.ivr.text", VoicePromptBlank)] else [])
        + (if step.kind.MultipleChoice? then ChoicesErrors(path + ".choices", step.kind.choices, ctx) else []))
  }

  /** The checks of a step report SMS messages only with SMS on and voice messages only with voice on. */
  lemma StepFollowsModes(path: string, step: Step, ctx: Context, e: Error)
    requires StepErrors(path, step, ctx).Done? && e in StepErrors(path, step, ctx).value
    ensures ModeOn(e.message, ctx)
  {
    if step.kind.MultipleChoice? && e in ChoicesErrors(path + ".choices", step.kind.choices, ctx) {
      ChoicesFollowModes(path + ".choices", step.kind.choices, ctx, e);
    }
  }

  /** The checks of every step, one block per step, at `steps[i]`. */
  function StepBlocks(steps: seq<Step>, ctx: Context): seq<Outcome<seq<Error>>> {
    seq(|steps|, k requires 0 <= k < |steps| => StepErrors(Indexed("steps", k), steps[k], ctx))
  }

  /** `validate` on present data: the errors rebuilt from nothing, or the TypeError. */
  function Validate(q: Questionnaire): (r: Outcome<Errors>)
    ensures r.Thrown? <==> ("sms" in q.modes || "ivr" in q.modes) && exists k :: 0 <= k < |q.steps| && q.steps[k].prompt.None?
  {
    var blocks := StepBlocks(q.steps, ContextOf(q));
    assert forall k :: 0 <= k < |q.steps| ==> blocks[k] == StepErrors(Indexed("steps", k), q.steps[k], ContextOf(q));
    match FlattenAll(blocks)
    case Thrown(m) => Thrown(m)
    case Done(es) => Done(Collect(map[], es))
  }

  /** A multiple-choice step with fewer than two choices gets the error at `steps[i].choices`. */
  lemma TooFewChoicesInErrors(q: Questionnaire, i: nat)
    requires i < |q.steps| && q.steps[i].kind.MultipleChoice? && |q.steps[i].kind.choices| < 2
    requires Validate(q).Done?
    ensures var path := Indexed("steps", i) + ".choices";
      path in Validate(q).value && TooFewResponses in Validate(q).value[path]
  {
    var ctx := ContextOf(q);
    var path := Indexed("steps", i) + ".choices";
    var blocks := StepBlocks(q.steps, ctx);
    TooFewChoicesReported(path, q.steps[i].kind.choices, ctx);
    assert Error(path, TooFewResponses) in blocks[i].value;
    FlattenAllMembers(blocks, Error(path, TooFewResponses));
    ReportedIff(FlattenAll(blocks).value, path, TooFewResponses);
  }

  /** Without the SMS mode no SMS message is reported, and without the voice mode no voice message. */
  lemma ErrorsFollowModes(q: Questionnaire, path: string)
    requires Validate(q).Done? && path in Validate(q).value
    ensures "sms" !in q.modes ==> SmsPromptBlank !in Validate(q).value[path] && SmsBlank !in Validate(q).value[path]
    ensures "ivr" !in q.modes ==>
      && VoicePromptBlank !in Validate(q).value[path]
      && PhoneCallBlank !in Validate(q).value[path]
      && PhoneCallKeys !in Validate(q).value[path]
  {
    var ctx := ContextOf(q);
    var blocks := StepBlocks(q.steps, ctx);
    forall m | m in Validate(q).value[path]
      ensures ModeOn(m, ctx)
    {
      ReportedIff(FlattenAll(blocks).value, path, m);
      FlattenAllMembers(blocks, Error(path, m));
      var k :| 0 <= k < |q.steps| && Error(path, m) in blocks[k].value;
      StepFollowsModes(Indexed("steps", k), q.steps[k], ctx, Error(path, m));
    }
  }

  /** ---- the validator as written: loops adding to the error map ---- */

  /** Adding one error is collecting a list of one. */
  lemma CollectOne(errors: Errors, e: Error)
    ensures Collect(errors, [e]) == AddError(errors, e)
  {
    assert [e][1..] == [];
  }

  /** The inner `for (let choiceSms of ...)` loop: report each token already used earlier. */
  method ReportRepeated(path: string, tokens: seq<string>, earlier: seq<string>, errors: Errors) returns (r: Errors)
    ensures r == Collect(errors, TokenDuplicates(path, tokens, earlier))
  {
    r := errors;
    var j := 0;
    while j < |tokens|
      invariant 0 <= j <= |tokens|
      invariant r == Collect(errors, TokenDuplicates(path, tokens[..j], earlier))
    {
      assert tokens[..j + 1][..j] == tokens[..j];
      var found := if tokens[j] in earlier then [Error(path, TokenUsed(tokens[j]))] else [];
      CollectAppend(errors, TokenDuplicates(path, tokens[..j], earlier), found);
      if tokens[j] in earlier {
        CollectOne(r, Error(path, TokenUsed(tokens[j])));
        r := AddError(r, Error(path, TokenUsed(tokens[j])));
      }
      j := j + 1;
    }
    assert tokens[..|tokens|] == tokens;
  }

  /** One pass of the duplicate loop of `validateChoices`, for the choice at index i. */
  method ReportDuplicatesAt(path: string, choices: seq<Choice>, dl: string, i: nat,
                            values: seq<string>, sms: seq<string>, ivr: seq<string>, errors: Errors)
    returns (r: Errors)
    requires i < |choices|
    requires values == ValuesOf(choices[..i]) && sms == SmsTokens(choices[..i], dl) && ivr == IvrTokens(choices[..i], dl)
    ensures r == Collect(errors, DuplicatesAt(path, choices, dl, i))
  {
    var choice := choices[i];
    var at := Indexed(path, i);
    var valueErrors := if choice.value in values then [Error(at + ".value", ValueUsed)] else [];
    var smsErrors := TokenDuplicates(at + ".sms", TokensOf(SmsOf(choice, dl)), sms);
    var ivrErrors := TokenDuplicates(at + ".ivr", TokensOf(IvrOf(choice, dl)), ivr);
    r := errors;
    if choice.value in values {
      CollectOne(r, Error(at + ".value", ValueUsed));
      r := AddError(r, Error(at + ".value", ValueUsed));
    }
    assert r == Collect(errors, valueErrors);
    if dl in choice.responses && choice.responses[dl].sms.Some? {
      r := ReportRepeated(at + ".sms", choice.responses[dl].sms.value, sms, r);
    }
    CollectAppend(errors, valueErrors, smsErrors);
    if dl in choice.responses && choice.responses[dl].ivr.Some? {
      r := ReportRepeated(at + ".ivr", choice.responses[dl].ivr.value, ivr, r);
    }
    CollectAppend(errors, valueErrors + smsErrors, ivrErrors);
  }

  /** The first loop of `validateChoices`: the checks of each choice, in order. */
  method CheckEachChoice(path: string, choices: seq<Choice>, ctx: Context, errors: Errors) returns (r: Errors)
    ensures r == Collect(errors, Flatten(ChoiceBlocks(path, choices, ctx)))
  {
    ghost var blocks := ChoiceBlocks(path, choices, ctx);
    r := errors;
    var i := 0;
    while i < |choices|
      invariant 0 <= i <= |choices|
      invariant r == Collect(errors, Flatten(blocks[..i]))
    {
      FlattenNext(blocks, i);
      CollectAppend(errors, Flatten(blocks[..i]), blocks[i]);
      r := Collect(r, ChoiceErrors(Indexed(path, i), choices[i], ctx));
      i := i + 1;
    }
    assert blocks[..|choices|] == blocks;
  }

  /** The tokens of a choice in the default language, none when it has no such response. */
  lemma ChoiceTokens(choice: Choice, dl: string)
    ensures TokensOf(SmsOf(choice, dl)) == if dl in choice.responses && choice.responses[dl].sms.Some? then choice.responses[dl].sms.value else []
    ensures TokensOf(IvrOf(choice, dl)) == if dl in choice.responses && choice.responses[dl].ivr.Some? then choice.responses[dl].ivr.value else []
  {
  }

  /** The second loop of `validateChoices`: it remembers the values and tokens seen so far and
      reports those used again. */
  method CheckRepeated(path: string, choices: seq<Choice>, dl: string, errors: Errors) returns (r: Errors)
    ensures r == Collect(errors, Flatten(DuplicateBlocks(path, choices, dl)))
  {
    ghost var dups := DuplicateBlocks(path, choices, dl);
    r := errors;
    var values: seq<string> := [];
    var sms: seq<string> := [];
    var ivr: seq<string> := [];
    var i := 0;
    while i < |choices|
      invariant 0 <= i <= |choices|
      invariant r == Collect(errors, Flatten(dups[..i]))
      invariant values == ValuesOf(choices[..i])
      invariant sms == SmsTokens(choices[..i], dl) && ivr == IvrTokens(choices[..i], dl)
    {
      FlattenNext(dups, i);
      CollectAppend(errors, Flatten(dups[..i]), dups[i]);
      assert dups[i] == DuplicatesAt(path, choices, dl, i);
      r := ReportDuplicatesAt(path, choices, dl, i, values, sms, ivr, r);
      assert r == Collect(errors, Flatten(dups[..i + 1]));
      var choice := choices[i];
      SeenNext(choices, i, dl);
      ChoiceTokens(choice, dl);
      if dl in choice.responses && choice.responses[dl].sms.Some? {
        sms := sms + choice.responses[dl].sms.value;
      }
      if dl in choice.responses && choice.responses[dl].ivr.Some? {
        ivr := ivr + choice.responses[dl].ivr.value;
      }
      values := values + [choice.value];
      i := i + 1;
    }
    assert dups[..|choices|] == dups;
  }

  /** `validateChoices`: the count check, then the two loops. */
  method ValidateChoices(path: string, choices: seq<Choice>, ctx: Context, errors: Errors) returns (r: Errors)
    ensures r == Collect(errors, ChoicesErrors(path, choices, ctx))
  {
    var count := if |choices| < 2 then [Error(path, TooFewResponses)] else [];
    r := errors;
    if |choices| < 2 {
      CollectOne(r, Error(path, TooFewResponses));
      r := AddError(r, Error(path, TooFewResponses));
    }
    r := CheckEachChoice(path, choices, ctx, r);
    CollectAppend(errors, count, Flatten(ChoiceBlocks(path, choices, ctx)));
    r := CheckRepeated(path, choices, ctx.defaultLanguage, r);
    CollectAppend(errors, count + Flatten(ChoiceBlocks(path, choices, ctx)), Flatten(DuplicateBlocks(path, choices, ctx.defaultLanguage)));
  }

  /** Recording a step's checks: the errors added, or the TypeError. */
  function Record(errors: Errors, checks: Outcome<seq<Error>>): Outcome<Errors> {
    match checks
    case Thrown(m) => Thrown(m)
    case Done(es) => Done(Collect(errors, es))
  }

  /** `validateStep` */
  method ValidateStep(path: string, step: Step, ctx: Context, errors: Errors) returns (r: Outcome<Errors>)
    ensures r == Record(errors, StepErrors(path, step, ctx))
  {
    if (ctx.sms || ctx.ivr) && step.prompt.None? {
      return Thrown("TypeError: step.prompt is undefined");
    }
    var dl := ctx.defaultLanguage;
    var smsErrors := if ctx.sms && SmsPromptIsBlank(step.prompt.value, dl) then [Error(path + ".prompt.sms", SmsPromptBlank)] else [];
    var ivrErrors := if ctx.ivr && VoicePromptIsBlank(step.prompt.value, dl) then [Error(path + ".prompt.ivr.text", VoicePromptBlank)] else [];
    var choiceErrors := if step.kind.MultipleChoice? then ChoicesErrors(path + ".choices", step.kind.choices, ctx) else [];
    var acc := errors;
    if ctx.sms && SmsPromptIsBlank(step.prompt.value, dl) {
      CollectOne(acc, Error(path + ".prompt.sms", SmsPromptBlank));
      acc := AddError(acc, Error(path + ".prompt.sms", SmsPromptBlank));
    }
    assert acc == Collect(errors, smsErrors);
    if ctx.ivr && VoicePromptIsBlank(step.prompt.value, dl) {
      CollectOne(acc, Error(path + ".prompt.ivr.text", VoicePromptBlank));
      acc := AddError(acc, Error(path + ".prompt.ivr.text", VoicePromptBlank));
    }
    CollectAppend(errors, smsErrors, ivrErrors);
    if step.kind.MultipleChoice? {
      acc := ValidateChoices(path + ".choices", step.kind.choices, ctx, acc);
    }
    CollectAppend(errors, smsErrors + ivrErrors, choiceErrors);
    return Done(acc);
  }

  /** `validateSteps` from the empty map, as `validate` does: a step that throws ends it. */
  method ValidateSteps(steps: seq<Step>, ctx: Context) returns (r: Outcome<Errors>)
    ensures r == Record(map[], FlattenAll(StepBlocks(steps, ctx)))
  {
    ghost var blocks := StepBlocks(steps, ctx);
    var errors: Errors := map[];
    var i := 0;
    while i < |steps|
      invariant 0 <= i <= |steps|
      invariant FlattenAll(blocks[..i]).Done? && errors == Collect(map[], FlattenAll(blocks[..i]).value)
    {
      FlattenAllNext(blocks, i);
      var next := ValidateStep(Indexed("steps", i), steps[i], ctx, errors);
      assert next == Record(errors, blocks[i]);
      if next.Thrown? {
        FlattenAllThrown(blocks, i + 1);
        return Thrown(next.message);
      }
      CollectAppend(map[], FlattenAll(blocks[..i]).value, blocks[i].value);
      errors := next.value;
      i := i + 1;
    }
    assert blocks[..|steps|] == blocks;
    return Done(errors);
  }

  /** `validate` on present data. */
  method ValidateData(q: Questionnaire) returns (r: Outcome<Errors>)
    ensures r == Validate(q)
  {
    r := ValidateSteps(q.steps, ContextOf(q));
  }
}
