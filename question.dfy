/**
 * `Journal::Question`: a configured question and the way it is answered. The
 * `gum` prompts are a finite sequence of responses, each consumed in turn;
 * running out of responses is `Err(InputExhausted)`.
 */
module Questions {
  import opened Wrappers
  import opened Strings
  import opened Answers

  /**
   * A question entry of the configuration. `min` and `max` hold the text of
   * the configured scalar (YAML integers being their decimal text).
   */
  datatype QuestionConfig = QuestionConfig(
    key: string,
    qtype: Option<string>,
    min: Option<string>,
    max: Option<string>,
    prompt: Option<string>,
    secondaryPrompt: Option<string>)

  datatype Question = Question(
    key: string,
    qtype: Option<string>,
    min: int,
    max: int,
    prompt: Option<string>,
    secondaryPrompt: Option<string>)

  /** `Question#initialize`: `min` is 1 and `max` is 5 unless configured. */
  function NewQuestion(c: QuestionConfig): Question {
    Question(
      c.key, c.qtype,
      if c.min.Some? then ToI(c.min.value) else 1,
      if c.max.Some? then ToI(c.max.value) else 5,
      c.prompt, c.secondaryPrompt)
  }

  /** The bounds default to 1 and 5, and a configured integer is taken as it is. */
  lemma NewQuestionBounds(c: QuestionConfig)
    ensures c.min.None? ==> NewQuestion(c).min == 1
    ensures c.max.None? ==> NewQuestion(c).max == 5
    ensures forall n :: c.min == Some(IntToString(n)) ==> NewQuestion(c).min == n
    ensures forall n :: c.max == Some(IntToString(n)) ==> NewQuestion(c).max == n
    ensures NewQuestion(c).key == c.key && NewQuestion(c).qtype == c.qtype
  {
    forall n | c.min == Some(IntToString(n)) ensures NewQuestion(c).min == n {
      ToIIntToString(n);
    }
    forall n | c.max == Some(IntToString(n)) ensures NewQuestion(c).max == n {
      ToIIntToString(n);
    }
  }

  // ---------------------------------------------------------------------------
  // Dispatch on the type

  datatype Kind = NumberKind | LineKind | WeatherKind | MultiKind | NoKind

  /** The `case @type` of `ask`; a nil type matches no pattern. */
  function KindOf(t: Option<string>): Kind {
    if t.None? then NoKind
    else if StartsLine(t.value, "int", true) || StartsLine(t.value, "num", true) then NumberKind
    else if StartsLine(t.value, "text", true) || StartsLine(t.value, "string", true) || StartsLine(t.value, "line", true) then LineKind
    else if StartsLine(t.value, "weather", true) || StartsLine(t.value, "forecast", true) then WeatherKind
    else if StartsLine(t.value, "multi", false) then MultiKind
    else NoKind
  }

  /** `t` lowered has a line beginning with `w`: what `/^w/i` tests for a pattern `w` in small letters. */
  predicate LowerStarts(t: string, w: string) {
    StartsLine(Lower(t), w, false)
  }

  /** A type read by the number reader, after folding. */
  predicate NumberType(t: string) {
    LowerStarts(t, "int") || LowerStarts(t, "num")
  }

  /** A type read by the line reader, after folding. */
  predicate LineType(t: string) {
    LowerStarts(t, "text") || LowerStarts(t, "string") || LowerStarts(t, "line")
  }

  /** A type taken by the weather branch, after folding. */
  predicate WeatherTypeName(t: string) {
    LowerStarts(t, "weather") || LowerStarts(t, "forecast")
  }

  /** Each `/i` pattern of `ask` tests the lowered type without folding. */
  lemma CaseFolded(t: string)
    ensures StartsLine(t, "int", true) == LowerStarts(t, "int")
    ensures StartsLine(t, "num", true) == LowerStarts(t, "num")
    ensures StartsLine(t, "text", true) == LowerStarts(t, "text")
    ensures StartsLine(t, "string", true) == LowerStarts(t, "string")
    ensures StartsLine(t, "line", true) == LowerStarts(t, "line")
    ensures StartsLine(t, "weather", true) == LowerStarts(t, "weather")
    ensures StartsLine(t, "forecast", true) == LowerStarts(t, "forecast")
  {
    StartsLineLower(t, "int");
    StartsLineLower(t, "num");
    StartsLineLower(t, "text");
    StartsLineLower(t, "string");
    StartsLineLower(t, "line");
    StartsLineLower(t, "weather");
    StartsLineLower(t, "forecast");
  }

  /** `/^(int|num)/i` takes the number reader, whatever the case of the type. */
  lemma KindNumber(t: string)
    ensures KindOf(Some(t)) == NumberKind <==> NumberType(t)
  {
    CaseFolded(t);
  }

  /** `/^(text|string|line)/i` takes the line reader when no earlier branch does. */
  lemma KindLine(t: string)
    ensures KindOf(Some(t)) == LineKind <==> !NumberType(t) && LineType(t)
  {
    CaseFolded(t);
  }

  /** `/^(weather|forecast)/i` takes the weather branch when no earlier branch does. */
  lemma KindWeather(t: string)
    ensures KindOf(Some(t)) == WeatherKind <==> !NumberType(t) && !LineType(t) && WeatherTypeName(t)
  {
    CaseFolded(t);
  }

  /**
   * A question fails with the wrong number of arguments exactly when its type
   * takes the weather branch: `Weather.new` is handed two of its three.
   */
  lemma AskWeather(q: Question, input: seq<string>)
    ensures Ask(q, input) == Err(WrongArity) <==>
      q.qtype.Some? && !NumberType(q.qtype.value) && !LineType(q.qtype.value) && WeatherTypeName(q.qtype.value)
  {
    if q.qtype.Some? {
      KindWeather(q.qtype.value);
    }
  }

  /**
   * `/^multi/` has no `/i`: it is tested on the type as written, after the
   * folded patterns. So "multiline" takes the multi-line reader and "Multi"
   * matches nothing.
   */
  lemma KindMulti(t: string)
    ensures KindOf(Some(t)) == MultiKind <==>
      !NumberType(t) && !LineType(t) && !WeatherTypeName(t) && StartsLine(t, "multi", false)
    ensures KindOf(Some("multiline")) == MultiKind && KindOf(Some("Multi")) == NoKind
  {
    CaseFolded(t);
    StartsLineHeadDiffers("multiline", "int", true);
    StartsLineHeadDiffers("multiline", "num", true);
    StartsLineHeadDiffers("multiline", "text", true);
    StartsLineHeadDiffers("multiline", "string", true);
    StartsLineHeadDiffers("multiline", "line", true);
    StartsLineHeadDiffers("multiline", "weather", true);
    StartsLineHeadDiffers("multiline", "forecast", true);
    StartsLineAtZero("multiline", "multi", false);
    assert Fold('M', true) == 'm';
    StartsLineHeadDiffers("Multi", "int", true);
    StartsLineHeadDiffers("Multi", "num", true);
    StartsLineHeadDiffers("Multi", "text", true);
    StartsLineHeadDiffers("Multi", "string", true);
    StartsLineHeadDiffers("Multi", "line", true);
    StartsLineHeadDiffers("Multi", "weather", true);
    StartsLineHeadDiffers("Multi", "forecast", true);
    StartsLineHeadDiffers("Multi", "multi", false);
  }

  /**
   * A missing type, and one that matches none of the five patterns, makes
   * `ask` return nil without reading a response.
   */
  lemma KindOther(q: Question, input: seq<string>)
    ensures KindOf(q.qtype) == NoKind <==>
      q.qtype.None? ||
      (!NumberType(q.qtype.value) && !LineType(q.qtype.value) && !WeatherTypeName(q.qtype.value)
       && !StartsLine(q.qtype.value, "multi", false))
    ensures KindOf(q.qtype) == NoKind ==> Ask(q, input) == Ok((Nil, input))
  {
    if q.qtype.Some? {
      CaseFolded(q.qtype.value);
    }
  }

  /**
   * `Question#ask`: the answer and the responses left over. The weather
   * branch calls `Weather.new` with two arguments where the constructor takes
   * three, so it always raises.
   */
  function Ask(q: Question, input: seq<string>): (r: Result<(Value, seq<string>)>)
    ensures r.Ok? ==> |r.value.1| <= |input| && r.value.1 == input[|input| - |r.value.1|..]
  {
    match KindOf(q.qtype)
    case NumberKind => ReadNumber(q.min, q.max, input)
    case LineKind => AsValue(ReadText(false, q.secondaryPrompt.Some?, input))
    case WeatherKind => Err(WrongArity)
    case MultiKind => AsValue(ReadText(true, q.secondaryPrompt.Some?, input))
    case NoKind => Ok((Nil, input))
  }

  function AsValue(r: Result<(string, seq<string>)>): Result<(Value, seq<string>)> {
    match r
    case Err(e) => Err(e)
    case Ok((s, rest)) => Ok((Str(s), rest))
  }

  // ---------------------------------------------------------------------------
  // read_number

  /** The answer a response gives when it is accepted: nil when blank, else its integer value. */
  function NumberAnswer(line: string): Value {
    var res := Strip(line);
    if Strip(res) == [] then Nil else Int(ToI(res))
  }

  /** A response ends the question when it is blank or its value is within the bounds. */
  predicate Accepts(min: int, max: int, line: string) {
    NumberAnswer(line).Nil? || min <= NumberAnswer(line).i <= max
  }

  /** `read_number`: responses out of range are discarded and the prompt repeated. */
  function ReadNumber(min: int, max: int, input: seq<string>): (r: Result<(Value, seq<string>)>)
    ensures r.Ok? ==> r.value.0 == Nil || (r.value.0.Int? && min <= r.value.0.i <= max)
    ensures r.Ok? ==> |r.value.1| < |input| && r.value.1 == input[|input| - |r.value.1|..]
    ensures r.Err? ==> r.error == InputExhausted
    decreases |input|
  {
    if input == [] then Err(InputExhausted)
    else
      var res := Strip(input[0]);
      if Strip(res) == [] then Ok((Nil, input[1..]))
      else
        var n := ToI(res);
        if n < min || n > max then ReadNumber(min, max, input[1..])
        else Ok((Int(n), input[1..]))
  }

  /** The index of the first accepted response. */
  function FirstAccepted(min: int, max: int, input: seq<string>): (k: Option<nat>)
    ensures k.Some? ==> k.value < |input| && Accepts(min, max, input[k.value])
    ensures k.Some? ==> forall j :: 0 <= j < k.value ==> !Accepts(min, max, input[j])
    ensures k.None? ==> forall j :: 0 <= j < |input| ==> !Accepts(min, max, input[j])
  {
    if input == [] then None
    else if Accepts(min, max, input[0]) then Some(0)
    else match FirstAccepted(min, max, input[1..])
      case None => None
      case Some(k) => Some(k + 1)
  }

  /**
   * The first response that is blank or in range decides the answer and every
   * response before it is consumed and discarded; with no such response the
   * input runs out.
   */
  lemma {:induction false} ReadNumberFirst(min: int, max: int, input: seq<string>)
    ensures FirstAccepted(min, max, input).None? ==> ReadNumber(min, max, input) == Err(InputExhausted)
    ensures FirstAccepted(min, max, input).Some? ==>
      var k := FirstAccepted(min, max, input).value;
      ReadNumber(min, max, input) == Ok((NumberAnswer(input[k]), input[k + 1..]))
    decreases |input|
  {
    if input != [] && !Accepts(min, max, input[0]) {
      ReadNumberFirst(min, max, input[1..]);
      if FirstAccepted(min, max, input[1..]).Some? {
        var k := FirstAccepted(min, max, input[1..]).value;
        assert input[1..][k + 1..] == input[k + 2..];
      }
    }
  }

  // ---------------------------------------------------------------------------
  // read_line and read_lines

  /** `read_lines` ends on a response that strips to nothing, `read_line` on one with a spaces-only line. */
  predicate IsBlank(multi: bool, line: string) {
    if multi then Strip(line) == [] else SpacesOnlyLine(line)
  }

  /**
   * `read_line` (`multi` false) and `read_lines` (`multi` true). A blank
   * response gives the empty string; otherwise the response, followed under a
   * secondary prompt by a newline and the answer to the repeated prompt, is
   * stripped.
   */
  function ReadText(multi: bool, repeat: bool, input: seq<string>): (r: Result<(string, seq<string>)>)
    ensures r.Ok? ==> Strip(r.value.0) == r.value.0
    ensures r.Ok? ==> |r.value.1| < |input| && r.value.1 == input[|input| - |r.value.1|..]
    ensures r.Err? ==> r.error == InputExhausted
    decreases |input|
  {
    if input == [] then Err(InputExhausted)
    else if IsBlank(multi, input[0]) then Ok(("", input[1..]))
    else if !repeat then StripIdempotent(input[0]); Ok((Strip(input[0]), input[1..]))
    else
      match ReadText(multi, repeat, input[1..])
      case Err(e) => Err(e)
      case Ok((more, rest)) => StripIdempotent(input[0] + "\n" + more); Ok((Strip(input[0] + "\n" + more), rest))
  }

  /** The index of the first blank response. */
  function FirstBlank(multi: bool, input: seq<string>): (k: Option<nat>)
    ensures k.Some? ==> k.value < |input| && IsBlank(multi, input[k.value])
    ensures k.Some? ==> forall j :: 0 <= j < k.value ==> !IsBlank(multi, input[j])
    ensures k.None? ==> forall j :: 0 <= j < |input| ==> !IsBlank(multi, input[j])
  {
    if input == [] then None
    else if IsBlank(multi, input[0]) then Some(0)
    else match FirstBlank(multi, input[1..])
      case None => None
      case Some(k) => Some(k + 1)
  }

  /** The responses before the blank one, each joined to the answer of the rest by a newline and stripped. */
  function Joined(lines: seq<string>): string {
    if lines == [] then "" else Strip(lines[0] + "\n" + Joined(lines[1..]))
  }

  /**
   * Without a secondary prompt one response is read: a blank one gives the
   * empty string (not nil), any other its stripped text.
   */
  lemma ReadTextOnce(multi: bool, input: seq<string>)
    requires input != []
    ensures ReadText(multi, false, input) ==
      Ok((if IsBlank(multi, input[0]) then "" else Strip(input[0]), input[1..]))
  {
  }

  /**
   * Under a secondary prompt responses are read up to and including the first
   * blank one, which ends the collection; the answer joins the earlier ones.
   */
  lemma {:induction false} ReadTextRepeats(multi: bool, input: seq<string>)
    ensures FirstBlank(multi, input).None? ==> ReadText(multi, true, input) == Err(InputExhausted)
    ensures FirstBlank(multi, input).Some? ==>
      var k := FirstBlank(multi, input).value;
      ReadText(multi, true, input) == Ok((Joined(input[..k]), input[k + 1..]))
    decreases |input|
  {
    if input != [] && !IsBlank(multi, input[0]) {
      ReadTextRepeats(multi, input[1..]);
      if FirstBlank(multi, input[1..]).Some? {
        var k := FirstBlank(multi, input[1..]).value;
        var more := Joined(input[1..][..k]);
        assert ReadText(multi, true, input[1..]) == Ok((more, input[1..][k + 1..]));
        assert ReadText(multi, true, input) == Ok((Strip(input[0] + "\n" + more), input[1..][k + 1..]));
        assert input[1..][k + 1..] == input[k + 2..];
        assert input[..k + 1][1..] == input[1..][..k];
        assert Joined(input[..k + 1]) == Strip(input[0] + "\n" + more);
      }
    }
  }

  /**
   * A lone tab is blank for `read_lines` but not for `read_line`, whose test
   * looks for a line of spaces only; under a secondary prompt `read_line`
   * therefore goes on asking and consumes one more response.
   */
  lemma BlankTests()
    ensures IsBlank(true, "\t") && !IsBlank(false, "\t")
    ensures ReadText(true, true, ["\t", ""]) == Ok(("", [""]))
    ensures ReadText(false, true, ["\t", ""]) == Ok(("", []))
  {
    StripEmptyIff("\t");
    SpacesOnlySingleLine("\t");
    assert "\t"[0] != ' ';
    StripEmptyIff("");
    SpacesOnlySingleLine("");
    assert "\t" + "\n" + "" == "\t\n";
    StripEmptyIff("\t\n");
    assert ["\t", ""][1..] == [""] && [""][1..] == [];
    assert ReadText(false, true, [""]) == Ok(("", []));
  }
}
