/**
 * What `Checkin#to_markdown` renders, as functions of the checkin's state:
 * the YAML front matter (`weather_to_yaml` of every section's answers), the
 * title, and for every section its title and one group of pieces per question
 * (`print_answer`). The pieces are joined with newlines.
 */
module CheckinMarkdown {
  import opened Wrappers
  import opened Strings
  import opened OrderedHash
  import opened Clock
  import opened Answers
  import opened Questions
  import opened JournalSection
  import opened Foreign
  import JournalWeather
  import JournalRecord

  // ---------------------------------------------------------------------------
  // Pieces

  /** `add_title`. */
  function TitlePiece(s: string): string { "\n## " + s + "\n" }

  /** `header`. */
  function HeaderPiece(s: string): string { "\n##### " + s + "\n" }

  /** `section`. */
  function SectionPiece(s: string): string { "\n###### " + s + "\n" }

  /** `hr`. */
  const Rule: string := "\n* * * * * *\n"

  /** `header string`: nothing for a nil string. */
  function OptHeader(s: Option<string>): seq<string> {
    if s.Some? then [HeaderPiece(s.value)] else []
  }

  function OptSection(s: Option<string>): seq<string> {
    if s.Some? then [SectionPiece(s.value)] else []
  }

  /** `"#{prompt}"`: nil interpolates as the empty string. */
  function Interpolate(p: Option<string>): string {
    if p.Some? then p.value else ""
  }

  /** `"#{v}"` for an answer. */
  function ValueText(v: Value, env: Env): string {
    match v
    case Int(i) => IntToString(i)
    case Str(s) => s
    case _ => env.toS(v)
  }

  // ---------------------------------------------------------------------------
  // print_answer

  predicate WeatherType(t: Option<string>) {
    t.Some? && (StartsLine(t.value, "weather", false) || StartsLine(t.value, "forecast", false) || StartsLine(t.value, "moon", false))
  }

  predicate NumberType(t: Option<string>) {
    t.Some? && (StartsLine(t.value, "int", false) || StartsLine(t.value, "num", false))
  }

  predicate DateType(t: Option<string>) {
    t.Some? && StartsLine(t.value, "date", false)
  }

  /** The weather piece, chosen by the suffix of the question TYPE. */
  function WeatherPiece(t: string, v: Value): Result<string> {
    if EndsLine(t, "current") then
      if v.Weather? then Ok(JournalWeather.Current(v.w)) else Err(NoMethod("current"))
    else if EndsLine(t, "moon") then
      if v.Weather? then Ok("Moon phase: " + JournalWeather.Moon(v.w)) else Err(NoMethod("moon"))
    else if v.Weather? then Ok(JournalWeather.Markdown(v.w)) else Err(NoMethod("to_markdown"))
  }

  /**
   * `print_answer(prompt, type, key, data)`: the pieces appended for the answer
   * `data[key]`; `key` is None for `keys.last` of a key that split into nothing.
   */
  function AnswerPieces(prompt: Option<string>, qtype: Option<string>, key: Option<string>, data: Value, env: Env): Result<seq<string>> {
    if data.Nil? then Ok([])
    else if !data.Tree? then Err(NoMethod("key?"))
    else if key.None? then Ok([])
    else match Get(data.entries, key.value)
      case None => Ok([])
      case Some(v) =>
        if v.Nil? then Ok([])
        else if WeatherType(qtype) then
          match WeatherPiece(qtype.value, v)
          case Err(e) => Err(e)
          case Ok(w) => Ok(OptHeader(prompt) + [w])
        else if NumberType(qtype) then Ok([Interpolate(prompt) + ": " + ValueText(v, env) + "  "])
        else if DateType(qtype) then
          if v.Time? then Ok([Interpolate(prompt) + ": " + env.strftime(v.t, "%Y-%m-%d %H:%M")])
          else Err(NoMethod("strftime"))
        else if v.Str? then Ok((if Strip(v.s) == [] then [] else OptHeader(prompt) + [v.s]) + [Rule])
        else Err(NoMethod("strip"))
  }

  /** The map holds no answer to print: it is nil, lacks the key, or holds nil there. */
  predicate Silent(key: Option<string>, data: Value) {
    || data.Nil?
    || (data.Tree? && (key.None? || Get(data.entries, key.value).None? || Get(data.entries, key.value) == Some(Nil)))
  }

  /**
   * `print_answer` appends nothing exactly when there is no answer to print.
   * Otherwise the type decides:
   * - a weather type gives the header, then the current conditions, the moon
   *   phase or the whole table as the type ends in `current`, `moon` or
   *   neither; a value that is not a weather snapshot raises;
   * - a numeric answer is one piece `"<prompt>: <value>  "`;
   * - a date type gives `"<prompt>: "` and the formatted time, and raises for
   *   a value that is not a time;
   * - a present text answer always ends with the rule, preceded by the header
   *   and the text exactly when the text is not blank; a value that is not a
   *   string raises.
   */
  lemma PrintAnswerSpec(prompt: Option<string>, qtype: Option<string>, key: Option<string>, data: Value, env: Env)
    ensures AnswerPieces(prompt, qtype, key, data, env) == Ok([]) <==> Silent(key, data)
    ensures !Silent(key, data) && data.Tree? && NumberType(qtype) && !WeatherType(qtype) ==>
      AnswerPieces(prompt, qtype, key, data, env) ==
      Ok([Interpolate(prompt) + ": " + ValueText(Get(data.entries, key.value).value, env) + "  "])
    ensures (!Silent(key, data) && data.Tree? && Get(data.entries, key.value).value.Str? &&
             !WeatherType(qtype) && !NumberType(qtype) && !DateType(qtype)) ==>
      var s := Get(data.entries, key.value).value.s;
      var r := AnswerPieces(prompt, qtype, key, data, env);
      && r.Ok? && r.value[|r.value| - 1] == Rule
      && (Strip(s) == [] ==> r.value == [Rule])
      && (Strip(s) != [] ==> r.value == OptHeader(prompt) + [s, Rule])
    ensures !Silent(key, data) && data.Tree? && WeatherType(qtype) ==>
      var v := Get(data.entries, key.value).value;
      var t := qtype.value;
      AnswerPieces(prompt, qtype, key, data, env) ==
        if !v.Weather? then
          Err(NoMethod(if EndsLine(t, "current") then "current" else if EndsLine(t, "moon") then "moon" else "to_markdown"))
        else
          Ok(OptHeader(prompt) +
             [if EndsLine(t, "current") then JournalWeather.Current(v.w)
              else if EndsLine(t, "moon") then "Moon phase: " + JournalWeather.Moon(v.w)
              else JournalWeather.Markdown(v.w)])
    ensures !Silent(key, data) && data.Tree? && DateType(qtype) && !WeatherType(qtype) && !NumberType(qtype) ==>
      var v := Get(data.entries, key.value).value;
      AnswerPieces(prompt, qtype, key, data, env) ==
        if v.Time? then Ok([Interpolate(prompt) + ": " + env.strftime(v.t, "%Y-%m-%d %H:%M")])
        else Err(NoMethod("strftime"))
    ensures (!Silent(key, data) && data.Tree? && !Get(data.entries, key.value).value.Str? &&
             !WeatherType(qtype) && !NumberType(qtype) && !DateType(qtype)) ==>
      AnswerPieces(prompt, qtype, key, data, env) == Err(NoMethod("strip"))
  {
    var r := AnswerPieces(prompt, qtype, key, data, env);
    if !Silent(key, data) && data.Tree? && r.Ok? {
      var v := Get(data.entries, key.value).value;
      if WeatherType(qtype) {
        assert |r.value| >= 1;
      } else if !NumberType(qtype) && !DateType(qtype) {
        assert r.value[|r.value| - 1] == Rule;
      }
    }
  }

  /** A number answer renders its decimal text. */
  lemma NumberAnswerText(prompt: Option<string>, qtype: Option<string>, key: string, entries: Hash<Value>, n: int, env: Env)
    requires NumberType(qtype) && !WeatherType(qtype) && Get(entries, key) == Some(Int(n))
    ensures AnswerPieces(prompt, qtype, Some(key), Tree(entries), env) == Ok([Interpolate(prompt) + ": " + IntToString(n) + "  "])
  {
  }

  // ---------------------------------------------------------------------------
  // The questions of a section

  /** `res = res[key]` for each key in turn. */
  function Walk(res: Value, keys: seq<string>): Result<Value>
    decreases |keys|
  {
    if keys == [] then Ok(res)
    else match Index(res, keys[0])
      case Err(e) => Err(e)
      case Ok(r) => Walk(r, keys[1..])
  }

  /** The pieces of one question: a dotted key is looked up in the map its leading keys reach. */
  function QuestionPieces(q: Question, answers: Hash<Value>, env: Env): Result<seq<string>> {
    if '.' in q.key then
      var keys := SplitDots(q.key);
      if keys == [] then AnswerPieces(q.prompt, q.qtype, None, Tree(answers), env)
      else match Walk(Tree(answers), keys[..|keys| - 1])
        case Err(e) => Err(e)
        case Ok(res) => AnswerPieces(q.prompt, q.qtype, Some(keys[|keys| - 1]), res, env)
    else AnswerPieces(q.prompt, q.qtype, Some(q.key), Tree(answers), env)
  }

  /** `acc` followed by the pieces of the questions `qs`, in order. */
  function QuestionsFrom(acc: seq<string>, qs: seq<Question>, answers: Hash<Value>, env: Env): Result<seq<string>>
    decreases |qs|
  {
    if qs == [] then Ok(acc)
    else match QuestionPieces(qs[0], answers, env)
      case Err(e) => Err(e)
      case Ok(p) => QuestionsFrom(acc + p, qs[1..], answers, env)
  }

  /** `acc` followed by the pieces of the sections `secs`, in order. */
  function BodyFrom(acc: seq<string>, secs: Hash<SectionValue>, env: Env): Result<seq<string>>
    decreases |secs|
  {
    if secs == [] then Ok(acc)
    else match QuestionsFrom(acc + OptSection(secs[0].1.title), secs[0].1.questions, secs[0].1.answers, env)
      case Err(e) => Err(e)
      case Ok(p) => BodyFrom(p, secs[1..], env)
  }

  /** The pieces already there are kept in front; what follows does not depend on them. */
  lemma {:induction false} QuestionsAcc(acc: seq<string>, qs: seq<Question>, answers: Hash<Value>, env: Env)
    ensures QuestionsFrom(acc, qs, answers, env).Ok? <==> QuestionsFrom([], qs, answers, env).Ok?
    ensures QuestionsFrom(acc, qs, answers, env).Ok? ==>
      QuestionsFrom(acc, qs, answers, env).value == acc + QuestionsFrom([], qs, answers, env).value
    decreases |qs|
  {
    if qs != [] && QuestionPieces(qs[0], answers, env).Ok? {
      var p := QuestionPieces(qs[0], answers, env).value;
      QuestionsAcc(acc + p, qs[1..], answers, env);
      QuestionsAcc(p, qs[1..], answers, env);
      assert [] + p == p;
      if QuestionsFrom(acc, qs, answers, env).Ok? {
        assert acc + p + QuestionsFrom([], qs[1..], answers, env).value == acc + (p + QuestionsFrom([], qs[1..], answers, env).value);
      }
    }
  }

  /** The first section's title and questions follow `acc`; the other sections follow them. */
  lemma BodyCons(acc: seq<string>, secs: Hash<SectionValue>, env: Env)
    requires secs != []
    ensures var sv := secs[0].1;
      var q := QuestionsFrom([], sv.questions, sv.answers, env);
      && (q.Ok? ==> BodyFrom(acc, secs, env) == BodyFrom(acc + OptSection(sv.title) + q.value, secs[1..], env))
      && (q.Err? ==> BodyFrom(acc, secs, env).Err?)
  {
    var sv := secs[0].1;
    var h := acc + OptSection(sv.title);
    QuestionsAcc(h, sv.questions, sv.answers, env);
    var q := QuestionsFrom([], sv.questions, sv.answers, env);
    if q.Ok? {
      assert QuestionsFrom(h, sv.questions, sv.answers, env) == Ok(h + q.value);
    } else {
      assert QuestionsFrom(h, sv.questions, sv.answers, env).Err?;
    }
  }

  lemma {:induction false} BodyAcc(acc: seq<string>, secs: Hash<SectionValue>, env: Env)
    ensures BodyFrom(acc, secs, env).Ok? <==> BodyFrom([], secs, env).Ok?
    ensures BodyFrom(acc, secs, env).Ok? ==> BodyFrom(acc, secs, env).value == acc + BodyFrom([], secs, env).value
    decreases |secs|
  {
    if secs != [] {
      var sv := secs[0].1;
      var head := OptSection(sv.title);
      BodyCons(acc, secs, env);
      BodyCons([], secs, env);
      assert [] + head == head;
      if QuestionsFrom([], sv.questions, sv.answers, env).Ok? {
        var p := QuestionsFrom([], sv.questions, sv.answers, env).value;
        BodyAcc(acc + head + p, secs[1..], env);
        BodyAcc(head + p, secs[1..], env);
        if BodyFrom(acc, secs, env).Ok? {
          var t := BodyFrom([], secs[1..], env).value;
          assert acc + head + p + t == acc + (head + p + t);
        }
      } else {
        assert BodyFrom(acc, secs, env).Err?;
      }
    }
  }

  /**
   * The sections are rendered in order, each independently of the others:
   * the pieces of `s1 + s2` are those of `s1` followed by those of `s2`.
   */
  lemma {:induction false} BodyAppend(acc: seq<string>, s1: Hash<SectionValue>, s2: Hash<SectionValue>, env: Env)
    requires BodyFrom(acc, s1, env).Ok?
    ensures BodyFrom(acc, s1 + s2, env) == BodyFrom(BodyFrom(acc, s1, env).value, s2, env)
    decreases |s1|
  {
    if s1 == [] {
      assert s1 + s2 == s2;
    } else {
      assert (s1 + s2)[0] == s1[0] && (s1 + s2)[1..] == s1[1..] + s2;
      var sv := s1[0].1;
      var p := QuestionsFrom(acc + OptSection(sv.title), sv.questions, sv.answers, env).value;
      BodyAppend(p, s1[1..], s2, env);
    }
  }

  lemma BodySplit(s1: Hash<SectionValue>, s2: Hash<SectionValue>, env: Env)
    requires BodyFrom([], s1, env).Ok? && BodyFrom([], s2, env).Ok?
    ensures BodyFrom([], s1 + s2, env) == Ok(BodyFrom([], s1, env).value + BodyFrom([], s2, env).value)
  {
    BodyAppend([], s1, s2, env);
    BodyAcc(BodyFrom([], s1, env).value, s2, env);
  }

  /** The pieces of a section: its title, then its questions' pieces, in configured order. */
  lemma SectionOrder(sv: SectionValue, q: Question, env: Env)
    requires QuestionsFrom([], sv.questions, sv.answers, env).Ok? && QuestionPieces(q, sv.answers, env).Ok?
    ensures BodyFrom([], [(sv.key, sv)], env) ==
      Ok(OptSection(sv.title) + QuestionsFrom([], sv.questions, sv.answers, env).value)
    ensures QuestionsFrom([], sv.questions + [q], sv.answers, env) ==
      Ok(QuestionsFrom([], sv.questions, sv.answers, env).value + QuestionPieces(q, sv.answers, env).value)
  {
    QuestionsAcc(OptSection(sv.title), sv.questions, sv.answers, env);
    assert [] + OptSection(sv.title) == OptSection(sv.title);
    QuestionsSnoc([], sv.questions, q, sv.answers, env);
  }

  lemma {:induction false} QuestionsSnoc(acc: seq<string>, qs: seq<Question>, q: Question, answers: Hash<Value>, env: Env)
    requires QuestionsFrom(acc, qs, answers, env).Ok?
    ensures QuestionsFrom(acc, qs + [q], answers, env) ==
      match QuestionPieces(q, answers, env)
      case Err(e) => Err(e)
      case Ok(p) => Ok(QuestionsFrom(acc, qs, answers, env).value + p)
    decreases |qs|
  {
    if qs == [] {
      assert qs + [q] == [q];
    } else {
      assert (qs + [q])[1..] == qs[1..] + [q];
      QuestionsSnoc(acc + QuestionPieces(qs[0], answers, env).value, qs[1..], q, answers, env);
    }
  }

  /**
   * A dotted key `a.b` is printed from the map `answers["a"]` under key `b`;
   * when `answers["a"]` is missing nothing is printed.
   */
  lemma DottedLookup(q: Question, answers: Hash<Value>, a: string, b: string, env: Env)
    requires q.key == a + "." + b && '.' !in a && '.' !in b && b != []
    ensures Get(answers, a).Some? ==>
      QuestionPieces(q, answers, env) == AnswerPieces(q.prompt, q.qtype, Some(b), Get(answers, a).value, env)
    ensures Get(answers, a).None? ==> QuestionPieces(q, answers, env) == Ok([])
  {
    SplitDotsPair(a, b);
    assert (a + "." + b)[|a|] == '.';
    var keys := SplitDots(q.key);
    assert keys[..|keys| - 1] == [a];
    var r := Index(Tree(answers), a).value;
    assert Walk(Tree(answers), [a]) == Walk(r, []);
  }

  /** A nested answer stored under `a.b` is the one `to_markdown` prints for that question. */
  lemma StoredIsPrinted(q: Question, answers: Hash<Value>, a: string, b: string, v: Value, env: Env)
    requires q.key == a + "." + b && '.' !in a && '.' !in b && b != []
    requires Get(answers, a).None? || Get(answers, a).value.Tree?
    ensures Store(answers, q.key, v).Ok?
    ensures var h := Store(answers, q.key, v).value;
      && Get(h, a).Some? && Get(h, a).value.Tree? && Get(Get(h, a).value.entries, b) == Some(v)
      && QuestionPieces(q, h, env) == AnswerPieces(q.prompt, q.qtype, Some(b), Get(h, a).value, env)
  {
    StoreNested(answers, a, b, v);
    var h := Store(answers, q.key, v).value;
    LookupOne(Tree(h), a);
    var t := Get(h, a).value;
    assert [a, b][1..] == [b];
    assert Lookup(Tree(h), [a, b]) == Lookup(t, [b]);
    LookupOne(t, b);
    DottedLookup(q, h, a, b, env);
  }

  lemma LookupOne(t: Value, k: string)
    ensures Lookup(t, [k]) == if t.Tree? then Get(t.entries, k) else None
  {
    assert [k][1..] == [];
  }

  // ---------------------------------------------------------------------------
  // weather_to_yaml

  /**
   * What entry `i` of the map `t` becomes in the front matter: a String is
   * skipped, a map converted in turn, a weather value reduced by its KEY's
   * suffix, anything else copied. A `Time` is copied too: its class name does
   * not match `/Date/`.
   */
  function YamlEntry(t: Value, i: nat, env: Env): Option<Value>
    requires t.Tree? && i < |t.entries|
    decreases t, 0
  {
    var k, v := t.entries[i].0, t.entries[i].1;
    assert t.entries[i] in t.entries;
    match v
    case Str(_) => None
    case Tree(_) => Some(Tree(YamlFrom(v, 0, [], env)))
    case Weather(w) =>
      Some(Str(
        if EndsLine(k, "current") then JournalWeather.Current(w)
        else if EndsLine(k, "forecast") then JournalWeather.Forecast(w)
        else if JournalRecord.MoonKey(k) then JournalWeather.Moon(w)
        else env.weatherToS(w)))
    case _ => Some(v)
  }

  /** `data` after the entries of `t` from index `i` on. */
  function YamlFrom(t: Value, i: nat, acc: Hash<Value>, env: Env): Hash<Value>
    requires t.Tree? && i <= |t.entries|
    decreases t, |t.entries| - i + 1
  {
    if i == |t.entries| then acc
    else YamlFrom(t, i + 1, YamlStep(t, i, acc, env), env)
  }

  function YamlOf(answers: Hash<Value>, env: Env): Hash<Value> {
    YamlFrom(Tree(answers), 0, [], env)
  }

  /** The step for entry `i` of `t`. */
  function YamlStep(t: Value, i: nat, acc: Hash<Value>, env: Env): Hash<Value>
    requires t.Tree? && i < |t.entries|
    decreases t, 1
  {
    match YamlEntry(t, i, env) case None => acc case Some(y) => Put(acc, t.entries[i].0, y)
  }

  /** A key not among the remaining entries keeps what `acc` holds for it. */
  lemma {:induction false} YamlFromOther(t: Value, i: nat, acc: Hash<Value>, k: string, env: Env)
    requires t.Tree? && i <= |t.entries| && k !in Keys(t.entries[i..])
    ensures Get(YamlFrom(t, i, acc, env), k) == Get(acc, k)
    decreases |t.entries| - i
  {
    var es := t.entries;
    if i < |es| {
      assert YamlFrom(t, i, acc, env) == YamlFrom(t, i + 1, YamlStep(t, i, acc, env), env);
      assert Keys(es[i..])[0] == es[i].0;
      assert Keys(es[i + 1..]) == Keys(es[i..])[1..];
      YamlFromOther(t, i + 1, YamlStep(t, i, acc, env), k, env);
    }
  }

  lemma {:induction false} YamlFromSpec(t: Value, i: nat, acc: Hash<Value>, env: Env)
    requires t.Tree? && i <= |t.entries| && Distinct(Keys(t.entries))
    requires forall k :: k in Keys(acc) ==> k !in Keys(t.entries[i..])
    ensures forall j :: i <= j < |t.entries| ==> Get(YamlFrom(t, i, acc, env), t.entries[j].0) == YamlEntry(t, j, env)
    decreases |t.entries| - i
  {
    var es := t.entries;
    if i < |es| {
      var acc' := YamlStep(t, i, acc, env);
      assert YamlFrom(t, i, acc, env) == YamlFrom(t, i + 1, acc', env);
      assert Keys(es)[i..] == Keys(es[i..]);
      assert Keys(es)[i + 1..] == Keys(es[i + 1..]);
      assert es[i].0 !in Keys(es[i + 1..]) by {
        assert forall m :: i + 1 <= m < |es| ==> Keys(es)[m] != Keys(es)[i];
      }
      assert es[i].0 !in Keys(acc) by {
        assert es[i].0 in Keys(es[i..]);
      }
      forall k | k in Keys(acc') ensures k !in Keys(es[i + 1..]) {
        if k != es[i].0 {
          match YamlEntry(t, i, env) {
            case None =>
            case Some(y) => PutKeys(acc, es[i].0, y);
          }
          assert k in Keys(acc);
          assert forall x :: x in Keys(es[i + 1..]) ==> x in Keys(es[i..]);
        }
      }
      YamlFromSpec(t, i + 1, acc', env);
      YamlFromOther(t, i + 1, acc', es[i].0, env);
    }
  }

  /** Keys that are not those of `t`'s entries are absent from the conversion. */
  lemma YamlFromNone(t: Value, k: string, env: Env)
    requires t.Tree? && k !in Keys(t.entries)
    ensures Get(YamlFrom(t, 0, [], env), k).None?
  {
    assert t.entries[0..] == t.entries;
    YamlFromOther(t, 0, [], k, env);
  }

  /**
   * `weather_to_yaml` on a map with distinct keys: each key holds what its
   * entry becomes (nothing for a String), and no other key is present.
   */
  lemma YamlShape(answers: Hash<Value>, env: Env)
    requires Distinct(Keys(answers))
    ensures forall j :: 0 <= j < |answers| ==> Get(YamlOf(answers, env), answers[j].0) == YamlEntry(Tree(answers), j, env)
    ensures forall k :: k !in Keys(answers) ==> Get(YamlOf(answers, env), k).None?
  {
    assert answers[0..] == answers;
    YamlFromSpec(Tree(answers), 0, [], env);
    forall k | k !in Keys(answers) ensures Get(YamlOf(answers, env), k).None? {
      YamlFromNone(Tree(answers), k, env);
    }
  }

  /** `yaml_data`: the title and date, merged with each section's converted answers in turn. */
  function MergeFrom(acc: Hash<Value>, data: Hash<SectionValue>, env: Env): Hash<Value>
    decreases |data|
  {
    if data == [] then acc else MergeFrom(PutAll(acc, YamlOf(data[0].1.answers, env)), data[1..], env)
  }

  function FrontMatter(title: string, date: Instant, data: Hash<SectionValue>, env: Env): Hash<Value> {
    MergeFrom([("title", Str(title)), ("date", Str(env.strftime(date, "%x %X")))], data, env)
  }

  // ---------------------------------------------------------------------------
  // to_markdown

  datatype Flags = Flags(yaml: bool, title: bool, date: bool, time: bool)

  function TitleFormat(f: Flags): string {
    (if f.date then "%x" else "") + (if f.time then "%X" else "")
  }

  /** The pieces before the sections: the front matter and its closing rule, then the title. */
  function HeadPieces(f: Flags, title: string, date: Instant, data: Hash<SectionValue>, env: Env): seq<string> {
    (if f.yaml then [Strip(env.yamlDump(FrontMatter(title, date, data, env))), "---"] else [])
    + (if !f.title then []
       else if f.date || f.time then [TitlePiece(title + " " + env.strftime(date, TitleFormat(f)))]
       else [TitlePiece(title)])
  }

  /** The pieces of `to_markdown`: fresh on every call, whatever the output held before. */
  /** Section `i` of `secs` renders its title and questions after `acc`, and the rest follow. */
  lemma BodyFromStep(acc: seq<string>, secs: Hash<SectionValue>, i: nat, env: Env)
    requires i < |secs|
    ensures BodyFrom(acc, secs[i..], env) ==
      match QuestionsFrom(acc + OptSection(secs[i].1.title), secs[i].1.questions, secs[i].1.answers, env)
      case Err(e) => Err(e)
      case Ok(p) => BodyFrom(p, secs[i + 1..], env)
  {
    assert secs[i..][0] == secs[i] && secs[i..][1..] == secs[i + 1..];
  }

  function MarkdownPieces(f: Flags, title: string, date: Instant, data: Hash<SectionValue>, secs: Hash<SectionValue>, env: Env): Result<seq<string>> {
    BodyFrom(HeadPieces(f, title, date, data, env), secs, env)
  }

  function MarkdownText(f: Flags, title: string, date: Instant, data: Hash<SectionValue>, secs: Hash<SectionValue>, env: Env): Result<string> {
    match MarkdownPieces(f, title, date, data, secs, env)
    case Err(e) => Err(e)
    case Ok(p) => Ok(JoinWith(p, "\n"))
  }

  /** The rendering is the head, then the sections in order. */
  lemma MarkdownLayout(f: Flags, title: string, date: Instant, data: Hash<SectionValue>, secs: Hash<SectionValue>, env: Env)
    ensures MarkdownPieces(f, title, date, data, secs, env).Ok? <==> BodyFrom([], secs, env).Ok?
    ensures MarkdownPieces(f, title, date, data, secs, env).Ok? ==>
      MarkdownPieces(f, title, date, data, secs, env).value == HeadPieces(f, title, date, data, env) + BodyFrom([], secs, env).value
    ensures f.yaml ==> HeadPieces(f, title, date, data, env)[1] == "---"
  {
    BodyAcc(HeadPieces(f, title, date, data, env), secs, env);
  }
}
