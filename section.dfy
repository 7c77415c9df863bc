/**
 * `Journal::Section`: a configured section whose questions are asked when it
 * is built, the answers being stored in `answers` as they are given.
 */
module JournalSection {
  import opened Wrappers
  import opened Strings
  import opened OrderedHash
  import opened Answers
  import opened Questions

  datatype SectionConfig = SectionConfig(key: string, title: Option<string>, questions: seq<QuestionConfig>)

  function NewQuestions(cs: seq<QuestionConfig>): (qs: seq<Question>)
    ensures |qs| == |cs| && forall i :: 0 <= i < |cs| ==> qs[i] == NewQuestion(cs[i])
  {
    if cs == [] then [] else [NewQuestion(cs[0])] + NewQuestions(cs[1..])
  }

  /**
   * Whether the walk of the intermediate keys completes: `key?` is called on
   * every container reached after `answers`, and fails on one that is not a map.
   */
  function Walkable(h: Hash<Value>, path: seq<string>): bool
    requires |path| >= 1
    decreases |path|
  {
    if |path| <= 2 then true
    else match Get(h, path[0])
      case None => true
      case Some(c) => c.Tree? && Walkable(c.entries, path[1..])
  }

  /** The walk fails exactly where the dotted write raises on `key?`. */
  lemma {:induction false} WalkableSetPath(h: Hash<Value>, path: seq<string>, val: Value)
    requires |path| >= 1
    ensures !Walkable(h, path) <==> SetPath(h, path, val) == Err(NoMethod("key?"))
    decreases |path|
  {
    if |path| > 2 {
      var child := Get(h, path[0]);
      if child.None? {
        WalkableFresh(path[1..], val);
      } else if child.value.Tree? {
        WalkableSetPath(child.value.entries, path[1..], val);
      }
    } else if |path| == 2 {
      var child := Get(h, path[0]);
      if child.None? || child.value.Tree? {
        assert |path[1..]| == 1;
      }
    }
  }

  lemma {:induction false} WalkableFresh(path: seq<string>, val: Value)
    requires |path| >= 1
    ensures Walkable([], path) && SetPath([], path, val).Ok?
    decreases |path|
  {
    if |path| > 1 {
      WalkableFresh(path[1..], val);
    }
  }

  /**
   * One question of `ask_questions`: a dotted key first walks its
   * intermediate keys, then the question is asked and the answer stored.
   * A key made of dots only splits into nothing (see README).
   */
  function AskOne(answers: Hash<Value>, q: Question, input: seq<string>): Result<(Hash<Value>, seq<string>)> {
    var path := SplitDots(q.key);
    if '.' in q.key && path != [] && !Walkable(answers, path) then Err(NoMethod("key?"))
    else match Ask(q, input)
      case Err(e) => Err(e)
      case Ok((v, rest)) =>
        match Store(answers, q.key, v)
        case Err(e) => Err(e)
        case Ok(a) => Ok((a, rest))
  }

  /** Where an answer goes: a dotted key through nested maps, any other key at the top level. */
  function Store(answers: Hash<Value>, key: string, v: Value): Result<Hash<Value>> {
    if '.' in key then
      var path := SplitDots(key);
      if path == [] then Err(NilKey) else SetPath(answers, path, v)
    else Ok(Put(answers, key, v))
  }

  /** The questions `qs` asked in order, each answer stored before the next question. */
  function AskAll(answers: Hash<Value>, qs: seq<Question>, input: seq<string>): Result<(Hash<Value>, seq<string>)>
    decreases |qs|
  {
    if qs == [] then Ok((answers, input))
    else match AskOne(answers, qs[0], input)
      case Err(e) => Err(e)
      case Ok((a, rest)) => AskAll(a, qs[1..], rest)
  }

  /** What a built section holds. */
  datatype SectionValue = SectionValue(key: string, title: Option<string>, questions: seq<Question>, answers: Hash<Value>)

  /** The section `Section.new(cfg)` builds, and the responses it leaves. */
  function BuildSpec(cfg: SectionConfig, input: seq<string>): Result<(SectionValue, seq<string>)> {
    var qs := NewQuestions(cfg.questions);
    match AskAll([], qs, input)
    case Err(e) => Err(e)
    case Ok((a, rest)) => Ok((SectionValue(cfg.key, cfg.title, qs, a), rest))
  }

  class Section {
    var key: string
    var title: Option<string>
    var questions: seq<Question>
    var answers: Hash<Value>

    /** The fields of `initialize` before `ask_questions` runs: `answers` starts empty. */
    constructor(cfg: SectionConfig)
      ensures key == cfg.key && title == cfg.title
      ensures questions == NewQuestions(cfg.questions) && answers == []
    {
      key := cfg.key;
      title := cfg.title;
      questions := NewQuestions(cfg.questions);
      answers := [];
    }

    function Value(): SectionValue
      reads this
    {
      SectionValue(key, title, questions, answers)
    }

    /** `ask_questions`: the configured questions, asked once each and in order. */
    method AskQuestions(input: seq<string>) returns (r: Result<seq<string>>)
      modifies this
      ensures key == old(key) && title == old(title) && questions == old(questions)
      ensures r.Ok? <==> AskAll(old(answers), questions, input).Ok?
      ensures r.Err? ==> r.error == AskAll(old(answers), questions, input).error
      ensures r.Ok? ==> (answers, r.value) == AskAll(old(answers), questions, input).value
    {
      var rest := input;
      var i := 0;
      while i < |questions|
        invariant 0 <= i <= |questions|
        invariant key == old(key) && title == old(title) && questions == old(questions)
        invariant AskAll(answers, questions[i..], rest) == AskAll(old(answers), questions, input)
      {
        assert questions[i..][1..] == questions[i + 1..];
        match AskOne(answers, questions[i], rest)
        case Err(e) =>
          return Err(e);
        case Ok((a, rest')) =>
          answers := a;
          rest := rest';
        i := i + 1;
      }
      r := Ok(rest);
    }
  }

  /** `Section.new(cfg)`: the section with every question answered, or the exception raised on the way. */
  method Build(cfg: SectionConfig, input: seq<string>) returns (r: Result<(Section, seq<string>)>)
    ensures r.Ok? <==> BuildSpec(cfg, input).Ok?
    ensures r.Err? ==> r.error == BuildSpec(cfg, input).error
    ensures r.Ok? ==> fresh(r.value.0)
    ensures r.Ok? ==> (r.value.0.Value(), r.value.1) == BuildSpec(cfg, input).value
  {
    var s := new Section(cfg);
    var a := s.AskQuestions(input);
    match a
    case Err(e) => r := Err(e);
    case Ok(rest) => r := Ok((s, rest));
  }

  // ---------------------------------------------------------------------------
  // Properties of the answers

  /** A key without a dot is assigned at the top level of `answers`, and no other top-level key changes. */
  lemma StoreTopLevel(answers: Hash<Value>, key: string, v: Value)
    requires '.' !in key
    ensures Store(answers, key, v).Ok?
    ensures Get(Store(answers, key, v).value, key) == Some(v)
    ensures forall k :: k != key ==> Get(Store(answers, key, v).value, k) == Get(answers, k)
  {
  }

  /**
   * `"a.b"` stores the answer (nil included) at `answers["a"]["b"]`, making
   * `answers["a"]` a map; an `answers["a"]` map that exists already is kept,
   * so its other entries survive, and no other top-level key changes.
   */
  lemma StoreNested(answers: Hash<Value>, a: string, b: string, v: Value)
    requires '.' !in a && '.' !in b && b != []
    requires Get(answers, a).None? || Get(answers, a).value.Tree?
    ensures Store(answers, a + "." + b, v).Ok?
    ensures Lookup(Tree(Store(answers, a + "." + b, v).value), [a, b]) == Some(v)
    ensures Lookup(Tree(Store(answers, a + "." + b, v).value), [a]).Some? &&
            Lookup(Tree(Store(answers, a + "." + b, v).value), [a]).value.Tree?
    ensures forall b' :: b' != b ==>
      Lookup(Tree(Store(answers, a + "." + b, v).value), [a, b']) == Lookup(Tree(answers), [a, b'])
    ensures forall k :: k != a ==> Get(Store(answers, a + "." + b, v).value, k) == Get(answers, k)
  {
    var path := [a, b];
    SplitDotsPair(a, b);
    assert '.' in a + "." + b by {
      assert (a + "." + b)[|a|] == '.';
    }
    assert path[..1] == [a];
    assert Lookup(Tree(answers), path[..1]) == if Get(answers, a).None? then None else Some(Get(answers, a).value);
    assert Open(answers, path);
    SetPathOpen(answers, path, v);
    var r := SetPath(answers, path, v).value;
    forall b' | b' != b ensures Lookup(Tree(r), [a, b']) == Lookup(Tree(answers), [a, b']) {
      SetPathOthers(answers, path, v, [a, b']);
    }
    forall k | k != a ensures Get(r, k) == Get(answers, k) {
      SetPathOthers(answers, path, v, [k]);
      assert Lookup(Tree(r), [k]) == if Get(r, k).None? then None else Some(Get(r, k).value);
      assert Lookup(Tree(answers), [k]) == if Get(answers, k).None? then None else Some(Get(answers, k).value);
    }
  }

  /** Each question asked once, in order, the responses threaded from one to the next. */
  function AskSeq(qs: seq<Question>, input: seq<string>): (r: Result<(seq<Value>, seq<string>)>)
    ensures r.Ok? ==> |r.value.0| == |qs|
    decreases |qs|
  {
    if qs == [] then Ok(([], input))
    else match Ask(qs[0], input)
      case Err(e) => Err(e)
      case Ok((v, rest)) =>
        match AskSeq(qs[1..], rest)
        case Err(e) => Err(e)
        case Ok((vs, rest')) => Ok(([v] + vs, rest'))
  }

  /** The answers `vals` stored in order under the keys of `qs`. */
  function StoreAll(answers: Hash<Value>, qs: seq<Question>, vals: seq<Value>): Result<Hash<Value>>
    requires |vals| == |qs|
    decreases |qs|
  {
    if qs == [] then Ok(answers)
    else match Store(answers, qs[0].key, vals[0])
      case Err(e) => Err(e)
      case Ok(a) => StoreAll(a, qs[1..], vals[1..])
  }

  /**
   * A completed `ask_questions` asked every question exactly once, in the
   * configured order, and its answers are what storing those responses in
   * order gives.
   */
  lemma {:induction false} AskAllInOrder(answers: Hash<Value>, qs: seq<Question>, input: seq<string>)
    requires AskAll(answers, qs, input).Ok?
    ensures AskSeq(qs, input).Ok?
    ensures AskSeq(qs, input).value.1 == AskAll(answers, qs, input).value.1
    ensures StoreAll(answers, qs, AskSeq(qs, input).value.0) == Ok(AskAll(answers, qs, input).value.0)
    decreases |qs|
  {
    if qs != [] {
      var step := AskOne(answers, qs[0], input);
      var a1, r1 := step.value.0, step.value.1;
      var v := Ask(qs[0], input).value.0;
      assert Ask(qs[0], input) == Ok((v, r1));
      assert Store(answers, qs[0].key, v) == Ok(a1);
      AskAllInOrder(a1, qs[1..], r1);
      var vs := AskSeq(qs[1..], r1).value.0;
      assert AskSeq(qs, input).value.0 == [v] + vs;
      assert ([v] + vs)[0] == v && ([v] + vs)[1..] == vs;
    }
  }
}
