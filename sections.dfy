/**
 * `Journal::Sections`: a Hash from section key to the Section built from its
 * configuration, filled in configuration order; its default value is the
 * configuration list itself.
 */
module JournalSections {
  import opened Wrappers
  import opened OrderedHash
  import opened JournalSection

  predicate Within(es: Hash<Section>, repr: set<Section>) {
    forall i :: 0 <= i < |es| ==> es[i].1 in repr
  }

  /** What the sections of an entry list hold, in entry order. */
  ghost function ValuesOf(es: Hash<Section>, repr: set<Section>): (r: Hash<SectionValue>)
    requires Within(es, repr)
    reads repr
    ensures Keys(r) == Keys(es)
    ensures |r| == |es| && forall i :: 0 <= i < |es| ==> r[i] == (es[i].0, es[i].1.Value())
  {
    if es == [] then [] else [(es[0].0, es[0].1.Value())] + ValuesOf(es[1..], repr)
  }

  lemma {:induction false} ValuesOfWider(es: Hash<Section>, repr: set<Section>, wider: set<Section>)
    requires Within(es, repr) && repr <= wider
    ensures Within(es, wider) && ValuesOf(es, repr) == ValuesOf(es, wider)
  {
    if es != [] {
      ValuesOfWider(es[1..], repr, wider);
    }
  }

  lemma {:induction false} ValuesOfPut(es: Hash<Section>, repr: set<Section>, k: string, s: Section)
    requires Within(es, repr) && s in repr
    ensures Within(Put(es, k, s), repr)
    ensures ValuesOf(Put(es, k, s), repr) == Put(ValuesOf(es, repr), k, s.Value())
  {
    PutElements(es, k, s);
    if es != [] && es[0].0 != k {
      ValuesOfPut(es[1..], repr, k, s);
      assert Put(es, k, s)[1..] == Put(es[1..], k, s);
    } else if es != [] {
      assert Put(es, k, s)[1..] == es[1..];
    }
  }

  /** The sections the configurations `cfgs` build in order, appended to `done`. */
  function BuildAll(done: Hash<SectionValue>, cfgs: seq<SectionConfig>, input: seq<string>): Result<Hash<SectionValue>>
    decreases |cfgs|
  {
    if cfgs == [] then Ok(done)
    else match BuildSpec(cfgs[0], input)
      case Err(e) => Err(e)
      case Ok((sv, rest)) => BuildAll(done + [(sv.key, sv)], cfgs[1..], rest)
  }

  /** `sections[k]`: the section stored under `k`, or the default. */
  datatype Entry = Found(section: SectionValue) | Default(configs: seq<SectionConfig>)

  class Sections {
    var entries: Hash<Section>
    var default: seq<SectionConfig>
    /** The Section objects the entries refer to. */
    ghost var repr: set<Section>

    ghost predicate Valid()
      reads this
    {
      Within(entries, repr)
    }

    constructor(cfgs: seq<SectionConfig>)
      ensures Valid() && entries == [] && default == cfgs && repr == {}
    {
      entries := [];
      default := cfgs;
      repr := {};
    }

    ghost function Contents(): Hash<SectionValue>
      requires Valid()
      reads this, repr
    {
      ValuesOf(entries, repr)
    }

    /** `self[k]`, falling back on the default that `super` set. */
    ghost function At(k: string): (r: Entry)
      requires Valid()
      reads this, repr
      ensures k in Keys(entries) <==> r.Found?
      ensures r.Found? ==> Get(Contents(), k) == Some(r.section)
      ensures r.Default? ==> r.configs == default
    {
      match Get(Contents(), k)
      case Some(sv) => Found(sv)
      case None => Default(default)
    }

    /** `self[key] = section`. */
    method Assign(k: string, s: Section)
      requires Valid()
      modifies this
      ensures Valid() && repr == old(repr) + {s}
      ensures entries == Put(old(entries), k, s) && default == old(default)
      ensures Contents() == Put(old(Contents()), k, s.Value())
    {
      ValuesOfWider(entries, repr, repr + {s});
      ValuesOfPut(entries, repr + {s}, k, s);
      entries := Put(entries, k, s);
      repr := repr + {s};
    }
  }

  /**
   * `Sections.new(cfgs)`: every configuration, in order, builds a Section that
   * is then stored under its key.
   */
  method NewSections(cfgs: seq<SectionConfig>, input: seq<string>) returns (r: Result<(Sections, seq<string>)>)
    ensures r.Ok? <==> BuildAll([], cfgs, input).Ok?
    ensures r.Err? ==> r.error == BuildAll([], cfgs, input).error
    ensures r.Ok? ==> fresh(r.value.0) && r.value.0.Valid() && r.value.0.default == cfgs
    ensures r.Ok? ==> r.value.0.Contents() == PutAll([], BuildAll([], cfgs, input).value)
  {
    var ss := new Sections(cfgs);
    var rest := input;
    ghost var done: Hash<SectionValue> := [];
    var i := 0;
    while i < |cfgs|
      invariant 0 <= i <= |cfgs|
      invariant fresh(ss) && ss.Valid() && ss.default == cfgs
      invariant forall o :: o in ss.repr ==> fresh(o)
      invariant ss.Contents() == PutAll([], done)
      invariant BuildAll(done, cfgs[i..], rest) == BuildAll([], cfgs, input)
    {
      BuildAllStep(done, cfgs, i, rest);
      var b := Build(cfgs[i], rest);
      match b
      case Err(e) =>
        return Err(e);
      case Ok((s, rest')) =>
        ghost var sv := s.Value();
        ss.Assign(s.key, s);
        PutAllSnoc([], done, sv.key, sv);
        rest := rest';
        done := done + [(sv.key, sv)];
        i := i + 1;
    }
    r := Ok((ss, rest));
  }

  /** Building from configuration `i` on: a failure stops the build, a success goes on with the next one. */
  lemma BuildAllStep(done: Hash<SectionValue>, cfgs: seq<SectionConfig>, i: nat, input: seq<string>)
    requires i < |cfgs|
    ensures BuildSpec(cfgs[i], input).Err? ==> BuildAll(done, cfgs[i..], input) == Err(BuildSpec(cfgs[i], input).error)
    ensures BuildSpec(cfgs[i], input).Ok? ==>
      var (sv, rest) := BuildSpec(cfgs[i], input).value;
      BuildAll(done, cfgs[i..], input) == BuildAll(done + [(sv.key, sv)], cfgs[i + 1..], rest)
  {
    assert cfgs[i..][0] == cfgs[i] && cfgs[i..][1..] == cfgs[i + 1..];
  }

  // ---------------------------------------------------------------------------
  // Properties of the built map

  /** The configurations keyed by their section keys, in configuration order. */
  function ConfigPairs(cfgs: seq<SectionConfig>): (r: Hash<SectionConfig>)
    ensures |r| == |cfgs| && forall i :: 0 <= i < |cfgs| ==> r[i] == (cfgs[i].key, cfgs[i])
  {
    if cfgs == [] then [] else [(cfgs[0].key, cfgs[0])] + ConfigPairs(cfgs[1..])
  }

  /** A built section carries the key, title and questions of its configuration. */
  predicate BuiltFrom(sv: SectionValue, cfg: SectionConfig) {
    sv.key == cfg.key && sv.title == cfg.title && sv.questions == NewQuestions(cfg.questions)
  }

  /** `p` is `done` followed by one section per configuration, in order, each with that configuration's key. */
  predicate BuiltInOrder(p: Hash<SectionValue>, done: Hash<SectionValue>, cfgs: seq<SectionConfig>) {
    && |p| == |done| + |cfgs| && p[..|done|] == done
    && forall i :: 0 <= i < |cfgs| ==> p[|done| + i].0 == cfgs[i].key && BuiltFrom(p[|done| + i].1, cfgs[i])
  }

  /** The sections are built one per configuration, in configuration order, after those already built. */
  lemma {:induction false} BuildAllShape(done: Hash<SectionValue>, cfgs: seq<SectionConfig>, input: seq<string>)
    requires BuildAll(done, cfgs, input).Ok?
    ensures BuiltInOrder(BuildAll(done, cfgs, input).value, done, cfgs)
    decreases |cfgs|
  {
    if cfgs != [] {
      BuildAllStep(done, cfgs, 0, input);
      assert cfgs[0..] == cfgs;
      var b := BuildSpec(cfgs[0], input).value;
      var done' := done + [(b.0.key, b.0)];
      BuildAllShape(done', cfgs[1..], b.1);
      ShapeShift(BuildAll(done', cfgs[1..], b.1).value, done, b.0, cfgs);
    } else {
      assert BuildAll(done, cfgs, input) == Ok(done);
      assert done[..|done|] == done;
    }
  }

  /** The shape of the build after one more section, read from the start instead. */
  lemma ShapeShift(p: Hash<SectionValue>, done: Hash<SectionValue>, sv: SectionValue, cfgs: seq<SectionConfig>)
    requires cfgs != [] && BuiltFrom(sv, cfgs[0])
    requires BuiltInOrder(p, done + [(sv.key, sv)], cfgs[1..])
    ensures BuiltInOrder(p, done, cfgs)
  {
    var done' := done + [(sv.key, sv)];
    assert p[..|done|] == p[..|done'|][..|done|];
    forall i | 0 <= i < |cfgs| ensures p[|done| + i].0 == cfgs[i].key && BuiltFrom(p[|done| + i].1, cfgs[i]) {
      if i == 0 {
        assert p[|done|] == p[..|done'|][|done|];
      } else {
        assert cfgs[1..][i - 1] == cfgs[i];
        assert p[|done| + i] == p[|done'| + (i - 1)];
      }
    }
  }

  lemma BuiltFromStart(p: Hash<SectionValue>, cfgs: seq<SectionConfig>)
    requires BuiltInOrder(p, [], cfgs)
    ensures |p| == |cfgs| && forall i :: 0 <= i < |cfgs| ==> p[i].0 == cfgs[i].key && BuiltFrom(p[i].1, cfgs[i])
  {
    var none: Hash<SectionValue> := [];
    assert |none| == 0;
    forall i | 0 <= i < |cfgs| ensures p[i].0 == cfgs[i].key && BuiltFrom(p[i].1, cfgs[i]) {
      assert p[i] == p[|none| + i];
    }
  }

  lemma {:induction false} LastValueBuilt(ps: Hash<SectionValue>, cfgs: seq<SectionConfig>, k: string)
    requires |ps| == |cfgs|
    requires forall i :: 0 <= i < |cfgs| ==> ps[i].0 == cfgs[i].key && BuiltFrom(ps[i].1, cfgs[i])
    ensures Keys(ps) == Keys(ConfigPairs(cfgs))
    ensures LastValue(ps, k).Some? <==> LastValue(ConfigPairs(cfgs), k).Some?
    ensures LastValue(ps, k).Some? ==> BuiltFrom(LastValue(ps, k).value, LastValue(ConfigPairs(cfgs), k).value)
  {
    if ps != [] {
      LastValueBuilt(ps[1..], cfgs[1..], k);
      assert ConfigPairs(cfgs)[1..] == ConfigPairs(cfgs[1..]);
    }
  }

  /**
   * The built map has one entry per distinct section key, in order of first
   * appearance in the configuration; the entry holds the section built from
   * the LAST configuration with that key.
   */
  lemma SectionsShape(cfgs: seq<SectionConfig>, input: seq<string>)
    requires BuildAll([], cfgs, input).Ok?
    ensures var c := PutAll([], BuildAll([], cfgs, input).value);
      && Keys(c) == AppendNew([], Keys(ConfigPairs(cfgs)))
      && (forall k :: Get(c, k).Some? <==> k in Keys(ConfigPairs(cfgs)))
      && (forall k :: Get(c, k).Some? ==> BuiltFrom(Get(c, k).value, LastValue(ConfigPairs(cfgs), k).value))
  {
    var p := BuildAll([], cfgs, input).value;
    BuildAllShape([], cfgs, input);
    BuiltFromStart(p, cfgs);
    PutAllSpec([], p);
    forall k ensures LastValue(p, k).Some? <==> LastValue(ConfigPairs(cfgs), k).Some?
      ensures LastValue(p, k).Some? ==> BuiltFrom(LastValue(p, k).value, LastValue(ConfigPairs(cfgs), k).value)
    {
      LastValueBuilt(p, cfgs, k);
    }
    LastValueBuilt(p, cfgs, []);
  }
}
