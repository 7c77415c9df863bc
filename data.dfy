/**
 * `Journal::Data`: a Hash of answers whose default value (the value read for
 * a key that was never stored) is the question list it was created with,
 * because the bare `super` in `initialize` forwards that list to `Hash.new`.
 */
module JournalData {
  import opened Wrappers
  import opened OrderedHash
  import opened Answers
  import opened Questions

  /** What `data[k]` reads: a stored answer, or the Hash default. */
  datatype Entry = Stored(value: Value) | Default(questions: seq<QuestionConfig>)

  function EntryOf(store: Hash<Value>, qs: seq<QuestionConfig>, k: string): (r: Entry)
    ensures r.Stored? <==> k in Keys(store)
    ensures r.Stored? ==> Get(store, k) == Some(r.value)
    ensures r.Default? ==> r.questions == qs
  {
    match Get(store, k)
    case Some(v) => Stored(v)
    case None => Default(qs)
  }

  /** The keys of the questions, in order, duplicates kept. */
  function QuestionKeys(cs: seq<QuestionConfig>): (r: seq<string>)
    ensures |r| == |cs| && forall i :: 0 <= i < |cs| ==> r[i] == cs[i].key
  {
    if cs == [] then [] else [cs[0].key] + QuestionKeys(cs[1..])
  }

  /** The pairs `to_data` assigns, one per question of `cs`, in order. */
  function Projection(store: Hash<Value>, qs: seq<QuestionConfig>, cs: seq<QuestionConfig>): (r: Hash<Entry>)
    ensures |r| == |cs| && forall i :: 0 <= i < |cs| ==> r[i] == (cs[i].key, EntryOf(store, qs, cs[i].key))
  {
    if cs == [] then [] else [(cs[0].key, EntryOf(store, qs, cs[0].key))] + Projection(store, qs, cs[1..])
  }

  /** Every pair of the projection for `k` carries the same entry, so the last one is it. */
  lemma {:induction false} ProjectionLast(store: Hash<Value>, qs: seq<QuestionConfig>, cs: seq<QuestionConfig>, k: string)
    ensures Keys(Projection(store, qs, cs)) == QuestionKeys(cs)
    ensures k in QuestionKeys(cs) ==> LastValue(Projection(store, qs, cs), k) == Some(EntryOf(store, qs, k))
  {
    if cs != [] {
      var p := Projection(store, qs, cs);
      ProjectionLast(store, qs, cs[1..], k);
      assert p[1..] == Projection(store, qs, cs[1..]);
      assert k in QuestionKeys(cs) <==> k == cs[0].key || k in QuestionKeys(cs[1..]);
    }
  }

  class Data {
    const questions: seq<QuestionConfig>
    var store: Hash<Value>

    /** `Data.new(questions)`: empty, with the questions as default. */
    constructor(questions: seq<QuestionConfig>)
      ensures this.questions == questions && store == []
    {
      this.questions := questions;
      store := [];
    }

    /** `self[k]`. */
    function At(k: string): (r: Entry)
      reads this
      ensures r.Default? <==> Get(store, k).None?
      ensures r.Default? ==> r.questions == questions
    {
      EntryOf(store, questions, k)
    }

    /** `self[k] = v`. */
    method Assign(k: string, v: Value)
      modifies this
      ensures store == Put(old(store), k, v)
      ensures At(k) == Stored(v) && forall k' :: k' != k ==> At(k') == old(At(k'))
    {
      store := Put(store, k, v);
    }

    /**
     * `to_data`: the keys are exactly the questions' keys, in order of first
     * occurrence, each holding what `self[key]` reads; keys not named by any
     * question are absent, and the receiver is not changed.
     */
    method ToData() returns (out: Hash<Entry>)
      ensures Keys(out) == AppendNew([], QuestionKeys(questions))
      ensures forall k :: Get(out, k) == if k in QuestionKeys(questions) then Some(At(k)) else None
    {
      out := [];
      var i := 0;
      while i < |questions|
        invariant 0 <= i <= |questions|
        invariant out == PutAll([], Projection(store, questions, questions[..i]))
      {
        var q := questions[i];
        ghost var before := Projection(store, questions, questions[..i]);
        assert Projection(store, questions, questions[..i + 1]) == before + [(q.key, At(q.key))];
        PutAllSnoc([], before, q.key, At(q.key));
        out := Put(out, q.key, At(q.key));
        i := i + 1;
      }
      assert questions[..i] == questions;
      var ps := Projection(store, questions, questions);
      PutAllSpec([], ps);
      forall k ensures k in QuestionKeys(questions) ==> LastValue(ps, k) == Some(At(k)) {
        ProjectionLast(store, questions, questions, k);
      }
      ProjectionLast(store, questions, questions, []);
    }
  }
}
