/**
 * The history record of `Checkin#save_data`: each section's answers are
 * reshaped into one entry of a record (weather values reduced to the fields
 * worth keeping), the record is appended to the records read back from the
 * journal's JSON database, every date is made a time value, and the records
 * are ordered by date.
 */
module JournalRecord {
  import opened Wrappers
  import opened Strings
  import opened OrderedHash
  import opened Clock
  import opened Answers
  import opened JournalSection

  // ---------------------------------------------------------------------------
  // Reshaping the answers of one section

  /** `key =~ /moon(_?phase)?$/`. */
  predicate MoonKey(key: string) {
    EndsLine(key, "moon") || EndsLine(key, "moonphase") || EndsLine(key, "moon_phase")
  }

  /**
   * What a value nested one level down is recorded as: a weather value is
   * reduced according to its key (current conditions, moon phase, or the
   * daily summary, whose condition is the DAILY one); anything else is kept.
   */
  function Reduced(key: string, value: Value): Value {
    match value
    case Weather(w) =>
      if EndsLine(key, "current") then
        Tree([("temp", Str(w.temp)), ("condition", Str(w.currentCondition))])
      else if MoonKey(key) then
        Tree([("phase", Str(w.moonPhase))])
      else
        Tree([("high", Str(w.high)), ("low", Str(w.low)), ("condition", Str(w.condition)), ("moon_phase", Str(w.moonPhase))])
    case _ => value
  }

  function ReducedPairs(es: Hash<Value>): (r: Hash<Value>)
    ensures |r| == |es| && forall i :: 0 <= i < |es| ==> r[i] == (es[i].0, Reduced(es[i].0, es[i].1))
  {
    if es == [] then [] else [(es[0].0, Reduced(es[0].0, es[0].1))] + ReducedPairs(es[1..])
  }

  /**
   * One pair `(key, value)` of the map answered under `k` in section `jk`,
   * applied to `cur`, the section's entry `output[jk]`: with `jk == k` it is
   * `output[jk][key] = result`, otherwise `output[jk][k] ||= {}` followed by
   * `output[jk][k][key] = result`. When `output[jk]` is a String, `[]` returns
   * a new String, so the second assignment can raise but changes nothing.
   */
  function NestedStep(jk: string, k: string, cur: Value, key: string, value: Value): Result<Value> {
    var result := Reduced(key, value);
    if jk == k then AssignAt(cur, key, result)
    else
      match Index(cur, k)
      case Err(e) => Err(e)
      case Ok(x) =>
        match (if x.Nil? then AssignAt(cur, k, Tree([])) else Ok(cur))
        case Err(e) => Err(e)
        case Ok(cur') =>
          match Index(cur', k)
          case Err(e) => Err(e)
          case Ok(y) =>
            match AssignAt(y, key, result)
            case Err(e) => Err(e)
            case Ok(z) => if cur'.Tree? then Ok(Tree(Put(cur'.entries, k, z))) else Ok(cur')
  }

  function NestedAll(jk: string, k: string, cur: Value, es: Hash<Value>): Result<Value>
    decreases |es|
  {
    if es == [] then Ok(cur)
    else match NestedStep(jk, k, cur, es[0].0, es[0].1)
      case Err(e) => Err(e)
      case Ok(c) => NestedAll(jk, k, c, es[1..])
  }

  /** One answer `(k, v)` of section `jk`, applied to the section's entry `cur`. */
  function AnswerStep(jk: string, cur: Value, k: string, v: Value): Result<Value> {
    if v.Tree? then NestedAll(jk, k, cur, v.entries)
    else if jk == k then Ok(v)
    else AssignAt(cur, k, v)
  }

  /** The section's entry after the answers `ans`, starting from `cur`. */
  function SectionRecord(jk: string, cur: Value, ans: Hash<Value>): Result<Value>
    decreases |ans|
  {
    if ans == [] then Ok(cur)
    else match AnswerStep(jk, cur, ans[0].0, ans[0].1)
      case Err(e) => Err(e)
      case Ok(c) => SectionRecord(jk, c, ans[1..])
  }

  /** `output` after the sections of `data`, in order, each starting from `output[jk] = {}`. */
  function RecordOf(out: Hash<Value>, data: Hash<SectionValue>): Result<Hash<Value>>
    decreases |data|
  {
    if data == [] then Ok(out)
    else match SectionRecord(data[0].0, Tree([]), data[0].1.answers)
      case Err(e) => Err(e)
      case Ok(c) => RecordOf(Put(out, data[0].0, c), data[1..])
  }

  /** The nested loops of `save_data` that build `output`. */
  method BuildRecord(data: Hash<SectionValue>) returns (r: Result<Hash<Value>>)
    ensures r == RecordOf([], data)
  {
    var output: Hash<Value> := [];
    var n := 0;
    while n < |data|
      invariant 0 <= n <= |data|
      invariant RecordOf(output, data[n..]) == RecordOf([], data)
    {
      var jk := data[n].0;
      var answers := data[n].1.answers;
      assert data[n..][1..] == data[n + 1..];
      var cur := Tree([]);
      var j := 0;
      while j < |answers|
        invariant 0 <= j <= |answers|
        invariant SectionRecord(jk, cur, answers[j..]) == SectionRecord(jk, Tree([]), answers)
      {
        var k, v := answers[j].0, answers[j].1;
        assert answers[j..][1..] == answers[j + 1..];
        ghost var cur0 := cur;
        if v.Tree? {
          var es := v.entries;
          var m := 0;
          while m < |es|
            invariant 0 <= m <= |es|
            invariant NestedAll(jk, k, cur, es[m..]) == NestedAll(jk, k, cur0, es)
          {
            assert es[m..][1..] == es[m + 1..];
            var step := NestedStep(jk, k, cur, es[m].0, es[m].1);
            if step.Err? {
              assert NestedAll(jk, k, cur0, es) == Err(step.error);
              assert SectionRecord(jk, Tree([]), answers) == Err(step.error);
              return Err(step.error);
            }
            cur := step.value;
            m := m + 1;
          }
          assert es[m..] == [];
        } else if jk == k {
          cur := v;
        } else {
          var step := AssignAt(cur, k, v);
          if step.Err? {
            assert SectionRecord(jk, Tree([]), answers) == Err(step.error);
            return Err(step.error);
          }
          cur := step.value;
        }
        assert AnswerStep(jk, cur0, k, v) == Ok(cur);
        j := j + 1;
      }
      assert answers[j..] == [];
      output := Put(output, jk, cur);
      n := n + 1;
    }
    assert data[n..] == [];
    r := Ok(output);
  }

  // ---------------------------------------------------------------------------
  // Properties of the reshaping

  /** Pairs nested under an existing map `output[jk][k]` are assigned into it, reduced. */
  lemma {:induction false} NestedInto(jk: string, k: string, acc: Hash<Value>, t: Hash<Value>, es: Hash<Value>)
    requires jk != k && Get(acc, k) == Some(Tree(t))
    ensures NestedAll(jk, k, Tree(acc), es) == Ok(Tree(Put(acc, k, Tree(PutAll(t, ReducedPairs(es))))))
    decreases |es|
  {
    if es == [] {
      PutSame(acc, k, Tree(t));
    } else {
      var key, res := es[0].0, Reduced(es[0].0, es[0].1);
      var t' := Put(t, key, res);
      var acc' := Put(acc, k, Tree(t'));
      assert NestedStep(jk, k, Tree(acc), key, es[0].1) == Ok(Tree(acc'));
      NestedInto(jk, k, acc', t', es[1..]);
      PutPut(acc, k, Tree(t'), Tree(PutAll(t', ReducedPairs(es[1..]))));
      assert ReducedPairs(es)[1..] == ReducedPairs(es[1..]);
    }
  }

  /** A map answered under a new key `k` becomes one new entry holding its pairs, reduced. */
  lemma NestedFresh(jk: string, k: string, acc: Hash<Value>, es: Hash<Value>)
    requires jk != k && k !in Keys(acc) && es != []
    ensures NestedAll(jk, k, Tree(acc), es) == Ok(Tree(acc + [(k, Tree(PutAll([], ReducedPairs(es))))]))
  {
    var key, res := es[0].0, Reduced(es[0].0, es[0].1);
    var t1 := Put([], key, res);
    var acc1 := Put(acc, k, Tree(t1));
    NestedStepFresh(jk, k, acc, key, es[0].1);
    NestedInto(jk, k, acc1, t1, es[1..]);
    PutPut(acc, k, Tree(t1), Tree(PutAll(t1, ReducedPairs(es[1..]))));
    assert ReducedPairs(es)[1..] == ReducedPairs(es[1..]);
    assert PutAll([], ReducedPairs(es)) == PutAll(t1, ReducedPairs(es[1..]));
    PutNew(acc, k, Tree(PutAll([], ReducedPairs(es))));
  }

  /** The first pair nested under a new key `k` creates `output[jk][k]` holding that pair, reduced. */
  lemma NestedStepFresh(jk: string, k: string, acc: Hash<Value>, key: string, value: Value)
    requires jk != k && k !in Keys(acc)
    ensures NestedStep(jk, k, Tree(acc), key, value) == Ok(Tree(Put(acc, k, Tree(Put([], key, Reduced(key, value))))))
  {
    PutPut(acc, k, Tree([]), Tree(Put([], key, Reduced(key, value))));
  }

  /** What one answer contributes when its key differs from the section key. */
  function Shaped(k: string, v: Value): Hash<Value> {
    if !v.Tree? then [(k, v)]
    else if v.entries == [] then []
    else [(k, Tree(PutAll([], ReducedPairs(v.entries))))]
  }

  function Reshaped(ans: Hash<Value>): (r: Hash<Value>)
    ensures forall k :: k in Keys(r) ==> k in Keys(ans)
  {
    if ans == [] then [] else Shaped(ans[0].0, ans[0].1) + Reshaped(ans[1..])
  }

  /** One answer under a new key that is not the section key adds what `Shaped` says. */
  lemma AnswerStepShaped(jk: string, acc: Hash<Value>, k: string, v: Value)
    requires jk != k && k !in Keys(acc)
    ensures AnswerStep(jk, Tree(acc), k, v) == Ok(Tree(acc + Shaped(k, v)))
    ensures Keys(acc + Shaped(k, v)) == Keys(acc) + Keys(Shaped(k, v))
  {
    if !v.Tree? {
      PutNew(acc, k, v);
    } else if v.entries != [] {
      NestedFresh(jk, k, acc, v.entries);
    } else {
      assert acc + [] == acc;
    }
  }

  lemma Associative(a: Hash<Value>, b: Hash<Value>, c: Hash<Value>)
    ensures (a + b) + c == a + (b + c)
  {
  }

  /**
   * When no answer's key is the section key and the keys are distinct, the
   * section's entry is a map listing the answers in order: a value that is not
   * a map as it is, a map with its weather values reduced, an empty map not at
   * all.
   */
  lemma {:induction false} RecordShape(jk: string, acc: Hash<Value>, ans: Hash<Value>)
    requires Distinct(Keys(ans)) && jk !in Keys(ans)
    requires forall k :: k in Keys(ans) ==> k !in Keys(acc)
    ensures SectionRecord(jk, Tree(acc), ans) == Ok(Tree(acc + Reshaped(ans)))
    decreases |ans|
  {
    if ans == [] {
      assert acc + [] == acc;
    } else {
      var k, v := ans[0].0, ans[0].1;
      assert Keys(ans)[0] == k;
      var acc' := acc + Shaped(k, v);
      AnswerStepShaped(jk, acc, k, v);
      var rest := ans[1..];
      var ks := Keys(rest);
      assert ks == Keys(ans)[1..];
      forall k' | k' in ks ensures k' !in Keys(acc') {
        var i :| 0 <= i < |ks| && ks[i] == k';
        assert Keys(ans)[i + 1] == k';
        assert k' != k;
      }
      assert SectionRecord(jk, Tree(acc), ans) == SectionRecord(jk, Tree(acc'), rest);
      RecordShape(jk, acc', rest);
      assert Reshaped(ans) == Shaped(k, v) + Reshaped(rest);
      Associative(acc, Shaped(k, v), Reshaped(rest));
    }
  }

  /** The pairs of a map answered under the section key itself are assigned into the entry, reduced. */
  lemma {:induction false} NestedOwn(jk: string, acc: Hash<Value>, es: Hash<Value>)
    ensures NestedAll(jk, jk, Tree(acc), es) == Ok(Tree(PutAll(acc, ReducedPairs(es))))
    decreases |es|
  {
    if es != [] {
      NestedOwn(jk, Put(acc, es[0].0, Reduced(es[0].0, es[0].1)), es[1..]);
      assert ReducedPairs(es)[1..] == ReducedPairs(es[1..]);
    }
  }

  lemma {:induction false} SectionRecordSnoc(jk: string, cur: Value, ans: Hash<Value>, k: string, v: Value)
    requires SectionRecord(jk, cur, ans).Ok?
    ensures SectionRecord(jk, cur, ans + [(k, v)]) == AnswerStep(jk, SectionRecord(jk, cur, ans).value, k, v)
    decreases |ans|
  {
    if ans == [] {
      assert ans + [(k, v)] == [(k, v)];
    } else {
      assert (ans + [(k, v)])[1..] == ans[1..] + [(k, v)];
      SectionRecordSnoc(jk, AnswerStep(jk, cur, ans[0].0, ans[0].1).value, ans[1..], k, v);
    }
  }

  /**
   * An answer under the section key itself: a value that is not a map replaces
   * the whole entry, whatever the answers before it wrote; a map has its pairs
   * (reduced) assigned into the entry.
   */
  lemma OwnKey(jk: string, ans: Hash<Value>, v: Value)
    requires SectionRecord(jk, Tree([]), ans).Ok?
    ensures !v.Tree? ==> SectionRecord(jk, Tree([]), ans + [(jk, v)]) == Ok(v)
    ensures v.Tree? && SectionRecord(jk, Tree([]), ans).value.Tree? ==>
      SectionRecord(jk, Tree([]), ans + [(jk, v)]) ==
      Ok(Tree(PutAll(SectionRecord(jk, Tree([]), ans).value.entries, ReducedPairs(v.entries))))
  {
    SectionRecordSnoc(jk, Tree([]), ans, jk, v);
    var c := SectionRecord(jk, Tree([]), ans).value;
    if v.Tree? && c.Tree? {
      NestedOwn(jk, c.entries, v.entries);
    }
  }

  // ---------------------------------------------------------------------------
  // The history

  /** A record's date as read back from the database (text) or as just taken (a time). */
  datatype Stamp = TextStamp(text: string) | TimeStamp(time: Instant)

  /** `{"date" => …, "data" => …}` before the dates are normalised. */
  datatype StoredRecord = StoredRecord(date: Stamp, data: Value)

  /** A record whose date is a time value. */
  datatype Record = Record(date: Instant, data: Value)

  /** The block of `map!`: a text date is parsed (`Time.parse` is `parse`), a time is kept. */
  function Normalised(r: StoredRecord, parse: string -> Instant): Record {
    Record(match r.date case TextStamp(s) => parse(s) case TimeStamp(t) => t, r.data)
  }

  function NormalisedAll(rs: seq<StoredRecord>, parse: string -> Instant): (r: seq<Record>)
    ensures |r| == |rs| && forall i :: 0 <= i < |rs| ==> r[i] == Normalised(rs[i], parse)
  {
    if rs == [] then [] else [Normalised(rs[0], parse)] + NormalisedAll(rs[1..], parse)
  }

  predicate SortedByDate(rs: seq<Record>) {
    forall i, j :: 0 <= i < j < |rs| ==> AtMost(rs[i].date, rs[j].date)
  }

  /** `x` inserted before the first record it does not follow. */
  function Insert(x: Record, rs: seq<Record>): (r: seq<Record>)
    ensures multiset(r) == multiset(rs) + multiset{x}
  {
    if rs == [] then [x]
    else if AtMost(x.date, rs[0].date) then [x] + rs
    else
      assert rs == [rs[0]] + rs[1..];
      [rs[0]] + Insert(x, rs[1..])
  }

  lemma {:induction false} InsertSorted(x: Record, rs: seq<Record>)
    requires SortedByDate(rs)
    ensures SortedByDate(Insert(x, rs))
  {
    if rs != [] && !AtMost(x.date, rs[0].date) {
      InsertSorted(x, rs[1..]);
      var t := Insert(x, rs[1..]);
      forall j | 0 <= j < |t| ensures AtMost(rs[0].date, t[j].date) {
        assert t[j] in multiset(t);
        assert t[j] == x || t[j] in multiset(rs[1..]);
        if t[j] != x {
          var i :| 0 <= i < |rs[1..]| && rs[1..][i] == t[j];
          assert rs[i + 1] == t[j];
        }
      }
      var r := Insert(x, rs);
      forall i, j | 0 <= i < j < |r| ensures AtMost(r[i].date, r[j].date) {
        if i > 0 {
          assert r[i] == t[i - 1] && r[j] == t[j - 1];
        } else {
          assert r[j] == t[j - 1];
        }
      }
    }
  }

  /** `sort_by! { |e| e["date"] }`, as insertion of each record into the sorted rest. */
  function SortByDate(rs: seq<Record>): (r: seq<Record>)
    ensures multiset(r) == multiset(rs)
  {
    if rs == [] then []
    else
      assert rs == [rs[0]] + rs[1..];
      Insert(rs[0], SortByDate(rs[1..]))
  }

  lemma {:induction false} SortByDateSorted(rs: seq<Record>)
    ensures SortedByDate(SortByDate(rs))
  {
    if rs != [] {
      SortByDateSorted(rs[1..]);
      InsertSorted(rs[0], SortByDate(rs[1..]));
    }
  }

  /**
   * `data << record`, `data.map!` and `data.sort_by!`: the history is the
   * records read back plus exactly the new one, every date is a time value
   * and the records are in ascending order of date.
   */
  method AppendRecord(stored: seq<StoredRecord>, record: StoredRecord, parse: string -> Instant) returns (data: seq<Record>)
    ensures data == SortByDate(NormalisedAll(stored + [record], parse))
    ensures SortedByDate(data)
    ensures multiset(data) == multiset(NormalisedAll(stored, parse)) + multiset{Normalised(record, parse)}
    ensures |data| == |stored| + 1
  {
    var all := stored + [record];
    var normal: seq<Record> := [];
    var i := 0;
    while i < |all|
      invariant 0 <= i <= |all|
      invariant normal == NormalisedAll(all[..i], parse)
    {
      normal := normal + [Normalised(all[i], parse)];
      i := i + 1;
      assert normal == NormalisedAll(all[..i], parse);
    }
    assert all[..i] == all;
    assert NormalisedAll(all, parse) == NormalisedAll(stored, parse) + [Normalised(record, parse)];
    data := SortByDate(normal);
    SortByDateSorted(normal);
  }
}
