/**
 * The values a question can produce and the nested answer map dotted question
 * keys build: a key `"a.b.c"` stores its answer under `answers["a"]["b"]["c"]`,
 * creating the maps on the way that do not exist yet.
 */
module Answers {
  import opened Wrappers
  import opened Strings
  import opened OrderedHash
  import opened Clock
  import JournalWeather

  /** What `Question#ask` (or the nesting of answers) puts into an answer map. */
  datatype Value =
    | Nil
    | Int(i: int)
    | Str(s: string)
    | Weather(w: JournalWeather.WeatherData)
    | Time(t: Instant)                  // a Ruby `Time`, as a date question would store
    | Tree(entries: seq<(string, Value)>)

  /** `v[path[0]][path[1]]…` through nested maps; None where a key is missing or a value is not a map. */
  function Lookup(v: Value, path: seq<string>): Option<Value>
    decreases |path|
  {
    if path == [] then Some(v)
    else if !v.Tree? then None
    else match Get(v.entries, path[0])
      case None => None
      case Some(c) => Lookup(c, path[1..])
  }

  /**
   * `res[key] = val` on a value that is not a map. For a String this is
   * `String#[]=`: the first occurrence of `key` is replaced by `val`, which must
   * itself be a String (the occurrence is looked for first, then `val` converted).
   */
  function AssignInto(container: Value, key: string, val: Value): Result<Value>
    requires !container.Tree?
  {
    match container
    case Str(s) =>
      if FindFrom(s, key, 0).None? then Err(NotMatched)
      else if !val.Str? then Err(NoConversion)
      else Ok(Str(SubFirst(s, key, val.s)))
    case _ => Err(NoMethod("[]="))
  }

  /** `container[key] = val` on any value. */
  function AssignAt(container: Value, key: string, val: Value): Result<Value> {
    if container.Tree? then Ok(Tree(Put(container.entries, key, val))) else AssignInto(container, key, val)
  }

  /**
   * `container[key]` with a String key: a map gives the stored value or nil,
   * a String gives `key` itself when it occurs in it and nil otherwise, an
   * Integer raises TypeError and the other values have no `[]`.
   */
  function Index(container: Value, key: string): Result<Value> {
    match container
    case Tree(es) => Ok(match Get(es, key) case Some(v) => v case None => Nil)
    case Str(s) => Ok(if FindFrom(s, key, 0).Some? then Str(key) else Nil)
    case Int(_) => Err(NoConversion)
    case _ => Err(NoMethod("[]"))
  }

  /**
   * The dotted-key write of `Section#ask_questions`: the intermediate keys
   * `path[..|path| - 1]` are walked from `answers`, a missing one being set to
   * a new empty map (`key?` is called on each container except `answers`
   * itself), and the last key is assigned in the container reached.
   */
  function SetPath(h: Hash<Value>, path: seq<string>, val: Value): Result<Hash<Value>>
    requires |path| >= 1
    decreases |path|
  {
    if |path| == 1 then Ok(Put(h, path[0], val))
    else
      var child := Get(h, path[0]);
      if child.None? || child.value.Tree? then
        var inner := if child.None? then [] else child.value.entries;
        match SetPath(inner, path[1..], val)
        case Err(e) => Err(e)
        case Ok(updated) => Ok(Put(h, path[0], Tree(updated)))
      else if |path| > 2 then Err(NoMethod("key?"))
      else
        match AssignInto(child.value, path[1], val)
        case Err(e) => Err(e)
        case Ok(c) => Ok(Put(h, path[0], c))
  }

  // ---------------------------------------------------------------------------
  // Properties of the dotted write

  /** No key on the way to the last one names a value other than a map (missing keys are fine). */
  predicate Open(h: Hash<Value>, path: seq<string>) {
    forall n :: 1 <= n < |path| ==> Lookup(Tree(h), path[..n]).None? || Lookup(Tree(h), path[..n]).value.Tree?
  }

  lemma PrefixTail(path: seq<string>, n: nat)
    requires 1 <= n <= |path|
    ensures path[..n][0] == path[0] && path[..n][1..] == path[1..][..n - 1]
  {
  }

  /**
   * Along an open path the write succeeds, the whole path then leads to the
   * new value (nil included), and every key on the way names a map.
   */
  lemma {:induction false} SetPathOpen(h: Hash<Value>, path: seq<string>, val: Value)
    requires |path| >= 1 && Open(h, path)
    ensures SetPath(h, path, val).Ok?
    ensures Lookup(Tree(SetPath(h, path, val).value), path) == Some(val)
    ensures forall n :: 1 <= n < |path| ==>
      Lookup(Tree(SetPath(h, path, val).value), path[..n]).Some? &&
      Lookup(Tree(SetPath(h, path, val).value), path[..n]).value.Tree?
    decreases |path|
  {
    if |path| == 1 {
      assert path[1..] == [];
    } else {
      var child := Get(h, path[0]);
      PrefixTail(path, 1);
      assert Lookup(Tree(h), path[..1]) == if child.None? then None else Lookup(child.value, []);
      var inner := if child.None? then [] else child.value.entries;
      assert Open(inner, path[1..]) by {
        forall n | 1 <= n < |path| - 1
          ensures Lookup(Tree(inner), path[1..][..n]).None? || Lookup(Tree(inner), path[1..][..n]).value.Tree?
        {
          PrefixTail(path, n + 1);
          assert Lookup(Tree(h), path[..n + 1]) == if child.None? then None else Lookup(child.value, path[1..][..n]);
        }
      }
      SetPathOpen(inner, path[1..], val);
      var updated := SetPath(inner, path[1..], val).value;
      var r := Put(h, path[0], Tree(updated));
      assert SetPath(h, path, val) == Ok(r);
      forall n | 1 <= n < |path|
        ensures Lookup(Tree(r), path[..n]).Some? && Lookup(Tree(r), path[..n]).value.Tree?
      {
        PrefixTail(path, n);
        assert Lookup(Tree(r), path[..n]) == Lookup(Tree(updated), path[1..][..n - 1]);
      }
    }
  }

  /**
   * A write changes nothing at a path that is neither a prefix nor an extension
   * of the written one: sibling answers written earlier survive, because
   * existing maps are reused rather than replaced.
   */
  lemma {:induction false} SetPathOthers(h: Hash<Value>, path: seq<string>, val: Value, q: seq<string>)
    requires |path| >= 1 && SetPath(h, path, val).Ok?
    requires !(q <= path) && !(path <= q)
    ensures Lookup(Tree(SetPath(h, path, val).value), q) == Lookup(Tree(h), q)
    decreases |path|
  {
    var r := SetPath(h, path, val).value;
    assert q != [];
    if q[0] == path[0] {
      assert |path| == 1 ==> path <= q;
      var q' := q[1..];
      assert |q| == 1 ==> q <= path;
      assert !(q' <= path[1..]) && !(path[1..] <= q') by {
        assert q == [q[0]] + q' && path == [path[0]] + path[1..];
      }
      var child := Get(h, path[0]);
      if child.None? || child.value.Tree? {
        var inner := if child.None? then [] else child.value.entries;
        SetPathOthers(inner, path[1..], val, q');
        var updated := SetPath(inner, path[1..], val).value;
        assert r == Put(h, path[0], Tree(updated));
        assert Lookup(Tree(r), q) == Lookup(Tree(updated), q');
      } else {
        assert Lookup(Tree(h), q) == Lookup(child.value, q');
      }
    }
  }

  /** The write keeps the position of an existing top-level key and appends a new one. */
  lemma SetPathKeys(h: Hash<Value>, path: seq<string>, val: Value)
    requires |path| >= 1 && SetPath(h, path, val).Ok?
    ensures Keys(SetPath(h, path, val).value) == if path[0] in Keys(h) then Keys(h) else Keys(h) + [path[0]]
  {
    var r := SetPath(h, path, val).value;
    var c :| r == Put(h, path[0], c);
    PutKeys(h, path[0], c);
  }

  /** A key on the way that names something other than a map, before the last container, raises on `key?`. */
  lemma {:induction false} SetPathBlocked(h: Hash<Value>, path: seq<string>, val: Value, n: nat)
    requires 1 <= n < |path| - 1
    requires Lookup(Tree(h), path[..n]).Some? && !Lookup(Tree(h), path[..n]).value.Tree?
    ensures SetPath(h, path, val) == Err(NoMethod("key?"))
    decreases n
  {
    var child := Get(h, path[0]);
    PrefixTail(path, n);
    assert Lookup(Tree(h), path[..n]) == Lookup(child.value, path[1..][..n - 1]);
    if n > 1 {
      SetPathBlocked(child.value.entries, path[1..], val, n - 1);
    }
  }

  /**
   * When the last container is a String, the write is `String#[]=`: it
   * succeeds exactly when the answer is a String and the last key occurs in
   * the container, whose first occurrence it then replaces.
   */
  lemma {:induction false} SetPathIntoString(h: Hash<Value>, path: seq<string>, val: Value, s0: string)
    requires |path| >= 2 && Lookup(Tree(h), path[..|path| - 1]) == Some(Str(s0))
    ensures SetPath(h, path, val).Ok? <==> val.Str? && FindFrom(s0, path[|path| - 1], 0).Some?
    ensures SetPath(h, path, val).Ok? ==>
      Lookup(Tree(SetPath(h, path, val).value), path[..|path| - 1]) == Some(Str(SubFirst(s0, path[|path| - 1], val.s)))
    decreases |path|
  {
    var child := Get(h, path[0]);
    PrefixTail(path, |path| - 1);
    assert Lookup(Tree(h), path[..|path| - 1]) == Lookup(child.value, path[1..][..|path| - 2]);
    if |path| > 2 {
      var inner := child.value.entries;
      SetPathIntoString(inner, path[1..], val, s0);
      if SetPath(h, path, val).Ok? {
        var updated := SetPath(inner, path[1..], val).value;
        var r := Put(h, path[0], Tree(updated));
        assert SetPath(h, path, val) == Ok(r);
        assert Lookup(Tree(r), path[..|path| - 1]) == Lookup(Tree(updated), path[1..][..|path| - 2]);
      }
    } else {
      assert path[1..][..0] == [];
      if SetPath(h, path, val).Ok? {
        var r := SetPath(h, path, val).value;
        assert path[..1] == [path[0]];
        assert Lookup(Tree(r), [path[0]]) == Lookup(Get(r, path[0]).value, []);
      }
    }
  }
}
