/**
 * Ruby's Hash: an insertion-ordered map. Assigning to a present key replaces
 * its value in place (the key keeps its position); a new key goes at the end.
 */
module OrderedHash {
  import opened Wrappers

  type Hash<V> = seq<(string, V)>

  /** The keys in iteration order. */
  function Keys<V>(h: Hash<V>): (r: seq<string>)
    ensures |r| == |h| && forall i :: 0 <= i < |h| ==> r[i] == h[i].0
  {
    if h == [] then [] else [h[0].0] + Keys(h[1..])
  }

  predicate Distinct(ks: seq<string>) {
    forall i, j :: 0 <= i < j < |ks| ==> ks[i] != ks[j]
  }

  /** `h[k]`, or None for a missing key. */
  function Get<V>(h: Hash<V>, k: string): (r: Option<V>)
    ensures r.Some? <==> k in Keys(h)
  {
    if h == [] then None else if h[0].0 == k then Some(h[0].1) else Get(h[1..], k)
  }

  /** `h[k] = v`. */
  function Put<V>(h: Hash<V>, k: string, v: V): (r: Hash<V>)
    ensures Get(r, k) == Some(v)
    ensures forall k' :: k' != k ==> Get(r, k') == Get(h, k')
  {
    if h == [] then [(k, v)]
    else if h[0].0 == k then [(k, v)] + h[1..]
    else [h[0]] + Put(h[1..], k, v)
  }

  /** Assignment keeps the position of a present key and appends a new one. */
  lemma {:induction false} PutKeys<V>(h: Hash<V>, k: string, v: V)
    ensures Keys(Put(h, k, v)) == if k in Keys(h) then Keys(h) else Keys(h) + [k]
  {
    if h != [] && h[0].0 != k {
      PutKeys(h[1..], k, v);
      assert k in Keys(h) <==> k in Keys(h[1..]);
    }
  }

  /** The keys of `ks` appended to `acc` in order of first occurrence, skipping those already present. */
  function AppendNew(acc: seq<string>, ks: seq<string>): (r: seq<string>)
    ensures Distinct(acc) ==> Distinct(r)
    ensures forall k :: k in r <==> k in acc || k in ks
    decreases |ks|
  {
    if ks == [] then acc else AppendNew(if ks[0] in acc then acc else acc + [ks[0]], ks[1..])
  }

  /** The value of the last pair of `ps` whose key is `k`. */
  function LastValue<V>(ps: Hash<V>, k: string): (r: Option<V>)
    ensures r.Some? <==> k in Keys(ps)
  {
    if ps == [] then None
    else
      var later := LastValue(ps[1..], k);
      if later.Some? then later else if ps[0].0 == k then Some(ps[0].1) else None
  }

  /** Assigning every pair of `ps`, in order, into `h`; `Hash#merge(ps)` is this. */
  function PutAll<V>(h: Hash<V>, ps: Hash<V>): Hash<V>
    decreases |ps|
  {
    if ps == [] then h else PutAll(Put(h, ps[0].0, ps[0].1), ps[1..])
  }

  /**
   * After assigning the pairs in order, the keys are the old keys followed by
   * the new ones in order of first assignment, and each assigned key holds the
   * value it was last given; nothing else changes.
   */
  lemma {:induction false} PutAllSpec<V>(h: Hash<V>, ps: Hash<V>)
    ensures Keys(PutAll(h, ps)) == AppendNew(Keys(h), Keys(ps))
    ensures forall k :: Get(PutAll(h, ps), k) == if k in Keys(ps) then LastValue(ps, k) else Get(h, k)
    decreases |ps|
  {
    if ps != [] {
      var h' := Put(h, ps[0].0, ps[0].1);
      PutKeys(h, ps[0].0, ps[0].1);
      PutAllSpec(h', ps[1..]);
      assert Keys(ps)[1..] == Keys(ps[1..]);
      forall k ensures Get(PutAll(h, ps), k) == if k in Keys(ps) then LastValue(ps, k) else Get(h, k) {
        assert k in Keys(ps) <==> k == ps[0].0 || k in Keys(ps[1..]);
      }
    }
  }

  lemma {:induction false} PutAllSnoc<V>(h: Hash<V>, ps: Hash<V>, k: string, v: V)
    ensures PutAll(h, ps + [(k, v)]) == Put(PutAll(h, ps), k, v)
    decreases |ps|
  {
    if ps == [] {
      assert ps + [(k, v)] == [(k, v)];
    } else {
      assert (ps + [(k, v)])[1..] == ps[1..] + [(k, v)];
      PutAllSnoc(Put(h, ps[0].0, ps[0].1), ps[1..], k, v);
    }
  }

  /** Every pair after an assignment is an old pair or the assigned one. */
  lemma {:induction false} PutElements<V>(h: Hash<V>, k: string, v: V)
    ensures forall i :: 0 <= i < |Put(h, k, v)| ==> Put(h, k, v)[i] in h || Put(h, k, v)[i] == (k, v)
  {
    if h != [] && h[0].0 != k {
      PutElements(h[1..], k, v);
      var r := Put(h, k, v);
      assert r == [h[0]] + Put(h[1..], k, v);
      forall i | 0 < i < |r| ensures r[i] in h || r[i] == (k, v) {
        assert r[i] == Put(h[1..], k, v)[i - 1];
        assert Put(h[1..], k, v)[i - 1] in h[1..] ==> r[i] in h;
      }
    } else if h != [] {
      var r := Put(h, k, v);
      forall i | 0 < i < |r| ensures r[i] in h {
        assert r[i] == h[i];
      }
    }
  }

  /** A key not yet present is appended. */
  lemma {:induction false} PutNew<V>(h: Hash<V>, k: string, v: V)
    requires k !in Keys(h)
    ensures Put(h, k, v) == h + [(k, v)]
  {
    if h != [] {
      assert k !in Keys(h[1..]);
      PutNew(h[1..], k, v);
      assert [h[0]] + (h[1..] + [(k, v)]) == h + [(k, v)];
    }
  }

  /** A second assignment to the same key overrides the first in place. */
  lemma {:induction false} PutPut<V>(h: Hash<V>, k: string, v: V, w: V)
    ensures Put(Put(h, k, v), k, w) == Put(h, k, w)
  {
    if h != [] && h[0].0 != k {
      PutPut(h[1..], k, v, w);
    }
  }

  /** Assigning a key the value it already holds changes nothing. */
  lemma {:induction false} PutSame<V>(h: Hash<V>, k: string, v: V)
    requires Get(h, k) == Some(v)
    ensures Put(h, k, v) == h
  {
    if h != [] && h[0].0 != k {
      PutSame(h[1..], k, v);
    }
  }

  /** Assigning pairs with new, distinct keys appends them. */
  lemma {:induction false} PutAllFresh<V>(h: Hash<V>, ps: Hash<V>)
    requires Distinct(Keys(ps)) && forall k :: k in Keys(ps) ==> k !in Keys(h)
    ensures PutAll(h, ps) == h + ps
    decreases |ps|
  {
    if ps != [] {
      var p := ps[0];
      DistinctTail(Keys(ps));
      assert Keys(ps[1..]) == Keys(ps)[1..];
      PutNew(h, p.0, p.1);
      var h' := h + [p];
      assert Keys(h') == Keys(h) + [p.0];
      PutAllFresh(h', ps[1..]);
      assert [p] + ps[1..] == ps;
      AppendAssoc(h, [p], ps[1..]);
    }
  }

  lemma TakeSnoc<V>(s: seq<V>, i: nat)
    requires i < |s|
    ensures s[..i + 1] == s[..i] + [s[i]]
  {
  }

  lemma DropOne<V>(s: seq<V>, i: nat)
    requires i < |s|
    ensures s[i..][0] == s[i] && s[i..][1..] == s[i + 1..]
  {
  }

  lemma AppendAssoc<V>(a: seq<V>, b: seq<V>, c: seq<V>)
    ensures (a + b) + c == a + (b + c)
  {
  }

  lemma DistinctTail(ks: seq<string>)
    requires Distinct(ks) && ks != []
    ensures Distinct(ks[1..]) && ks[0] !in ks[1..]
  {
    forall j | 0 <= j < |ks[1..]| ensures ks[1..][j] != ks[0] {
      assert ks[1..][j] == ks[j + 1];
    }
  }

  /** Assigning pairs the hash already holds changes nothing. */
  lemma {:induction false} PutAllHeld<V>(h: Hash<V>, ps: Hash<V>)
    requires forall i :: 0 <= i < |ps| ==> Get(h, ps[i].0) == Some(ps[i].1)
    ensures PutAll(h, ps) == h
    decreases |ps|
  {
    if ps != [] {
      PutSame(h, ps[0].0, ps[0].1);
      PutAllHeld(h, ps[1..]);
    }
  }

  /** With distinct keys, each pair is what its key reads. */
  lemma {:induction false} GetDistinct<V>(c: Hash<V>, i: nat)
    requires Distinct(Keys(c)) && i < |c|
    ensures Get(c, c[i].0) == Some(c[i].1)
  {
    if i > 0 {
      assert Keys(c)[0] != Keys(c)[i];
      assert Keys(c[1..]) == Keys(c)[1..];
      GetDistinct(c[1..], i - 1);
    }
  }
}
