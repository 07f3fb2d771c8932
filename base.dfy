/** Optional values and results with an error, shared by every module. */
module Base {

  /** A value that may be missing (Python's None). */
  datatype Option<+T> = None | Some(value: T)

  /** The outcome of an operation that can raise: a value, or the name of the exception raised. */
  datatype Result<+T> = Ok(value: T) | Raised(exception: string)

  function Min(a: int, b: int): int { if a <= b then a else b }

  /** Regrouping a concatenation; called where the surrounding facts make the solver's own regrouping slow. */
  lemma AppendAssoc<T>(a: seq<T>, b: seq<T>, c: seq<T>)
    ensures (a + b) + c == a + (b + c)
  {
  }

  /** The values of a sequence passed through a partial map, in order, the missing ones dropped. */
  function FilterMap<S, T>(f: S -> Option<T>, xs: seq<S>): (ys: seq<T>)
    ensures |ys| <= |xs|
  {
    if xs == [] then []
    else
      var last := f(xs[|xs| - 1]);
      FilterMap(f, xs[..|xs| - 1]) + (if last.Some? then [last.value] else [])
  }

  lemma FilterMapSnoc<S, T>(f: S -> Option<T>, xs: seq<S>, j: nat)
    requires j < |xs|
    ensures FilterMap(f, xs[..j + 1]) == FilterMap(f, xs[..j]) + (if f(xs[j]).Some? then [f(xs[j]).value] else [])
  {
    assert xs[..j + 1][..j] == xs[..j];
  }

  lemma {:induction false} FilterMapAppend<S, T>(f: S -> Option<T>, a: seq<S>, b: seq<S>)
    ensures FilterMap(f, a + b) == FilterMap(f, a) + FilterMap(f, b)
    decreases |b|
  {
    if b == [] {
      assert a + b == a;
    } else {
      assert (a + b)[..|a + b| - 1] == a + b[..|b| - 1];
      FilterMapAppend(f, a, b[..|b| - 1]);
    }
  }

  /** A value is kept exactly when some element maps to it. */
  lemma {:induction false} FilterMapMembers<S, T>(f: S -> Option<T>, xs: seq<S>, y: T)
    ensures y in FilterMap(f, xs) <==> exists i :: 0 <= i < |xs| && f(xs[i]) == Some(y)
  {
    if xs != [] {
      var init := xs[..|xs| - 1];
      FilterMapMembers(f, init, y);
      if exists i :: 0 <= i < |xs| && f(xs[i]) == Some(y) {
        var i :| 0 <= i < |xs| && f(xs[i]) == Some(y);
        if i < |init| {
          assert init[i] == xs[i];
        }
      }
      if y in FilterMap(f, init) {
        var i :| 0 <= i < |init| && f(init[i]) == Some(y);
        assert xs[i] == init[i];
      }
    }
  }

  /** The concatenation of the sequences each element maps to, in order. */
  function FlatMap<S, T>(f: S -> seq<T>, xs: seq<S>): seq<T> {
    if xs == [] then [] else FlatMap(f, xs[..|xs| - 1]) + f(xs[|xs| - 1])
  }

  lemma FlatMapSnoc<S, T>(f: S -> seq<T>, xs: seq<S>, x: S)
    ensures FlatMap(f, xs + [x]) == FlatMap(f, xs) + f(x)
  {
    assert (xs + [x])[..|xs|] == xs;
  }

  /** A value occurs in the concatenation exactly when it occurs in what some element maps to. */
  lemma {:induction false} FlatMapMembers<S, T>(f: S -> seq<T>, xs: seq<S>, y: T)
    ensures y in FlatMap(f, xs) <==> exists i :: 0 <= i < |xs| && y in f(xs[i])
  {
    if xs != [] {
      var init := xs[..|xs| - 1];
      FlatMapMembers(f, init, y);
      if exists i :: 0 <= i < |xs| && y in f(xs[i]) {
        var i :| 0 <= i < |xs| && y in f(xs[i]);
        if i < |init| {
          assert init[i] == xs[i];
        }
      }
      if y in FlatMap(f, init) {
        var i :| 0 <= i < |init| && y in f(init[i]);
        assert xs[i] == init[i];
      }
    }
  }

  /** The map built by writing f's key and value for each element in order; a later write to a key replaces an earlier one. */
  function LastWrites<S, K, V>(f: S -> Option<(K, V)>, xs: seq<S>): map<K, V> {
    if xs == [] then map[]
    else
      var m := LastWrites(f, xs[..|xs| - 1]);
      match f(xs[|xs| - 1])
      case None => m
      case Some(kv) => m[kv.0 := kv.1]
  }

  /** Whether f writes key k for x. */
  predicate Writes<S, K(==), V>(f: S -> Option<(K, V)>, x: S, k: K) {
    f(x).Some? && f(x).value.0 == k
  }

  /** A key is in the map exactly when some element writes it, and it holds the value of the last such write. */
  lemma {:induction false} LastWritesMeaning<S, K, V>(f: S -> Option<(K, V)>, xs: seq<S>, k: K)
    ensures k in LastWrites(f, xs) <==> exists i :: 0 <= i < |xs| && Writes(f, xs[i], k)
    ensures k in LastWrites(f, xs) ==> exists i :: (0 <= i < |xs| && Writes(f, xs[i], k)
      && LastWrites(f, xs)[k] == f(xs[i]).value.1
      && forall j :: i < j < |xs| ==> !Writes(f, xs[j], k))
  {
    if xs != [] {
      var init, x := xs[..|xs| - 1], xs[|xs| - 1];
      LastWritesMeaning(f, init, k);
      if exists i :: 0 <= i < |init| && Writes(f, init[i], k) {
        var i :| 0 <= i < |init| && Writes(f, init[i], k);
        assert xs[i] == init[i];
      }
      if exists i :: 0 <= i < |xs| && Writes(f, xs[i], k) {
        var i :| 0 <= i < |xs| && Writes(f, xs[i], k);
        assert i < |init| ==> init[i] == xs[i];
      }
      if k in LastWrites(f, xs) && !Writes(f, x, k) {
        var i :| 0 <= i < |init| && Writes(f, init[i], k)
          && LastWrites(f, init)[k] == f(init[i]).value.1
          && forall j :: i < j < |init| ==> !Writes(f, init[j], k);
        assert xs[i] == init[i];
        assert forall j :: i < j < |init| ==> xs[j] == init[j];
      }
    }
  }

  /** FilterMap of a function that keeps nothing is empty. */
  lemma {:induction false} FilterMapNone<S, T>(f: S -> Option<T>, xs: seq<S>)
    requires forall i :: 0 <= i < |xs| ==> f(xs[i]).None?
    ensures FilterMap(f, xs) == []
  {
    if xs != [] {
      FilterMapNone(f, xs[..|xs| - 1]);
    }
  }

  /** f applied to every element in order; the first exception raised ends it. */
  function Traverse<S, T>(f: S -> Result<T>, xs: seq<S>): (r: Result<seq<T>>)
    ensures r.Raised? <==> exists i :: 0 <= i < |xs| && f(xs[i]).Raised?
    ensures r.Raised? ==> exists i :: 0 <= i < |xs| && f(xs[i]) == Raised(r.exception)
    ensures r.Ok? ==> |r.value| == |xs| && forall i :: 0 <= i < |xs| ==> f(xs[i]) == Ok(r.value[i])
  {
    if xs == [] then Ok([])
    else
      var init := xs[..|xs| - 1];
      assert forall i :: 0 <= i < |init| ==> init[i] == xs[i];
      match Traverse(f, init)
      case Raised(x) => Raised(x)
      case Ok(vs) =>
        match f(xs[|xs| - 1])
        case Raised(x) => Raised(x)
        case Ok(v) => Ok(vs + [v])
  }

  /** Writing two sequences in turn is writing the first, then letting the second's writes replace its. */
  lemma {:induction false} LastWritesAppend<S, K, V>(f: S -> Option<(K, V)>, a: seq<S>, b: seq<S>)
    ensures LastWrites(f, a + b) == LastWrites(f, a) + LastWrites(f, b)
    decreases |b|
  {
    if b == [] {
      assert a + b == a;
    } else {
      var b' := b[..|b| - 1];
      assert (a + b)[..|a + b| - 1] == a + b' && (a + b)[|a + b| - 1] == b[|b| - 1];
      LastWritesAppend(f, a, b');
    }
  }

  /** Some element of a non-empty sequence satisfies p iff one before the last does or the last one does. */
  lemma ExistsSnoc<S>(p: S -> bool, xs: seq<S>, init: seq<S>)
    requires xs != [] && init == xs[..|xs| - 1]
    ensures (exists i :: 0 <= i < |xs| && p(xs[i])) <==> (exists i :: 0 <= i < |init| && p(init[i])) || p(xs[|xs| - 1])
  {
    if exists i :: 0 <= i < |init| && p(init[i]) {
      var i :| 0 <= i < |init| && p(init[i]);
      assert xs[i] == init[i];
    }
    if exists i :: 0 <= i < |xs| && p(xs[i]) {
      var i :| 0 <= i < |xs| && p(xs[i]);
      if i < |init| { assert init[i] == xs[i]; }
    }
  }

  lemma MapUnionAssoc<K, V>(a: map<K, V>, b: map<K, V>, c: map<K, V>)
    ensures (a + b) + c == a + (b + c)
  {
  }
}
