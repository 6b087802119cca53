/**
 * Building a list by visiting a sequence in order and appending what each
 * element yields, if anything: the shape of every loop of the dashboard that
 * fills a list or appends rows.
 */
module Sequences {
  import opened Wrappers

  /** The value of an option as a list of at most one element. */
  function Listed<U>(o: Option<U>): seq<U> {
    if o.Some? then [o.value] else []
  }

  /** What `f` yields for the elements of `xs`, in order, skipping the elements that yield nothing. */
  function Collect<T, U>(xs: seq<T>, f: T -> Option<U>): (ys: seq<U>)
    ensures |ys| <= |xs|
  {
    if xs == [] then []
    else
      var last := xs[|xs| - 1];
      Collect(xs[..|xs| - 1], f) + Listed(f(last))
  }

  /** One element more of the prefix adds what it yields at the end. */
  lemma {:induction false} CollectPrefix<T, U>(xs: seq<T>, i: nat, f: T -> Option<U>)
    requires i < |xs|
    ensures Collect(xs[..i + 1], f) == Collect(xs[..i], f) + Listed(f(xs[i]))
  {
    assert xs[..i + 1][..i] == xs[..i];
  }

  /** Collecting two stretches is collecting each in turn. */
  lemma {:induction false} CollectAppend<T, U>(a: seq<T>, b: seq<T>, f: T -> Option<U>)
    ensures Collect(a + b, f) == Collect(a, f) + Collect(b, f)
    decreases |b|
  {
    if b != [] {
      var n := |b| - 1;
      assert (a + b)[..|a + b| - 1] == a + b[..n];
      assert (a + b)[|a + b| - 1] == b[n];
      CollectAppend(a, b[..n], f);
    } else {
      assert a + b == a;
    }
  }

  /** A value is collected exactly when some element yields it. */
  lemma {:induction false} CollectMembers<T, U>(xs: seq<T>, f: T -> Option<U>, y: U)
    ensures y in Collect(xs, f) <==> exists i :: 0 <= i < |xs| && f(xs[i]) == Some(y)
    decreases |xs|
  {
    if xs != [] {
      var init := xs[..|xs| - 1];
      CollectMembers(init, f, y);
      assert forall i :: 0 <= i < |init| ==> init[i] == xs[i];
    }
  }

  /** Each collected value comes from an element, and later values from later elements. */
  lemma {:induction false} CollectOrigin<T, U>(xs: seq<T>, f: T -> Option<U>, k: nat)
    requires k < |Collect(xs, f)|
    ensures exists m :: k <= m < |xs| && f(xs[m]) == Some(Collect(xs, f)[k])
    decreases |xs|
  {
    var init := xs[..|xs| - 1];
    var rest := Collect(init, f);
    assert Collect(xs, f) == rest + Listed(f(xs[|xs| - 1]));
    if k < |rest| {
      CollectOrigin(init, f, k);
      var m :| k <= m < |init| && f(init[m]) == Some(rest[k]);
      assert init[m] == xs[m];
    }
  }

  /** When no two elements yield values with the same key, no two collected values share a key. */
  lemma {:induction false} CollectDistinct<T, U, K>(xs: seq<T>, f: T -> Option<U>, key: U -> K)
    requires forall p, q :: 0 <= p < q < |xs| && f(xs[p]).Some? && f(xs[q]).Some? ==> key(f(xs[p]).value) != key(f(xs[q]).value)
    ensures forall p, q :: 0 <= p < q < |Collect(xs, f)| ==> key(Collect(xs, f)[p]) != key(Collect(xs, f)[q])
    decreases |xs|
  {
    if xs != [] {
      var init, last := xs[..|xs| - 1], xs[|xs| - 1];
      assert forall i :: 0 <= i < |init| ==> init[i] == xs[i];
      CollectDistinct(init, f, key);
      var rest := Collect(init, f);
      var ys := Collect(xs, f);
      assert ys == rest + Listed(f(last));
      forall p, q | 0 <= p < q < |ys| ensures key(ys[p]) != key(ys[q]) {
        if q >= |rest| {
          CollectOrigin(init, f, p);
          var m :| p <= m < |init| && f(init[m]) == Some(rest[p]);
          assert xs[m] == init[m] && ys[p] == rest[p];
          assert f(xs[|xs| - 1]).Some? && ys[q] == f(xs[|xs| - 1]).value;
          assert m < |xs| - 1 && f(xs[m]).Some?;
          assert key(f(xs[m]).value) != key(f(xs[|xs| - 1]).value);
        } else {
          assert ys[p] == rest[p] && ys[q] == rest[q];
          assert key(rest[p]) != key(rest[q]);
        }
      }
    }
  }
}
