/**
 * The loop shape the handlers share: walk a sequence in order and append a
 * value for each element that is kept.
 */
module Sequences {
  import opened Wrappers

  /** The values `pick` gives the kept elements of `xs`, in the order of `xs`. */
  function Collect<T, U>(xs: seq<T>, pick: T -> Option<U>): seq<U>
    decreases |xs|
  {
    if xs == [] then []
    else
      var last := xs[|xs| - 1];
      Collect(xs[..|xs| - 1], pick) + (if pick(last).Some? then [pick(last).value] else [])
  }

  /** One more element extends the collected values by its own value, if it is kept. */
  lemma CollectStep<T, U>(xs: seq<T>, pick: T -> Option<U>, k: nat)
    requires k < |xs|
    ensures Collect(xs[..k + 1], pick)
         == Collect(xs[..k], pick) + (if pick(xs[k]).Some? then [pick(xs[k]).value] else [])
  {
    assert xs[..k + 1][..k] == xs[..k];
  }

  /** Two kept elements give their two values, in order. */
  lemma CollectPair<T, U>(x: T, y: T, pick: T -> Option<U>)
    requires pick(x).Some? && pick(y).Some?
    ensures Collect([x, y], pick) == [pick(x).value, pick(y).value]
  {
    assert [x, y][..1] == [x];
    assert [x][..0] == [];
    assert Collect([x], pick) == Collect([], pick) + [pick(x).value];
    assert Collect([x, y], pick) == Collect([x], pick) + [pick(y).value];
  }

  /** A value is collected exactly when some element is kept with that value. */
  lemma {:induction false} CollectExactly<T, U>(xs: seq<T>, pick: T -> Option<U>, u: U)
    ensures u in Collect(xs, pick) <==> exists i :: 0 <= i < |xs| && pick(xs[i]) == Some(u)
    decreases |xs|
  {
    if xs != [] {
      var init := xs[..|xs| - 1];
      CollectExactly(init, pick, u);
      if u in Collect(xs, pick) {
        if u in Collect(init, pick) {
          var i :| 0 <= i < |init| && pick(init[i]) == Some(u);
          assert xs[i] == init[i];
        } else {
          assert pick(xs[|xs| - 1]) == Some(u);
        }
      } else {
        forall i | 0 <= i < |xs|
          ensures pick(xs[i]) != Some(u)
        {
          if i < |init| {
            assert xs[i] == init[i];
          }
        }
      }
    }
  }

  /** No more values are collected than there are elements. */
  lemma {:induction false} CollectLength<T, U>(xs: seq<T>, pick: T -> Option<U>)
    ensures |Collect(xs, pick)| <= |xs|
    ensures (forall i :: 0 <= i < |xs| ==> pick(xs[i]).Some?) ==> |Collect(xs, pick)| == |xs|
    decreases |xs|
  {
    if xs != [] {
      var init := xs[..|xs| - 1];
      CollectLength(init, pick);
      if forall i :: 0 <= i < |xs| ==> pick(xs[i]).Some? {
        forall i | 0 <= i < |init|
          ensures pick(init[i]).Some?
        {
          assert init[i] == xs[i];
        }
      }
    }
  }

  /** `f` applied to each element of `xs`, in order. */
  function Map<T, U>(xs: seq<T>, f: T -> U): seq<U>
    decreases |xs|
  {
    if xs == [] then [] else Map(xs[..|xs| - 1], f) + [f(xs[|xs| - 1])]
  }

  /** One more element extends the mapped values by its own. */
  lemma MapStep<T, U>(xs: seq<T>, f: T -> U, k: nat)
    requires k < |xs|
    ensures Map(xs[..k + 1], f) == Map(xs[..k], f) + [f(xs[k])]
  {
    assert xs[..k + 1][..k] == xs[..k];
  }

  /** Mapping keeps the length and puts the value of each element at its position. */
  lemma {:induction false} MapAt<T, U>(xs: seq<T>, f: T -> U)
    ensures |Map(xs, f)| == |xs|
    ensures forall i :: 0 <= i < |xs| ==> Map(xs, f)[i] == f(xs[i])
    decreases |xs|
  {
    if xs != [] {
      var init := xs[..|xs| - 1];
      MapAt(init, f);
      forall i | 0 <= i < |xs|
        ensures Map(xs, f)[i] == f(xs[i])
      {
        if i < |init| {
          assert xs[i] == init[i];
        }
      }
    }
  }

  /** Mapping a concatenation maps each part. */
  lemma {:induction false} MapAppend<T, U>(xs: seq<T>, ys: seq<T>, f: T -> U)
    ensures Map(xs + ys, f) == Map(xs, f) + Map(ys, f)
    decreases |ys|
  {
    if ys == [] {
      assert xs + ys == xs;
    } else {
      var init := ys[..|ys| - 1];
      assert (xs + ys)[..|xs + ys| - 1] == xs + init;
      MapAppend(xs, init, f);
    }
  }

  /** Concatenation is associative. */
  lemma AppendAssoc<T>(a: seq<T>, b: seq<T>, c: seq<T>)
    ensures (a + b) + c == a + (b + c)
  {
  }
}
