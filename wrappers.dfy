/** Optional values and outcomes that either succeed or carry the message of
    the exception the source would raise. */
module Wrappers {

  datatype Option<T> = None | Some(value: T)

  datatype Outcome<T> = Success(value: T) | Failure(error: string)

  /** The values of the `Some` entries of `xs`, in order. */
  function Somes<T>(xs: seq<Option<T>>): seq<T> {
    if xs == [] then []
    else Somes(xs[..|xs| - 1]) + (if xs[|xs| - 1].Some? then [xs[|xs| - 1].value] else [])
  }

  /** Dropping the `None` entries keeps the others in order: entry `k` of the
      result is entry `idx[k]` of `xs`, with `idx` increasing. */
  lemma {:induction false} SomesOrigins<T>(xs: seq<Option<T>>) returns (idx: seq<nat>)
    ensures |idx| == |Somes(xs)| <= |xs|
    ensures forall k :: 0 <= k < |idx| ==> idx[k] < |xs| && xs[idx[k]] == Some(Somes(xs)[k])
    ensures forall k, l :: 0 <= k < l < |idx| ==> idx[k] < idx[l]
    decreases |xs|
  {
    if xs == [] {
      idx := [];
    } else {
      var n := |xs| - 1;
      var sub := SomesOrigins(xs[..n]);
      forall k | 0 <= k < |sub| ensures xs[sub[k]] == xs[..n][sub[k]] {
      }
      if xs[n].Some? {
        idx := sub + [n];
      } else {
        idx := sub;
      }
    }
  }

  /** Every `Some` entry of `xs` shows up in the result. */
  lemma {:induction false} SomesComplete<T>(xs: seq<Option<T>>, j: nat)
    requires j < |xs| && xs[j].Some?
    ensures xs[j].value in Somes(xs)
    decreases |xs|
  {
    var n := |xs| - 1;
    if j < n {
      assert xs[..n][j] == xs[j];
      SomesComplete(xs[..n], j);
    }
  }

  lemma {:induction false} SomesConcat<T>(xs: seq<Option<T>>, ys: seq<Option<T>>)
    ensures Somes(xs + ys) == Somes(xs) + Somes(ys)
    decreases |ys|
  {
    if ys == [] {
      assert xs + ys == xs;
    } else {
      var n := |ys| - 1;
      assert (xs + ys)[..|xs + ys| - 1] == xs + ys[..n];
      SomesConcat(xs, ys[..n]);
    }
  }

  /** Nothing is left exactly when every entry is `None`. */
  lemma {:induction false} SomesEmpty<T>(xs: seq<Option<T>>)
    ensures Somes(xs) == [] <==> forall j :: 0 <= j < |xs| ==> xs[j].None?
    decreases |xs|
  {
    if xs != [] {
      var n := |xs| - 1;
      SomesEmpty(xs[..n]);
      forall j | 0 <= j < n ensures xs[j] == xs[..n][j] {
      }
    }
  }
}
