/** The domain types every part of the service shares. */
module Model {

  datatype Option<+T> = None | Some(value: T)

  /** A dedup key: one row of the store per key. */
  type Key = string

  datatype Channel = Online | InStore

  /** One in-stock observation. Prices are exact; None is a missing price. */
  datatype Offer = Offer(
    source: string,
    storeName: string,
    productName: string,
    stock: int,
    price: Option<real>,
    url: string,
    location: string,
    channel: Channel,
    plz: string,
    targeted: bool,
    preOrder: bool,
    priceMax: int,
    key: Key)

  /** The keys a list of offers mentions. */
  function KeySet(offers: seq<Offer>): set<Key> {
    set i | 0 <= i < |offers| :: offers[i].key
  }

  lemma Regroup<T>(a: seq<T>, b: seq<T>, c: seq<T>)
    ensures a + (b + c) == (a + b) + c
  {
  }

  /** `out` has just what `src` has, in the same order; `idx` are the places. */
  ghost predicate Picked<T(!new)>(src: seq<Option<T>>, out: seq<T>, idx: seq<nat>) {
    && |idx| == |out|
    && (forall k :: 0 <= k < |idx| ==> idx[k] < |src| && src[idx[k]] == Some(out[k]))
    && (forall k, l :: 0 <= k < l < |idx| ==> idx[k] < idx[l])
    && (forall i :: 0 <= i < |src| && src[i].Some? ==> i in idx)
  }

  lemma PickMore<T(!new)>(src: seq<Option<T>>, out: seq<T>, idx: seq<nat>, x: Option<T>)
    requires Picked(src, out, idx)
    ensures x.None? ==> Picked(src + [x], out, idx)
    ensures x.Some? ==> Picked(src + [x], out + [x.value], idx + [|src|])
  {
    var n := |src|;
    forall i | 0 <= i < |src + [x]| && (src + [x])[i].Some? ensures i in idx + [n] {
      if i < n {
        assert i in idx;
      } else {
        assert (idx + [n])[|idx|] == n;
      }
    }
  }

  /** The k-th part is where these cuts say. */
  ghost predicate IsPart<T>(parts: seq<seq<T>>, out: seq<T>, cuts: seq<nat>, k: nat)
    requires |cuts| == |parts| + 1
  {
    k < |parts| && cuts[k] <= cuts[k + 1] <= |out| && out[cuts[k]..cuts[k + 1]] == parts[k]
  }

  /** `out` is these parts, one behind the other; each ends where the next begins. */
  ghost predicate LaidOut<T>(parts: seq<seq<T>>, out: seq<T>, cuts: seq<nat>) {
    && |cuts| == |parts| + 1 && cuts[0] == 0 && cuts[|parts|] == |out|
    && (forall k :: 0 <= k < |parts| ==> IsPart(parts, out, cuts, k))
  }

  lemma LayMore<T>(parts: seq<seq<T>>, out: seq<T>, cuts: seq<nat>, x: seq<T>)
    requires LaidOut(parts, out, cuts)
    ensures LaidOut(parts + [x], out + x, cuts + [|out + x|])
  {
    var all, at := parts + [x], cuts + [|out + x|];
    forall k | 0 <= k < |all| ensures IsPart(all, out + x, at, k) {
      if k < |parts| {
        assert IsPart(parts, out, cuts, k);
        assert (out + x)[at[k]..at[k + 1]] == out[cuts[k]..cuts[k + 1]];
      } else {
        assert (out + x)[|out|..] == x;
      }
    }
  }

  /** The two lists agree, element by element. */
  ghost predicate AllPairs<A(!new), B(!new)>(agree: (A, B) -> bool, xs: seq<A>, ys: seq<B>) {
    |xs| == |ys| && forall i :: 0 <= i < |xs| ==> agree(xs[i], ys[i])
  }

  lemma PairMore<A(!new), B(!new)>(agree: (A, B) -> bool, xs: seq<A>, ys: seq<B>, x: A, y: B)
    requires AllPairs(agree, xs, ys) && agree(x, y)
    ensures AllPairs(agree, xs + [x], ys + [y])
  {
  }
}
