/** The browser's URLSearchParams as the catalog search uses it: an ordered
    list of name/value pairs in which a name may repeat, with `get` (first
    value), `delete` (drop every pair of a name), `set` (overwrite the first
    pair of a name and drop the rest, or append) and `toString` (pairs as
    `name=value` joined by `&`; percent-encoding is not modelled). */
module SearchParams {
  import opened Wrappers

  type Params = seq<(string, string)>

  /** How many pairs carry the name `k`. */
  function Count(ps: Params, k: string): nat
  {
    if ps == [] then 0 else (if ps[0].0 == k then 1 else 0) + Count(ps[1..], k)
  }

  /** The pairs named `k`, in their order in the list. */
  function Named(ps: Params, k: string): Params
  {
    if ps == [] then [] else (if ps[0].0 == k then [ps[0]] else []) + Named(ps[1..], k)
  }

  /** `get(k)`: the value of the first pair named `k`, or null. */
  function Get(ps: Params, k: string): (r: Option<string>)
    ensures r.None? <==> Count(ps, k) == 0
  {
    if ps == [] then None else if ps[0].0 == k then Some(ps[0].1) else Get(ps[1..], k)
  }

  /** A value `get` returns is carried by the first pair with that name. */
  lemma {:induction false} GetIsFirst(ps: Params, k: string)
    ensures Get(ps, k).Some? ==>
      exists i :: 0 <= i < |ps| && ps[i] == (k, Get(ps, k).value) && forall j :: 0 <= j < i ==> ps[j].0 != k
  {
    if ps != [] && ps[0].0 != k && Get(ps, k).Some? {
      GetIsFirst(ps[1..], k);
      var i :| 0 <= i < |ps[1..]| && ps[1..][i] == (k, Get(ps, k).value) && forall j :: 0 <= j < i ==> ps[1..][j].0 != k;
      assert ps[i + 1] == (k, Get(ps, k).value);
      assert forall j :: 0 <= j < i + 1 ==> ps[j].0 != k by {
        forall j | 0 <= j < i + 1 ensures ps[j].0 != k {
          if j > 0 { assert ps[j] == ps[1..][j - 1]; }
        }
      }
    }
  }

  /** The pairs of a name decide both its count and what `get` returns, so a
      list whose pairs of `k` are unchanged also reads the same for `k`. */
  lemma {:induction false} NamedDecidesGet(ps: Params, k: string)
    ensures Count(ps, k) == |Named(ps, k)|
    ensures Get(ps, k) == if Named(ps, k) == [] then None else Some(Named(ps, k)[0].1)
  {
    if ps != [] {
      NamedDecidesGet(ps[1..], k);
    }
  }

  /** Counting and looking up over a list with one more pair in front. */
  lemma Cons(x: (string, string), rest: Params)
    ensures forall k :: Count([x] + rest, k) == (if x.0 == k then 1 else 0) + Count(rest, k)
    ensures forall k :: Get([x] + rest, k) == if x.0 == k then Some(x.1) else Get(rest, k)
    ensures forall k :: Named([x] + rest, k) == (if x.0 == k then [x] else []) + Named(rest, k)
  {
    assert ([x] + rest)[1..] == rest;
  }

  /** `delete(k)`: every pair named `k` goes, all others stay in order. */
  function Delete(ps: Params, k: string): (r: Params)
    ensures Count(r, k) == 0 && Get(r, k).None?
    ensures forall k' :: k' != k ==> Count(r, k') == Count(ps, k') && Get(r, k') == Get(ps, k')
    ensures forall k' :: k' != k ==> Named(r, k') == Named(ps, k')
    ensures Count(ps, k) == 0 ==> r == ps
  {
    if ps == [] then []
    else if ps[0].0 == k then Delete(ps[1..], k)
    else
      Cons(ps[0], Delete(ps[1..], k));
      [ps[0]] + Delete(ps[1..], k)
  }

  /** The first pair named `k` takes the value `v`; later pairs named `k` go. */
  function ReplaceFirst(ps: Params, k: string, v: string): (r: Params)
    ensures Count(ps, k) > 0 ==> Count(r, k) == 1 && Get(r, k) == Some(v)
    ensures forall k' :: k' != k ==> Count(r, k') == Count(ps, k') && Get(r, k') == Get(ps, k')
    ensures forall k' :: k' != k ==> Named(r, k') == Named(ps, k')
    ensures Count(ps, k) == 1 && Get(ps, k) == Some(v) ==> r == ps
  {
    if ps == [] then []
    else if ps[0].0 == k then
      Cons((k, v), Delete(ps[1..], k));
      [(k, v)] + Delete(ps[1..], k)
    else
      Cons(ps[0], ReplaceFirst(ps[1..], k, v));
      [ps[0]] + ReplaceFirst(ps[1..], k, v)
  }

  /** Appending a pair adds one to its name's count and leaves the first
      value of every name that was already present. */
  lemma {:induction false} AppendPair(ps: Params, k: string, v: string)
    ensures forall k' :: Count(ps + [(k, v)], k') == Count(ps, k') + (if k' == k then 1 else 0)
    ensures forall k' :: Get(ps + [(k, v)], k') == (if Count(ps, k') > 0 then Get(ps, k') else if k' == k then Some(v) else None)
    ensures forall k' :: k' != k ==> Named(ps + [(k, v)], k') == Named(ps, k')
  {
    if ps != [] {
      AppendPair(ps[1..], k, v);
      assert (ps + [(k, v)])[1..] == ps[1..] + [(k, v)];
    }
  }

  /** `set(k, v)`: afterwards exactly one pair is named `k`, with value `v`;
      every other name reads as before. */
  function Set(ps: Params, k: string, v: string): (r: Params)
    ensures Count(r, k) == 1 && Get(r, k) == Some(v)
    ensures forall k' :: k' != k ==> Count(r, k') == Count(ps, k') && Get(r, k') == Get(ps, k')
    ensures forall k' :: k' != k ==> Named(r, k') == Named(ps, k')
    ensures Count(ps, k) == 1 && Get(ps, k) == Some(v) ==> r == ps
  {
    if Count(ps, k) == 0 then
      AppendPair(ps, k, v);
      ps + [(k, v)]
    else ReplaceFirst(ps, k, v)
  }

  /** `toString()` without percent-encoding. */
  function Serialize(ps: Params): (r: string)
    ensures r == "" <==> ps == []
  {
    if ps == [] then ""
    else
      var pair := ps[0].0 + "=" + ps[0].1;
      assert pair[|ps[0].0|] == '=';
      if |ps| == 1 then pair else pair + "&" + Serialize(ps[1..])
  }
}
