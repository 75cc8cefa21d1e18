/** Shared vocabulary: optional values and a few facts about sequences. */
module Prelude {

  datatype Option<+T> = None | Some(value: T)

  /** What a lookup by key yields when the map holds sequences and absence means "none yet". */
  function At<K, V>(m: map<K, seq<V>>, k: K): seq<V> {
    if k in m then m[k] else []
  }

  function Last<T>(s: seq<T>): T
    requires |s| > 0
  {
    s[|s| - 1]
  }

  function Front<T>(s: seq<T>): seq<T>
    requires |s| > 0
  {
    s[..|s| - 1]
  }

  lemma FrontThenLast<T>(s: seq<T>)
    requires |s| > 0
    ensures s == Front(s) + [Last(s)]
  {
  }

  /** The chosen ones below n, in order. */
  function Indices(n: nat, chosen: nat -> bool): (at: seq<nat>)
    ensures forall i :: 0 <= i < |at| ==> at[i] < n
  {
    if n == 0 then [] else Indices(n - 1, chosen) + if chosen(n - 1) then [n - 1] else []
  }

  lemma {:induction false} IndicesAreChosen(n: nat, chosen: nat -> bool)
    ensures forall i, k :: 0 <= i < k < |Indices(n, chosen)| ==> Indices(n, chosen)[i] < Indices(n, chosen)[k]
    ensures forall k: nat :: k in Indices(n, chosen) <==> k < n && chosen(k)
  {
    if n > 0 {
      IndicesAreChosen(n - 1, chosen);
    }
  }
}
