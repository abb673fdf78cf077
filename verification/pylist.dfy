/**
 * Python list subscription, which xCDN arrays and the top-level value list of
 * a document rely on: an index is valid when `-len <= i < len`, and a negative
 * index counts from the end. An invalid index is an IndexError, and a failed
 * assignment neither changes nor extends the list.
 */
module PyList {
  import opened Optional

  /** The position an index designates, if it designates one. */
  function Normalize(length: nat, index: int): Option<nat>
  {
    if 0 <= index < length then Some(index)
    else if index < 0 && 0 <= length + index then Some(length + index)
    else None
  }

  /** `xs[index]`; None stands for the IndexError. */
  function Get<T>(xs: seq<T>, index: int): (r: Option<T>)
    ensures r.Some? <==> -|xs| <= index < |xs|
    ensures r.Some? ==> r.value == xs[if index < 0 then |xs| + index else index]
  {
    match Normalize(|xs|, index)
    case Some(j) => Some(xs[j])
    case None => None
  }

  /** `xs[index] = x`; None stands for the IndexError, which leaves `xs` as it was. */
  function Set<T>(xs: seq<T>, index: int, x: T): (r: Option<seq<T>>)
    ensures r.Some? <==> -|xs| <= index < |xs|
    ensures r.Some? ==> |r.value| == |xs| && Get(r.value, index) == Some(x)
    ensures r.Some? ==> forall j :: 0 <= j < |xs| && Normalize(|xs|, index) != Some(j) ==> r.value[j] == xs[j]
  {
    match Normalize(|xs|, index)
    case Some(j) => Some(xs[j := x])
    case None => None
  }

  /** Reading back a slot that was just assigned, by the same index, yields what was stored. */
  lemma SetThenGet<T>(xs: seq<T>, index: int, x: T, other: int)
    requires Set(xs, index, x).Some?
    ensures Get(Set(xs, index, x).value, other) ==
            if Normalize(|xs|, other) == Normalize(|xs|, index) then Some(x) else Get(xs, other)
  {
  }
}
