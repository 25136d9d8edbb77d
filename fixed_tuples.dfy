/** `Tuple<TupleType, Length, Accumulator>`: a fixed-length tuple built by accumulation. */
module FixedTuples {
  import opened Wrappers

  /**
   * Appends `element` to `acc` until `acc` has exactly `length` elements and
   * returns it. When `acc` is already longer the source's recursion never
   * meets its stopping test (the compiler reports an excessively deep
   * instantiation); that case is `None`.
   */
  function Tuple<T>(element: T, length: nat, acc: seq<T>): (r: Option<seq<T>>)
    ensures r.Some? <==> |acc| <= length
    ensures r.Some? ==> |r.value| == length && acc <= r.value
    ensures r.Some? ==> forall i :: |acc| <= i < length ==> r.value[i] == element
    decreases if |acc| <= length then length - |acc| else 0
  {
    if |acc| == length then Some(acc)
    else if |acc| > length then None
    else Tuple(element, length, acc + [element])
  }

  /** The default accumulator `[]`: `Tuple<T, n>` is `n` copies of `T`. */
  lemma DefaultTupleIsCopies<T>(element: T, n: nat)
    ensures Tuple(element, n, []) == Some(seq(n, _ => element))
  {
    var r := Tuple(element, n, []).value;
    var copies := seq(n, _ => element);
    assert |r| == |copies|;
    assert forall i :: 0 <= i < n ==> r[i] == copies[i];
    assert r == copies;
  }

  /** The recursion stops at once when the accumulator already has the length. */
  lemma TupleStopsAtLength<T>(element: T, acc: seq<T>)
    ensures Tuple(element, |acc|, acc) == Some(acc)
  {
  }

  /** `Tuple<number, 3>` is `[number, number, number]`. */
  lemma RgbColorTuple()
    ensures Tuple("number", 3, []) == Some(["number", "number", "number"])
  {
    DefaultTupleIsCopies("number", 3);
    assert seq(3, _ => "number") == ["number", "number", "number"];
  }
}
