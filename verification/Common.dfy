/** What several of the models share. */
module Common {

  datatype Option<T> = None | Some(value: T)

  type u32 = x: int | 0 <= x < 0x1_0000_0000

  /** Room taken by count pieces of the given size: their product, see SpanIsProduct. */
  function Span(count: nat, size: nat): nat {
    if count == 0 then 0 else Span(count - 1, size) + size
  }

  lemma {:induction false} SpanIsProduct(count: nat, size: nat)
    ensures Span(count, size) == count * size
  {
    if count > 0 {
      SpanIsProduct(count - 1, size);
      assert count * size == (count - 1) * size + size;
    }
  }

  lemma {:induction false} SpanMonotone(i: nat, count: nat, size: nat)
    requires i <= count
    ensures Span(i, size) <= Span(count, size)
    decreases count - i
  {
    if i < count {
      SpanMonotone(i + 1, count, size);
    }
  }

  /** What is not dropped, in its order. */
  function Kept<T>(s: seq<T>, drop: T -> bool): seq<T> {
    if s == [] then [] else Kept(s[..|s| - 1], drop) + if drop(s[|s| - 1]) then [] else [s[|s| - 1]]
  }

  lemma {:induction false} KeptIs<T>(s: seq<T>, drop: T -> bool, x: T)
    ensures x in Kept(s, drop) <==> x in s && !drop(x)
  {
    if s != [] {
      var init := s[..|s| - 1];
      KeptIs(init, drop, x);
      assert s == init + [s[|s| - 1]];
    }
  }

  lemma {:induction false} KeptNext<T>(s: seq<T>, drop: T -> bool, i: nat)
    requires i < |s|
    ensures Kept(s[..i + 1], drop) == Kept(s[..i], drop) + if drop(s[i]) then [] else [s[i]]
  {
    assert s[..i + 1][..i] == s[..i];
  }
}
