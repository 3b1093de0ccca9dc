/** Bytes, optional values, and the few facts about concatenation that the other modules share. */
module Bytes {

  type byte = b: int | 0 <= b < 256

  datatype Option<T> = None | Some(value: T)

  function Concat<T>(parts: seq<seq<T>>): (whole: seq<T>) {
    if parts == [] then [] else parts[0] + Concat(parts[1..])
  }

  lemma {:induction false} ConcatJoin<T>(a: seq<seq<T>>, b: seq<seq<T>>)
    ensures Concat(a + b) == Concat(a) + Concat(b)
  {
    if a == [] {
      assert a + b == b;
    } else {
      assert (a + b)[1..] == a[1..] + b;
      ConcatJoin(a[1..], b);
    }
  }

  lemma {:induction false} ConcatSnoc<T>(parts: seq<seq<T>>, last: seq<T>)
    ensures Concat(parts + [last]) == Concat(parts) + last
  {
    ConcatJoin(parts, [last]);
    assert Concat([last]) == last + Concat([]);
  }

  lemma {:induction false} Regroup<T>(a: seq<T>, b: seq<T>, c: seq<T>, d: seq<T>)
    ensures a + b + c == a + (b + c)
    ensures a + b + c + d == a + (b + c + d)
  {
  }
}
