/** Byte strings and the default byte-wise order of `DefaultCmp` (src/cmp.rs). */
module Bytes {

  type Byte = x: int | 0 <= x < 256

  type Bytes = seq<Byte>

  datatype Option<+T> = None | Some(value: T)

  /** The second value if there is one, else the first. */
  function Override<T>(a: Option<T>, b: Option<T>): Option<T> {
    if b.Some? then b else a
  }

  /** Lexicographic order: a proper prefix is smaller. */
  predicate Lt(a: Bytes, b: Bytes) {
    if b == [] then false
    else if a == [] then true
    else a[0] < b[0] || (a[0] == b[0] && Lt(a[1..], b[1..]))
  }

  lemma {:induction false} LtTotal(a: Bytes, b: Bytes)
    ensures Lt(a, b) || a == b || Lt(b, a)
    ensures !(Lt(a, b) && Lt(b, a))
  {
    if a != [] && b != [] {
      LtTotal(a[1..], b[1..]);
      if a[0] == b[0] && a[1..] == b[1..] {
        assert a == [a[0]] + a[1..] == b;
      }
    }
  }

  lemma {:induction false} LtTransitive(a: Bytes, b: Bytes, c: Bytes)
    requires Lt(a, b) && Lt(b, c)
    ensures Lt(a, c)
  {
    if a != [] && a[0] == b[0] == c[0] {
      LtTransitive(a[1..], b[1..], c[1..]);
    }
  }

  /** The default comparator is a strict total order. */
  lemma {:induction false} LtOrder()
    ensures forall a: Bytes, b: Bytes :: Lt(a, b) || a == b || Lt(b, a)
    ensures forall a: Bytes, b: Bytes :: !(Lt(a, b) && Lt(b, a))
    ensures forall a: Bytes, b: Bytes, c: Bytes {:trigger Lt(a, b), Lt(b, c)} :: Lt(a, b) && Lt(b, c) ==> Lt(a, c)
  {
    forall a: Bytes, b: Bytes
      ensures Lt(a, b) || a == b || Lt(b, a)
      ensures !(Lt(a, b) && Lt(b, a))
    {
      LtTotal(a, b);
    }
    forall a: Bytes, b: Bytes, c: Bytes | Lt(a, b) && Lt(b, c)
      ensures Lt(a, c)
    {
      LtTransitive(a, b, c);
    }
  }
}
