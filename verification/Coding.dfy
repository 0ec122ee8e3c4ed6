/** Little-endian fixed-width and variable-width integers, as the integer_encoding crate writes them. */
module Coding {
  import opened Bytes

  /** x in n bytes, lowest first. */
  function EncodeFixed(n: nat, x: nat): (bs: Bytes)
    ensures |bs| == n
  {
    if n == 0 then [] else [x % 256] + EncodeFixed(n - 1, x / 256)
  }

  function DecodeFixed(bs: Bytes): nat {
    if bs == [] then 0 else bs[0] + 256 * DecodeFixed(bs[1..])
  }

  function Limit(n: nat): nat {
    if n == 0 then 1 else 256 * Limit(n - 1)
  }

  /** The bytes are the digits to base 256, lowest first. */
  lemma {:induction false} FixedDigits(n: nat, x: nat, i: nat)
    requires i < n
    ensures Limit(i) > 0 && EncodeFixed(n, x)[i] == x / Limit(i) % 256
  {
    if i > 0 {
      FixedDigits(n - 1, x / 256, i - 1);
      DivideTwice(x, 256, Limit(i - 1));
    }
  }

  lemma {:induction false} DivideTwice(x: nat, a: nat, b: nat)
    requires a > 0 && b > 0
    ensures a * b > 0 && x / a / b == x / (a * b)
  {
    var y, m := x / a, x % a;
    Division(x, a);
    Division(y, b);
    var q, r := y / b, y % b;
    Regroup(q, r, m, a, b);
    Quotient(x, a * b, q, r * a + m);
  }

  lemma {:induction false} Division(x: nat, d: nat)
    requires d > 0
    ensures x == x / d * d + x % d && x % d < d
  {
  }

  lemma {:induction false} Regroup(q: nat, r: nat, m: nat, a: nat, b: nat)
    requires r < b && m < a
    ensures (q * b + r) * a + m == q * (a * b) + (r * a + m)
    ensures 0 <= r * a + m < a * b
  {
    Associates(q, b, a);
    Above(r, a, b);
  }

  lemma {:induction false} Associates(q: nat, b: nat, a: nat)
    ensures q * b * a == q * (a * b)
  {
  }

  lemma {:induction false} Above(r: nat, a: nat, b: nat)
    requires r < b
    ensures r * a + a <= a * b
    decreases b
  {
    if r + 1 < b {
      Above(r, a, b - 1);
    }
  }

  lemma {:induction false} Quotient(x: nat, d: nat, q: nat, r: nat)
    requires x == q * d + r && r < d
    ensures x / d == q && x % d == r
  {
    Division(x, d);
    var p := x / d;
    if p > q {
      Above(q, d, p);
    } else if p < q {
      Above(p, d, q);
    }
  }

  lemma {:induction false} FixedRoundTrip(n: nat, x: nat)
    requires x < Limit(n)
    ensures DecodeFixed(EncodeFixed(n, x)) == x
  {
    if n > 0 {
      FixedRoundTrip(n - 1, x / 256);
      assert EncodeFixed(n, x)[1..] == EncodeFixed(n - 1, x / 256);
    }
  }

  /** Seven bits a byte, lowest first; all bytes but the last have the high bit set. */
  function EncodeVar(x: nat): (bs: Bytes)
    ensures bs != []
  {
    if x < 128 then [x] else [x % 128 + 128] + EncodeVar(x / 128)
  }

  /** The value at the front and the bytes it takes, or None if the bytes end inside it. */
  function DecodeVar(bs: Bytes): (r: Option<(nat, nat)>)
    ensures r.Some? ==> 0 < r.value.1 <= |bs|
  {
    if bs == [] then None
    else if bs[0] < 128 then Some((bs[0], 1))
    else
      match DecodeVar(bs[1..])
      case None => None
      case Some((x, n)) => Some((bs[0] - 128 + 128 * x, n + 1))
  }

  lemma {:induction false} VarRoundTrip(x: nat, rest: Bytes)
    ensures DecodeVar(EncodeVar(x) + rest) == Some((x, |EncodeVar(x)|))
  {
    if x >= 128 {
      VarRoundTrip(x / 128, rest);
      assert (EncodeVar(x) + rest)[1..] == EncodeVar(x / 128) + rest;
    }
  }

  function Pow128(n: nat): nat {
    if n == 0 then 1 else 128 * Pow128(n - 1)
  }

  /** The bytes are the digits to base 128, all but the last marked by the high bit. */
  lemma {:induction false} VarDigits(x: nat, i: nat)
    requires i < |EncodeVar(x)|
    ensures Pow128(i) > 0 && EncodeVar(x)[i] == x / Pow128(i) % 128 + if i + 1 < |EncodeVar(x)| then 128 else 0
  {
    if i > 0 {
      VarDigits(x / 128, i - 1);
      DivideTwice(x, 128, Pow128(i - 1));
      hide Pow128;
    }
  }

  /** There is no leading zero. */
  lemma {:induction false} VarShortest(x: nat)
    requires x > 0
    ensures EncodeVar(x)[|EncodeVar(x)| - 1] > 0
  {
    if x >= 128 {
      VarShortest(x / 128);
    }
  }
}
