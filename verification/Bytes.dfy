/** Big-endian byte strings and the bytewise order RocksDB sorts its keys by. */
module Bytes {

  type byte = b: int | 0 <= b < 256

  /** 256 to the power `n`: how many values fit in `n` bytes. */
  function Span(n: nat): (r: nat)
    ensures r > 0
  {
    if n == 0 then 1 else 256 * Span(n - 1)
  }

  /** `u32::to_be_bytes` and its siblings, for a width of `n` bytes. */
  function BigEndian(v: nat, n: nat): (s: seq<byte>)
    requires v < Span(n)
    ensures |s| == n
    decreases n, v
  {
    if n == 0 then [] else
      DivBelow(v, n);
      [v / Span(n - 1)] + BigEndian(v % Span(n - 1), n - 1)
  }

  function FromBigEndian(s: seq<byte>): nat {
    if s == [] then 0 else s[0] * Span(|s| - 1) + FromBigEndian(s[1..])
  }

  /** The bytewise order: at the first difference the smaller byte wins, and a proper prefix comes first. */
  predicate Before(a: seq<byte>, b: seq<byte>) {
    b != [] && (a == [] || a[0] < b[0] || (a[0] == b[0] && Before(a[1..], b[1..])))
  }

  /** `start` included, `end` excluded: what a bounded iterator visits. */
  predicate InRange(k: seq<byte>, start: seq<byte>, end: seq<byte>) {
    !Before(k, start) && Before(k, end)
  }

  lemma DivBelow(v: nat, n: nat)
    requires n > 0 && v < Span(n)
    ensures 0 <= v / Span(n - 1) < 256
    ensures v == v / Span(n - 1) * Span(n - 1) + v % Span(n - 1)
  {
    var q, p := v / Span(n - 1), Span(n - 1);
    if q >= 256 {
      MulMono(256, q, p);
    }
  }

  lemma MulMono(a: int, b: int, p: nat)
    requires a <= b
    ensures a * p <= b * p
  {}

  lemma HeadDecides(x: nat, r: nat, y: nat, s: nat, p: nat)
    requires x < y && r < p
    ensures x * p + r < y * p + s
  {
    MulMono(x + 1, y, p);
  }

  lemma DivModOf(q: nat, r: nat, p: nat)
    requires r < p
    ensures (q * p + r) / p == q && (q * p + r) % p == r
  {
    var v := q * p + r;
    var d := v / p;
    assert v == d * p + v % p;
    if d < q { MulMono(d + 1, q, p); }
    if d > q { MulMono(q + 1, d, p); }
  }

  lemma {:induction false} FromBelow(s: seq<byte>)
    ensures FromBigEndian(s) < Span(|s|)
  {
    if s != [] {
      FromBelow(s[1..]);
      MulMono(s[0], 255, Span(|s| - 1));
    }
  }

  /** Encoding loses nothing. */
  lemma {:induction false} FromOfBigEndian(v: nat, n: nat)
    requires v < Span(n)
    ensures FromBigEndian(BigEndian(v, n)) == v
    decreases n
  {
    if n > 0 {
      DivBelow(v, n);
      var rest := BigEndian(v % Span(n - 1), n - 1);
      FromOfBigEndian(v % Span(n - 1), n - 1);
      assert BigEndian(v, n)[1..] == rest;
    }
  }

  /** Decoding loses nothing. */
  lemma {:induction false} BigEndianOfFrom(s: seq<byte>)
    ensures FromBigEndian(s) < Span(|s|) && BigEndian(FromBigEndian(s), |s|) == s
  {
    FromBelow(s);
    if s != [] {
      BigEndianOfFrom(s[1..]);
      DivModOf(s[0], FromBigEndian(s[1..]), Span(|s| - 1));
    }
  }

  /** Among strings of one length the bytewise order is the numeric order. */
  lemma {:induction false} BeforeIsNumeric(a: seq<byte>, b: seq<byte>)
    requires |a| == |b|
    ensures Before(a, b) <==> FromBigEndian(a) < FromBigEndian(b)
  {
    if a != [] {
      var p, r, s := Span(|a| - 1), FromBigEndian(a[1..]), FromBigEndian(b[1..]);
      FromBelow(a[1..]);
      FromBelow(b[1..]);
      if a[0] < b[0] {
        HeadDecides(a[0], r, b[0], s, p);
      } else if b[0] < a[0] {
        HeadDecides(b[0], s, a[0], r, p);
      } else {
        BeforeIsNumeric(a[1..], b[1..]);
      }
    }
  }

  lemma {:induction false} BeforeTotal(a: seq<byte>, b: seq<byte>)
    ensures a == b || Before(a, b) || Before(b, a)
  {
    if a != [] && b != [] && a[0] == b[0] {
      BeforeTotal(a[1..], b[1..]);
      if a[1..] == b[1..] { assert a == [a[0]] + a[1..] && b == [b[0]] + b[1..]; }
    }
  }

  lemma {:induction false} BeforeTransitive(a: seq<byte>, b: seq<byte>, c: seq<byte>)
    requires Before(a, b) && Before(b, c)
    ensures Before(a, c)
  {
    if a != [] && a[0] == b[0] == c[0] { BeforeTransitive(a[1..], b[1..], c[1..]); }
  }

  /** A common prefix does not matter. */
  lemma {:induction false} BeforeAfterPrefix(p: seq<byte>, a: seq<byte>, b: seq<byte>)
    ensures Before(p + a, p + b) <==> Before(a, b)
  {
    if p == [] {
      assert p + a == a && p + b == b;
    } else {
      BeforeAfterPrefix(p[1..], a, b);
      assert (p + a)[1..] == p[1..] + a && (p + b)[1..] == p[1..] + b;
    }
  }

  /** Two strings that differ in equally long heads compare as the heads do. */
  lemma {:induction false} BeforeByHeads(a: seq<byte>, x: seq<byte>, b: seq<byte>, y: seq<byte>)
    requires |a| == |b| && a != b
    ensures Before(a + x, b + y) <==> Before(a, b)
  {
    assert (a + x)[1..] == a[1..] + x && (b + y)[1..] == b[1..] + y;
    if a[0] == b[0] {
      assert a == [a[0]] + a[1..] && b == [b[0]] + b[1..];
      BeforeByHeads(a[1..], x, b[1..], y);
    }
  }

  /** A string is never before one of its own prefixes. */
  lemma {:induction false} ExtensionNotBefore(p: seq<byte>, x: seq<byte>)
    ensures !Before(p + x, p)
  {
    if p != [] {
      assert (p + x)[1..] == p[1..] + x;
      ExtensionNotBefore(p[1..], x);
    }
  }

  /**
   * Between a prefix and its numeric successor lie exactly the strings that start with the prefix,
   * among those at least as long as it.
   */
  lemma RangeIsPrefix(k: seq<byte>, v: nat, n: nat)
    requires v + 1 < Span(n) && |k| >= n
    ensures InRange(k, BigEndian(v, n), BigEndian(v + 1, n)) <==> k[..n] == BigEndian(v, n)
  {
    var start, end := BigEndian(v, n), BigEndian(v + 1, n);
    var head, tail := k[..n], k[n..];
    assert k == head + tail;
    FromOfBigEndian(v, n);
    FromOfBigEndian(v + 1, n);
    BeforeIsNumeric(head, start);
    BeforeIsNumeric(head, end);
    assert start + [] == start && end + [] == end;
    if head == start {
      ExtensionNotBefore(start, tail);
      BeforeByHeads(head, tail, end, []);
    } else {
      BeforeByHeads(head, tail, start, []);
      if head == end {
        ExtensionNotBefore(end, tail);
      } else {
        BeforeByHeads(head, tail, end, []);
        BigEndianOfFrom(head);
      }
    }
  }

  /** Concatenating two encodings is encoding the combined number. */
  lemma {:induction false} BigEndianConcat(x: nat, m: nat, y: nat, n: nat)
    requires x < Span(m) && y < Span(n)
    ensures x * Span(n) + y < Span(m + n)
    ensures BigEndian(x, m) + BigEndian(y, n) == BigEndian(x * Span(n) + y, m + n)
  {
    var s := BigEndian(x, m) + BigEndian(y, n);
    FromConcat(BigEndian(x, m), BigEndian(y, n));
    FromOfBigEndian(x, m);
    FromOfBigEndian(y, n);
    BigEndianOfFrom(s);
  }

  lemma {:induction false} SpanAdd(m: nat, n: nat)
    ensures Span(m + n) == Span(m) * Span(n)
  {
    if m > 0 { SpanAdd(m - 1, n); }
  }

  lemma {:induction false} FromConcat(a: seq<byte>, b: seq<byte>)
    ensures FromBigEndian(a + b) == FromBigEndian(a) * Span(|b|) + FromBigEndian(b)
  {
    if a == [] {
      assert a + b == b;
    } else {
      FromConcat(a[1..], b);
      SpanAdd(|a| - 1, |b|);
      assert (a + b)[1..] == a[1..] + b;
      Distribute(a[0], Span(|a| - 1), FromBigEndian(a[1..]), Span(|b|));
    }
  }

  lemma Distribute(a: int, p: int, r: int, q: int)
    ensures (a * p + r) * q == a * (p * q) + r * q
  {}
}
