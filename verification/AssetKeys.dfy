/** Database keys of assets: an optional 8-byte domain, then the 16 bytes of the identifier. */
module AssetKeys {
  import opened Wrappers
  import opened Bytes
  import opened UniqueIds

  type Key = seq<byte>

  /** The widths in use: 4-byte participants, 8-byte domains, 16-byte identifiers. */
  lemma Widths()
    ensures Span(4) == TWO_32 && Span(8) == TWO_64 && Span(12) == TWO_96 && Span(16) == TWO_128
  {}

  function DomainPrefix(domain: Option<u64>): Key {
    match domain
    case None => []
    case Some(d) => Widths(); BigEndian(d, 8)
  }

  function IdBytes(id: UniqueId): (s: seq<byte>)
    ensures |s| == 16
  {
    Widths();
    BigEndian(id.raw, 16)
  }

  function MakeKey(domain: Option<u64>, id: UniqueId): Key {
    DomainPrefix(domain) + IdBytes(id)
  }

  /**
   * `None` when the bytes left after the domain are not exactly one identifier: a decoding error, or a panic when the
   * key is too short to hold a domain.
   */
  function DecodeKey(key: Key, domain: Option<u64>): Option<UniqueId> {
    var rest := if domain.None? then key else if |key| < 8 then [] else key[8..];
    if |rest| != 16 then None else
      Widths();
      FromBelow(rest);
      Some(UniqueId(FromBigEndian(rest)))
  }

  /** `None` is the overflow panic for the last participant number. */
  function PrefixRange(participant: u32, domain: Option<u64>): Option<(Key, Key)> {
    Widths();
    if participant + 1 == TWO_32 then None
    else Some((DomainPrefix(domain) + BigEndian(participant, 4), DomainPrefix(domain) + BigEndian(participant + 1, 4)))
  }

  /** There is a range for every participant number but the greatest. */
  lemma RangeIff(participant: u32, domain: Option<u64>)
    ensures PrefixRange(participant, domain).Some? <==> participant < 0xFFFF_FFFF
  {}

  /** Decoding gives back the identifier a key was made from. */
  lemma DecodeInvertsMake(domain: Option<u64>, id: UniqueId)
    ensures DecodeKey(MakeKey(domain, id), domain) == Some(id)
  {
    Widths();
    var key := MakeKey(domain, id);
    if domain.Some? {
      assert key[8..] == IdBytes(id);
    } else {
      assert key == IdBytes(id);
    }
    FromOfBigEndian(id.raw, 16);
  }

  /** Whatever decodes under a domain and carries its prefix is the key of what it decodes to. */
  lemma MakeInvertsDecode(key: Key, domain: Option<u64>)
    requires DecodeKey(key, domain).Some? && DomainPrefix(domain) <= key
    ensures MakeKey(domain, DecodeKey(key, domain).value) == key
  {
    Widths();
    var rest := if domain.None? then key else key[8..];
    BigEndianOfFrom(rest);
    assert key == DomainPrefix(domain) + rest;
  }

  /** A key decodes exactly when 16 bytes follow the domain, if there is one, and then to what they encode. */
  lemma DecodesIff(key: Key, domain: Option<u64>, id: UniqueId)
    ensures DecodeKey(key, domain) == Some(id) <==>
            |key| == (if domain.Some? then 24 else 16) && key[|key| - 16..] == IdBytes(id)
  {
    Widths();
    if |key| == if domain.Some? then 24 else 16 {
      var rest := key[|key| - 16..];
      assert rest == if domain.None? then key else key[8..];
      BigEndianOfFrom(rest);
      FromOfBigEndian(id.raw, 16);
    }
  }

  lemma MakeKeyInjective(d1: Option<u64>, a: UniqueId, d2: Option<u64>, b: UniqueId)
    requires MakeKey(d1, a) == MakeKey(d2, b)
    ensures d1 == d2 && a == b
  {
    assert |MakeKey(d1, a)| == |MakeKey(d2, b)|;
    assert d1.Some? == d2.Some?;
    if d1.Some? {
      Widths();
      assert MakeKey(d1, a)[..8] == BigEndian(d1.value, 8);
      assert MakeKey(d2, b)[..8] == BigEndian(d2.value, 8);
      FromOfBigEndian(d1.value, 8);
      FromOfBigEndian(d2.value, 8);
    }
    DecodeInvertsMake(d1, a);
    DecodeInvertsMake(d2, b);
  }

  /** Within one domain (or none), the database order of keys is the order of identifiers. */
  lemma KeyOrder(domain: Option<u64>, a: UniqueId, b: UniqueId)
    ensures Before(MakeKey(domain, a), MakeKey(domain, b)) <==> a.Less(b)
  {
    Widths();
    BeforeAfterPrefix(DomainPrefix(domain), IdBytes(a), IdBytes(b));
    BeforeIsNumeric(IdBytes(a), IdBytes(b));
    FromOfBigEndian(a.raw, 16);
    FromOfBigEndian(b.raw, 16);
  }

  /** Keys of different domains are ordered by the domain alone. */
  lemma KeyOrderAcrossDomains(d1: u64, a: UniqueId, d2: u64, b: UniqueId)
    requires d1 != d2
    ensures Before(MakeKey(Some(d1), a), MakeKey(Some(d2), b)) <==> d1 < d2
  {
    Widths();
    FromOfBigEndian(d1, 8);
    FromOfBigEndian(d2, 8);
    BeforeByHeads(BigEndian(d1, 8), IdBytes(a), BigEndian(d2, 8), IdBytes(b));
    BeforeIsNumeric(BigEndian(d1, 8), BigEndian(d2, 8));
  }

  /** The two ends of a prefix range are the encodings of two adjacent numbers. */
  lemma RangeEnds(p: u32, domain: Option<u64>)
    requires PrefixRange(p, domain).Some?
    ensures var n := if domain.Some? then 12 else 4;
            var v := (if domain.Some? then domain.value * TWO_32 else 0) + p;
            v + 1 < Span(n) && PrefixRange(p, domain).value == (BigEndian(v, n), BigEndian(v + 1, n))
  {
    Widths();
    if domain.Some? {
      BigEndianConcat(domain.value, 8, p, 4);
      BigEndianConcat(domain.value, 8, p + 1, 4);
    } else {
      assert [] + BigEndian(p, 4) == BigEndian(p, 4);
      assert [] + BigEndian(p + 1, 4) == BigEndian(p + 1, 4);
    }
  }

  /** The identifier's first four bytes are its participant. */
  lemma IdHead4(id: UniqueId)
    ensures IdBytes(id)[..4] == BigEndian((Widths(); id.Participant()), 4)
  {
    Widths();
    BigEndianConcat(id.Participant(), 4, id.raw % TWO_96, 12);
  }

  /** The identifier's first twelve bytes are its participant and second. */
  lemma IdHead12(id: UniqueId)
    ensures id.raw / TWO_32 < Span(12) && IdBytes(id)[..12] == BigEndian(id.raw / TWO_32, 12)
  {
    Widths();
    BigEndianConcat(id.raw / TWO_32, 12, id.raw % TWO_32, 4);
  }

  /** What a prefix range of `(p, domain)` selects among keys made for `(keyDomain, id)`. */
  predicate Selects(p: u32, domain: Option<u64>, keyDomain: Option<u64>, id: UniqueId) {
    match (domain, keyDomain)
    case (None, None) => id.Participant() == p
    case (Some(d), Some(kd)) => d == kd && id.Participant() == p
    case (None, Some(kd)) => kd / TWO_32 == p
    case (Some(d), None) => id.raw / TWO_32 == d * TWO_32 + p
  }

  lemma SameEncoding(x: nat, y: nat, n: nat)
    requires x < Span(n) && y < Span(n)
    ensures BigEndian(x, n) == BigEndian(y, n) <==> x == y
  {
    FromOfBigEndian(x, n);
    FromOfBigEndian(y, n);
  }

  lemma DomainKeyHead4(keyDomain: u64, id: UniqueId)
    ensures keyDomain / TWO_32 < Span(4) && MakeKey(Some(keyDomain), id)[..4] == BigEndian(keyDomain / TWO_32, 4)
  {
    Widths();
    var hi, lo := BigEndian(keyDomain / TWO_32, 4), BigEndian(keyDomain % TWO_32, 4);
    BigEndianConcat(keyDomain / TWO_32, 4, keyDomain % TWO_32, 4);
    assert DomainPrefix(Some(keyDomain)) == hi + lo;
    assert (hi + lo + IdBytes(id))[..4] == hi;
  }

  lemma DomainKeyHead12(keyDomain: u64, id: UniqueId)
    ensures keyDomain * TWO_32 + id.Participant() < Span(12)
    ensures MakeKey(Some(keyDomain), id)[..12] == BigEndian(keyDomain * TWO_32 + id.Participant(), 12)
  {
    Widths();
    var prefix, head := DomainPrefix(Some(keyDomain)), BigEndian(id.Participant(), 4);
    BigEndianConcat(keyDomain, 8, id.Participant(), 4);
    IdHead4(id);
    assert (prefix + IdBytes(id))[..12] == prefix + IdBytes(id)[..4];
  }

  /** A key whose first bytes encode `w` is in the range of `(p, domain)` exactly when `w` is the range's number. */
  lemma HeadDecidesRange(key: Key, w: nat, p: u32, domain: Option<u64>)
    requires PrefixRange(p, domain).Some?
    requires var n := if domain.Some? then 12 else 4;
             w < Span(n) && |key| >= n && key[..n] == BigEndian(w, n)
    ensures var (start, end) := PrefixRange(p, domain).value;
            InRange(key, start, end) <==> w == (if domain.Some? then domain.value * TWO_32 else 0) + p
  {
    RangeEnds(p, domain);
    var n := if domain.Some? then 12 else 4;
    var v := (if domain.Some? then domain.value * TWO_32 else 0) + p;
    RangeIsPrefix(key, v, n);
    SameEncoding(w, v, n);
  }

  lemma IdKeyInRangeIff(p: u32, domain: Option<u64>, id: UniqueId)
    requires PrefixRange(p, domain).Some?
    ensures var (start, end) := PrefixRange(p, domain).value;
            InRange(MakeKey(None, id), start, end) <==> Selects(p, domain, None, id)
  {
    var key := MakeKey(None, id);
    assert key == IdBytes(id);
    if domain.None? {
      Widths();
      IdHead4(id);
      HeadDecidesRange(key, id.Participant(), p, domain);
    } else {
      IdHead12(id);
      HeadDecidesRange(key, id.raw / TWO_32, p, domain);
    }
  }

  lemma DomainKeyInBareRangeIff(p: u32, keyDomain: u64, id: UniqueId)
    requires PrefixRange(p, None).Some?
    ensures var (start, end) := PrefixRange(p, None).value;
            InRange(MakeKey(Some(keyDomain), id), start, end) <==> keyDomain / TWO_32 == p
  {
    DomainKeyHead4(keyDomain, id);
    HeadDecidesRange(MakeKey(Some(keyDomain), id), keyDomain / TWO_32, p, None);
  }

  lemma PairsAgree(a: nat, b: u32, c: nat, d: u32)
    ensures a * TWO_32 + b == c * TWO_32 + d <==> a == c && b == d
  {}

  lemma DomainKeyInRangeIff(p: u32, domain: u64, keyDomain: u64, id: UniqueId)
    requires PrefixRange(p, Some(domain)).Some?
    ensures var (start, end) := PrefixRange(p, Some(domain)).value;
            InRange(MakeKey(Some(keyDomain), id), start, end) <==> domain == keyDomain && id.Participant() == p
  {
    DomainKeyHead12(keyDomain, id);
    HeadDecidesRange(MakeKey(Some(keyDomain), id), keyDomain * TWO_32 + id.Participant(), p, Some(domain));
    PairsAgree(keyDomain, id.Participant(), domain, p);
  }

  /**
   * A range scan for participant `p` and domain `d` visits a key exactly when `Selects` says so: for keys
   * of the scan's own shape, exactly the keys of that participant and that domain. The two mixed cases
   * say which keys of the other shape it would pick up by accident.
   */
  lemma KeyInRangeIff(p: u32, domain: Option<u64>, keyDomain: Option<u64>, id: UniqueId)
    requires PrefixRange(p, domain).Some?
    ensures var (start, end) := PrefixRange(p, domain).value;
            InRange(MakeKey(keyDomain, id), start, end) <==> Selects(p, domain, keyDomain, id)
  {
    if keyDomain.None? {
      IdKeyInRangeIff(p, domain, id);
    } else if domain.None? {
      DomainKeyInBareRangeIff(p, keyDomain.value, id);
    } else {
      DomainKeyInRangeIff(p, domain.value, keyDomain.value, id);
    }
  }

  /** Keys with and without domains must not share a column: a domain-less scan can pick up a domain's key. */
  lemma MixedColumnsCollide()
    ensures var id := New(7, 0, 0);
            var (start, end) := PrefixRange(0, None).value;
            id.Participant() == 7 && InRange(MakeKey(Some(0), id), start, end) &&
                DecodeKey(MakeKey(Some(0), id), None).None?
  {
    FieldsOfNew(7, 0, 0);
    KeyInRangeIff(0, None, Some(0), New(7, 0, 0));
  }
}
