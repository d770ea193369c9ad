/** The byte keys of the sled trees (src/store_sled.rs). */
module Keys {
  import opened Machine
  import opened Text
  import opened Decimal

  /** The hyphenated text of a UUID (section 4 of RFC 9562). */
  type Uuid = t: Text | |t| == 36 && COLON !in t witness seq(36, _ => ZERO)

  const MSG: Text := [109, 115, 103]
  const IDX: Text := [105, 100, 120]
  const QUOTA: Text := [113, 117, 111, 116, 97]
  const SEQ: Text := [115, 101, 113]

  function MessagePrefix(r: Text): Text {
    MSG + [COLON] + r + [COLON]
  }

  function MessageSuffix(s: u64, id: Uuid, chunk: u32): Text {
    Padded(s, 20) + [COLON] + id + [COLON] + Padded(chunk, 10)
  }

  function MessageKey(r: Text, s: u64, id: Uuid, chunk: u32): Text {
    MessagePrefix(r) + MessageSuffix(s, id, chunk)
  }

  function IndexKey(r: Text, id: Uuid, chunk: u32): Text {
    IDX + [COLON] + r + [COLON] + id + [COLON] + Padded(chunk, 10)
  }

  function QuotaKey(r: Text): Text {
    QUOTA + [COLON] + r
  }

  function SeqKey(r: Text): Text {
    SEQ + [COLON] + r
  }

  /** `text.split(':')`. */
  function Split(t: Text): (parts: seq<Text>)
    ensures |parts| > 0
  {
    var i := FirstColon(t);
    if i == |t| then [t] else [t[..i]] + Split(t[i + 1..])
  }

  function ParseSeqFromKey(key: Text): Result<Option<u64>> {
    var parts := Split(key);
    if parts[0] != MSG || |parts| < 3 then Ok(None)
    else
      match ParseU64(parts[2])
      case None => Err(Internal("invalid key"))
      case Some(s) => Ok(Some(s))
  }

  // ---- keys are injective, for every recipient ----

  lemma SuffixWidth(s: u64, id: Uuid, chunk: u32)
    ensures |MessageSuffix(s, id, chunk)| == 68
  {
    Padded20(s);
    Padded10(chunk, chunk);
  }

  lemma SuffixInjective(s: u64, id: Uuid, c: u32, s': u64, id': Uuid, c': u32)
    requires MessageSuffix(s, id, c) == MessageSuffix(s', id', c')
    ensures s == s' && id == id' && c == c'
  {
    hide Padded;
    Padded20(s);
    Padded20(s');
    Padded20Order(s, s');
    Padded10(c, c');
    Padded10(c', c');
    var x, y := MessageSuffix(s, id, c), MessageSuffix(s', id', c');
    assert x[..20] == Padded(s, 20) && y[..20] == Padded(s', 20);
    assert x[21..57] == id && y[21..57] == id';
    assert x[58..] == Padded(c, 10) && y[58..] == Padded(c', 10);
  }

  lemma MessageKeyInjective(r: Text, s: u64, id: Uuid, c: u32, r': Text, s': u64, id': Uuid, c': u32)
    requires MessageKey(r, s, id, c) == MessageKey(r', s', id', c')
    ensures r == r' && s == s' && id == id' && c == c'
  {
    hide MessageSuffix;
    SuffixWidth(s, id, c);
    SuffixWidth(s', id', c');
    var x, y := MessageKey(r, s, id, c), MessageKey(r', s', id', c');
    assert x[|x| - 68..] == MessageSuffix(s, id, c) && y[|y| - 68..] == MessageSuffix(s', id', c');
    SuffixInjective(s, id, c, s', id', c');
    assert x[4..|x| - 69] == r && y[4..|y| - 69] == r';
  }

  lemma IndexKeyInjective(r: Text, id: Uuid, c: u32, r': Text, id': Uuid, c': u32)
    requires IndexKey(r, id, c) == IndexKey(r', id', c')
    ensures r == r' && id == id' && c == c'
  {
    hide Padded;
    Padded10(c, c');
    Padded10(c', c');
    var x, y := IndexKey(r, id, c), IndexKey(r', id', c');
    assert x[|x| - 10..] == Padded(c, 10) && y[|y| - 10..] == Padded(c', 10);
    assert x[|x| - 47..|x| - 11] == id && y[|y| - 47..|y| - 11] == id';
    assert x[4..|x| - 48] == r && y[4..|y| - 48] == r';
  }

  lemma RecipientKeysInjective(r: Text, r': Text)
    ensures QuotaKey(r) == QuotaKey(r') <==> r == r'
    ensures SeqKey(r) == SeqKey(r') <==> r == r'
  {
    assert QuotaKey(r)[6..] == r && QuotaKey(r')[6..] == r';
    assert SeqKey(r)[4..] == r && SeqKey(r')[4..] == r';
  }

  // ---- keys, byte for byte ----

  lemma Shift(p: Text, x: Text, a: nat, b: nat)
    requires a <= b <= |x|
    ensures (p + x)[|p| + a..|p| + b] == x[a..b]
    ensures a < |x| ==> (p + x)[|p| + a] == x[a]
  {
  }

  lemma PrefixStays(p: Text, x: Text, a: nat, b: nat)
    requires a <= b < |p|
    ensures (p + x)[..a] == p[..a] && (p + x)[a..b] == p[a..b] && (p + x)[b] == p[b]
  {
  }

  lemma SuffixLayout(s: u64, id: Uuid, chunk: u32)
    ensures var x := MessageSuffix(s, id, chunk);
            && |x| == 68 && x[0..20] == Padded(s, 20) && x[20] == 58 && x[21..57] == id && x[57] == 58
            && x[58..68] == Padded(chunk, 10)
  {
    hide Padded;
    Padded20(s);
    Padded10(chunk, chunk);
  }

  lemma PrefixLayout(r: Text)
    ensures var p := MessagePrefix(r); |p| == |r| + 5 && p[..4] == [109, 115, 103, 58] && p[4..4 + |r|] == r && p[|r| + 4] == 58
  {
  }

  /** "msg:", the recipient, ":", twenty digits, ":", the id, ":", ten digits. */
  lemma MessageKeyLayout(r: Text, s: u64, id: Uuid, chunk: u32)
    ensures var k, n := MessageKey(r, s, id, chunk), |r|;
            && |k| == n + 73 && Field(k, 0, [109, 115, 103, 58]) && Field(k, 4, r) && k[n + 4] == 58
            && Number(k, n + 5, 20, s) && k[n + 25] == 58 && Field(k, n + 26, id) && k[n + 62] == 58
            && Number(k, n + 63, 10, chunk)
  {
    hide Padded, Value, AllDigits, MessagePrefix, MessageSuffix;
    var p, x := MessagePrefix(r), MessageSuffix(s, id, chunk);
    PrefixLayout(r);
    SuffixLayout(s, id, chunk);
    U64Fits20();
    U32Fits10();
    PaddedValue(s, 20);
    PaddedValue(chunk, 10);
    Shift(p, x, 0, 20);
    Shift(p, x, 20, 21);
    Shift(p, x, 21, 57);
    Shift(p, x, 57, 58);
    Shift(p, x, 58, 68);
    PrefixStays(p, x, 4, 4 + |r|);
  }

  /** "idx:", the recipient, ":", the id, ":", ten digits. */
  lemma IndexKeyLayout(r: Text, id: Uuid, chunk: u32)
    ensures var k, n := IndexKey(r, id, chunk), |r|;
            && |k| == n + 52 && Field(k, 0, [105, 100, 120, 58]) && Field(k, 4, r) && k[n + 4] == 58
            && Field(k, n + 5, id) && k[n + 41] == 58 && Number(k, n + 42, 10, chunk)
  {
    hide Padded, Value, AllDigits;
    Padded10(chunk, chunk);
    U32Fits10();
    PaddedValue(chunk, 10);
    var k, n := IndexKey(r, id, chunk), |r|;
    assert k[n + 42..n + 52] == Padded(chunk, 10);
    assert k[4..4 + n] == r && k[n + 5..n + 41] == id && k[..4] == [105, 100, 120, 58];
  }

  /** "quota:" or "seq:" and the recipient. */
  lemma RecipientKeyLayout(r: Text)
    ensures var k := QuotaKey(r); |k| == |r| + 6 && Field(k, 0, [113, 117, 111, 116, 97, 58]) && Field(k, 6, r)
    ensures var k := SeqKey(r); |k| == |r| + 4 && Field(k, 0, [115, 101, 113, 58]) && Field(k, 4, r)
  {
    assert QuotaKey(r)[..6] == [113, 117, 111, 116, 97, 58];
    assert SeqKey(r)[..4] == [115, 101, 113, 58];
  }

  // ---- a prefix scan visits one recipient's queue in arrival order ----

  lemma FieldDecides(p: Text, a: Text, x: Text, b: Text, y: Text)
    requires |a| == |b| && a != b
    ensures TextLt(p + (a + x), p + (b + y)) == TextLt(a, b)
  {
    LtSamePrefix(p, a + x, b + y);
    LtDecided(a, x, b, y);
  }

  /** Within one recipient, byte order is numeric arrival order. */
  lemma MessageKeyOrder(r: Text, s: u64, id: Uuid, c: u32, s': u64, id': Uuid, c': u32)
    requires s != s'
    ensures TextLt(MessageKey(r, s, id, c), MessageKey(r, s', id', c')) <==> s < s'
  {
    hide Padded, TextLt, MessagePrefix;
    var a, b := Padded(s, 20), Padded(s', 20);
    var x, y := [COLON] + id + [COLON] + Padded(c, 10), [COLON] + id' + [COLON] + Padded(c', 10);
    assert MessageKey(r, s, id, c) == MessagePrefix(r) + (a + x);
    assert MessageKey(r, s', id', c') == MessagePrefix(r) + (b + y);
    assert |a| == |b| by { Padded20(s); Padded20(s'); }
    Padded20Order(s, s');
    FieldDecides(MessagePrefix(r), a, x, b, y);
  }

  lemma ColonPrefix(r: Text, r': Text, tail: Text)
    requires COLON !in r
    ensures r + [COLON] <= r' + [COLON] + tail <==> r' == r || r + [COLON] <= r'
  {
    var a, b := r + [COLON], r' + [COLON] + tail;
    assert a[|r|] == COLON && b[|r'|] == COLON;
    assert forall i :: 0 <= i < |r| ==> a[i] == r[i];
    assert forall i :: 0 <= i < |r'| ==> b[i] == r'[i];
    if a <= b {
      assert forall i :: 0 <= i < |a| ==> a[i] == b[i];
      if |r| < |r'| {
        assert a == r'[..|r| + 1];
      } else {
        assert r == r';
      }
    }
    if a <= r' {
      assert b == a + (r'[|a|..] + [COLON] + tail);
    }
  }

  /** Whose messages the scan for a colon-free `r` visits: its own, and those of
      any recipient that continues `r` with a colon. */
  lemma PrefixScan(r: Text, r': Text, s: u64, id: Uuid, c: u32)
    requires COLON !in r
    ensures HasPrefix(MessageKey(r', s, id, c), MessagePrefix(r)) <==>
            r' == r || HasPrefix(r', r + [COLON])
  {
    var tail := MessageSuffix(s, id, c);
    var head := MSG + [COLON];
    assert MessageKey(r', s, id, c) == head + (r' + [COLON] + tail);
    assert MessagePrefix(r) == head + (r + [COLON]);
    SamePrefix(head, r + [COLON], r' + [COLON] + tail);
    ColonPrefix(r, r', tail);
  }

  lemma SamePrefix(p: Text, a: Text, b: Text)
    ensures p + a <= p + b <==> a <= b
  {
    assert (p + a)[|p|..] == a && (p + b)[|p|..] == b;
  }

  lemma SplitStep(field: Text, rest: Text)
    requires COLON !in field
    ensures Split(field + [COLON] + rest) == [field] + Split(rest)
  {
    var t := field + [COLON] + rest;
    FirstColonIs(field, rest);
    assert t[..|field|] == field && t[|field| + 1..] == rest;
  }

  lemma SplitThree(a: Text, b: Text, c: Text, rest: Text)
    requires COLON !in a && COLON !in b && COLON !in c
    ensures Split(a + [COLON] + (b + [COLON] + (c + [COLON] + rest))) == [a, b, c] + Split(rest)
  {
    hide Split, FirstColon;
    var rest1 := c + [COLON] + rest;
    var rest2 := b + [COLON] + rest1;
    SplitStep(c, rest);
    SplitStep(b, rest1);
    SplitStep(a, rest2);
    assert [a] + ([b] + ([c] + Split(rest))) == [a, b, c] + Split(rest);
  }

  lemma ParsesThirdField(key: Text, r: Text, field: Text, rest: Text)
    requires COLON !in r && COLON !in field
    requires key == MSG + [COLON] + (r + [COLON] + (field + [COLON] + rest))
    ensures ParseSeqFromKey(key) ==
            match ParseU64(field) case None => Err(Internal("invalid key")) case Some(s) => Ok(Some(s))
  {
    SplitThree(MSG, r, field, rest);
  }

  /** The scan recovers the arrival number from a key of a colon-free recipient. */
  lemma ParsedSeq(r: Text, s: u64, id: Uuid, c: u32)
    requires COLON !in r
    ensures ParseSeqFromKey(MessageKey(r, s, id, c)) == Ok(Some(s))
  {
    var field, rest := Padded(s, 20), id + [COLON] + Padded(c, 10);
    assert MessageKey(r, s, id, c) == MSG + [COLON] + (r + [COLON] + (field + [COLON] + rest));
    Padded20(s);
    ParsesThirdField(MessageKey(r, s, id, c), r, field, rest);
  }

  lemma ParsesInside(key: Text, r: Text, tail: Text)
    requires COLON in r
    requires key == MSG + [COLON] + (r + [COLON] + tail)
    ensures var more := r[FirstColon(r) + 1..];
            ParseSeqFromKey(key) ==
            match ParseU64(more[..FirstColon(more)])
            case None => Err(Internal("invalid key")) case Some(n) => Ok(Some(n))
  {
    hide ParseSeqFromKey, ParseU64, FirstColon, AfterField;
    var i := FirstColon(r);
    var more := r[i + 1..];
    var rest := AfterField(more, tail);
    assert r + [COLON] + tail == r[..i] + [COLON] + (more + [COLON] + tail);
    ParsesThirdField(key, r[..i], more[..FirstColon(more)], rest);
  }

  /** What follows the first field of `t + ":" + tail`. */
  ghost function AfterField(t: Text, tail: Text): (rest: Text)
    ensures t + [COLON] + tail == t[..FirstColon(t)] + [COLON] + rest
  {
    var j := FirstColon(t);
    if j == |t| then assert t[..j] == t; tail
    else
      assert t == t[..j] + [COLON] + t[j + 1..];
      t[j + 1..] + [COLON] + tail
  }

  /** With a colon in the recipient the scan parses the recipient's own second
      field, so the number does not depend on the message at all. */
  lemma ParsedSeqWithColon(r: Text, s: u64, id: Uuid, c: u32, s': u64, id': Uuid, c': u32)
    requires COLON in r
    ensures ParseSeqFromKey(MessageKey(r, s, id, c)) == ParseSeqFromKey(MessageKey(r, s', id', c'))
  {
    hide ParseSeqFromKey, MessageSuffix, ParseU64, FirstColon;
    var x, y := MessageSuffix(s, id, c), MessageSuffix(s', id', c');
    assert MessageKey(r, s, id, c) == MSG + [COLON] + (r + [COLON] + x);
    assert MessageKey(r, s', id', c') == MSG + [COLON] + (r + [COLON] + y);
    ParsesInside(MessageKey(r, s, id, c), r, x);
    ParsesInside(MessageKey(r, s', id', c'), r, y);
  }

  /** So the number is recovered for every message exactly when there is no colon. */
  lemma ParsedSeqExactly(r: Text, id: Uuid, c: u32)
    ensures (forall s: u64 :: ParseSeqFromKey(MessageKey(r, s, id, c)) == Ok(Some(s))) <==> COLON !in r
  {
    if COLON !in r {
      forall s: u64 ensures ParseSeqFromKey(MessageKey(r, s, id, c)) == Ok(Some(s)) {
        ParsedSeq(r, s, id, c);
      }
    } else {
      ParsedSeqWithColon(r, 0, id, c, 1, id, c);
    }
  }

  // ---- sled's integer values ----

  function BigEndian(v: nat, w: nat): (t: Text)
    ensures |t| == w
  {
    if w == 0 then [] else BigEndian(v / 256, w - 1) + [v % 256]
  }

  function FromBigEndian(t: Text): nat {
    if t == [] then 0 else FromBigEndian(t[..|t| - 1]) * 256 + t[|t| - 1]
  }

  ghost function Pow256(w: nat): nat {
    if w == 0 then 1 else 256 * Pow256(w - 1)
  }

  lemma {:induction false} FromBigEndianBound(t: Text)
    ensures FromBigEndian(t) < Pow256(|t|)
  {
    if t != [] { FromBigEndianBound(t[..|t| - 1]); }
  }

  lemma {:induction false} BigEndianRoundTrip(v: nat, w: nat)
    requires v < Pow256(w)
    ensures FromBigEndian(BigEndian(v, w)) == v
  {
    if w > 0 {
      BigEndianRoundTrip(v / 256, w - 1);
      assert BigEndian(v, w)[..w - 1] == BigEndian(v / 256, w - 1);
    }
  }

  lemma EightBytes()
    ensures Pow256(8) == U64_MAX + 1
  {
    assert Pow256(4) == 0x1_0000_0000;
  }

  /** `to_be_bytes`. */
  function EncodeU64(v: u64): Text {
    BigEndian(v, 8)
  }

  function DecodeU64(t: Text): Result<u64> {
    if |t| != 8 then Err(Internal("invalid integer"))
    else
      FromBigEndianBound(t);
      EightBytes();
      Ok(FromBigEndian(t))
  }

  lemma U64RoundTrip(v: u64)
    ensures DecodeU64(EncodeU64(v)) == Ok(v)
  {
    EightBytes();
    BigEndianRoundTrip(v, 8);
  }

  lemma {:induction false} BigEndianOnto(t: Text)
    ensures BigEndian(FromBigEndian(t), |t|) == t
  {
    if t != [] {
      BigEndianOnto(t[..|t| - 1]);
      assert t == t[..|t| - 1] + [t[|t| - 1]];
    }
  }

  /** Every eight-byte value is the encoding of what it decodes to. */
  lemma U64Onto(t: Text)
    requires DecodeU64(t).Ok?
    ensures EncodeU64(DecodeU64(t).value) == t
  {
    BigEndianOnto(t);
  }

  lemma BytesStep(t: Text, i: nat)
    requires i < |t|
    ensures FromBigEndian(t[..i + 1]) == FromBigEndian(t[..i]) * 256 + t[i]
  {
    assert t[..i + 1][..i] == t[..i];
  }

  /** The most significant of the eight bytes comes first. */
  lemma U64Bytes(v: u64)
    ensures var b: seq<nat> := EncodeU64(v);
            |b| == 8 && v == ((((((b[0] * 256 + b[1]) * 256 + b[2]) * 256 + b[3]) * 256 + b[4]) * 256 + b[5]) * 256 + b[6]) * 256 + b[7]
  {
    hide BigEndian, FromBigEndian;
    EightBytes();
    BigEndianRoundTrip(v, 8);
    var b := EncodeU64(v);
    assert b[..8] == b && FromBigEndian(b[..0]) == 0 by { NoBytes(b); }
    BytesStep(b, 0);
    BytesStep(b, 1);
    BytesStep(b, 2);
    BytesStep(b, 3);
    BytesStep(b, 4);
    BytesStep(b, 5);
    BytesStep(b, 6);
    BytesStep(b, 7);
  }

  lemma NoBytes(b: Text)
    ensures FromBigEndian(b[..0]) == 0
  {
  }
}
