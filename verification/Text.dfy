/** Strings and byte keys. A Rust `String` is modelled by its UTF-8 bytes, so
    one type serves recipients, cursors and tree keys, and the order below is
    both `str`'s order and the byte order of a sled tree. */
module Text {
  import opened Ordering

  type Byte = b: nat | b < 256
  type Text = seq<Byte>

  const COLON: Byte := 58
  const PLUS: Byte := 43
  const ZERO: Byte := 48

  /** Lexicographic order: a proper prefix comes first. */
  predicate TextLt(a: Text, b: Text) {
    if b == [] then false
    else if a == [] then true
    else if a[0] != b[0] then a[0] < b[0]
    else TextLt(a[1..], b[1..])
  }

  predicate HasPrefix(t: Text, p: Text) {
    p <= t
  }

  lemma TextLtTotal()
    ensures StrictTotal(TextLt)
  {
    forall a ensures !TextLt(a, a) { Irreflexive(a); }
    forall a, b ensures a == b || TextLt(a, b) || TextLt(b, a) { Connected(a, b); }
    forall a, b, c | TextLt(a, b) && TextLt(b, c) ensures TextLt(a, c) { Transitive(a, b, c); }
  }

  lemma Irreflexive(a: Text)
    ensures !TextLt(a, a)
  {
  }

  lemma Connected(a: Text, b: Text)
    ensures a == b || TextLt(a, b) || TextLt(b, a)
  {
    if a != [] && b != [] && a[0] == b[0] {
      Connected(a[1..], b[1..]);
      assert a == [a[0]] + a[1..] && b == [b[0]] + b[1..];
    }
  }

  lemma Transitive(a: Text, b: Text, c: Text)
    requires TextLt(a, b) && TextLt(b, c)
    ensures TextLt(a, c)
  {
  }

  /** A shared prefix does not matter. */
  lemma {:induction false} LtSamePrefix(p: Text, a: Text, b: Text)
    ensures TextLt(p + a, p + b) == TextLt(a, b)
  {
    if p == [] {
      assert p + a == a && p + b == b;
    } else {
      assert (p + a)[1..] == p[1..] + a && (p + b)[1..] == p[1..] + b;
      LtSamePrefix(p[1..], a, b);
    }
  }

  /** Different fields of equal width decide the order. */
  lemma {:induction false} LtDecided(a: Text, x: Text, b: Text, y: Text)
    requires |a| == |b| && a != b
    ensures TextLt(a + x, b + y) == TextLt(a, b)
  {
    if a[0] == b[0] {
      assert a == [a[0]] + a[1..] && b == [b[0]] + b[1..];
      assert (a + x)[1..] == a[1..] + x && (b + y)[1..] == b[1..] + y;
      LtDecided(a[1..], x, b[1..], y);
    }
  }

  /** Text up to, and after, the first colon. */
  function FirstColon(t: Text): (i: nat)
    ensures i <= |t|
    ensures COLON !in t[..i]
    ensures i < |t| ==> t[i] == COLON
    ensures i == |t| <==> COLON !in t
  {
    if t == [] then 0
    else if t[0] == COLON then assert t[..0] == []; 0
    else
      var j := FirstColon(t[1..]);
      assert t[..j + 1] == [t[0]] + t[1..][..j];
      assert t == [t[0]] + t[1..];
      j + 1
  }

  lemma FirstColonIs(a: Text, rest: Text)
    requires COLON !in a
    ensures FirstColon(a + [COLON] + rest) == |a|
  {
    var t := a + [COLON] + rest;
    var i := FirstColon(t);
    assert t[|a|] == COLON;
    assert forall k :: 0 <= k < |a| ==> t[k] == a[k];
    assert forall k :: 0 <= k < i ==> t[..i][k] == t[k];
  }

  /** The text `field` stands in `t` from `at` on. */
  predicate Field(t: Text, at: nat, field: Text) {
    at + |field| <= |t| && t[at..at + |field|] == field
  }
}
