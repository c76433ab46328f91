/** The buffer that is signed for a mutable item (BEP 44), and the one hashed for an immutable value. */
module Mutable {
  import opened Ids
  import opened Options

  // The bytes of the fixed pieces: "4:salt", ":", "3:seqi", "e1:v" and "-".
  const SALT_TAG: Bytes := [52, 58, 115, 97, 108, 116]
  const COLON: bv8 := 58
  const SEQ_TAG: Bytes := [51, 58, 115, 101, 113, 105]
  const VALUE_TAG: Bytes := [101, 49, 58, 118]
  const MINUS: bv8 := 45

  // === Decimal numbers ===

  function Digit(d: nat): bv8
    requires d < 10
  {
    match d
    case 0 => 48 case 1 => 49 case 2 => 50 case 3 => 51 case 4 => 52
    case 5 => 53 case 6 => 54 case 7 => 55 case 8 => 56 case _ => 57
  }

  predicate IsDigit(b: bv8) { 48 <= b <= 57 }

  function Decimal(n: nat): (r: Bytes)
    ensures r != [] && forall i :: 0 <= i < |r| ==> IsDigit(r[i])
  {
    if n < 10 then [Digit(n)] else Decimal(n / 10) + [Digit(n % 10)]
  }

  function DecimalInt(i: int): Bytes {
    if i < 0 then [MINUS] + Decimal(-i) else Decimal(i)
  }

  lemma DigitInjective(a: nat, b: nat)
    requires a < 10 && b < 10 && Digit(a) == Digit(b)
    ensures a == b
  {
  }

  lemma {:induction false} DecimalInjective(a: nat, b: nat)
    requires Decimal(a) == Decimal(b)
    ensures a == b
  {
    if a < 10 || b < 10 {
      assert |Decimal(a)| == 1 <==> a < 10;
      assert |Decimal(b)| == 1 <==> b < 10;
      DigitInjective(if a < 10 then a else 0, if b < 10 && a < 10 then b else if a < 10 then a else 0);
    } else {
      var x, y := Decimal(a), Decimal(b);
      assert x[..|x| - 1] == Decimal(a / 10) && y[..|y| - 1] == Decimal(b / 10);
      assert x[|x| - 1] == Digit(a % 10) && y[|y| - 1] == Digit(b % 10);
      DecimalInjective(a / 10, b / 10);
      DigitInjective(a % 10, b % 10);
    }
  }

  ghost predicate AllDigits(p: Bytes) { forall i :: 0 <= i < |p| ==> IsDigit(p[i]) }

  /** How many digits a buffer starts with. */
  function DigitRun(s: Bytes): nat {
    if s == [] || !IsDigit(s[0]) then 0 else 1 + DigitRun(s[1..])
  }

  lemma {:induction false} DigitRunOf(p: Bytes, x: Bytes)
    requires AllDigits(p) && x != [] && !IsDigit(x[0])
    ensures DigitRun(p + x) == |p|
  {
    if p == [] {
      assert p + x == x;
    } else {
      assert (p + x)[1..] == p[1..] + x;
      DigitRunOf(p[1..], x);
    }
  }

  /** Digits followed by something that is not a digit can be cut in one place only. */
  lemma DigitsEndInOnePlace(p: Bytes, x: Bytes, q: Bytes, y: Bytes)
    requires AllDigits(p) && AllDigits(q) && x != [] && y != [] && !IsDigit(x[0]) && !IsDigit(y[0])
    requires p + x == q + y
    ensures p == q && x == y
  {
    DigitRunOf(p, x);
    DigitRunOf(q, y);
    assert (p + x)[..|p|] == p && (q + y)[..|q|] == q;
    assert (p + x)[|p|..] == x && (q + y)[|q|..] == y;
  }

  lemma {:induction false} NatThenRest(a: nat, x: Bytes, b: nat, y: Bytes)
    requires x != [] && y != [] && !IsDigit(x[0]) && !IsDigit(y[0])
    requires Decimal(a) + x == Decimal(b) + y
    ensures a == b && x == y
  {
    DigitsEndInOnePlace(Decimal(a), x, Decimal(b), y);
    DecimalInjective(a, b);
  }

  lemma SignShows(a: int, x: Bytes)
    ensures (DecimalInt(a) + x)[0] == MINUS <==> a < 0
  {
    assert (DecimalInt(a) + x)[0] == DecimalInt(a)[0];
  }

  /** A printed number is known from what it starts, if no digit follows it. */
  lemma NumberThenRest(a: int, x: Bytes, b: int, y: Bytes)
    requires x != [] && y != [] && !IsDigit(x[0]) && !IsDigit(y[0])
    requires DecimalInt(a) + x == DecimalInt(b) + y
    ensures a == b && x == y
  {
    SignShows(a, x);
    SignShows(b, y);
    if a < 0 {
      Associate([MINUS], Decimal(-a), x);
      Associate([MINUS], Decimal(-b), y);
      DropTag([MINUS], Decimal(-a) + x, Decimal(-b) + y);
      NatThenRest(-a, x, -b, y);
    } else {
      NatThenRest(a, x, b, y);
    }
  }

  lemma DropTag(tag: Bytes, x: Bytes, y: Bytes)
    requires tag + x == tag + y
    ensures x == y
  {
    assert (tag + x)[|tag|..] == x && (tag + y)[|tag|..] == y;
  }

  lemma Associate(a: Bytes, b: Bytes, c: Bytes)
    ensures (a + b) + c == a + (b + c)
  {
  }

  // === The signable buffer ===

  function Length(v: Bytes): Bytes { DecimalInt(|v|) + [COLON] }

  function SaltPart(salt: Option<Bytes>): Bytes {
    match salt
    case None => []
    case Some(s) => SALT_TAG + (Length(s) + s)
  }

  function BodyPart(sequence: int, value: Bytes): Bytes {
    SEQ_TAG + (DecimalInt(sequence) + (VALUE_TAG + (Length(value) + value)))
  }

  function Signable(sequence: int, value: Bytes, salt: Option<Bytes>): Bytes {
    SaltPart(salt) + BodyPart(sequence, value)
  }

  /** The buffer is extended piece by piece, each formatted header first and then its bytes. */
  method EncodeSignable(sequence: int, value: Bytes, salt: Option<Bytes>) returns (signable: Bytes)
    ensures signable == Signable(sequence, value, salt)
  {
    signable := [];
    if salt.Some? {
      var header := SALT_TAG + DecimalInt(|salt.value|) + [COLON];
      signable := signable + header + salt.value;
      Flatten(SALT_TAG, DecimalInt(|salt.value|), [COLON], salt.value);
      assert signable == header + salt.value;
    }
    ghost var saltPart := signable;
    var header := SEQ_TAG + DecimalInt(sequence) + VALUE_TAG + Length(value);
    signable := signable + header;
    signable := signable + value;
    Associate(saltPart, header, value);
    Flatten(SEQ_TAG + DecimalInt(sequence), VALUE_TAG, Length(value), value);
    Associate(SEQ_TAG, DecimalInt(sequence), VALUE_TAG + (Length(value) + value));
  }

  lemma Flatten(a: Bytes, b: Bytes, c: Bytes, d: Bytes)
    ensures (a + b + c) + d == a + (b + (c + d))
    ensures b + (c + d) == (b + c) + d
  {
    Associate(a + b, c, d);
    Associate(a, b, c + d);
    Associate(b, c, d);
  }

  /** A length-prefixed string and what follows it are both known from their concatenation. */
  lemma StringThenRest(s: Bytes, x: Bytes, t: Bytes, y: Bytes)
    requires (Length(s) + s) + x == (Length(t) + t) + y
    ensures s == t && x == y
  {
    var restS, restT := [COLON] + (s + x), [COLON] + (t + y);
    assert (Length(s) + s) + x == DecimalInt(|s|) + restS;
    assert (Length(t) + t) + y == DecimalInt(|t|) + restT;
    NumberThenRest(|s|, restS, |t|, restT);
    DropTag([COLON], s + x, t + y);
    assert (s + x)[..|s|] == s && (t + y)[..|t|] == t;
    assert (s + x)[|s|..] == x && (t + y)[|t|..] == y;
  }

  lemma BodyInjective(a: int, v: Bytes, b: int, w: Bytes)
    requires BodyPart(a, v) == BodyPart(b, w)
    ensures a == b && v == w
  {
    var restV, restW := VALUE_TAG + (Length(v) + v), VALUE_TAG + (Length(w) + w);
    DropTag(SEQ_TAG, DecimalInt(a) + restV, DecimalInt(b) + restW);
    assert restV[0] == 101 && restW[0] == 101;
    NumberThenRest(a, restV, b, restW);
    DropTag(VALUE_TAG, Length(v) + v, Length(w) + w);
    assert (Length(v) + v) + [] == Length(v) + v && (Length(w) + w) + [] == Length(w) + w;
    StringThenRest(v, [], w, []);
  }

  /** A signature covers exactly one triple: equal buffers have equal seq, value and salt. */
  lemma SignableInjective(a: int, v: Bytes, s: Option<Bytes>, b: int, w: Bytes, t: Option<Bytes>)
    requires Signable(a, v, s) == Signable(b, w, t)
    ensures a == b && v == w && s == t
  {
    var x, y := BodyPart(a, v), BodyPart(b, w);
    assert x[0] == 51 && y[0] == 51;
    if s.None? && t.None? {
      assert [] + x == x && [] + y == y;
    } else if s.Some? && t.Some? {
      Associate(SALT_TAG, Length(s.value) + s.value, x);
      Associate(SALT_TAG, Length(t.value) + t.value, y);
      DropTag(SALT_TAG, (Length(s.value) + s.value) + x, (Length(t.value) + t.value) + y);
      StringThenRest(s.value, x, t.value, y);
    } else {
      SaltShows(a, v, s);
      SaltShows(b, w, t);
    }
    BodyInjective(a, v, b, w);
  }

  /** The first byte tells whether there is a salt. */
  lemma SaltShows(a: int, v: Bytes, s: Option<Bytes>)
    ensures Signable(a, v, s) != []
    ensures Signable(a, v, s)[0] == if s.Some? then 52 else 51
  {
    assert BodyPart(a, v)[0] == 51;
    if s.Some? {
      assert SaltPart(s)[0] == 52;
    } else {
      assert SaltPart(s) + BodyPart(a, v) == BodyPart(a, v);
    }
  }

  // === The hashed buffer of an immutable value ===

  function Hashable(v: Bytes): Bytes { Length(v) + v }

  lemma HashableInjective(v: Bytes, w: Bytes)
    requires Hashable(v) == Hashable(w)
    ensures v == w
  {
    assert (Length(v) + v) + [] == Length(v) + v && (Length(w) + w) + [] == Length(w) + w;
    StringThenRest(v, [], w, []);
  }

  // === Items ===

  /** The hash and the signature check, which stay abstract. */
  datatype Crypto = Crypto(sha1: Bytes -> Id, verify: (Bytes, Bytes, Bytes) -> bool)

  datatype MutableItem =
    MutableItem(target: Id, key: Bytes, sequence: int, value: Bytes, signature: Bytes, salt: Option<Bytes>)

  datatype PutMutable =
    PutMutable(target: Id, v: Bytes, k: Bytes, sequence: int, sig: Bytes, salt: Option<Bytes>, cas: Option<int>)

  predicate ValidateImmutable(crypto: Crypto, v: Bytes, target: Id) { crypto.sha1(Hashable(v)) == target }

  /** An item from a message, if its signature is one for its own buffer. */
  function FromDhtMessage(crypto: Crypto, r: PutMutable): Option<MutableItem> {
    if crypto.verify(r.k, Signable(r.sequence, r.v, r.salt), r.sig)
    then Some(MutableItem(r.target, r.k, r.sequence, r.v, r.sig, r.salt))
    else None
  }

  function ItemOf(r: PutMutable): MutableItem { MutableItem(r.target, r.k, r.sequence, r.v, r.sig, r.salt) }

  function RequestOf(item: MutableItem, cas: Option<int>): PutMutable {
    PutMutable(item.target, item.value, item.key, item.sequence, item.signature, item.salt, cas)
  }

  /** An item and the request to put it carry the same data. */
  lemma ItemRequestRoundTrip(item: MutableItem, cas: Option<int>, r: PutMutable)
    ensures ItemOf(RequestOf(item, cas)) == item
    ensures RequestOf(ItemOf(r), r.cas) == r
  {
  }

  // === What the buffers look like ===

  function DigitValue(b: bv8): nat
    requires IsDigit(b)
  {
    match b
    case 48 => 0 case 49 => 1 case 50 => 2 case 51 => 3 case 52 => 4
    case 53 => 5 case 54 => 6 case 55 => 7 case 56 => 8 case _ => 9
  }

  /** The number that some digits write. */
  function Parsed(digits: Bytes): nat
    requires AllDigits(digits)
  {
    if digits == [] then 0 else 10 * Parsed(digits[..|digits| - 1]) + DigitValue(digits[|digits| - 1])
  }

  /** Decimal printing reads back, without leading zeros. */
  lemma {:induction false} DecimalReadsBack(n: nat)
    ensures Parsed(Decimal(n)) == n
    ensures n > 0 ==> Decimal(n)[0] != 48
  {
    if n < 10 {
      assert Decimal(n)[..0] == [];
    } else {
      DecimalReadsBack(n / 10);
      var x := Decimal(n);
      assert x[..|x| - 1] == Decimal(n / 10);
      assert DigitValue(Digit(n % 10)) == n % 10;
    }
  }

  const HELLO: Bytes := [72, 101, 108, 108, 111, 32, 87, 111, 114, 108, 100, 33]

  /** The test vectors of BEP 44: "3:seqi1e1:v12:Hello World!", without and with the salt "foobar". */
  lemma SignableVectors()
    ensures Signable(1, HELLO, None)
         == [51, 58, 115, 101, 113, 105, 49, 101, 49, 58, 118, 49, 50, 58] + HELLO
    ensures Signable(1, HELLO, Some([102, 111, 111, 98, 97, 114]))
         == [52, 58, 115, 97, 108, 116, 54, 58, 102, 111, 111, 98, 97, 114]
            + [51, 58, 115, 101, 113, 105, 49, 101, 49, 58, 118, 49, 50, 58] + HELLO
    ensures Hashable(HELLO) == [49, 50, 58] + HELLO
  {
    assert DecimalInt(1) == [49] && DecimalInt(6) == [54] && |HELLO| == 12;
    assert Decimal(12 / 10) == [49] && Decimal(12) == [49] + [50];
    assert DecimalInt(12) == [49, 50];
    assert Length(HELLO) == [49, 50, 58];
    assert BodyPart(1, HELLO) == [51, 58, 115, 101, 113, 105, 49, 101, 49, 58, 118, 49, 50, 58] + HELLO;
    assert Length([102, 111, 111, 98, 97, 114]) == [54, 58];
    assert SaltPart(Some([102, 111, 111, 98, 97, 114]))
        == [52, 58, 115, 97, 108, 116, 54, 58, 102, 111, 111, 98, 97, 114];
    assert [] + BodyPart(1, HELLO) == BodyPart(1, HELLO);
  }
}
