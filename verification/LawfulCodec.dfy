/**
 * What is assumed of JSON can be met: a codec for state records that satisfies both Lawful
 * predicates. It prints a record as a list of naturals in unary; numbers are fractions.
 */
module LawfulCodec {
  import opened Prelude
  import opened StateLog
  import EncryptedStorage

  const ONE: bv8 := 0x31
  const COMMA: bv8 := 0x2c

  // ---- lists of naturals as text -------------------------------------------------------------

  function Unary(n: nat): Bytes {
    seq(n, i => ONE) + [COMMA]
  }

  function Digits(ns: seq<nat>): Bytes {
    if ns == [] then [] else Unary(ns[0]) + Digits(ns[1..])
  }

  lemma {:induction false} DigitsArePlain(ns: seq<nat>)
    ensures forall b <- Digits(ns) :: b == ONE || b == COMMA
  {
    if ns != [] { DigitsArePlain(ns[1..]); }
  }

  lemma UnaryIsPrefixFree(m: nat, n: nat, a: Bytes, b: Bytes)
    requires Unary(m) + a == Unary(n) + b
    ensures m == n && a == b
  {
    var x, y := Unary(m) + a, Unary(n) + b;
    assert x[m] == COMMA && y[n] == COMMA;
    assert forall i :: 0 <= i < m ==> x[i] == ONE;
    assert forall i :: 0 <= i < n ==> y[i] == ONE;
    assert m == n;
    assert a == x[m + 1..] && b == y[n + 1..];
  }

  lemma {:induction false} DigitsTellApart(ms: seq<nat>, ns: seq<nat>)
    requires Digits(ms) == Digits(ns)
    ensures ms == ns
  {
    if ms != [] && ns != [] {
      UnaryIsPrefixFree(ms[0], ns[0], Digits(ms[1..]), Digits(ns[1..]));
      DigitsTellApart(ms[1..], ns[1..]);
      assert ms == [ms[0]] + ms[1..] && ns == [ns[0]] + ns[1..];
    }
  }

  // ---- fields as lists of naturals, none the beginning of another -------------------------------

  function Codes(s: string): seq<nat> {
    seq(|s|, i requires 0 <= i < |s| => s[i] as nat)
  }

  function Text(s: string): seq<nat> {
    [|s|] + Codes(s)
  }

  lemma TextIsPrefixFree(s: string, t: string, a: seq<nat>, b: seq<nat>)
    requires Text(s) + a == Text(t) + b
    ensures s == t && a == b
  {
    var x, y := Text(s) + a, Text(t) + b;
    assert x[0] == |s| && y[0] == |t|;
    forall i | 0 <= i < |s| ensures s[i] == t[i] {
      assert x[1 + i] == s[i] as nat && y[1 + i] == t[i] as nat;
    }
    assert a == x[1 + |s|..] && b == y[1 + |t|..];
  }

  function Whole(z: int): nat {
    if z >= 0 then 2 * z else -2 * z - 1
  }

  /** One way to write the number as a fraction. */
  ghost function FractionOf(x: Number): (f: (int, nat))
    ensures IsFraction(x, f.0, f.1)
  {
    assert IsNumber(x);
    var k: int, n: nat :| IsFraction(x, k, n);
    (k, n)
  }

  ghost function Fraction(x: Number): seq<nat> {
    [Whole(FractionOf(x).0)] + [FractionOf(x).1]
  }

  lemma SameFraction(x: real, y: real, k: int, n: nat)
    requires IsFraction(x, k, n) && IsFraction(y, k, n)
    ensures x == y
  {
    assert (x - y) * n as real == 0.0;
  }

  lemma FractionIsPrefixFree(x: Number, y: Number, a: seq<nat>, b: seq<nat>)
    requires Fraction(x) + a == Fraction(y) + b
    ensures x == y && a == b
  {
    var u, v := Fraction(x) + a, Fraction(y) + b;
    assert u[0] == Whole(FractionOf(x).0) && v[0] == Whole(FractionOf(y).0);
    assert u[1] == FractionOf(x).1 && v[1] == FractionOf(y).1;
    assert a == u[2..] && b == v[2..];
    SameFraction(x, y, FractionOf(x).0, FractionOf(x).1);
  }

  ghost function Nullable(x: Option<Number>): seq<nat> {
    if x.None? then [0] else [1] + Fraction(x.value)
  }

  lemma NullableIsPrefixFree(x: Option<Number>, y: Option<Number>, a: seq<nat>, b: seq<nat>)
    requires Nullable(x) + a == Nullable(y) + b
    ensures x == y && a == b
  {
    var u, v := Nullable(x) + a, Nullable(y) + b;
    assert u[0] == (if x.None? then 0 else 1) && v[0] == (if y.None? then 0 else 1);
    if x.None? {
      assert a == u[1..] && b == v[1..];
    } else {
      assert u[1..] == Fraction(x.value) + a && v[1..] == Fraction(y.value) + b;
      FractionIsPrefixFree(x.value, y.value, a, b);
    }
  }

  // ---- records ----------------------------------------------------------------------------------

  ghost function Fields(r: StateRecord): seq<nat> {
    Text(r.layer) + (Text(r.variable) + (Nullable(r.value) + ([Whole(r.time)] + (Fraction(r.confidence)
      + (Text(r.directionality) + (Text(r.source) + []))))))
  }

  lemma FieldsTellApart(r: StateRecord, s: StateRecord)
    requires Fields(r) == Fields(s)
    ensures r == s
  {
    var r6, s6 := Text(r.source) + [], Text(s.source) + [];
    var r5, s5 := Text(r.directionality) + r6, Text(s.directionality) + s6;
    var r4, s4 := Fraction(r.confidence) + r5, Fraction(s.confidence) + s5;
    var r3, s3 := [Whole(r.time)] + r4, [Whole(s.time)] + s4;
    var r2, s2 := Nullable(r.value) + r3, Nullable(s.value) + s3;
    var r1, s1 := Text(r.variable) + r2, Text(s.variable) + s2;
    TextIsPrefixFree(r.layer, s.layer, r1, s1);
    TextIsPrefixFree(r.variable, s.variable, r2, s2);
    NullableIsPrefixFree(r.value, s.value, r3, s3);
    assert r3[0] == s3[0] && r4 == r3[1..] && s4 == s3[1..];
    FractionIsPrefixFree(r.confidence, s.confidence, r5, s5);
    TextIsPrefixFree(r.directionality, s.directionality, r6, s6);
    TextIsPrefixFree(r.source, s.source, [], []);
  }

  ghost function Print(r: StateRecord): Bytes {
    [0x7b] + Digits(Fields(r)) + [0x7d]
  }

  ghost predicate Prints(r: StateRecord, text: Bytes) {
    Print(r) == text
  }

  ghost function Parse(text: Bytes): Option<StateRecord> {
    if exists r :: Prints(r, text) then
      var r :| Prints(r, text);
      Some(r)
    else
      None
  }

  lemma ParsesItsPrintout(r: StateRecord)
    ensures Parse(Print(r)) == Some(r)
  {
    assert Prints(r, Print(r));
    var s := Parse(Print(r)).value;
    var x, y := Digits(Fields(r)), Digits(Fields(s));
    assert x == Print(r)[1..|Print(r)| - 1] && y == Print(s)[1..|Print(s)| - 1];
    DigitsTellApart(Fields(r), Fields(s));
    FieldsTellApart(r, s);
  }

  /** Both laws, of the state file and of the encrypted file, hold of one pair of functions. */
  lemma LawfulCodecExists() returns (c: Codec)
    ensures c.Lawful() && EncryptedStorage.RecordCodec(c.encode, c.decode).Lawful()
  {
    c := Codec(r => Print(r), text => Parse(text));
    forall r ensures Printed(c.encode(r)) && c.decode(c.encode(r)) == Some(r) {
      DigitsArePlain(Fields(r));
      ParsesItsPrintout(r);
    }
  }

  /** One line, for either reader. */
  ghost predicate Printed(text: Bytes) {
    OneLine(text) && EncryptedStorage.Printed(text)
  }
}
