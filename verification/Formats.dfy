/** Byte strings, hexadecimal and decimal text, and identifiers built from them. */
module Formats {
  newtype byte = x: int | 0 <= x < 256

  type Bytes = seq<byte>

  /** A hash with 32-byte output, such as SHA-256 of FIPS 180-4. Nothing else is known of it. */
  type Hash32 = h: Bytes -> Bytes | (forall b :: |h(b)| == 32) witness (b: Bytes) => seq(32, _ => 0 as byte)

  /** The only form in which collision freedom is ever assumed: on finitely many named inputs. */
  ghost predicate InjectiveOn<A, B>(h: A -> B, inputs: set<A>) {
    forall x, y {:trigger h(x), h(y)} :: x in inputs && y in inputs && h(x) == h(y) ==> x == y
  }

  function HexDigit(n: int): (c: char)
    requires 0 <= n < 16
    ensures c != '|'
  {
    if n < 10 then ('0' as int + n) as char else ('a' as int + n - 10) as char
  }

  /** `hex.EncodeToString` */
  function Hex(b: Bytes): (s: string)
    ensures |s| == 2 * |b|
    ensures '|' !in s
  {
    if b == [] then ""
    else [HexDigit(b[0] as int / 16), HexDigit(b[0] as int % 16)] + Hex(b[1..])
  }

  const HEX_DIGITS: string := "0123456789abcdef"

  /** Two lower-case digits a byte, high half first. */
  lemma {:induction false} HexAt(b: Bytes, i: nat)
    requires i < |b|
    ensures Hex(b)[2 * i] == HEX_DIGITS[b[i] as int / 16] && Hex(b)[2 * i + 1] == HEX_DIGITS[b[i] as int % 16]
  {
    if i > 0 {
      HexAt(b[1..], i - 1);
    } else {
      assert forall n :: 0 <= n < 16 ==> HexDigit(n) == HEX_DIGITS[n];
    }
  }

  lemma {:induction false} HexInjective(a: Bytes, b: Bytes)
    requires Hex(a) == Hex(b)
    ensures a == b
  {
    assert |a| == |b|;
    if a != [] {
      var s, t := Hex(a), Hex(b);
      assert s[0] == t[0] && s[1] == t[1];
      assert s[2..] == Hex(a[1..]) && t[2..] == Hex(b[1..]);
      HexInjective(a[1..], b[1..]);
      assert a[0] as int / 16 == b[0] as int / 16 && a[0] as int % 16 == b[0] as int % 16;
      assert a == [a[0]] + a[1..] && b == [b[0]] + b[1..];
    }
  }

  /** `[]byte(s)` for text whose characters are single bytes. */
  function TextBytes(s: string): (b: Bytes)
    ensures |b| == |s| && forall i :: 0 <= i < |s| && s[i] as int < 256 ==> b[i] as int == s[i] as int
  {
    seq(|s|, i requires 0 <= i < |s| => (s[i] as int % 256) as byte)
  }

  predicate IsDigit(c: char) {
    '0' <= c <= '9'
  }

  function DigitChar(n: nat): (c: char)
    requires n < 10
    ensures IsDigit(c)
  {
    ('0' as int + n) as char
  }

  /** `%d` of an unsigned number */
  function Decimal(n: nat): (s: string)
    ensures forall i :: 0 <= i < |s| ==> IsDigit(s[i])
  {
    if n < 10 then [DigitChar(n)] else Decimal(n / 10) + [DigitChar(n % 10)]
  }

  function Value(s: string): nat
    requires forall i :: 0 <= i < |s| ==> IsDigit(s[i])
  {
    if s == [] then 0
    else
      assert IsDigit(s[|s| - 1]);
      10 * Value(s[..|s| - 1]) + (s[|s| - 1] as int - '0' as int)
  }

  lemma {:induction false} DecimalValue(n: nat)
    ensures Value(Decimal(n)) == n
  {
    var s := Decimal(n);
    if n >= 10 {
      DecimalValue(n / 10);
      assert s[..|s| - 1] == Decimal(n / 10);
    } else {
      assert s[..0] == [];
    }
  }

  lemma DecimalInjective(m: nat, n: nat)
    requires Decimal(m) == Decimal(n)
    ensures m == n
  {
    DecimalValue(m);
    DecimalValue(n);
  }

  /** `%08d` */
  function Decimal8(n: nat): (s: string)
    ensures forall i :: 0 <= i < |s| ==> IsDigit(s[i])
  {
    var d := Decimal(n);
    if |d| < 8 then seq(8 - |d|, _ => '0') + d else d
  }

  lemma {:induction false} LeadingZeros(zeros: string, s: string)
    requires forall i :: 0 <= i < |zeros| ==> zeros[i] == '0'
    requires forall i :: 0 <= i < |s| ==> IsDigit(s[i])
    ensures Value(zeros + s) == Value(s)
    decreases |zeros| + |s|
  {
    var t := zeros + s;
    if s != [] {
      LeadingZeros(zeros, s[..|s| - 1]);
      assert t[..|t| - 1] == zeros + s[..|s| - 1];
    } else if zeros != [] {
      LeadingZeros(zeros[..|zeros| - 1], []);
      assert t[..|t| - 1] == zeros[..|zeros| - 1] + [];
    }
  }

  /** `model.NewID`: a prefix and the process-wide counter */
  function NewID(prefix: string, n: nat): (id: string)
    ensures id != ""
  {
    prefix + "-" + Decimal8(n)
  }

  /** A prefix, a dash and the counter in at least eight digits. */
  lemma NewIDFormat(prefix: string, n: nat)
    ensures exists digits :: NewID(prefix, n) == prefix + "-" + digits && |digits| >= 8
              && (forall i :: 0 <= i < |digits| ==> IsDigit(digits[i])) && Value(digits) == n
  {
    Decimal8Value(n);
    var digits := Decimal8(n);
    assert NewID(prefix, n) == prefix + "-" + digits && |digits| >= 8;
  }

  lemma NewIDInjective(prefix: string, m: nat, n: nat)
    requires NewID(prefix, m) == NewID(prefix, n)
    ensures m == n
  {
    var k := |prefix| + 1;
    assert NewID(prefix, m)[k..] == Decimal8(m) && NewID(prefix, n)[k..] == Decimal8(n);
    Decimal8Value(m);
    Decimal8Value(n);
  }

  lemma Decimal8Value(n: nat)
    ensures Value(Decimal8(n)) == n
  {
    DecimalValue(n);
    var d := Decimal(n);
    if |d| < 8 {
      LeadingZeros(seq(8 - |d|, _ => '0'), d);
    }
  }

  function Flatten<T>(parts: seq<seq<T>>): seq<T> {
    if parts == [] then [] else Flatten(parts[..|parts| - 1]) + parts[|parts| - 1]
  }
}
