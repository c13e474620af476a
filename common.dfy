/** Shared vocabulary of the model: results, bytes, sums, decimal and hex text. */
module Common {

  /** The outcome of an operation that can raise: a value or the error raised. */
  datatype Result<+T, +E> = Ok(value: T) | Err(error: E)

  /** A value that may be absent (Python `None`). */
  datatype Option<+T> = None | Some(value: T)

  /** A byte (Python `int` in 0..255 inside `bytes`, C `uint8_t`). */
  type byte = bv8

  /** Python's `a ^ b` on two bytes. */
  function Xor(a: byte, b: byte): byte
  {
    a ^ b
  }

  lemma XorCommutes(a: byte, b: byte)
    ensures Xor(a, b) == Xor(b, a)
  {
  }

  lemma XorAssociates(a: byte, b: byte, c: byte)
    ensures Xor(Xor(a, b), c) == Xor(a, Xor(b, c))
  {
  }

  /** XORing the same byte twice gives back the input: masking is undone by masking again. */
  lemma XorCancels(a: byte, b: byte)
    ensures Xor(Xor(a, b), b) == a
  {
  }

  lemma XorZero(a: byte)
    ensures Xor(a, 0) == a
  {
  }

  /** NumPy broadcasts two operands along an axis when their lengths agree or one of them is 1. */
  predicate Broadcastable(m: nat, n: nat)
  {
    m == n || m == 1 || n == 1
  }

  /** The common length of two broadcastable operands: the other one's when one has length 1. */
  function BroadcastLength(m: nat, n: nat): (k: nat)
    requires Broadcastable(m, n)
    ensures m != 1 ==> k == m
    ensures n != 1 ==> k == n
    ensures m == 1 && n == 1 ==> k == 1
  {
    if m == 1 then n else m
  }

  /** Sum of a sequence of reals, left to right. */
  function Sum(s: seq<real>): real
  {
    if s == [] then 0.0 else Sum(s[..|s| - 1]) + s[|s| - 1]
  }

  /** Sum of a sequence of integers, left to right. */
  function SumInt(s: seq<int>): int
  {
    if s == [] then 0 else SumInt(s[..|s| - 1]) + s[|s| - 1]
  }

  /** Arithmetic mean (NumPy `np.mean`); undefined on an empty sequence. */
  function Mean(s: seq<real>): real
    requires |s| > 0
  {
    Sum(s) / (|s| as real)
  }

  lemma {:induction false} SumAppend(a: seq<real>, b: seq<real>)
    ensures Sum(a + b) == Sum(a) + Sum(b)
  {
    if b == [] {
      assert a + b == a;
    } else {
      assert (a + b)[..|a + b| - 1] == a + b[..|b| - 1];
      SumAppend(a, b[..|b| - 1]);
    }
  }

  lemma {:induction false} SumIntAppend(a: seq<int>, b: seq<int>)
    ensures SumInt(a + b) == SumInt(a) + SumInt(b)
  {
    if b == [] {
      assert a + b == a;
    } else {
      assert (a + b)[..|a + b| - 1] == a + b[..|b| - 1];
      SumIntAppend(a, b[..|b| - 1]);
    }
  }

  /** Summing a sequence with one element removed, then adding it back, gives the same total. */
  lemma {:induction false} SumIntRemove(s: seq<int>, k: nat)
    requires k < |s|
    ensures SumInt(s) == SumInt(s[..k] + s[k + 1..]) + s[k]
  {
    assert s == s[..k] + [s[k]] + s[k + 1..];
    SumIntAppend(s[..k] + [s[k]], s[k + 1..]);
    SumIntAppend(s[..k], [s[k]]);
    SumIntAppend(s[..k], s[k + 1..]);
    assert SumInt([s[k]]) == SumInt([]) + s[k];
  }

  /** Summation does not depend on the order of the summands. */
  lemma {:induction false} SumIntPermutation(s: seq<int>, t: seq<int>)
    requires multiset(s) == multiset(t)
    ensures SumInt(s) == SumInt(t)
    decreases |s|
  {
    if s == [] {
      assert |t| == |multiset(t)| == 0;
    } else {
      var x := s[|s| - 1];
      assert x in multiset(t);
      var k :| 0 <= k < |t| && t[k] == x;
      var s' := s[..|s| - 1];
      var t' := t[..k] + t[k + 1..];
      assert s == s' + [x];
      assert t == t[..k] + [x] + t[k + 1..];
      assert multiset(t) == multiset(t[..k]) + multiset{x} + multiset(t[k + 1..]);
      assert multiset(t') == multiset(t[..k]) + multiset(t[k + 1..]);
      assert multiset(s) == multiset(s') + multiset{x};
      assert multiset(s') == multiset(s) - multiset{x};
      assert multiset(t') == multiset(t) - multiset{x};
      SumIntPermutation(s', t');
      SumIntRemove(t, k);
    }
  }

  /** A sequence of 0/1 values of length n sums to a value in 0..n. */
  lemma {:induction false} SumIntBits(s: seq<int>)
    requires forall i :: 0 <= i < |s| ==> s[i] == 0 || s[i] == 1
    ensures 0 <= SumInt(s) <= |s|
  {
    if s != [] {
      SumIntBits(s[..|s| - 1]);
    }
  }

  /** Decimal digit characters, as Python's `str(int)` writes them. */
  function DigitChar(d: nat): char
    requires d < 10
  {
    "0123456789"[d]
  }

  /** Concatenation is associative; stated once so that callers need not re-derive it element by element. */
  lemma Associative<T>(a: seq<T>, b: seq<T>, c: seq<T>)
    ensures a + b + c == a + (b + c)
  {
  }

  /** Decimal text of a natural number (Python `f"{n}"` for `n >= 0`). */
  function NatToString(n: nat): (s: string)
    ensures |s| > 0
    ensures forall i :: 0 <= i < |s| ==> '0' <= s[i] <= '9'
    decreases n
  {
    if n < 10 then [DigitChar(n)] else NatToString(n / 10) + [DigitChar(n % 10)]
  }

  /** Value of a string of decimal digits. */
  function DigitsValue(s: string): nat
    requires forall i :: 0 <= i < |s| ==> '0' <= s[i] <= '9'
  {
    if s == [] then 0 else 10 * DigitsValue(s[..|s| - 1]) + (s[|s| - 1] as int - '0' as int)
  }

  /** Decimal text reads back as the number it was made from. */
  lemma {:induction false} NatToStringValue(n: nat)
    ensures DigitsValue(NatToString(n)) == n
    decreases n
  {
    if n >= 10 {
      NatToStringValue(n / 10);
      var s := NatToString(n);
      assert s[..|s| - 1] == NatToString(n / 10);
    }
  }

  /** Distinct numbers have distinct decimal texts. */
  lemma NatToStringInjective(m: nat, n: nat)
    requires NatToString(m) == NatToString(n)
    ensures m == n
  {
    NatToStringValue(m);
    NatToStringValue(n);
  }

  /** Lower-case hexadecimal digit (Python `bytes.hex()`). */
  function HexDigit(d: bv8): char
    requires d < 16
  {
    if d < 10 then ('0' as int + d as int) as char else ('a' as int + d as int - 10) as char
  }

  /** Python `bytes.hex()`: two lower-case hex digits per byte, high nibble first. */
  function ToHex(b: seq<byte>): (s: string)
    ensures |s| == 2 * |b|
  {
    if b == [] then "" else [HexDigit(b[0] >> 4), HexDigit(b[0] & 0xf)] + ToHex(b[1..])
  }

  /** Value of one hexadecimal digit of either case, as `bytes.fromhex` reads it. */
  function HexValue(c: char): (v: Result<bv8, string>)
    ensures v.Ok? ==> v.value < 16
  {
    if '0' <= c <= '9' then Ok((c as int - '0' as int) as bv8)
    else if 'a' <= c <= 'f' then Ok((c as int - 'a' as int + 10) as bv8)
    else if 'A' <= c <= 'F' then Ok((c as int - 'A' as int + 10) as bv8)
    else Err("non-hexadecimal number found in fromhex() arg")
  }

  /** ASCII white space, which `bytes.fromhex` skips between byte pairs. */
  predicate IsSpace(c: char)
  {
    c == ' ' || c == '\t' || c == '\n' || c == '\r' || c == '\U{0b}' || c == '\U{0c}'
  }

  /** Python `bytes.fromhex`: pairs of hex digits, white space allowed between pairs. */
  function FromHex(s: string): Result<seq<byte>, string>
    decreases |s|
  {
    if s == [] then Ok([])
    else if IsSpace(s[0]) then FromHex(s[1..])
    else if |s| < 2 then Err("non-hexadecimal number found in fromhex() arg")
    else
      match (HexValue(s[0]), HexValue(s[1]))
      case (Ok(hi), Ok(lo)) =>
        (match FromHex(s[2..])
         case Ok(rest) => Ok([(hi << 4) | lo] + rest)
         case Err(e) => Err(e))
      case _ => Err("non-hexadecimal number found in fromhex() arg")
  }

  lemma HexDigitValue(d: bv8)
    requires d < 16
    ensures HexValue(HexDigit(d)) == Ok(d)
  {
  }

  lemma NibblesRejoin(x: byte)
    ensures ((x >> 4) << 4) | (x & 0xf) == x
  {
  }

  /** Reading the two hex digits of one byte in front of some text. */
  lemma FromHexPair(x: byte, rest: string)
    ensures FromHex([HexDigit(x >> 4), HexDigit(x & 0xf)] + rest) ==
      match FromHex(rest)
      case Ok(r) => Ok([x] + r)
      case Err(e) => Err(e)
  {
    var s := [HexDigit(x >> 4), HexDigit(x & 0xf)] + rest;
    HexDigitValue(x >> 4);
    HexDigitValue(x & 0xf);
    assert !IsSpace(s[0]);
    assert s[2..] == rest;
    NibblesRejoin(x);
  }

  /** `bytes.fromhex` undoes `bytes.hex()`, also when the line ends with white space. */
  lemma {:induction false} FromHexToHex(b: seq<byte>, tail: string)
    requires forall i :: 0 <= i < |tail| ==> IsSpace(tail[i])
    ensures FromHex(ToHex(b) + tail) == Ok(b)
    decreases |b| + |tail|
  {
    if b == [] {
      assert ToHex(b) + tail == tail;
      if tail != [] {
        assert tail[1..] == ToHex(b) + tail[1..];
        FromHexToHex(b, tail[1..]);
      }
    } else {
      assert ToHex(b) + tail == [HexDigit(b[0] >> 4), HexDigit(b[0] & 0xf)] + (ToHex(b[1..]) + tail);
      FromHexPair(b[0], ToHex(b[1..]) + tail);
      FromHexToHex(b[1..], tail);
      assert [b[0]] + b[1..] == b;
    }
  }
}
