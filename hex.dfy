/**
 * Hexadecimal text as Go's `fmt` and `encoding/hex` produce and consume it:
 * `%X` on a `[]byte` (two upper-case digits per byte), `%X` on a single
 * `byte` (no padding), and `hex.DecodeString`.
 */
module Hex {
  import opened Wrappers
  import opened Bytes

  /** A digit `%X` writes: 0-9 or an upper-case A-F. */
  predicate IsUpperDigit(c: char) {
    '0' <= c <= '9' || 'A' <= c <= 'F'
  }

  /** Text made only of the digits `%X` writes. */
  predicate IsUpperHex(s: string) {
    forall i :: 0 <= i < |s| ==> IsUpperDigit(s[i])
  }

  /** The upper-case digit of a value below 16. */
  function HexDigit(n: nat): (c: char)
    requires n < 16
    ensures IsUpperDigit(c)
    ensures DigitValue(c) == Some(n)
  {
    if n < 10 then ('0' as int + n) as char else ('A' as int + n - 10) as char
  }

  /** The value of one hex digit, either case, as `hex.DecodeString` accepts it; None for anything else. */
  function DigitValue(c: char): (r: Option<nat>)
    ensures r.Some? ==> r.value < 16
    ensures r.Some? <==> ('0' <= c <= '9' || 'a' <= c <= 'f' || 'A' <= c <= 'F')
  {
    if '0' <= c <= '9' then Some(c as int - '0' as int)
    else if 'a' <= c <= 'f' then Some(c as int - 'a' as int + 10)
    else if 'A' <= c <= 'F' then Some(c as int - 'A' as int + 10)
    else None
  }

  /** `fmt.Sprintf("%X", []byte{b})`: exactly two digits. */
  function HexByte(b: byte): (s: string)
    ensures |s| == 2
  {
    [HexDigit(b as int / 16), HexDigit(b as int % 16)]
  }

  /** `fmt.Sprintf("%X", bs)` for a byte slice. */
  function HexBytes(bs: seq<byte>): (s: string)
    ensures |s| == 2 * |bs|
  {
    if bs == [] then "" else HexByte(bs[0]) + HexBytes(bs[1..])
  }

  lemma HexByteUpper(b: byte)
    ensures IsUpperHex(HexByte(b))
  {
  }

  /** `%X` writes only upper-case digits. */
  lemma {:induction false} HexBytesUpper(bs: seq<byte>)
    ensures IsUpperHex(HexBytes(bs))
  {
    if bs != [] {
      HexBytesUpper(bs[1..]);
      var s := HexBytes(bs);
      forall i | 0 <= i < |s| ensures IsUpperDigit(s[i]) {
        if i >= 2 {
          assert s[i] == HexBytes(bs[1..])[i - 2];
        }
      }
    }
  }

  /** `fmt.Sprintf("%X", b)` for a single `byte`: no leading zero, so 0x05 is "5". */
  function HexUnpadded(b: byte): (s: string)
    ensures IsUpperHex(s)
    ensures 1 <= |s| <= 2 && (|s| == 1 <==> b < 16)
    ensures HexNumber(s) == Some(b as nat)
  {
    if b < 16 then [HexDigit(b as int)] else HexByteUpper(b); HexByte(b)
  }

  /** The value of a non-empty hex numeral, most significant digit first. */
  function HexNumber(s: string): (r: Option<nat>)
    decreases |s|
  {
    if s == [] then None
    else
      var d := DigitValue(s[|s| - 1]);
      if d.None? then None
      else if |s| == 1 then d
      else match HexNumber(s[..|s| - 1])
        case None => None
        case Some(high) => Some(16 * high + d.value)
  }

  datatype HexError = InvalidByte(c: char) | OddLength

  /**
   * `hex.DecodeString`: pairs of digits left to right; the first non-digit met
   * is reported, and a trailing single digit is an odd-length error.
   */
  function DecodeHex(s: string): (r: Result<seq<byte>, HexError>)
    ensures r.Ok? ==> |s| == 2 * |r.value|
    decreases |s|
  {
    if |s| == 0 then Ok([])
    else if |s| == 1 then
      if DigitValue(s[0]).None? then Err(InvalidByte(s[0])) else Err(OddLength)
    else if DigitValue(s[0]).None? then Err(InvalidByte(s[0]))
    else if DigitValue(s[1]).None? then Err(InvalidByte(s[1]))
    else
      match DecodeHex(s[2..])
      case Err(e) => Err(e)
      case Ok(rest) => Ok([(16 * DigitValue(s[0]).value + DigitValue(s[1]).value) as byte] + rest)
  }

  /** Text `hex.DecodeString` accepts: an even number of digits of either case. */
  predicate IsHexText(s: string) {
    |s| % 2 == 0 && forall i :: 0 <= i < |s| ==> DigitValue(s[i]).Some?
  }

  lemma {:induction false} DecodeHexSucceeds(s: string)
    ensures DecodeHex(s).Ok? <==> IsHexText(s)
    decreases |s|
  {
    if |s| >= 2 {
      DecodeHexSucceeds(s[2..]);
      if IsHexText(s) {
        assert IsHexText(s[2..]) by {
          forall i | 0 <= i < |s[2..]| ensures DigitValue(s[2..][i]).Some? {
            assert s[2..][i] == s[i + 2];
          }
        }
      } else if DigitValue(s[0]).Some? && DigitValue(s[1]).Some? && |s| % 2 == 0 {
        var i :| 0 <= i < |s| && DigitValue(s[i]).None?;
        assert s[2..][i - 2] == s[i];
      }
    } else if |s| == 1 {
      assert !IsHexText(s);
    }
  }

  /** One step of decoding: a leading pair of digits becomes one byte. */
  lemma DecodeHexPair(s: string)
    requires |s| >= 2 && DigitValue(s[0]).Some? && DigitValue(s[1]).Some? && DecodeHex(s[2..]).Ok?
    ensures DecodeHex(s) == Ok([(16 * DigitValue(s[0]).value + DigitValue(s[1]).value) as byte] + DecodeHex(s[2..]).value)
  {
  }

  /** `%X` of a byte decodes back to that byte. */
  lemma DecodeHexByte(b: byte)
    ensures DecodeHex(HexByte(b)) == Ok([b])
  {
    var s := HexByte(b);
    var hi, lo := b as int / 16, b as int % 16;
    assert DigitValue(s[0]) == Some(hi) && DigitValue(s[1]) == Some(lo);
    assert s[2..] == [] && DecodeHex(s[2..]) == Ok([]);
    DecodeHexPair(s);
    assert 16 * hi + lo == b as int;
    assert [b] + [] == [b];
  }

  /** Decoding inverts `%X` on a byte slice. */
  lemma {:induction false} DecodeHexBytes(bs: seq<byte>)
    ensures DecodeHex(HexBytes(bs)) == Ok(bs)
  {
    if bs != [] {
      var s := HexBytes(bs);
      var head := HexByte(bs[0]);
      assert s == head + HexBytes(bs[1..]);
      DecodeHexByte(bs[0]);
      DecodeHexBytes(bs[1..]);
      DecodeHexAppend(head, HexBytes(bs[1..]));
      assert [bs[0]] + bs[1..] == bs;
    }
  }

  /** Conversely, upper-case hex text that decodes is reproduced by `%X` of its bytes. */
  lemma {:induction false} HexBytesOfDecoded(s: string)
    requires IsUpperHex(s) && DecodeHex(s).Ok?
    ensures HexBytes(DecodeHex(s).value) == s
    decreases |s|
  {
    if |s| >= 2 {
      var bs := DecodeHex(s).value;
      var hi, lo := DigitValue(s[0]).value, DigitValue(s[1]).value;
      assert IsUpperHex(s[2..]) by {
        forall i | 0 <= i < |s[2..]| ensures IsUpperDigit(s[2..][i]) {
          assert s[2..][i] == s[i + 2];
        }
      }
      HexBytesOfDecoded(s[2..]);
      assert bs[0] as int == 16 * hi + lo;
      assert bs[1..] == DecodeHex(s[2..]).value;
      assert (16 * hi + lo) / 16 == hi && (16 * hi + lo) % 16 == lo;
      UpperDigit(s[0]);
      UpperDigit(s[1]);
    }
  }

  lemma UpperDigit(c: char)
    requires IsUpperDigit(c)
    ensures DigitValue(c).Some? && HexDigit(DigitValue(c).value) == c
  {
  }

  /** `%X` on byte slices loses nothing: equal hex text means equal bytes. */
  lemma HexBytesInjective(a: seq<byte>, b: seq<byte>)
    ensures HexBytes(a) == HexBytes(b) <==> a == b
  {
    DecodeHexBytes(a);
    DecodeHexBytes(b);
  }

  lemma {:induction false} HexBytesAppend(a: seq<byte>, b: seq<byte>)
    ensures HexBytes(a + b) == HexBytes(a) + HexBytes(b)
  {
    if a != [] {
      assert (a + b)[1..] == a[1..] + b;
      HexBytesAppend(a[1..], b);
    } else {
      assert a + b == b;
    }
  }

  /** Decoding a concatenation whose first part has even length decodes the parts. */
  lemma {:induction false} DecodeHexAppend(a: string, b: string)
    requires |a| % 2 == 0
    ensures DecodeHex(a + b).Ok? <==> DecodeHex(a).Ok? && DecodeHex(b).Ok?
    ensures DecodeHex(a + b).Ok? ==> DecodeHex(a + b).value == DecodeHex(a).value + DecodeHex(b).value
    decreases |a|
  {
    if a == [] {
      assert a + b == b;
    } else {
      var ab := a + b;
      assert ab[0] == a[0] && ab[1] == a[1];
      assert ab[2..] == a[2..] + b;
      DecodeHexAppend(a[2..], b);
    }
  }
}
