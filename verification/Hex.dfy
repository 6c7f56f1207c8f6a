/** bytes_to_hex_str: the lowercase hexadecimal text of a byte string, as in section 8 of RFC 4648. */
module Hex {
  import opened Wrappers
  import opened Bytes

  // The text by division: the high digit of each byte, then the low one.
  function ToHex(bytes: ByteArray): string {
    if bytes == [] then ""
    else ToHex(bytes[..|bytes| - 1]) + HexPair(bytes[|bytes| - 1])
  }

  function HexPair(b: Byte): string {
    [HexDigit(b / 16), HexDigit(b % 16)]
  }

  function HexDigit(d: nat): char
    requires d < 16
  {
    if d < 10 then ('0' as int + d) as char else ('a' as int + d - 10) as char
  }

  // The static table of the source.
  method HexTable() returns (hexValues: string)
    ensures |hexValues| == 16 && forall d :: 0 <= d < 16 ==> hexValues[d] == HexDigit(d)
  {
    hexValues := "0123456789abcdef";
  }

  function HexValue(c: char): (v: Option<nat>)
    ensures v.Some? ==> v.value < 16
  {
    if '0' <= c <= '9' then Some(c as int - '0' as int)
    else if 'a' <= c <= 'f' then Some(c as int - 'a' as int + 10)
    else None
  }

  function FromHex(text: string): Option<ByteArray> {
    var n := |text|;
    if n == 0 then Some([])
    else if n == 1 then None
    else match (FromHex(text[..n - 2]), HexValue(text[n - 2]), HexValue(text[n - 1]))
      case (Some(front), Some(high), Some(low)) =>
        Some(front + [16 * high + low])
      case _ => None
  }

  lemma NibblesOfByte(val: bv8)
    ensures (val >> 4) as int == val as int / 16
    ensures (val & 0xF) as int == val as int % 16
  {
  }

  method Nibbles(val: bv8) returns (high: nat, low: nat)
    ensures high == val as int / 16 && low == val as int % 16
  {
    NibblesOfByte(val);
    high, low := (val >> 4) as int, (val & 0xF) as int;
  }

  // The bytes of a view as numbers.
  function AsNumbers(byteView: seq<bv8>): ByteArray {
    seq(|byteView|, i requires 0 <= i < |byteView| => byteView[i] as int)
  }

  lemma NoBytes()
    ensures ToHex([]) == ""
  {
  }

  lemma NextPair(bytes: ByteArray, i: nat)
    requires i < |bytes|
    ensures ToHex(bytes[..i + 1]) == ToHex(bytes[..i]) + [HexDigit(bytes[i] / 16)] + [HexDigit(bytes[i] % 16)]
  {
    assert bytes[..i + 1][..i] == bytes[..i];
  }

  // The loop of the source, over the bytes of a ByteView.
  method BytesToHexStr(byteView: seq<bv8>) returns (rv: string)
    ensures rv == ToHex(AsNumbers(byteView))
  {
    hide ToHex;
    ghost var bytes := AsNumbers(byteView);
    var hexValues := HexTable();
    rv := "";
    NoBytes();
    for i := 0 to |byteView|
      invariant rv == ToHex(bytes[..i])
    {
      var val := byteView[i];
      var high, low := Nibbles(val);
      rv := rv + [hexValues[high]];
      rv := rv + [hexValues[low]];
      NextPair(bytes, i);
    }
    assert bytes[..|byteView|] == bytes;
  }

  lemma HexDigits(d: nat)
    requires d < 16
    ensures HexValue(HexDigit(d)) == Some(d)
  {
  }

  lemma {:induction false} FromHexToHex(bytes: ByteArray)
    ensures FromHex(ToHex(bytes)) == Some(bytes)
  {
    hide FromHex, HexDigit, HexValue;
    if bytes == [] {
      FromHexEmpty();
    } else {
      var front, last := bytes[..|bytes| - 1], bytes[|bytes| - 1];
      FromHexToHex(front);
      var high, low := last / 16, last % 16;
      HexDigits(high);
      HexDigits(low);
      FromHexPair(ToHex(front), front, HexDigit(high), HexDigit(low), high, low);
      assert HexPair(last) == [HexDigit(high), HexDigit(low)];
      assert front + [last] == bytes && 16 * high + low == last;
    }
  }

  lemma FromHexEmpty()
    ensures FromHex("") == Some([])
  {
  }

  lemma FromHexPair(text: string, front: ByteArray, c: char, d: char, high: nat, low: nat)
    requires FromHex(text) == Some(front) && HexValue(c) == Some(high) && HexValue(d) == Some(low)
    ensures FromHex(text + [c, d]) == Some(front + [16 * high + low])
  {
    var longer := text + [c, d];
    assert longer[..|longer| - 2] == text && longer[|longer| - 2] == c && longer[|longer| - 1] == d;
  }

  lemma HexPairPrinted(b: Byte)
    ensures HexPair(b) == ["0123456789abcdef"[b / 16], "0123456789abcdef"[b % 16]]
  {
    assert forall d :: 0 <= d < 16 ==> HexDigit(d) == "0123456789abcdef"[d];
  }

  lemma {:induction false} PairsInPlace(bytes: ByteArray)
    ensures |ToHex(bytes)| == 2 * |bytes|
    ensures forall i :: 0 <= i < |bytes| ==> ToHex(bytes)[2 * i..2 * i + 2] == HexPair(bytes[i])
  {
    if bytes == [] {
    } else {
      var front := bytes[..|bytes| - 1];
      PairsInPlace(front);
      forall i | 0 <= i < |bytes|
        ensures ToHex(bytes)[2 * i..2 * i + 2] == HexPair(bytes[i])
      {
        if i < |front| {
          assert ToHex(bytes)[2 * i..2 * i + 2] == ToHex(front)[2 * i..2 * i + 2];
        }
      }
    }
  }

  // Only the sixteen lowercase digits, two for each byte, at the byte's place, the high one first.
  lemma HexShape(bytes: ByteArray)
    ensures |ToHex(bytes)| == 2 * |bytes|
    ensures forall i :: 0 <= i < |bytes| ==>
              && ToHex(bytes)[2 * i] == "0123456789abcdef"[bytes[i] / 16]
              && ToHex(bytes)[2 * i + 1] == "0123456789abcdef"[bytes[i] % 16]
  {
    hide ToHex, HexPair;
    PairsInPlace(bytes);
    forall i | 0 <= i < |bytes|
      ensures ToHex(bytes)[2 * i] == "0123456789abcdef"[bytes[i] / 16]
      ensures ToHex(bytes)[2 * i + 1] == "0123456789abcdef"[bytes[i] % 16]
    {
      HexPairPrinted(bytes[i]);
      var pair := ToHex(bytes)[2 * i..2 * i + 2];
      assert pair[0] == ToHex(bytes)[2 * i] && pair[1] == ToHex(bytes)[2 * i + 1];
    }
  }

  lemma {:induction false} HexAppend(a: ByteArray, b: ByteArray)
    ensures ToHex(a + b) == ToHex(a) + ToHex(b)
  {
    hide HexDigit;
    if b == [] {
      assert a + b == a;
    } else {
      var front := b[..|b| - 1];
      HexAppend(a, front);
      assert (a + b)[..|a + b| - 1] == a + front;
    }
  }
}
