/** rpc/records.go: hexadecimal parameters of a request, read back into bytes. */
module Parameters {
  import opened Bytes
  import opened Options
  import opened Keys

  // ----- hex.DecodeString -----

  /** The value of a hexadecimal digit, in either case. */
  function DigitValue(c: Byte): (n: Option<nat>)
    ensures n.Some? ==> n.value < 16
  {
    if '0' <= c <= '9' then Some(c as int - '0' as int)
    else if 'a' <= c <= 'f' then Some(10 + c as int - 'a' as int)
    else if 'A' <= c <= 'F' then Some(10 + c as int - 'A' as int)
    else None
  }

  /** Two digits a byte, the first one counting sixteen times; anything else is an error. */
  function DecodeHex(text: Bytes): Option<Bytes> {
    if text == "" then Some([])
    else if |text| == 1 then None
    else
      match (DigitValue(text[0]), DigitValue(text[1]), DecodeHex(text[2..]))
      case (Some(high), Some(low), Some(rest)) => Some([(16 * high + low) as char] + rest)
      case _ => None
  }

  /** A digit is written in lower case; the other case is read alike. */
  lemma DigitsAre(c: Byte, n: nat)
    requires n < 16
    ensures DigitValue(c) == Some(n) <==> LowerByte(c) == HexDigit(n)
  {
  }

  lemma LowerStep(text: Bytes)
    requires |text| >= 2
    ensures ToLower(text) == [LowerByte(text[0]), LowerByte(text[1])] + ToLower(text[2..])
  {
    assert text[1..][1..] == text[2..];
  }

  lemma HexStep(b: Byte, rest: Bytes)
    ensures Hex([b] + rest) == [HexDigit(b as int / 16), HexDigit(b as int % 16)] + Hex(rest)
  {
    assert ([b] + rest)[1..] == rest;
  }

  lemma ByteOf(high: nat, low: nat)
    requires high < 16 && low < 16
    ensures (16 * high + low) / 16 == high && (16 * high + low) % 16 == low
  {
  }

  /** A text decodes to some bytes exactly when it is their hexadecimal, in whichever case; no other text
      decodes at all. */
  lemma {:induction false} DecodesExactlyHex(text: Bytes, data: Bytes)
    ensures DecodeHex(text) == Some(data) <==> ToLower(text) == Hex(data)
    decreases |text|
  {
    if |text| >= 2 {
      LowerStep(text);
      if data != [] {
        var b := data[0] as int;
        assert data == [data[0]] + data[1..];
        HexStep(data[0], data[1..]);
        DigitsAre(text[0], b / 16);
        DigitsAre(text[1], b % 16);
        DecodesExactlyHex(text[2..], data[1..]);
        DecodesFirst(text, data);
        var lower, hex := ToLower(text), Hex(data);
        assert lower[2..] == ToLower(text[2..]) && hex[2..] == Hex(data[1..]);
        assert lower == [lower[0], lower[1]] + lower[2..] && hex == [hex[0], hex[1]] + hex[2..];
      }
    } else {
      assert |ToLower(text)| == |text| && |Hex(data)| == 2 * |data|;
    }
  }

  lemma DecodesFirst(text: Bytes, data: Bytes)
    requires |text| >= 2 && data != []
    ensures DecodeHex(text) == Some(data) <==>
            && DigitValue(text[0]) == Some(data[0] as int / 16) && DigitValue(text[1]) == Some(data[0] as int % 16)
            && DecodeHex(text[2..]) == Some(data[1..])
  {
    match (DigitValue(text[0]), DigitValue(text[1]), DecodeHex(text[2..]))
    case (Some(high), Some(low), Some(rest)) =>
      ByteOf(high, low);
      var all := [(16 * high + low) as char] + rest;
      assert all[1..] == rest && data == [data[0]] + data[1..];
    case _ =>
  }

  // ----- hex2Bytes -----

  /** strings.TrimPrefix(text, "0x"). */
  function Trimmed(text: Bytes): Bytes {
    if "0x" <= text then text[2..] else text
  }

  /** hex2Bytes: every text decoded, or an error if there is none or one does not decode. */
  method Hex2Bytes(texts: seq<Bytes>) returns (results: Option<seq<Bytes>>)
    ensures results.Some? <==> texts != [] && forall i :: 0 <= i < |texts| ==> DecodeHex(Trimmed(texts[i])).Some?
    ensures results.Some? ==>
              && |results.value| == |texts|
              && forall i :: 0 <= i < |texts| ==> ToLower(Trimmed(texts[i])) == Hex(results.value[i])
  {
    if |texts| == 0 {
      return None;
    }
    var decoded: seq<Bytes> := [];
    for i := 0 to |texts|
      invariant |decoded| == i
      invariant forall j :: 0 <= j < i ==> DecodeHex(Trimmed(texts[j])) == Some(decoded[j])
      invariant forall j :: 0 <= j < i ==> ToLower(Trimmed(texts[j])) == Hex(decoded[j])
    {
      var data := DecodeHex(Trimmed(texts[i]));
      if data.None? {
        return None;
      }
      DecodesExactlyHex(Trimmed(texts[i]), data.value);
      decoded := decoded + [data.value];
    }
    results := Some(decoded);
  }

  lemma {:induction false} HexIsLower(data: Bytes)
    ensures ToLower(Hex(data)) == Hex(data)
  {
    if data != [] {
      HexIsLower(data[1..]);
      var text := Hex(data);
      LowerStep(text);
      DigitsAre(text[0], data[0] as int / 16);
      DigitsAre(text[1], data[0] as int % 16);
    }
  }

  lemma HexNotPrefixed(data: Bytes)
    ensures !("0x" <= Hex(data))
  {
    if data != [] {
      assert Hex(data)[1] == HexDigit(data[0] as int % 16) != 'x';
    }
  }

  /** What the program writes in hexadecimal it reads back, with the prefix or without. */
  lemma HexRoundTrip(data: Bytes)
    ensures DecodeHex(Trimmed(Hex(data))) == Some(data) && DecodeHex(Trimmed("0x" + Hex(data))) == Some(data)
  {
    HexIsLower(data);
    HexNotPrefixed(data);
    assert ("0x" + Hex(data))[2..] == Hex(data);
    DecodesExactlyHex(Hex(data), data);
  }
}
