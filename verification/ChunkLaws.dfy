/** The numbers in chunk heads, character by character, and what one call of the decoder does with them. */
module ChunkLaws {
  import opened ChunkCodec
  import opened EvBuffer
  import opened Options
  import opened Sequences

  const LOWER := "0123456789abcdef"
  const UPPER := "0123456789ABCDEF"

  /** The sixteen digits that are printed, and the twenty-two that are read. */
  lemma DigitsExactly(v: nat, c: char)
    requires v < 16
    ensures Digit(v) == LOWER[v]
    ensures DigitsAt(v)
    ensures IsHex(c) <==> c in LOWER || c in UPPER
  {
    SixteenDigits(v);
    HexCharacters(c);
  }

  predicate DigitsAt(v: nat)
    requires v < 16
  {
    IsHex(LOWER[v]) && IsHex(UPPER[v]) && DigitValue(LOWER[v]) == DigitValue(UPPER[v]) == v
  }

  lemma SixteenDigits(v: nat)
    requires v < 16
    ensures Digit(v) == LOWER[v] && DigitsAt(v)
  {}

  lemma HexCharacters(c: char)
    ensures IsHex(c) <==> c in LOWER || c in UPPER
  {
    if IsHex(c) {
      DigitIsThere(c);
    }
    forall k: nat | k < 16
      ensures IsHex(LOWER[k]) && IsHex(UPPER[k])
    {
      SixteenDigits(k);
    }
  }

  lemma DigitIsThere(c: char)
    requires IsHex(c)
    ensures c == LOWER[DigitValue(c)] || c == UPPER[DigitValue(c)]
  {}

  /** The printed number has no leading zero, and its digits count sixteens. */
  lemma {:induction false} PrintedExactly(n: nat)
    ensures Hex(n)[0] == '0' <==> n == 0
    ensures Hex(n) == if n < 16 then [LOWER[n]] else Hex(n / 16) + [LOWER[n % 16]]
  {
    SixteenDigits(n % 16);
    if n >= 16 {
      PrintedExactly(n / 16);
    } else {
      FirstDigit(n);
    }
  }

  /** A chunk is the number, the data, and a line end behind each. */
  lemma ChunkExactly(data: string)
    ensures Chunk(data) == Hex(|data|) + "\r\n" + data + "\r\n"
  {
    hide Hex;
  }

  lemma FirstDigit(n: nat)
    requires n < 16
    ensures LOWER[n] == '0' <==> n == 0
  {}

  lemma {:induction false} PrefixStops(digits: string, rest: string)
    requires AllHex(digits) && (rest == "" || !IsHex(rest[0]))
    ensures HexPrefix(digits + rest) == |digits| && (digits + rest)[..|digits|] == digits
  {
    if digits == "" {
      assert digits + rest == rest;
    } else {
      assert (digits + rest)[1..] == digits[1..] + rest;
      PrefixStops(digits[1..], rest);
    }
  }

  predicate Sign(sign: string) {
    sign == "" || sign == "+" || sign == "-"
  }

  /** A `0` and an `x` only belong to the number if a digit follows them. */
  predicate Prefix(prefix: string, digits: string, junk: string) {
    || prefix == "0x" || prefix == "0X"
    || (prefix == "" && !(digits == "0" && |junk| > 1 && (junk[0] == 'x' || junk[0] == 'X') && IsHex(junk[1])))
  }

  lemma PrefixDropped(prefix: string, digits: string, junk: string)
    requires digits != "" && AllHex(digits) && Prefix(prefix, digits, junk) && (junk == "" || !IsHex(junk[0]))
    ensures Without0x(prefix + (digits + junk)) == digits + junk
  {
    var s := prefix + (digits + junk);
    if prefix == "" {
      assert s == digits + junk;
      HexIsPlain(digits[0]);
      if |digits| > 1 {
        HexIsPlain(digits[1]);
      }
    } else {
      assert s[2] == digits[0] && s[2..] == digits + junk;
    }
  }

  lemma SignDropped(sign: string, rest: string)
    requires Sign(sign) && rest != "" && rest[0] != '-' && rest[0] != '+'
    ensures WithoutSign(sign + rest) == rest
    ensures (sign + rest)[0] == '-' <==> sign == "-"
    ensures sign != "" || !IsSpace(rest[0]) ==> !IsSpace((sign + rest)[0])
  {
    if sign == "" {
      assert sign + rest == rest;
    } else {
      assert (sign + rest)[1..] == rest;
    }
  }

  lemma NulAfterNumber(junk: string)
    ensures junk == "" || !IsHex(junk[0]) ==> CStr(junk) == "" || !IsHex(CStr(junk)[0])
    ensures |CStr(junk)| > 1 ==> |junk| > 1 && CStr(junk)[0] == junk[0] && CStr(junk)[1] == junk[1]
  {
    CStrPrefix(junk);
  }

  /** White space, a sign, `0x` and digits are a number, whatever follows it; one that does not fit is the
      largest, and a negative one is counted back from 2^64. */
  lemma ScannedExactly(white: string, sign: string, prefix: string, digits: string, junk: string)
    requires White(white) && Sign(sign) && digits != "" && AllHex(digits)
    requires Prefix(prefix, digits, junk) && (junk == "" || !IsHex(junk[0]))
    ensures var v := HexValue(digits);
            ScanSize(white + (sign + (prefix + (digits + junk))))
            == Some(if v >= 0x1_0000_0000_0000_0000 then 0xFFFF_FFFF_FFFF_FFFF
                    else if sign == "-" && v > 0 then 0x1_0000_0000_0000_0000 - v
                    else v)
  {
    hide HexPrefix, HexValue, SkipSpace, CStr, Without0x, WithoutSign;
    var tail := CStr(junk);
    NulAfterNumber(junk);
    NumberHasNoNul(white, sign, prefix, digits, junk);
    NumberStarts(prefix, digits, tail);
    SignDropped(sign, prefix + (digits + tail));
    NotSpace(sign, prefix + (digits + tail));
    WhiteSkipped(white, sign + (prefix + (digits + tail)));
    PrefixDropped(prefix, digits, tail);
    PrefixStops(digits, tail);
  }

  lemma NotSpace(sign: string, rest: string)
    requires Sign(sign) && rest != "" && !IsSpace(rest[0])
    ensures sign + rest != "" && !IsSpace((sign + rest)[0])
  {}

  lemma NumberStarts(prefix: string, digits: string, tail: string)
    requires digits != "" && AllHex(digits) && Prefix(prefix, digits, tail)
    ensures var s := prefix + (digits + tail); s != "" && s[0] != '-' && s[0] != '+' && !IsSpace(s[0])
  {
    HexIsPlain(digits[0]);
  }

  lemma NumberHasNoNul(white: string, sign: string, prefix: string, digits: string, junk: string)
    requires White(white) && Sign(sign) && AllHex(digits) && Prefix(prefix, digits, junk)
    ensures CStr(white + (sign + (prefix + (digits + junk)))) == white + (sign + (prefix + (digits + CStr(junk))))
  {
    hide CStr, HexPrefix, HexValue;
    HexHasNoNul(digits);
    WhiteHasNoNul(white);
    CStrGoesOn(white, sign + (prefix + (digits + junk)));
    CStrGoesOn(sign, prefix + (digits + junk));
    CStrGoesOn(prefix, digits + junk);
    CStrGoesOn(digits, junk);
  }

  lemma HexHasNoNul(digits: string)
    requires AllHex(digits)
    ensures '\0' !in digits
  {}

  lemma WhiteHasNoNul(white: string)
    requires White(white)
    ensures '\0' !in white
  {}

  /** Without a digit nothing is scanned, and the head announces its own length. */
  lemma NothingScanned(white: string, sign: string, junk: string)
    requires White(white) && Sign(sign)
    requires junk == "" || (!IsHex(junk[0]) && !IsSpace(junk[0]) && (sign == "" ==> junk[0] != '-' && junk[0] != '+'))
    ensures var text := white + (sign + junk);
            ScanSize(text) == None && HeadSize(text) == |text| % 0x1_0000_0000_0000_0000
  {
    hide SkipSpace, CStr;
    var tail := CStr(junk);
    WhiteHasNoNul(white);
    CStrGoesOn(white, sign + junk);
    CStrGoesOn(sign, junk);
    TailStarts(junk);
    assert sign == "" ==> sign + tail == tail;
    assert sign + tail == "" || !IsSpace((sign + tail)[0]);
    WhiteSkipped(white, sign + tail);
    if sign != "" {
      assert (sign + tail)[1..] == tail;
    }
  }

  lemma TailStarts(junk: string)
    ensures CStr(junk) == "" || (junk != "" && CStr(junk)[0] == junk[0])
  {
    CStrPrefix(junk);
  }

  // ----- One call of the decoder -----

  /** With a size in force the decoder waits until the data and two more bytes are there, whatever these two
      are. Then it returns the data and goes on with the rest. The two largest sizes are different: adding
      two to them makes them small, and the decoder throws. */
  lemma CallsExactly(data: string, x: char, y: char, rest: string, size: SizeT, short: string)
    ensures 0 < size < 0xFFFF_FFFF_FFFF_FFFE && |short| < size + 2 ==> Decode(short, size) == Decoded("", short, size, Waits)
    ensures Decode(short, 0xFFFF_FFFF_FFFF_FFFE) == Decoded("", short, 0xFFFF_FFFF_FFFF_FFFE, Throws)
    ensures Decode(short, 0xFFFF_FFFF_FFFF_FFFF)
         == Decoded("", short, 0xFFFF_FFFF_FFFF_FFFF, if short == "" then Waits else Throws)
    ensures 0 < |data| < 0xFFFF_FFFF_FFFF_FFFE ==>
              && Decode(data + [x, y], |data|) == Decoded(data, "", 0, Waits)
              && (rest != "" ==>
                    var next := Decode(rest, 0);
                    Decode(data + ([x, y] + rest), |data|)
                    == if next.end.Throws? then next else Decoded(data + next.out, next.buf, next.size, next.end))
  {
    if 0 < |data| < 0xFFFF_FFFF_FFFF_FFFE {
      BodyIsPiece(data + ([x, y] + rest), |data|, data, [x, y], rest);
      BodyIsPiece(data + [x, y], |data|, data, [x, y], "");
      assert [x, y] + "" == [x, y];
      assert data + "" == data;
    }
  }

  /** Without a size in force the first line is the head; without a line the decoder stops and leaves the
      buffer as it is. */
  lemma HeadsExactly(text: string, rest: string)
    requires '\n' !in text
    ensures Decode(text, 0) == Decoded("", text, 0, Stops)
    ensures HeadSize(text) != 0 ==> Decode(text + "\r\n" + rest, 0) == Decode(rest, HeadSize(text))
    ensures HeadSize(text) == 0 ==>
              && (|rest| < 2 ==> Decode(text + "\r\n" + rest, 0) == Decoded("", rest, 0, Waits))
              && (|rest| == 2 ==> Decode(text + "\r\n" + rest, 0) == Decoded("", "", 0, Waits))
              && (|rest| > 2 ==> Decode(text + "\r\n" + rest, 0) == Decode(rest[2..], 0))
  {
    hide HeadSize;
    ReadPrintedLine(text, rest);
    NoLineFeedNoLine(text);
  }
}
