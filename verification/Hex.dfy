/** Hexadecimal text: Go's encoding/hex and the hosts' own routines. */
module Hex {
  import opened Words
  import opened Wrappers

  const DIGITS := "0123456789abcdef"

  type Nibble = x: int | 0 <= x < 16

  function DigitChar(x: Nibble): char {
    DIGITS[x]
  }

  /** The value of a hex digit in either case. */
  function DigitValue(c: char): (v: Option<Nibble>)
  {
    if '0' <= c <= '9' then Some(c as int - '0' as int)
    else if 'a' <= c <= 'f' then Some(c as int - 'a' as int + 10)
    else if 'A' <= c <= 'F' then Some(c as int - 'A' as int + 10)
    else None
  }

  lemma DigitRoundTrip(x: Nibble)
    ensures DigitValue(DigitChar(x)) == Some(x)
    ensures DigitChar(x) != '"' && DigitChar(x) != 'x'
  {
  }

  /** The sixteen digits in either case, and no other character. */
  lemma DigitsAre(c: char, x: Nibble)
    ensures DigitValue(c) == Some(x) <==> c == "0123456789abcdef"[x] || c == "0123456789ABCDEF"[x]
    ensures DigitChar(x) == "0123456789abcdef"[x]
  {
    if x < 10 { DecimalDigits(c, x); } else { LetterDigits(c, x); }
  }

  lemma DecimalDigits(c: char, x: Nibble)
    requires x < 10
    ensures DigitValue(c) == Some(x) <==> c == "0123456789abcdef"[x]
    ensures "0123456789abcdef"[x] == "0123456789ABCDEF"[x]
  {
  }

  lemma LetterDigits(c: char, x: Nibble)
    requires x >= 10
    ensures DigitValue(c) == Some(x) <==> c == "0123456789abcdef"[x] || c == "0123456789ABCDEF"[x]
  {
  }

  /** Lower-case encoding, two digits a byte. */
  function Encode(bytes: seq<Byte>): (s: string)
    ensures |s| == 2 * |bytes|
    ensures forall i :: 0 <= i < |bytes| ==>
      s[2 * i] == DigitChar(bytes[i] / 16) && s[2 * i + 1] == DigitChar(bytes[i] % 16)
  {
    if bytes == [] then "" else [DigitChar(bytes[0] / 16), DigitChar(bytes[0] % 16)] + Encode(bytes[1..])
  }

  /** Go's hex.DecodeString: odd length or a foreign character is an error. */
  function Decode(s: string): Option<seq<Byte>> {
    if s == "" then Some([])
    else if |s| == 1 then None
    else
      var hi, lo := DigitValue(s[0]), DigitValue(s[1]);
      var rest := Decode(s[2..]);
      if hi.None? || lo.None? || rest.None? then None
      else Some([16 * hi.value + lo.value] + rest.value)
  }

  lemma {:induction false} RoundTrip(bytes: seq<Byte>)
    ensures Decode(Encode(bytes)) == Some(bytes)
    decreases |bytes|
  {
    hide Decode, Encode, DigitChar, DigitValue;
    if bytes == [] {
      EmptyRoundTrip();
    } else {
      var b := bytes[0];
      var t := Encode(bytes[1..]);
      EncodeStep(bytes);
      DigitRoundTrip(b / 16);
      DigitRoundTrip(b % 16);
      DecodeStep(DigitChar(b / 16), DigitChar(b % 16), t);
      RoundTrip(bytes[1..]);
      assert [16 * (b / 16) + b % 16] + bytes[1..] == bytes;
    }
  }

  lemma EmptyRoundTrip()
    ensures Decode(Encode([])) == Some([])
  {
  }

  lemma EncodeStep(bytes: seq<Byte>)
    requires bytes != []
    ensures Encode(bytes) == [DigitChar(bytes[0] / 16), DigitChar(bytes[0] % 16)] + Encode(bytes[1..])
  {
    hide DigitChar;
  }

  lemma DecodeStep(c: char, d: char, t: string)
    requires DigitValue(c).Some? && DigitValue(d).Some?
    ensures Decode(t).Some? ==> Decode([c, d] + t) == Some([16 * DigitValue(c).value + DigitValue(d).value] + Decode(t).value)
  {
    hide DigitValue;
    var s := [c, d] + t;
    assert s[0] == c && s[1] == d && s[2..] == t;
  }

  /** Decoding succeeds exactly on even-length strings of hex digits. */
  lemma {:induction false} DecodesIff(s: string)
    ensures Decode(s).Some? <==> |s| % 2 == 0 && forall i :: 0 <= i < |s| ==> DigitValue(s[i]).Some?
    ensures Decode(s).Some? ==> |Decode(s).value| == |s| / 2
    decreases |s|
  {
    if |s| >= 2 {
      DecodesIff(s[2..]);
      assert forall i :: 2 <= i < |s| ==> s[i] == s[2..][i - 2];
    }
  }

  /** The hosts' digit value: anything that is not a digit counts as 0. */
  function LaxDigit(c: char): Nibble {
    var v := DigitValue(c);
    if v.Some? then v.value else 0
  }

  /** The hosts' decoder: an optional 0x is dropped, only an odd length fails. */
  method HexToBytes(hex: string) returns (ok: bool, out: seq<Byte>)
    ensures ok <==> |Strip0x(hex)| % 2 == 0
    ensures ok ==> out == LaxDecode(Strip0x(hex))
  {
    var h := hex;
    if |h| >= 2 && h[0] == '0' && h[1] == 'x' {
      h := h[2..];
    }
    if |h| % 2 != 0 {
      return false, [];
    }
    out := [];
    for i := 0 to |h| / 2
      invariant |out| == i
      invariant forall j :: 0 <= j < i ==> out[j] == 16 * LaxDigit(h[2 * j]) + LaxDigit(h[2 * j + 1])
    {
      out := out + [16 * LaxDigit(h[2 * i]) + LaxDigit(h[2 * i + 1])];
    }
    return true, out;
  }

  function Strip0x(hex: string): string {
    if |hex| >= 2 && hex[0] == '0' && hex[1] == 'x' then hex[2..] else hex
  }

  function LaxDecode(h: string): seq<Byte>
    requires |h| % 2 == 0
  {
    seq(|h| / 2, (i: nat) requires i < |h| / 2 => 16 * LaxDigit(h[2 * i]) + LaxDigit(h[2 * i + 1]))
  }

  lemma PairRoundTrip(b: Byte)
    ensures 16 * LaxDigit(DigitChar(b / 16)) + LaxDigit(DigitChar(b % 16)) == b
    ensures DigitChar(b % 16) != 'x'
  {
    DigitRoundTrip(b / 16);
    DigitRoundTrip(b % 16);
  }

  /** The hosts read back what the Go side encodes. */
  lemma HostReadsGo(bytes: seq<Byte>)
    ensures Strip0x(Encode(bytes)) == Encode(bytes)
    ensures LaxDecode(Encode(bytes)) == bytes
  {
    hide LaxDigit, DigitChar, Encode;
    var s, d := Encode(bytes), LaxDecode(Encode(bytes));
    forall i | 0 <= i < |bytes| ensures d[i] == bytes[i] {
      PairRoundTrip(bytes[i]);
      assert s[2 * i] == DigitChar(bytes[i] / 16) && s[2 * i + 1] == DigitChar(bytes[i] % 16);
    }
    if bytes != [] {
      PairRoundTrip(bytes[0]);
      assert s[2 * 0 + 1] == DigitChar(bytes[0] % 16);
    }
  }

  lemma {:induction false} DecodeAt(s: string, i: nat)
    requires Decode(s).Some? && 2 * i + 1 < |s|
    ensures DigitValue(s[2 * i]).Some? && DigitValue(s[2 * i + 1]).Some? && i < |Decode(s).value|
    ensures Decode(s).value[i] == 16 * DigitValue(s[2 * i]).value + DigitValue(s[2 * i + 1]).value
    decreases i
  {
    DecodesIff(s);
    if i > 0 { DecodeAt(s[2..], i - 1); }
  }

  /** What Go's decoder reads, the hosts' reads alike, with or without 0x. */
  lemma HostReadsHex(s: string)
    requires Decode(s).Some?
    ensures |s| % 2 == 0 && LaxDecode(s) == Decode(s).value
    ensures Strip0x("0x" + s) == s && Strip0x(s) == s
  {
    hide Decode, DigitValue;
    DecodesIff(s);
    forall i | 0 <= i < |s| / 2 ensures LaxDecode(s)[i] == Decode(s).value[i] { DecodeAt(s, i); }
    if s != "" { NotADigit(s[1]); }
  }

  lemma NotADigit(c: char)
    requires DigitValue(c).Some?
    ensures c != 'x'
  {
  }

  /** Where it would not read a character, the hosts' reads the digit 0. */
  lemma ForeignIsZero(s: string, i: nat)
    requires |s| % 2 == 0 && i < |s| && DigitValue(s[i]).None?
    ensures LaxDecode(s) == LaxDecode(s[i := '0'])
  {
    hide DigitValue;
    ZeroDigit();
  }

  lemma ZeroDigit()
    ensures DigitValue('0') == Some(0)
  {
  }
}
