/**
 * The hex encoding TokenStorage uses for the preference values:
 * `bytesToHex` formats each byte with `"%02x"` and `hexToBytes` parses the
 * string two characters at a time with `String.toInt(16)` followed by
 * `Int.toByte()`.
 *
 * A Kotlin `Byte` is signed; here a byte is its unsigned bit pattern 0..255,
 * which is what `"%02x"` prints for it.
 */
module HexCodec {
  import opened Wrappers

  type Byte = b: int | 0 <= b < 256

  const HexDigits: string := "0123456789abcdef"

  predicate IsLowerHexDigit(c: char) { '0' <= c <= '9' || 'a' <= c <= 'f' }

  /** A string `bytesToHex` can produce: an even number of lowercase hex digits. */
  predicate IsLowerHex(s: string)
  {
    |s| % 2 == 0 && forall i :: 0 <= i < |s| ==> IsLowerHexDigit(s[i])
  }

  /** `"%02x".format(b)`: two lowercase digits, high nibble first. */
  function ByteToHex(b: Byte): (hex: string)
    ensures |hex| == 2 && IsLowerHexDigit(hex[0]) && IsLowerHexDigit(hex[1])
  {
    [HexDigits[b / 16], HexDigits[b % 16]]
  }

  /** `bytes.joinToString("") { "%02x".format(it) }`. */
  function BytesToHex(bytes: seq<Byte>): (hex: string)
    ensures |hex| == 2 * |bytes|
    ensures IsLowerHex(hex)
  {
    if bytes == [] then "" else ByteToHex(bytes[0]) + BytesToHex(bytes[1..])
  }

  /** `Character.digit(c, 16)` on ASCII input; None stands for -1. */
  function DigitValue(c: char): (d: Option<nat>)
    ensures d.Some? ==> d.value < 16
  {
    if '0' <= c <= '9' then Some(c as int - '0' as int)
    else if 'a' <= c <= 'f' then Some(c as int - 'a' as int + 10)
    else if 'A' <= c <= 'F' then Some(c as int - 'A' as int + 10)
    else None
  }

  /** Every character of `s` is a hex digit, in either case. */
  predicate AllDigits(s: string)
  {
    forall i :: 0 <= i < |s| ==> DigitValue(s[i]).Some?
  }

  /** The digit loop of `String.toInt(16)`: every character must be a digit. */
  function ParseDigits(s: string): (v: Option<nat>)
    ensures v.Some? <==> AllDigits(s)
    ensures v.Some? ==> v.value < Pow16(|s|)
  {
    if s == [] then Some(0)
    else
      match (ParseDigits(s[..|s| - 1]), DigitValue(s[|s| - 1]))
      case (Some(high), Some(low)) => Some(high * 16 + low)
      case _ => None
  }

  /** 16 to the power n: the bound on the value of n hex digits. */
  function Pow16(n: nat): nat
  {
    if n == 0 then 1 else 16 * Pow16(n - 1)
  }

  /** The range of a Kotlin (JVM) `Int`. */
  const IntMin: int := -0x8000_0000
  const IntMax: int := 0x7fff_ffff

  /**
   * The value of a hex literal as `String.toInt(16)` reads it, before the
   * `Int` range check: an optional leading '+' or '-' followed by at least
   * one digit, or digits alone.
   */
  function HexLiteral(s: string): (v: Option<int>)
    ensures v.Some? <==>
      (s != [] && AllDigits(s)) ||
      (|s| >= 2 && (s[0] == '-' || s[0] == '+') && AllDigits(s[1..]))
    ensures |s| == 1 && (s[0] == '-' || s[0] == '+') ==> v.None?
    ensures v.Some? && s[0] == '-' ==> v.value <= 0
    ensures v.Some? && s[0] != '-' ==> v.value >= 0
  {
    if s == [] then None
    else if s[0] < '0' then
      if |s| == 1 then None
      else if s[0] == '-' then
        match ParseDigits(s[1..])
        case Some(d) => Some(-(d as int))
        case None => None
      else if s[0] == '+' then
        match ParseDigits(s[1..])
        case Some(d) => Some(d)
        case None => None
      else None
    else
      match ParseDigits(s)
      case Some(d) => Some(d)
      case None => None
  }

  /**
   * `String.toInt(16)`, None standing for NumberFormatException: a hex
   * literal whose value fits in an `Int`. On the one- and two-character
   * chunks `hexToBytes` passes, the range check never applies.
   */
  function ParseHexInt(s: string): (v: Option<int>)
    ensures v.Some? <==> HexLiteral(s).Some? && IntMin <= HexLiteral(s).value <= IntMax
    ensures v.Some? ==> v == HexLiteral(s)
    ensures |s| <= 2 ==> v == HexLiteral(s)
  {
    match HexLiteral(s)
    case Some(x) => if IntMin <= x <= IntMax then Some(x) else None
    case None => None
  }

  /** `Int.toByte()`: the low eight bits, seen unsigned. */
  function ToByte(v: int): (b: Byte)
    ensures (b - v) % 256 == 0
    ensures 0 <= v < 256 ==> b == v
  {
    v % 256
  }

  /**
   * `hex.chunked(2).map { it.toInt(16).toByte() }.toByteArray()`, None
   * standing for the exception any chunk raises. An odd length leaves a
   * last chunk of one character, which parses like any other.
   */
  function HexToBytes(hex: string): (bytes: Option<seq<Byte>>)
    ensures bytes.Some? ==> |bytes.value| == (|hex| + 1) / 2
    decreases |hex|
  {
    if hex == [] then Some([])
    else
      var n := if |hex| < 2 then |hex| else 2;
      match (ParseHexInt(hex[..n]), HexToBytes(hex[n..]))
      case (Some(v), Some(rest)) => Some([ToByte(v)] + rest)
      case _ => None
  }

  lemma DigitOfHexDigit(d: nat)
    requires d < 16
    ensures DigitValue(HexDigits[d]) == Some(d)
  {
  }

  lemma HexDigitOfDigit(c: char)
    requires IsLowerHexDigit(c)
    ensures DigitValue(c).Some? && HexDigits[DigitValue(c).value] == c
  {
    if '0' <= c <= '9' {
      assert HexDigits[c as int - '0' as int] == c;
    } else {
      assert HexDigits[c as int - 'a' as int + 10] == c;
    }
  }

  /** One formatted byte parses back to itself. */
  lemma ByteRoundTrip(b: Byte)
    ensures ParseHexInt(ByteToHex(b)) == Some(b)
  {
    var hex := ByteToHex(b);
    DigitOfHexDigit(b / 16);
    DigitOfHexDigit(b % 16);
    assert hex[..1] == [HexDigits[b / 16]];
    assert ParseDigits(hex[..1]) == Some(b / 16);
    assert hex[..|hex| - 1] == hex[..1];
  }

  /** Decoding what `bytesToHex` produced gives back exactly the bytes. */
  lemma {:induction false} HexRoundTrip(bytes: seq<Byte>)
    ensures HexToBytes(BytesToHex(bytes)) == Some(bytes)
  {
    if bytes != [] {
      var hex := BytesToHex(bytes);
      assert hex[..2] == ByteToHex(bytes[0]);
      assert hex[2..] == BytesToHex(bytes[1..]);
      ByteRoundTrip(bytes[0]);
      HexRoundTrip(bytes[1..]);
      assert [bytes[0]] + bytes[1..] == bytes;
    }
  }

  /** A value below 256 splits into its two nibbles. */
  lemma Nibbles(high: nat, low: nat)
    requires high < 16 && low < 16
    ensures (high * 16 + low) / 16 == high && (high * 16 + low) % 16 == low
  {
  }

  /** Two lowercase hex digits parse to a byte that formats back to them. */
  lemma ChunkRoundTrip(chunk: string)
    requires |chunk| == 2 && IsLowerHexDigit(chunk[0]) && IsLowerHexDigit(chunk[1])
    ensures ParseHexInt(chunk).Some? && 0 <= ParseHexInt(chunk).value < 256
    ensures ByteToHex(ToByte(ParseHexInt(chunk).value)) == chunk
  {
    HexDigitOfDigit(chunk[0]);
    HexDigitOfDigit(chunk[1]);
    var high, low := DigitValue(chunk[0]).value, DigitValue(chunk[1]).value;
    assert chunk[..1] == [chunk[0]];
    assert ParseDigits(chunk[..1]) == Some(high);
    assert chunk[..|chunk| - 1] == chunk[..1];
    var b := high * 16 + low;
    assert ParseDigits(chunk) == Some(b);
    assert ParseHexInt(chunk) == Some(b);
    Nibbles(high, low);
    assert ByteToHex(b) == [HexDigits[high], HexDigits[low]];
  }

  /**
   * The converse round trip: every string `bytesToHex` can produce decodes,
   * and encoding the result gives the string back.
   */
  lemma {:induction false} LowerHexRoundTrip(hex: string)
    requires IsLowerHex(hex)
    ensures HexToBytes(hex).Some? && BytesToHex(HexToBytes(hex).value) == hex
    decreases |hex|
  {
    if hex != [] {
      ChunkRoundTrip(hex[..2]);
      assert IsLowerHex(hex[2..]) by {
        assert forall i :: 0 <= i < |hex[2..]| ==> hex[2..][i] == hex[i + 2];
      }
      LowerHexRoundTrip(hex[2..]);
      var bytes := HexToBytes(hex).value;
      assert bytes[1..] == HexToBytes(hex[2..]).value;
      assert hex == hex[..2] + hex[2..];
    }
  }

  /** A string of one chunk decodes to the one byte that chunk parses to. */
  lemma SingleChunk(hex: string)
    requires 1 <= |hex| <= 2 && ParseHexInt(hex).Some?
    ensures HexToBytes(hex) == Some([ToByte(ParseHexInt(hex).value)])
  {
    assert hex[..|hex|] == hex && hex[|hex|..] == [];
    assert HexToBytes(hex[|hex|..]) == Some([]);
    assert [ToByte(ParseHexInt(hex).value)] + [] == [ToByte(ParseHexInt(hex).value)];
  }

  /**
   * A chunk holding a character that is neither a digit nor a sign does not
   * parse, wherever that character sits.
   */
  lemma NonHexChunk(chunk: string, i: int)
    requires 0 <= i < |chunk| && DigitValue(chunk[i]).None? && chunk[i] != '+' && chunk[i] != '-'
    ensures ParseHexInt(chunk) == None
  {
    if i > 0 {
      assert chunk[1..][i - 1] == chunk[i];
    }
  }

  /**
   * Decoding fails as soon as any character of the string is neither a
   * digit nor a sign, whichever chunk it falls in.
   */
  lemma {:induction false} NonHexCharFails(hex: string, i: int)
    requires 0 <= i < |hex| && DigitValue(hex[i]).None? && hex[i] != '+' && hex[i] != '-'
    ensures HexToBytes(hex) == None
    decreases |hex|
  {
    var n := if |hex| < 2 then |hex| else 2;
    if i < n {
      assert hex[..n][i] == hex[i];
      NonHexChunk(hex[..n], i);
    } else {
      assert hex[n..][i - n] == hex[i];
      NonHexCharFails(hex[n..], i - n);
    }
  }

  /** Appending one character extends the digit loop by one step. */
  lemma {:induction false} ParseDigitsSnoc(s: string, c: char)
    requires ParseDigits(s).Some? && DigitValue(c).Some?
    ensures ParseDigits(s + [c]) == Some(ParseDigits(s).value * 16 + DigitValue(c).value)
  {
    var t := s + [c];
    assert t[..|t| - 1] == s && t[|t| - 1] == c;
  }

  /** The largest `Int` in eight hex digits. */
  lemma MaxIntDigits()
    ensures ParseDigits("7fffffff") == Some(IntMax)
  {
    var s1 := "7";
    assert ParseDigits(s1) == Some(7) by { assert s1[..0] == []; }
    ParseDigitsSnoc(s1, 'f');
    var s2 := s1 + ['f'];
    ParseDigitsSnoc(s2, 'f');
    var s3 := s2 + ['f'];
    ParseDigitsSnoc(s3, 'f');
    var s4 := s3 + ['f'];
    ParseDigitsSnoc(s4, 'f');
    var s5 := s4 + ['f'];
    ParseDigitsSnoc(s5, 'f');
    var s6 := s5 + ['f'];
    ParseDigitsSnoc(s6, 'f');
    var s7 := s6 + ['f'];
    ParseDigitsSnoc(s7, 'f');
    assert s7 + ['f'] == "7fffffff";
  }

  /** 2^31, the magnitude of the smallest `Int`, in eight hex digits. */
  lemma MinIntDigits()
    ensures ParseDigits("80000000") == Some(-IntMin)
  {
    var s1 := "8";
    assert ParseDigits(s1) == Some(8) by { assert s1[..0] == []; }
    ParseDigitsSnoc(s1, '0');
    var s2 := s1 + ['0'];
    ParseDigitsSnoc(s2, '0');
    var s3 := s2 + ['0'];
    ParseDigitsSnoc(s3, '0');
    var s4 := s3 + ['0'];
    ParseDigitsSnoc(s4, '0');
    var s5 := s4 + ['0'];
    ParseDigitsSnoc(s5, '0');
    var s6 := s5 + ['0'];
    ParseDigitsSnoc(s6, '0');
    var s7 := s6 + ['0'];
    ParseDigitsSnoc(s7, '0');
    assert s7 + ['0'] == "80000000";
  }

  /** Eight digits reach the edges of the `Int` range: 2^31 itself overflows. */
  lemma IntRangeEdges()
    ensures ParseHexInt("7fffffff") == Some(IntMax)
    ensures ParseHexInt("80000000") == None
    ensures ParseHexInt("-80000000") == Some(IntMin)
  {
    MaxIntDigits();
    MinIntDigits();
    var minus := "-80000000";
    assert minus[1..] == "80000000";
  }

  /** Strings outside the format: a non-digit fails, a sign or upper case is accepted. */
  lemma ParseQuirks()
    ensures HexToBytes("zz") == None
    ensures HexToBytes("-1") == Some([255])
    ensures HexToBytes("FF") == Some([255])
    ensures HexToBytes("abc") == Some([0xab, 0x0c])
  {
    assert "zz"[..1] == "z";
    var minusOne := "-1";
    assert minusOne[1..] == "1" && "1"[..0] == [];
    assert ParseDigits("1") == Some(1);
    assert ParseHexInt(minusOne) == Some(-1);
    SingleChunk(minusOne);
    var upper := "FF";
    assert upper[..1] == "F" && "F"[..0] == [];
    assert ParseDigits("F") == Some(15);
    assert ParseHexInt(upper) == Some(255);
    SingleChunk(upper);
    var odd := "abc";
    assert odd[..2] == "ab" && "ab"[..1] == "a" && "a"[..0] == [];
    assert ParseDigits("a") == Some(10);
    assert ParseHexInt(odd[..2]) == Some(0xab);
    var last := odd[2..];
    assert last == "c" && "c"[..0] == [];
    assert ParseHexInt(last) == Some(0x0c);
    SingleChunk(last);
    assert [ToByte(0xab)] + [ToByte(0x0c)] == [0xab, 0x0c];
  }
}
