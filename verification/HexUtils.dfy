/** Hexadecimal text for hashes and 64-bit numbers, in both directions. */
module HexUtils {
  import opened Arithmetic
  import opened Octets
  import opened Options

  function HexCharToValue(c: char): int {
    if '0' <= c <= '9' then c as int - '0' as int
    else if 'a' <= c <= 'f' then c as int - 'a' as int + 10
    else if 'A' <= c <= 'F' then c as int - 'A' as int + 10
    else -1
  }

  function HexDigit(v: int): (c: char)
    ensures 0 <= v < 16 ==> HexCharToValue(c) == v && !('A' <= c <= 'F')
  {
    if 0 <= v <= 9 then '0' + v as char
    else if 10 <= v <= 15 then 'a' + (v - 10) as char
    else '0'
  }

  /** The sixteen digits in order, in either case, and nothing else. */
  lemma HexDigitValues(c: char)
    ensures forall v: nat | v < 16 :: HexCharToValue("0123456789abcdef"[v]) == v == HexCharToValue("0123456789ABCDEF"[v])
    ensures HexCharToValue(c) < 16
    ensures HexCharToValue(c) >= 0 ==>
              c == "0123456789abcdef"[HexCharToValue(c)] || c == "0123456789ABCDEF"[HexCharToValue(c)]
  {
    forall v: nat | v < 16
      ensures HexCharToValue("0123456789abcdef"[v]) == v == HexCharToValue("0123456789ABCDEF"[v])
    {
      assert v < 4 || 4 <= v < 8 || 8 <= v < 12 || 12 <= v < 16;
    }
  }

  predicate IsHex(s: string) {
    forall i | 0 <= i < |s| :: HexCharToValue(s[i]) >= 0
  }

  /** What a hexadecimal numeral means. */
  function Value(s: string): nat
    requires IsHex(s)
    decreases |s|
  {
    if s == "" then 0
    else 16 * Value(s[..|s| - 1]) + HexCharToValue(s[|s| - 1])
  }

  function StripPrefix(s: string): string {
    if |s| >= 2 && s[0] == '0' && (s[1] == 'x' || s[1] == 'X') then s[2..] else s
  }

  /** Exactly a leading "0x" or "0X" goes, once. */
  lemma StripPrefixExactly(s: string, t: string)
    ensures StripPrefix("0x" + t) == t && StripPrefix("0X" + t) == t
    ensures StripPrefix(s) == s || s == "0x" + StripPrefix(s) || s == "0X" + StripPrefix(s)
    ensures IsHex(s) ==> StripPrefix(s) == s
  {
    assert ("0x" + t)[2..] == t && ("0X" + t)[2..] == t;
    if |s| >= 2 {
      assert s == [s[0], s[1]] + s[2..];
      assert "0x" == ['0', 'x'] && "0X" == ['0', 'X'];
    }
  }

  function Zeros(n: nat): string {
    seq(n, _ => '0')
  }

  function PadLeft(s: string, width: nat): string {
    if |s| < width then Zeros(width - |s|) + s else s
  }

  function Pair(high: int, low: int): (b: Octet)
    requires 0 <= high < 16 && 0 <= low < 16
  {
    16 * high + low
  }

  /** Pairs of digits as bytes. */
  function Pairs(s: string): (b: seq<Octet>)
    requires IsHex(s) && |s| % 2 == 0
    ensures |b| == |s| / 2
  {
    seq(|s| / 2, i requires 0 <= i < |s| / 2 => Pair(HexCharToValue(s[2 * i]), HexCharToValue(s[2 * i + 1])))
  }

  /** The parsers as functions: the accepted texts and what they stand for. */
  function ParseHash(s: string, bytes: nat): (h: Option<seq<Octet>>)
    ensures h.Some? ==> |h.value| == bytes
  {
    var digits := PadLeft(StripPrefix(s), 2 * bytes);
    if |digits| == 2 * bytes && IsHex(digits) then Some(Pairs(digits)) else None
  }

  function ParseUint64(s: string): Option<nat> {
    var digits := StripPrefix(s);
    if 1 <= |digits| <= 16 && IsHex(digits) then Some(Value(digits)) else None
  }

  function PrintByte(b: Octet): string {
    [HexDigit(b / 16), HexDigit(b % 16)]
  }

  function PrintBytes(h: seq<Octet>): string {
    if h == [] then "" else PrintByte(h[0]) + PrintBytes(h[1..])
  }

  function Prefix(withPrefix: bool): string {
    if withPrefix then "0x" else ""
  }

  function PrintHash(h: seq<Octet>, withPrefix: bool): string {
    Prefix(withPrefix) + PrintBytes(h)
  }

  /** The printed form of byte i: its two lower-case digits, after "0x" where that is asked for. */
  lemma PrintedHashAt(h: seq<Octet>, withPrefix: bool, i: nat)
    requires i < |h|
    ensures |PrintHash(h, withPrefix)| == 2 * |h| + (if withPrefix then 2 else 0)
    ensures withPrefix ==> PrintHash(h, withPrefix)[..2] == "0x"
    ensures var p := 2 * i + (if withPrefix then 2 else 0);
            && PrintHash(h, withPrefix)[p] == "0123456789abcdef"[h[i] / 16]
            && PrintHash(h, withPrefix)[p + 1] == "0123456789abcdef"[h[i] % 16]
  {
    PrintedByteAt(h, i);
    LowerDigit(h[i] / 16);
    LowerDigit(h[i] % 16);
  }

  lemma LowerDigit(v: nat)
    requires v < 16
    ensures HexDigit(v) == "0123456789abcdef"[v]
  {
    assert v < 4 || 4 <= v < 8 || 8 <= v < 12 || 12 <= v < 16;
  }

  lemma {:induction false} PrintedByteAt(h: seq<Octet>, i: nat)
    requires i < |h|
    ensures |PrintBytes(h)| == 2 * |h|
    ensures PrintBytes(h)[2 * i] == HexDigit(h[i] / 16) && PrintBytes(h)[2 * i + 1] == HexDigit(h[i] % 16)
    decreases |h|
  {
    hide HexDigit;
    if |h| == 1 {
      assert PrintBytes(h[1..]) == "";
    } else {
      PrintedByteAt(h[1..], if i == 0 then 0 else i - 1);
      if i > 0 {
        var rest := PrintBytes(h[1..]);
        assert PrintBytes(h)[2 * i] == rest[2 * (i - 1)] && PrintBytes(h)[2 * i + 1] == rest[2 * (i - 1) + 1];
      }
    }
  }

  /** A number printed without leading zeros. */
  function Digits(v: nat): string {
    if v < 16 then [HexDigit(v)] else Digits(v / 16) + [HexDigit(v % 16)]
  }

  function PrintUint64(v: nat, withPrefix: bool): string {
    Prefix(withPrefix) + Digits(v)
  }

  // ---------------------------------------------------------------- the code

  /** The number of leading pairs that hold two digits. */
  function GoodPairs(s: string): (n: nat)
    requires |s| % 2 == 0
    ensures n <= |s| / 2
    ensures IsHex(s[..2 * n])
    ensures n == |s| / 2 <==> IsHex(s)
    ensures n < |s| / 2 ==> HexCharToValue(s[2 * n]) < 0 || HexCharToValue(s[2 * n + 1]) < 0
  {
    GoodFrom(s, 0)
  }

  function GoodFrom(s: string, i: nat): (n: nat)
    requires |s| % 2 == 0 && i <= |s| / 2 && IsHex(s[..2 * i])
    ensures i <= n <= |s| / 2
    ensures IsHex(s[..2 * n])
    ensures n == |s| / 2 <==> IsHex(s)
    ensures n < |s| / 2 ==> HexCharToValue(s[2 * n]) < 0 || HexCharToValue(s[2 * n + 1]) < 0
    decreases |s| / 2 - i
  {
    assert s[..2 * (|s| / 2)] == s;
    if i == |s| / 2 || HexCharToValue(s[2 * i]) < 0 || HexCharToValue(s[2 * i + 1]) < 0 then i
    else
      assert s[..2 * (i + 1)] == s[..2 * i] + [s[2 * i], s[2 * i + 1]];
      GoodFrom(s, i + 1)
  }

  /** The buffer after i pairs have been converted. */
  function Filled(s: string, i: nat, before: seq<Octet>): seq<Octet>
    requires 2 * i <= |s| && i <= |before| && IsHex(s[..2 * i])
  {
    Pairs(s[..2 * i]) + before[i..]
  }

  /** What the buffer holds after a reading: as it was if the text is too long, and otherwise the
      bytes up to the first pair that is not two digits. */
  function ReadHash(s: string, before: seq<Octet>): seq<Octet> {
    var digits := PadLeft(StripPrefix(s), 2 * |before|);
    if |digits| > 2 * |before| then before else Filled(digits, GoodPairs(digits), before)
  }

  lemma ReadHashTooLong(s: string, before: seq<Octet>)
    ensures |StripPrefix(s)| > 2 * |before| ==> ReadHash(s, before) == before
  {
  }

  lemma ReadHashAccepted(s: string, before: seq<Octet>)
    ensures ParseHash(s, |before|).Some? ==> ReadHash(s, before) == ParseHash(s, |before|).value
  {
    var digits := PadLeft(StripPrefix(s), 2 * |before|);
    if |digits| == 2 * |before| {
      assert digits[..2 * (|digits| / 2)] == digits;
      assert before[|before|..] == [];
    }
  }

  /** Reads a hash into its buffer.  A text that is too long leaves the buffer alone; one with a
      character that is no digit leaves the bytes before that character overwritten. */
  method HexToHash(hexStr: string, hash: array<Octet>) returns (ok: bool)
    requires hash.Length == 32 || hash.Length == 64
    modifies hash
    ensures ok == ParseHash(hexStr, hash.Length).Some?
    ensures ok ==> hash[..] == ParseHash(hexStr, hash.Length).value
    ensures hash[..] == ReadHash(hexStr, old(hash[..]))
  {
    ReadHashAccepted(hexStr, hash[..]);
    var str := hexStr;
    if |str| >= 2 && str[0] == '0' && (str[1] == 'x' || str[1] == 'X') {
      str := str[2..];
    }
    if |str| < 2 * hash.Length {
      str := Zeros(2 * hash.Length - |str|) + str;
    }
    assert str == PadLeft(StripPrefix(hexStr), 2 * hash.Length);
    if |str| != 2 * hash.Length {
      return false;
    }
    ok := ConvertPairs(str, hash);
  }

  /** The conversion loop; it stops at the first pair that is not two digits. */
  method ConvertPairs(str: string, hash: array<Octet>) returns (ok: bool)
    requires |str| == 2 * hash.Length
    modifies hash
    ensures ok == IsHex(str)
    ensures hash[..] == Filled(str, GoodPairs(str), old(hash[..]))
  {
    hide *;
    Unfilled(str, hash[..]);
    var i := 0;
    while i < hash.Length
      invariant 0 <= i <= hash.Length
      invariant IsHex(str[..2 * i]) && i <= GoodPairs(str)
      invariant hash[..] == Filled(str, i, old(hash[..]))
    {
      var high := HexCharToValue(str[i * 2]);
      var low := HexCharToValue(str[i * 2 + 1]);
      if high < 0 || low < 0 {
        FirstBadPair(str, i);
        return false;
      }
      NextPair(str, i, old(hash[..]));
      hash[i] := Pair(high, low);
      i := i + 1;
    }
    ok := true;
  }

  lemma Unfilled(s: string, before: seq<Octet>)
    ensures IsHex(s[..2 * 0]) && Filled(s, 0, before) == before
  {
  }

  lemma FirstBadPair(s: string, i: nat)
    requires |s| % 2 == 0 && i < |s| / 2 && i <= GoodPairs(s)
    requires HexCharToValue(s[2 * i]) < 0 || HexCharToValue(s[2 * i + 1]) < 0
    ensures GoodPairs(s) == i
  {
    if i < GoodPairs(s) {
      GoodPairBelow(s, i);
    }
  }

  lemma GoodPairBelow(s: string, i: nat)
    requires |s| % 2 == 0 && i < GoodPairs(s)
    ensures HexCharToValue(s[2 * i]) >= 0 && HexCharToValue(s[2 * i + 1]) >= 0
  {
    hide GoodPairs;
    var front := s[..2 * GoodPairs(s)];
    assert front[2 * i] == s[2 * i] && front[2 * i + 1] == s[2 * i + 1];
  }

  lemma NextPair(s: string, i: nat, before: seq<Octet>)
    requires |s| % 2 == 0 && i < |s| / 2 && i < |before| && i <= GoodPairs(s) && IsHex(s[..2 * i])
    requires HexCharToValue(s[2 * i]) >= 0 && HexCharToValue(s[2 * i + 1]) >= 0
    ensures 0 <= HexCharToValue(s[2 * i]) < 16 && 0 <= HexCharToValue(s[2 * i + 1]) < 16
    ensures i + 1 <= GoodPairs(s) && IsHex(s[..2 * (i + 1)])
    ensures |Filled(s, i, before)| == |before|
    ensures Filled(s, i, before)[i := Pair(HexCharToValue(s[2 * i]), HexCharToValue(s[2 * i + 1]))]
            == Filled(s, i + 1, before)
  {
    var b := Pair(HexCharToValue(s[2 * i]), HexCharToValue(s[2 * i + 1]));
    assert s[..2 * (i + 1)] == s[..2 * i] + [s[2 * i], s[2 * i + 1]];
    assert Pairs(s[..2 * (i + 1)]) == Pairs(s[..2 * i]) + [b];
  }

  /** Prints a hash, two digits a byte. */
  method HashToHex(hash: seq<Octet>, withPrefix: bool) returns (s: string)
    ensures s == PrintHash(hash, withPrefix)
  {
    s := "";
    if withPrefix {
      s := s + "0x";
    }
    var i := 0;
    while i < |hash|
      invariant 0 <= i <= |hash|
      invariant s + PrintBytes(hash[i..]) == PrintHash(hash, withPrefix)
    {
      assert hash[i..][1..] == hash[i + 1..];
      s := s + PrintByte(hash[i]);
      i := i + 1;
    }
  }

  /** The digits a text starts with. */
  function HexRun(s: string, i: nat): (n: nat)
    requires i <= |s|
    requires IsHex(s[..i])
    ensures i <= n <= |s| && IsHex(s[..n])
    ensures n == |s| <==> IsHex(s)
    decreases |s| - i
  {
    assert s[..|s|] == s;
    if i == |s| || HexCharToValue(s[i]) < 0 then i
    else
      assert s[..i + 1] == s[..i] + [s[i]];
      HexRun(s, i + 1)
  }

  /** Reads a number into `before`.  Its shift by four drops what leaves a 64-bit word; at most
      sixteen digits never let that happen.  On a bad character the digits before it stay read. */
  method HexToUint64(hexStr: string, before: nat) returns (ok: bool, value: nat)
    ensures ok == ParseUint64(hexStr).Some?
    ensures ok ==> value == ParseUint64(hexStr).value && value < U64
    ensures !ok ==>
              var digits := StripPrefix(hexStr);
              value == if digits == "" || |digits| > 16 then before else Value(digits[..HexRun(digits, 0)])
  {
    value := before;
    var str := hexStr;
    if |str| >= 2 && str[0] == '0' && (str[1] == 'x' || str[1] == 'X') {
      str := str[2..];
    }
    if str == "" || |str| > 16 {
      return false, value;
    }
    value := 0;
    var i := 0;
    while i < |str|
      invariant 0 <= i <= |str|
      invariant IsHex(str[..i]) && value == Value(str[..i])
      invariant HexRun(str, 0) == HexRun(str, i)
    {
      hide *;
      var val := HexCharToValue(str[i]);
      if val < 0 {
        return false, value;
      }
      NextDigit(str, i);
      value := value * 16 % U64 + val;
      i := i + 1;
    }
    assert str[..i] == str;
    ValueBound(str);
    PowerBound(|str|);
    ok := true;
  }

  lemma NextDigit(s: string, i: nat)
    requires i < |s| <= 16 && IsHex(s[..i]) && HexCharToValue(s[i]) >= 0
    requires HexRun(s, 0) == HexRun(s, i)
    ensures IsHex(s[..i + 1]) && HexRun(s, 0) == HexRun(s, i + 1)
    ensures Value(s[..i + 1]) == Value(s[..i]) * 16 % U64 + HexCharToValue(s[i])
  {
    ValueBound(s[..i]);
    PowerBound(i);
    assert s[..i + 1] == s[..i] + [s[i]];
    assert s[..i + 1][..i] == s[..i];
  }

  function Power16(n: nat): (p: nat)
    ensures p >= 1
  {
    if n == 0 then 1 else 16 * Power16(n - 1)
  }

  lemma {:induction false} ValueBound(s: string)
    requires IsHex(s)
    ensures Value(s) < Power16(|s|)
    decreases |s|
  {
    if s != "" {
      ValueBound(s[..|s| - 1]);
    }
  }

  lemma PowerBound(n: nat)
    ensures n <= 15 ==> Power16(n) * 16 <= U64
    ensures n <= 16 ==> Power16(n) <= U64
  {
    if n <= 16 {
      PowerMonotone(n, 16);
      PowerSixteen();
      if n <= 15 {
        PowerMonotone(n + 1, 16);
      }
    }
  }

  lemma PowerSixteen()
    ensures Power16(16) == U64
  {
    assert Power16(4) == 0x1_0000;
    assert Power16(8) == 0x1_0000_0000;
    assert Power16(12) == 0x1_0000_0000_0000;
  }

  lemma {:induction false} PowerMonotone(n: nat, m: nat)
    requires n <= m
    ensures Power16(n) <= Power16(m)
    decreases m - n
  {
    if n < m {
      PowerMonotone(n, m - 1);
    }
  }

  // ---------------------------------------------------------------- values are preserved

  lemma {:induction false} ZerosAreHex(n: nat)
    ensures IsHex(Zeros(n)) && Value(Zeros(n)) == 0
  {
    if n > 0 {
      ZerosAreHex(n - 1);
      assert Zeros(n)[..n - 1] == Zeros(n - 1);
    }
  }

  lemma {:induction false} LeadingZeros(n: nat, s: string)
    requires IsHex(s)
    ensures IsHex(Zeros(n) + s) && Value(Zeros(n) + s) == Value(s)
    decreases |s|
  {
    ZerosAreHex(n);
    var t := Zeros(n) + s;
    if s == "" {
      assert t == Zeros(n);
    } else {
      LeadingZeros(n, s[..|s| - 1]);
      assert t[..|t| - 1] == Zeros(n) + s[..|s| - 1];
    }
  }

  lemma PaddingKeepsValue(s: string, width: nat)
    ensures IsHex(PadLeft(s, width)) <==> IsHex(s)
    ensures IsHex(s) ==> Value(PadLeft(s, width)) == Value(s)
  {
    var t := PadLeft(s, width);
    if IsHex(s) && |s| < width {
      LeadingZeros(width - |s|, s);
    }
    if IsHex(t) {
      assert forall i | 0 <= i < |s| :: s[i] == t[|t| - |s| + i];
    }
  }

  lemma LastPair(s: string)
    requires IsHex(s) && |s| >= 2 && |s| % 2 == 0
    ensures var front, n := s[..|s| - 2], |s| - 2;
            && Value(s) == 256 * Value(front) + Pair(HexCharToValue(s[n]), HexCharToValue(s[n + 1]))
            && Pairs(s) == Pairs(front) + [Pair(HexCharToValue(s[n]), HexCharToValue(s[n + 1]))]
  {
    var n := |s| - 2;
    assert s[..n + 1][..n] == s[..n];
    assert n == 2 * (|s| / 2 - 1);
  }

  lemma {:induction false} PairsValue(s: string)
    requires IsHex(s) && |s| % 2 == 0
    ensures BigEndian(Pairs(s)) == Value(s)
    decreases |s|
  {
    if s != "" {
      hide Value, Pairs;
      var front := s[..|s| - 2];
      PairsValue(front);
      LastPair(s);
      assert Pairs(s)[..|Pairs(s)| - 1] == Pairs(front);
    }
  }

  /** Exactly the texts with at most two digits a byte are accepted, the empty one among them, and
      they read as the number they denote, whatever their prefix, padding and letter case. */
  lemma HashIsItsNumeral(s: string, bytes: nat)
    ensures ParseHash(s, bytes).Some? <==> |StripPrefix(s)| <= 2 * bytes && IsHex(StripPrefix(s))
    ensures ParseHash(s, bytes).Some? ==> BigEndian(ParseHash(s, bytes).value) == Value(StripPrefix(s))
  {
    var digits := PadLeft(StripPrefix(s), 2 * bytes);
    PaddingKeepsValue(StripPrefix(s), 2 * bytes);
    if ParseHash(s, bytes).Some? {
      PairsValue(digits);
    }
  }

  /** Two accepted texts read as the same hash exactly when they denote the same number. */
  lemma SameHashSameNumeral(s: string, t: string, bytes: nat)
    requires ParseHash(s, bytes).Some? && ParseHash(t, bytes).Some?
    ensures IsHex(StripPrefix(s)) && IsHex(StripPrefix(t))
    ensures ParseHash(s, bytes) == ParseHash(t, bytes) <==> Value(StripPrefix(s)) == Value(StripPrefix(t))
  {
    HashIsItsNumeral(s, bytes);
    HashIsItsNumeral(t, bytes);
    if Value(StripPrefix(s)) == Value(StripPrefix(t)) {
      BigEndianInjective(ParseHash(s, bytes).value, ParseHash(t, bytes).value);
    }
  }

  // ---------------------------------------------------------------- parsing inverts printing

  lemma {:induction false} PrintedBytes(h: seq<Octet>)
    ensures |PrintBytes(h)| == 2 * |h| && IsHex(PrintBytes(h)) && Pairs(PrintBytes(h)) == h
    decreases |h|
  {
    if h != [] {
      PrintedBytes(h[1..]);
      PairsConcat(PrintByte(h[0]), PrintBytes(h[1..]));
      assert Pairs(PrintByte(h[0])) == [h[0]];
    }
  }

  lemma PairsConcat(a: string, b: string)
    requires IsHex(a) && IsHex(b) && |a| % 2 == 0 && |b| % 2 == 0
    ensures IsHex(a + b) && Pairs(a + b) == Pairs(a) + Pairs(b)
  {
    var n := |a| / 2;
    assert |a| == 2 * n;
    forall i: nat | i < (|a| + |b|) / 2
      ensures Pairs(a + b)[i] == (Pairs(a) + Pairs(b))[i]
    {
      if i >= n {
        assert (a + b)[2 * i] == b[2 * (i - n)] && (a + b)[2 * i + 1] == b[2 * (i - n) + 1];
      }
    }
  }

  lemma StripPrinted(s: string, withPrefix: bool)
    requires IsHex(s)
    ensures StripPrefix(Prefix(withPrefix) + s) == s
  {
    if withPrefix {
      assert ("0x" + s)[2..] == s;
    } else {
      assert "" + s == s;
    }
  }

  /** Every hash is read back from its printed form, with and without the prefix. */
  lemma HashRoundTrip(h: seq<Octet>, withPrefix: bool)
    ensures ParseHash(PrintHash(h, withPrefix), |h|) == Some(h)
  {
    PrintedBytes(h);
    StripPrinted(PrintBytes(h), withPrefix);
  }

  lemma {:induction false} DigitsValue(v: nat)
    ensures IsHex(Digits(v)) && Value(Digits(v)) == v
  {
    if v >= 16 {
      DigitsValue(v / 16);
      assert Digits(v)[..|Digits(v)| - 1] == Digits(v / 16);
    } else {
      assert Digits(v)[..0] == "";
    }
  }

  /** A printed number is as short as its value allows: n digits exactly from 16^(n-1) on. */
  lemma {:induction false} DigitsLength(v: nat, n: nat)
    requires n >= 1
    ensures |Digits(v)| <= n <==> v < Power16(n)
    decreases v
  {
    if v >= 16 {
      if n > 1 {
        DigitsLength(v / 16, n - 1);
        DivideByDigit(v, Power16(n - 1));
      } else {
        assert Digits(v / 16) != "";
      }
    }
  }

  lemma DivideByDigit(v: nat, p: nat)
    ensures v / 16 < p <==> v < 16 * p
  {
  }

  /** Every 64-bit number is read back from its printed form, with and without the prefix. */
  lemma Uint64RoundTrip(v: nat, withPrefix: bool)
    requires v < U64
    ensures ParseUint64(PrintUint64(v, withPrefix)) == Some(v)
  {
    DigitsValue(v);
    DigitsLength(v, 16);
    PowerSixteen();
    StripPrinted(Digits(v), withPrefix);
    assert |Digits(v)| >= 1;
  }

  /** The nonce of a submitted share: sixteen digits, zero-padded, no prefix. */
  function PrintNonce(v: nat): string {
    PadLeft(Digits(v), 16)
  }

  lemma NonceRoundTrip(v: nat)
    requires v < U64
    ensures |PrintNonce(v)| == 16 && ParseUint64(PrintNonce(v)) == Some(v)
  {
    DigitsValue(v);
    DigitsLength(v, 16);
    PowerSixteen();
    PaddingKeepsValue(Digits(v), 16);
    StripPrinted(PrintNonce(v), false);
    assert Prefix(false) + PrintNonce(v) == PrintNonce(v);
  }
}
