/** Binary strings: the conversion by way of hexadecimal digits, and the counter that lists all of a width. */
module BinaryCounter {

  datatype Converted = Binary(text: string) | TooLarge | BadDigit

  function Pow2(n: nat): nat {
    if n == 0 then 1 else 2 * Pow2(n - 1)
  }

  // ---------------------------------------------------------------- values of binary strings

  predicate IsBinary(s: string) {
    forall k :: 0 <= k < |s| ==> s[k] == '0' || s[k] == '1'
  }

  function Bit(c: char): nat {
    if c == '1' then 1 else 0
  }

  function Value(s: string): nat {
    if s == [] then 0 else 2 * Value(s[..|s| - 1]) + Bit(s[|s| - 1])
  }

  datatype Parsed = Number(value: nat) | NotANumber

  /** The reading of a string of binary digits; the empty string is not one. */
  function Bin2Int(s: string): Parsed {
    if s != [] && IsBinary(s) then Number(Value(s)) else NotANumber
  }

  lemma {:induction false} ValueFits(s: string)
    ensures Value(s) < Pow2(|s|)
  {
    if s != [] {
      ValueFits(s[..|s| - 1]);
    }
  }

  lemma {:induction false} ValueIsInjective(s: string, t: string)
    requires |s| == |t| && IsBinary(s) && IsBinary(t) && Value(s) == Value(t)
    ensures s == t
  {
    if s != [] {
      var n := |s| - 1;
      ValueIsInjective(s[..n], t[..n]);
      assert s == s[..n] + [s[n]] && t == t[..n] + [t[n]];
    }
  }

  lemma {:induction false} ZerosInFront(zeros: string, s: string)
    requires '1' !in zeros
    ensures Value(zeros + s) == Value(s)
  {
    if s != [] {
      ZerosInFront(zeros, s[..|s| - 1]);
      assert (zeros + s)[..|zeros + s| - 1] == zeros + s[..|s| - 1];
    } else if zeros != [] {
      ZerosInFront(zeros[..|zeros| - 1], []);
      assert zeros + s == zeros && zeros[..|zeros| - 1] + s == zeros[..|zeros| - 1];
    }
  }

  lemma {:induction false} OneInFront(front: string, s: string)
    requires '1' in front
    ensures Value(front + s) >= Pow2(|s|)
  {
    if s != [] {
      OneInFront(front, s[..|s| - 1]);
      assert (front + s)[..|front + s| - 1] == front + s[..|s| - 1];
    } else {
      assert front + s == front;
      OnePositive(front);
    }
  }

  lemma {:induction false} OnePositive(s: string)
    requires '1' in s
    ensures Value(s) >= 1
  {
    if s[|s| - 1] != '1' {
      OnePositive(s[..|s| - 1]);
    }
  }

  // ---------------------------------------------------------------- by way of hexadecimal digits

  const HEX_TO_BIN: map<char, string> :=
    map['0' := "0000", '1' := "0001", '2' := "0010", '3' := "0011", '4' := "0100", '5' := "0101", '6' := "0110",
        '7' := "0111", '8' := "1000", '9' := "1001", 'a' := "1010", 'b' := "1011", 'c' := "1100", 'd' := "1101",
        'e' := "1110", 'f' := "1111"]

  function HexChar(d: nat): char
    requires d < 16
  {
    "0123456789abcdef"[d]
  }

  function HexDigits(i: nat): string {
    if i < 16 then [HexChar(i)] else HexDigits(i / 16) + [HexChar(i % 16)]
  }

  /** Lower-case hexadecimal with its prefix; a sign comes first. */
  function Hex(i: int): string {
    if i < 0 then "-0x" + HexDigits(-i) else "0x" + HexDigits(i)
  }

  function Nibbles(digits: string): Converted {
    if digits == [] then Binary("")
    else
      var first := Nibbles(digits[..|digits| - 1]);
      var c := digits[|digits| - 1];
      if first.Binary? && c in HEX_TO_BIN then Binary(first.text + HEX_TO_BIN[c]) else BadDigit
  }

  /** Where the slices [:-n] and [-n:] divide a string of this length. */
  function Cut(length: nat, n: int): (k: nat)
    ensures k <= length
  {
    if n > 0 then if n < length then length - n else 0
    else if -n < length then -n else length
  }

  function Zeros(n: int): (s: string)
    ensures '1' !in s && IsBinary(s) && |s| == if n < 0 then 0 else n
  {
    seq(if n < 0 then 0 else n, k => '0')
  }

  function Int2Bin(i: int, n: int): Converted {
    var result := Nibbles(Hex(i)[2..]);
    if !result.Binary? then BadDigit
    else
      var k := Cut(|result.text|, n);
      if '1' in result.text[..k] then TooLarge
      else
        var kept := result.text[k..];
        Binary(Zeros(n - |kept|) + kept)
  }

  lemma NibbleValue(s: string, d: nat)
    requires d < 16
    ensures HexChar(d) in HEX_TO_BIN && IsBinary(HEX_TO_BIN[HexChar(d)])
    ensures Value(s + HEX_TO_BIN[HexChar(d)]) == 16 * Value(s) + d
  {
    hide Value;
    NibbleBits(d);
    FourBits(s, HEX_TO_BIN[HexChar(d)]);
  }

  lemma NibbleBits(d: nat)
    requires d < 16
    ensures HexChar(d) in HEX_TO_BIN
    ensures var t := HEX_TO_BIN[HexChar(d)];
            |t| == 4 && IsBinary(t) && d == 8 * Bit(t[0]) + 4 * Bit(t[1]) + 2 * Bit(t[2]) + Bit(t[3])
  {
    assert d in {0, 1, 2, 3, 4, 5, 6, 7, 8, 9, 10, 11, 12, 13, 14, 15};
  }

  lemma FourBits(s: string, t: string)
    requires |t| == 4
    ensures Value(s + t) == 16 * Value(s) + 8 * Bit(t[0]) + 4 * Bit(t[1]) + 2 * Bit(t[2]) + Bit(t[3])
  {
    OneBit(s, t[0]);
    OneBit(s + [t[0]], t[1]);
    OneBit(s + [t[0]] + [t[1]], t[2]);
    OneBit(s + [t[0]] + [t[1]] + [t[2]], t[3]);
    assert s + t == s + [t[0]] + [t[1]] + [t[2]] + [t[3]];
  }

  lemma OneBit(s: string, c: char)
    ensures Value(s + [c]) == 2 * Value(s) + Bit(c)
  {
    assert (s + [c])[..|s|] == s;
  }

  lemma {:induction false} NibblesOfHex(i: nat)
    ensures var r := Nibbles(HexDigits(i)); r.Binary? && IsBinary(r.text) && Value(r.text) == i
  {
    var digits := HexDigits(i);
    var n := |digits| - 1;
    if i < 16 {
      assert digits[..n] == [] && digits[n] == HexChar(i);
      NibbleValue("", i);
      assert "" + HEX_TO_BIN[HexChar(i)] == HEX_TO_BIN[HexChar(i)];
    } else {
      NibblesOfHex(i / 16);
      assert digits[..n] == HexDigits(i / 16) && digits[n] == HexChar(i % 16);
      NibbleValue(Nibbles(digits[..n]).text, i % 16);
    }
  }

  /** The conversion keeps the value, fails exactly on numbers that do not fit, and rejects negative ones. */
  lemma Int2BinIsRight(i: int, n: int)
    ensures i < 0 ==> Int2Bin(i, n) == BadDigit
    ensures i >= 0 ==> var r := Int2Bin(i, n);
                       && (r.Binary? || r.TooLarge?)
                       && (r.Binary? ==> IsBinary(r.text) && Value(r.text) == i && (n > 0 ==> |r.text| == n))
                       && (n > 0 ==> (r.Binary? <==> i < Pow2(n)))
                       && (n == 0 ==> r.Binary? && |r.text| >= 4)
  {
    hide HexDigits, Pow2, Value, Cut;
    HexTail(i);
    if i < 0 {
      BadFirst("x" + HexDigits(-i));
    } else {
      hide Nibbles;
      NibblesOfHex(i);
      var text := Nibbles(HexDigits(i)).text;
      LastNibble(i);
      Shrunk(i, n, text);
    }
  }

  lemma HexTail(i: int)
    ensures |Hex(i)| >= 2 && Hex(i)[2..] == if i < 0 then "x" + HexDigits(-i) else HexDigits(i)
  {
  }

  lemma {:induction false} BadFirst(digits: string)
    requires digits != [] && digits[0] !in HEX_TO_BIN
    ensures Nibbles(digits) == BadDigit
  {
    if |digits| > 1 {
      BadFirst(digits[..|digits| - 1]);
    }
  }

  lemma LastNibble(i: nat)
    requires Nibbles(HexDigits(i)).Binary?
    ensures |Nibbles(HexDigits(i)).text| >= 4
  {
  }

  lemma Shrunk(i: nat, n: int, text: string)
    requires IsBinary(text) && Value(text) == i && |text| >= 4
    ensures var k := Cut(|text|, n);
            var r := Zeros(n - |text[k..]|) + text[k..];
            && IsBinary(r) && (n > 0 ==> |r| == n) && (n == 0 ==> r == text && k == 0)
            && ('1' !in text[..k] ==> Value(r) == i && (n > 0 ==> i < Pow2(n)))
            && ('1' in text[..k] && n > 0 ==> i >= Pow2(n))
  {
    hide Value, Pow2;
    var k := Cut(|text|, n);
    var kept := text[k..];
    assert text == text[..k] + kept;
    if '1' in text[..k] {
      OneInFront(text[..k], kept);
    } else {
      ZerosInFront(text[..k], kept);
      ZerosInFront(Zeros(n - |kept|), kept);
      ValueFits(Zeros(n - |kept|) + kept);
    }
  }

  /** Reading back what was converted gives the number. */
  lemma Bin2IntUndoesInt2Bin(i: int, n: int)
    requires n >= 0
    ensures Int2Bin(i, n).Binary? ==> i >= 0 && Bin2Int(Int2Bin(i, n).text) == Number(i)
    ensures n > 0 ==> (Int2Bin(i, n).Binary? <==> 0 <= i < Pow2(n))
  {
    Int2BinIsRight(i, n);
  }

  // ---------------------------------------------------------------- the counter

  /** The value with the least significant digit first. */
  function Little(v: seq<char>): nat {
    if v == [] then 0 else Bit(v[0]) + 2 * Little(v[1..])
  }

  function Reversed(v: seq<char>): (r: seq<char>)
    ensures |r| == |v|
  {
    if v == [] then [] else Reversed(v[1..]) + [v[0]]
  }

  lemma {:induction false} ReversedValue(v: seq<char>)
    requires IsBinary(v)
    ensures IsBinary(Reversed(v)) && Value(Reversed(v)) == Little(v)
  {
    if v != [] {
      ReversedValue(v[1..]);
      OneBit(Reversed(v[1..]), v[0]);
    }
  }

  lemma {:induction false} LittleZero(v: seq<char>)
    requires forall k :: 0 <= k < |v| ==> v[k] == '0'
    ensures Little(v) == 0
  {
    if v != [] {
      LittleZero(v[1..]);
    }
  }

  lemma {:induction false} LittleUpdate(v: seq<char>, i: nat, c: char)
    requires i < |v| && v[i] != c && (v[i] == '1' || c == '1')
    ensures if c == '1' then Little(v[i := c]) == Little(v) + Pow2(i) else Little(v[i := c]) + Pow2(i) == Little(v)
  {
    if i > 0 {
      LittleUpdate(v[1..], i - 1, c);
      assert v[i := c][1..] == v[1..][i - 1 := c];
    } else {
      assert v[i := c][1..] == v[1..];
    }
  }

  lemma LittleFits(v: seq<char>)
    requires IsBinary(v)
    ensures Little(v) < Pow2(|v|)
  {
    ReversedValue(v);
    ValueFits(Reversed(v));
  }

  /** What a toggle at a place is worth. */
  function Carried(toggle: int, n: nat): nat {
    if toggle == 1 then Pow2(n) else 0
  }

  /** The round of the inner loop: adds one in place and leaves the carry out of the last digit in the last toggle. */
  method Increment(v: array<char>, toggle: array<int>)
    requires toggle.Length == v.Length + 1 && IsBinary(v[..])
    requires toggle[0] == 1 && forall j :: 0 < j <= v.Length ==> toggle[j] == 0
    modifies v, toggle
    ensures IsBinary(v[..])
    ensures toggle[v.Length] == 0 || toggle[v.Length] == 1
    ensures Little(v[..]) + Carried(toggle[v.Length], v.Length) == Little(old(v[..])) + 1
  {
    var bits, i := v.Length, 0;
    while i < bits && toggle[i] == 1
      invariant i <= bits && IsBinary(v[..])
      invariant toggle[i] == 0 || toggle[i] == 1
      invariant forall j :: i < j <= bits ==> toggle[j] == 0
      invariant Little(v[..]) + Carried(toggle[i], i) == Little(old(v[..])) + 1
    {
      ghost var before := v[..];
      if v[i] == '0' {
        LittleUpdate(before, i, '1');
        v[i] := '1';
        toggle[i + 1] := 0;
        assert v[..] == before[i := '1'];
      } else {
        LittleUpdate(before, i, '0');
        v[i] := '0';
        toggle[i + 1] := 1;
        assert v[..] == before[i := '0'];
      }
      i := i + 1;
    }
  }

  /** The first n numbers of a width, in order. */
  ghost predicate Counts(l: seq<string>, bits: nat, n: nat) {
    |l| == n && forall k :: 0 <= k < n ==> Int2Bin(k, bits) == Binary(l[k])
  }

  /** A binary string of full width is the conversion of its value. */
  lemma StringOfValue(s: string, n: nat)
    requires IsBinary(s) && |s| > 0 && Value(s) == n
    ensures Int2Bin(n, |s|) == Binary(s)
  {
    ValueFits(s);
    Int2BinIsRight(n, |s|);
    ValueIsInjective(s, Int2Bin(n, |s|).text);
  }

  method CopyReversed(v: array<char>) returns (s: string)
    ensures s == Reversed(v[..])
  {
    s := "";
    var i := 0;
    while i < v.Length
      invariant i <= v.Length && Reversed(v[..]) == Reversed(v[i..]) + s
    {
      assert v[i..][1..] == v[i + 1..];
      s := [v[i]] + s;
      i := i + 1;
    }
  }

  /** The toggles before an increment: a carry into the first place only. */
  method InitialToggle(bits: nat) returns (toggle: array<int>)
    ensures fresh(toggle) && toggle.Length == bits + 1
    ensures toggle[0] == 1 && forall j :: 0 < j <= bits ==> toggle[j] == 0
  {
    toggle := new int[bits + 1](_ => 0);
    toggle[0] := 1;
  }

  lemma CountsNext(l: seq<string>, bits: nat, s: string, v: seq<char>)
    requires bits > 0 && Counts(l, bits, |l|) && IsBinary(v) && |v| == bits && Little(v) == |l| && s == Reversed(v)
    ensures Counts(l + [s], bits, |l| + 1) && |l| < Pow2(bits)
  {
    hide Int2Bin, Pow2, Little, Reversed, Value;
    ReversedValue(v);
    StringOfValue(s, |l|);
    LittleFits(v);
  }

  /** Lists all binary strings of a width in order; a width of zero gives no string, and one below -1 an index error. */
  method BinaryRange(bits: int) returns (ok: bool, l: seq<string>)
    ensures ok <==> bits >= -1
    ensures bits <= 0 ==> l == []
    ensures bits > 0 ==> Counts(l, bits, Pow2(bits))
  {
    hide Pow2, Little, Reversed, Value, Counts, IsBinary;
    l := [];
    ok := bits >= -1;
    if bits <= 0 {
      return;
    }
    var v := new char[bits](_ => '0');
    var toggle := InitialToggle(bits);
    StartsAtZero(v[..]);
    NoCounts(bits);
    while toggle[bits] != 1
      invariant v.Length == bits && toggle.Length == bits + 1 && fresh(v) && fresh(toggle) && IsBinary(v[..])
      invariant toggle[bits] == 0 || toggle[bits] == 1
      invariant Little(v[..]) + Carried(toggle[bits], bits) == |l| <= Pow2(bits)
      invariant Counts(l, bits, |l|)
      decreases Pow2(bits) - |l|
    {
      var copy := CopyReversed(v);
      CountsNext(l, bits, copy, v[..]);
      l := l + [copy];
      toggle := InitialToggle(bits);
      LittleFits(v[..]);
      Increment(v, toggle);
    }
  }

  lemma StartsAtZero(v: seq<char>)
    requires forall k :: 0 <= k < |v| ==> v[k] == '0'
    ensures IsBinary(v) && Little(v) == 0
  {
    LittleZero(v);
  }

  lemma NoCounts(bits: nat)
    ensures Counts([], bits, 0)
  {
  }
}
