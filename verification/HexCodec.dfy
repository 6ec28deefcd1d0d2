/**
 * The hexadecimal names of cones (src/util-gitfan/conversion.hxx): one digit for every four indices, the
 * last four first.
 */
module HexCodec {
  import opened Seqs

  datatype Text = Hex(text: string) | ExceedsMaxValue
  datatype Indices = List(values: seq<int>) | NoHexString

  /** The order the encoder relies on. */
  ghost predicate Sorted(list: seq<int>) {
    forall i, j :: 0 <= i < j < |list| ==> list[i] <= list[j]
  }

  // ---------- Digits ----------

  function Digit(v: nat): char
    requires v < 16
  {
    "0123456789abcdef"[v]
  }

  /** A number written by a stream in hexadecimal mode. */
  function HexNumber(v: nat): string {
    if v < 16 then [Digit(v)] else HexNumber(v / 16) + [Digit(v % 16)]
  }

  function Lower(c: char): char {
    if 'A' <= c <= 'Z' then c + ' ' else c
  }

  predicate IsDigit(c: char) {
    '0' <= c <= '9' || 'a' <= c <= 'f'
  }

  predicate IsHex(s: string) {
    forall i :: 0 <= i < |s| ==> IsDigit(Lower(s[i]))
  }

  function LowerAll(s: string): string {
    seq(|s|, i requires 0 <= i < |s| => Lower(s[i]))
  }

  function Value(c: char): nat
    requires IsDigit(c)
  {
    if c <= '9' then (c - '0') as int else (c - 'a') as int + 10
  }

  // ---------- Texts and lists as numbers ----------

  /** The number a character denotes in base 16. */
  ghost function InBase16(c: char): int {
    if 'a' <= c <= 'f' then c as int - 'a' as int + 10
    else if 'A' <= c <= 'F' then c as int - 'A' as int + 10
    else c as int - '0' as int
  }

  /** A text read as a number in base 16. */
  ghost function Read(s: string): int {
    if s == "" then 0 else 16 * Read(s[..|s| - 1]) + InBase16(s[|s| - 1])
  }

  ghost function TwoTo(k: nat): nat {
    if k == 0 then 1 else 2 * TwoTo(k - 1)
  }

  ghost predicate Positive(list: seq<int>) {
    forall i :: 0 <= i < |list| ==> list[i] >= 1
  }

  /** The number with bit `x - 1` set for every index `x` of the list. */
  ghost function BitSum(list: seq<int>): int
    requires Positive(list)
  {
    if list == [] then 0 else TwoTo(list[0] - 1) + BitSum(list[1..])
  }

  // ---------- What is computed ----------

  function Blocks(maxValue: nat): nat {
    (maxValue + 3) / 4
  }

  ghost function Count(list: seq<int>, x: int): nat {
    if list == [] then 0 else Bit(list[0] == x) + Count(list[1..], x)
  }

  function Bit(b: bool): nat {
    if b then 1 else 0
  }

  /** The value of the digit for the indices 4 * b - 3, ..., 4 * b; an index counts as often as it is listed. */
  ghost function Weight(list: seq<int>, b: int): nat {
    Count(list, 4 * b - 3) + 2 * Count(list, 4 * b - 2) + 4 * Count(list, 4 * b - 1) + 8 * Count(list, 4 * b)
  }

  ghost function Encoded(list: seq<int>, blocks: nat): string {
    if blocks == 0 then "" else HexNumber(Weight(list, blocks)) + Encoded(list, blocks - 1)
  }

  ghost function AppendIf(l: seq<int>, b: bool, x: int): seq<int> {
    if b then l + [x] else l
  }

  ghost function Chosen(base: int, b1: bool, b2: bool, b3: bool, b4: bool): seq<int> {
    AppendIf(AppendIf(AppendIf(AppendIf([], b1, base + 1), b2, base + 2), b3, base + 3), b4, base + 4)
  }

  /** The indices a digit stands for. */
  ghost function Bits(base: int, v: nat): seq<int> {
    Chosen(base, v % 2 == 1, v / 2 % 2 == 1, v / 4 % 2 == 1, v / 8 % 2 == 1)
  }

  ghost function Decoded(s: string): seq<int>
    requires IsHex(s)
  {
    if s == "" then [] else Decoded(s[1..]) + Bits(4 * (|s| - 1), Value(Lower(s[0])))
  }

  // ---------- The encoder ----------

  /** The indices before `it` are at most `v`, the others are larger. */
  ghost predicate SplitAt(list: seq<int>, it: int, v: int) {
    && 0 <= it <= |list| && (forall i :: 0 <= i < it ==> list[i] <= v)
    && (forall i :: it <= i < |list| ==> list[i] > v)
  }

  /** The inner loop: consumes, from the end, the indices of one block. */
  method BlockValue(list: seq<int>, last: nat, blockNumber: nat) returns (blockValue: nat, it: nat)
    requires Sorted(list) && blockNumber > 0 && SplitAt(list, last, 4 * blockNumber)
    ensures blockValue == Weight(list, blockNumber)
    ensures it <= last && SplitAt(list, it, 4 * (blockNumber - 1))
  {
    blockValue := 0;
    it := last;
    WeightBeyond(list[it..], blockNumber);
    while it > 0
      invariant 0 <= it <= last
      invariant forall i :: it <= i < |list| ==> list[i] > 4 * (blockNumber - 1)
      invariant blockValue == Weight(list[it..], blockNumber)
    {
      var listValue := list[it - 1];
      if listValue <= (blockNumber - 1) * 4 {
        break;
      }
      WeightPrepend(list, it - 1, blockNumber);
      match listValue - (blockNumber - 1) * 4 {
        case 1 => blockValue := blockValue + 1;
        case 2 => blockValue := blockValue + 2;
        case 3 => blockValue := blockValue + 4;
        case 4 => blockValue := blockValue + 8;
        case _ => assert false;
      }
      it := it - 1;
    }
    LowerPartWeighsNothing(list, it, blockNumber);
  }

  /** The text of the full length that is, in base 16, the number whose bits are the indices of the list. */
  ghost predicate Denotes(text: string, list: seq<int>, maxValue: nat) {
    Ascending(list) && Positive(list) ==> maxValue <= 4 * |text| < maxValue + 4 && Read(text) == BitSum(list)
  }

  method ListToHexString(list: seq<int>, maxValue: nat) returns (r: Text)
    requires Sorted(list)
    ensures r == if forall x :: x in list ==> x <= maxValue then Hex(Encoded(list, Blocks(maxValue)))
                 else ExceedsMaxValue
    ensures r.Hex? ==> Denotes(r.text, list, maxValue)
  {
    if list != [] && list[|list| - 1] > maxValue {
      assert list[|list| - 1] in list;
      return ExceedsMaxValue;
    }
    var str := BlockDigits(list, Blocks(maxValue));
    TextOfList(list, maxValue, str);
    r := Hex(str);
  }

  /** The outer loop: the blocks from the last to the first. */
  method BlockDigits(list: seq<int>, numberOfBlocks: nat) returns (str: string)
    requires Sorted(list) && forall i :: 0 <= i < |list| ==> list[i] <= 4 * numberOfBlocks
    ensures str == Encoded(list, numberOfBlocks)
  {
    str := "";
    var it, blockNumber := |list|, numberOfBlocks;
    while blockNumber > 0
      invariant 0 <= blockNumber && SplitAt(list, it, 4 * blockNumber)
      invariant str + Encoded(list, blockNumber) == Encoded(list, numberOfBlocks)
    {
      var blockValue;
      blockValue, it := BlockValue(list, it, blockNumber);
      OneMoreBlock(str, list, blockNumber);
      str := str + HexNumber(blockValue);
      blockNumber := blockNumber - 1;
    }
    assert str + "" == str;
  }

  lemma OneMoreBlock(str: string, list: seq<int>, blocks: nat)
    requires blocks > 0
    ensures str + Encoded(list, blocks) == str + HexNumber(Weight(list, blocks)) + Encoded(list, blocks - 1)
  {
  }

  lemma WeightPrepend(list: seq<int>, it: nat, b: int)
    requires it < |list|
    ensures Weight(list[it..], b) == Weight(list[it + 1..], b)
      + (match list[it] - (b - 1) * 4 case 1 => 1 case 2 => 2 case 3 => 4 case 4 => 8 case _ => 0)
  {
    assert list[it..][1..] == list[it + 1..];
  }

  lemma LowerPartWeighsNothing(list: seq<int>, it: nat, b: nat)
    requires Sorted(list) && it <= |list| && (it == 0 || list[it - 1] <= 4 * (b - 1))
    ensures Weight(list[it..], b) == Weight(list, b)
  {
    assert list == list[..it] + list[it..];
    WeightConcat(list[..it], list[it..], b);
    WeightBeyond(list[..it], b);
  }

  lemma {:induction false} CountConcat(l: seq<int>, r: seq<int>, x: int)
    ensures Count(l + r, x) == Count(l, x) + Count(r, x)
  {
    if l == [] {
      assert l + r == r;
    } else {
      assert (l + r)[1..] == l[1..] + r;
      CountConcat(l[1..], r, x);
    }
  }

  lemma WeightConcat(l: seq<int>, r: seq<int>, b: int)
    ensures Weight(l + r, b) == Weight(l, b) + Weight(r, b)
  {
    CountConcat(l, r, 4 * b - 3);
    CountConcat(l, r, 4 * b - 2);
    CountConcat(l, r, 4 * b - 1);
    CountConcat(l, r, 4 * b);
  }

  lemma {:induction false} CountAbsent(list: seq<int>, x: int)
    requires x !in list
    ensures Count(list, x) == 0
  {
    if list != [] {
      CountAbsent(list[1..], x);
    }
  }

  lemma WeightBeyond(list: seq<int>, b: int)
    requires forall x :: x in list ==> x <= 4 * (b - 1) || x > 4 * b
    ensures Weight(list, b) == 0
  {
    CountAbsent(list, 4 * b - 3);
    CountAbsent(list, 4 * b - 2);
    CountAbsent(list, 4 * b - 1);
    CountAbsent(list, 4 * b);
  }

  // ---------- The decoder ----------

  method HexStringToList(hexString: string) returns (r: Indices)
    ensures r == if IsHex(hexString) then List(Decoded(hexString)) else NoHexString
    ensures r.List? <==>
              forall i :: 0 <= i < |hexString| ==>
                '0' <= hexString[i] <= '9' || 'a' <= hexString[i] <= 'f' || 'A' <= hexString[i] <= 'F'
    ensures r.List? ==>
              Ascending(r.values) && Positive(r.values) && BitSum(r.values) == Read(hexString)
  {
    var lv: seq<int> := [];
    var base := 0;
    var it := |hexString|;
    while it > 0
      invariant 0 <= it <= |hexString| && base == 4 * (|hexString| - it)
      invariant IsHex(hexString[it..]) && lv == Decoded(hexString[it..])
    {
      it := it - 1;
      assert hexString[it..] == [hexString[it]] + hexString[it + 1..];
      var pushed := PushIndices(lv, base, Lower(hexString[it]));
      if pushed == None {
        return NoHexString;
      }
      DecodedPrepend(hexString[it], hexString[it + 1..]);
      lv := pushed.value;
      base := base + 4;
    }
    assert hexString[0..] == hexString;
    NumberIsText(hexString);
    r := List(lv);
  }

  lemma LowBits(base: int)
    ensures Bits(base, 0) == []
    ensures Bits(base, 1) == [base + 1]
    ensures Bits(base, 2) == [base + 2]
    ensures Bits(base, 3) == [base + 1, base + 2]
    ensures Bits(base, 4) == [base + 3]
    ensures Bits(base, 5) == [base + 1, base + 3]
    ensures Bits(base, 6) == [base + 2, base + 3]
    ensures Bits(base, 7) == [base + 1, base + 2, base + 3]
  {
  }

  lemma HighBits(base: int)
    ensures Bits(base, 8) == [base + 4]
    ensures Bits(base, 9) == [base + 1, base + 4]
    ensures Bits(base, 10) == [base + 2, base + 4]
    ensures Bits(base, 11) == [base + 1, base + 2, base + 4]
    ensures Bits(base, 12) == [base + 3, base + 4]
    ensures Bits(base, 13) == [base + 1, base + 3, base + 4]
    ensures Bits(base, 14) == [base + 2, base + 3, base + 4]
    ensures Bits(base, 15) == [base + 1, base + 2, base + 3, base + 4]
  {
  }

  /** The switch over one digit. */
  method PushIndices(lv: seq<int>, base: int, c: char) returns (r: Option<seq<int>>)
    ensures r == if IsDigit(c) then Some(lv + Bits(base, InBase16(c))) else None
    ensures IsDigit(c) ==> InBase16(c) == Value(c)
  {
    LowBits(base);
    HighBits(base);
    match c {
      case 'f' => r := Some(lv + [base + 1, base + 2, base + 3, base + 4]);
      case 'e' => r := Some(lv + [base + 2, base + 3, base + 4]);
      case 'c' => r := Some(lv + [base + 3, base + 4]);
      case '8' => r := Some(lv + [base + 4]);
      case 'd' => r := Some(lv + [base + 1, base + 3, base + 4]);
      case 'b' => r := Some(lv + [base + 1, base + 2, base + 4]);
      case 'a' => r := Some(lv + [base + 2, base + 4]);
      case '7' => r := Some(lv + [base + 1, base + 2, base + 3]);
      case '6' => r := Some(lv + [base + 2, base + 3]);
      case '4' => r := Some(lv + [base + 3]);
      case '9' => r := Some(lv + [base + 1, base + 4]);
      case '5' => r := Some(lv + [base + 1, base + 3]);
      case '3' => r := Some(lv + [base + 1, base + 2]);
      case '2' => r := Some(lv + [base + 2]);
      case '1' => r := Some(lv + [base + 1]);
      case '0' => r := Some(lv + []);
      case _ => r := None;
    }
  }

  lemma HexPrepend(c: char, rest: string)
    requires IsDigit(Lower(c)) && IsHex(rest)
    ensures IsHex([c] + rest)
  {
  }

  lemma DecodedPrepend(c: char, rest: string)
    requires IsDigit(Lower(c)) && IsHex(rest)
    ensures IsHex([c] + rest)
    ensures Decoded([c] + rest) == Decoded(rest) + Bits(4 * |rest|, Value(Lower(c)))
  {
    HexPrepend(c, rest);
    DecodedFrom([c] + rest, rest);
  }

  lemma DecodedFrom(s: string, rest: string)
    requires s != "" && IsHex(s) && rest == s[1..]
    ensures IsHex(rest) && IsDigit(Lower(s[0]))
    ensures Decoded(s) == Decoded(rest) + Bits(4 * |rest|, Value(Lower(s[0])))
  {
  }

  // ---------- Decoding what was encoded ----------

  lemma ChosenMembers(base: int, b1: bool, b2: bool, b3: bool, b4: bool)
    ensures Ascending(Chosen(base, b1, b2, b3, b4))
    ensures forall x :: x in Chosen(base, b1, b2, b3, b4) <==>
              (b1 && x == base + 1) || (b2 && x == base + 2) || (b3 && x == base + 3) || (b4 && x == base + 4)
  {
    var one := AppendIf([], b1, base + 1);
    var two := AppendIf(one, b2, base + 2);
    var three := AppendIf(two, b3, base + 3);
    Appended([], b1, base + 1);
    Appended(one, b2, base + 2);
    Appended(two, b3, base + 3);
    Appended(three, b4, base + 4);
  }

  lemma Appended(l: seq<int>, b: bool, x: int)
    requires Ascending(l) && forall y :: y in l ==> y < x
    ensures Ascending(AppendIf(l, b, x))
    ensures forall y :: y in AppendIf(l, b, x) <==> y in l || (b && y == x)
  {
    if b {
      AscendingConcat(l, [x], x - 1);
    }
  }

  lemma BitsMembers(base: int, v: nat)
    ensures Ascending(Bits(base, v)) && forall x :: x in Bits(base, v) ==> base < x <= base + 4
    ensures base + 1 in Bits(base, v) <==> v % 2 == 1
    ensures base + 2 in Bits(base, v) <==> v / 2 % 2 == 1
    ensures base + 3 in Bits(base, v) <==> v / 4 % 2 == 1
    ensures base + 4 in Bits(base, v) <==> v / 8 % 2 == 1
  {
    ChosenMembers(base, v % 2 == 1, v / 2 % 2 == 1, v / 4 % 2 == 1, v / 8 % 2 == 1);
  }

  ghost function Number(b1: bool, b2: bool, b3: bool, b4: bool): nat {
    Bit(b1) + 2 * Bit(b2) + 4 * Bit(b3) + 8 * Bit(b4)
  }

  lemma BitsOfNumber(b1: bool, b2: bool, b3: bool, b4: bool)
    ensures var v := Number(b1, b2, b3, b4);
      && v < 16
      && (v % 2 == 1 <==> b1) && (v / 2 % 2 == 1 <==> b2) && (v / 4 % 2 == 1 <==> b3) && (v / 8 % 2 == 1 <==> b4)
  {
  }

  lemma NumberOfBits(v: nat)
    requires v < 16
    ensures v == Number(v % 2 == 1, v / 2 % 2 == 1, v / 4 % 2 == 1, v / 8 % 2 == 1)
  {
  }

  lemma WeightOfAscending(list: seq<int>, b: int)
    requires Ascending(list)
    ensures Weight(list, b)
         == Number(4 * b - 3 in list, 4 * b - 2 in list, 4 * b - 1 in list, 4 * b in list)
  {
    CountOfAscending(list, 4 * b - 3);
    CountOfAscending(list, 4 * b - 2);
    CountOfAscending(list, 4 * b - 1);
    CountOfAscending(list, 4 * b);
  }

  lemma {:induction false} DecodedAscending(s: string)
    requires IsHex(s)
    ensures Ascending(Decoded(s)) && forall x :: x in Decoded(s) ==> 1 <= x <= 4 * |s|
  {
    if s != "" {
      DecodedAscending(s[1..]);
      BitsMembers(4 * (|s| - 1), Value(Lower(s[0])));
      AscendingConcat(Decoded(s[1..]), Bits(4 * (|s| - 1), Value(Lower(s[0]))), 4 * (|s| - 1));
    }
  }

  lemma AscendingConcat(l: seq<int>, r: seq<int>, bound: int)
    requires Ascending(l) && Ascending(r)
    requires (forall x :: x in l ==> x <= bound) && (forall x :: x in r ==> bound < x)
    ensures Ascending(l + r)
  {
    forall i, j | 0 <= i < j < |l + r|
      ensures (l + r)[i] < (l + r)[j]
    {
      assert i < |l| ==> l[i] in l;
      assert j >= |l| ==> r[j - |l|] in r;
    }
  }

  lemma {:induction false} CountOfAscending(list: seq<int>, x: int)
    requires Ascending(list)
    ensures Count(list, x) == Bit(x in list)
    decreases |list|
  {
    if list != [] {
      CountOfAscending(list[1..], x);
      assert list == [list[0]] + list[1..];
    }
  }

  /** The digit for a block says which of its four indices are listed. */
  lemma WeightBits(list: seq<int>, b: int, x: int)
    requires Ascending(list)
    ensures Weight(list, b) < 16
    ensures x in Bits(4 * (b - 1), Weight(list, b)) <==> x in list && 4 * (b - 1) < x <= 4 * b
  {
    WeightOfAscending(list, b);
    BitsOfNumber(4 * b - 3 in list, 4 * b - 2 in list, 4 * b - 1 in list, 4 * b in list);
    var base := 4 * (b - 1);
    BitsMembers(base, Weight(list, b));
    assert base < x <= base + 4 ==> x == base + 1 || x == base + 2 || x == base + 3 || x == base + 4;
  }

  lemma DigitValue(v: nat)
    requires v < 16
    ensures IsDigit(Digit(v)) && Lower(Digit(v)) == Digit(v) && Value(Digit(v)) == v
    ensures HexNumber(v) == [Digit(v)]
  {
  }

  lemma {:induction false} EncodedShape(list: seq<int>, blocks: nat)
    requires Ascending(list)
    ensures |Encoded(list, blocks)| == blocks
    ensures IsHex(Encoded(list, blocks)) && LowerAll(Encoded(list, blocks)) == Encoded(list, blocks)
  {
    if blocks > 0 {
      EncodedShape(list, blocks - 1);
      WeightBits(list, blocks, 0);
      DigitValue(Weight(list, blocks));
    }
  }

  lemma {:induction false} DecodedEncoded(list: seq<int>, blocks: nat, x: int)
    requires Ascending(list) && IsHex(Encoded(list, blocks))
    ensures x in Decoded(Encoded(list, blocks)) <==> x in list && 1 <= x <= 4 * blocks
  {
    if blocks > 0 {
      var rest := Encoded(list, blocks - 1);
      EncodedShape(list, blocks - 1);
      DecodedEncoded(list, blocks - 1, x);
      FirstDigit(list, blocks, rest, x);
      assert Encoded(list, blocks) == HexNumber(Weight(list, blocks)) + rest;
    }
  }

  lemma FirstDigit(list: seq<int>, b: nat, rest: string, x: int)
    requires Ascending(list) && IsHex(rest) && |rest| == b - 1
    ensures var s := HexNumber(Weight(list, b)) + rest;
      IsHex(s) && (x in Decoded(s) <==> x in Decoded(rest) || (x in list && 4 * (b - 1) < x <= 4 * b))
  {
    WeightBits(list, b, x);
    DecodedPrefixed(Weight(list, b), rest, x);
  }

  lemma DecodedPrefixed(v: nat, rest: string, x: int)
    requires v < 16 && IsHex(rest)
    ensures IsHex(HexNumber(v) + rest)
    ensures x in Decoded(HexNumber(v) + rest) <==> x in Decoded(rest) || x in Bits(4 * |rest|, v)
  {
    DigitValue(v);
    var s := HexNumber(v) + rest;
    assert s[1..] == rest && s[0] == Digit(v);
    assert Decoded(s) == Decoded(rest) + Bits(4 * |rest|, v);
  }

  lemma {:induction false} HexNumberIsHex(v: nat)
    ensures IsHex(HexNumber(v))
  {
    if v < 16 {
      DigitValue(v);
    } else {
      HexNumberIsHex(v / 16);
      DigitValue(v % 16);
    }
  }

  lemma {:induction false} EncodedIsHex(list: seq<int>, blocks: nat)
    ensures IsHex(Encoded(list, blocks))
  {
    if blocks > 0 {
      EncodedIsHex(list, blocks - 1);
      HexNumberIsHex(Weight(list, blocks));
    }
  }

  /**
   * The decoder returns the list that was encoded if and only if no index is repeated and all are positive; in
   * that case the text has the length that belongs to `maxValue`.
   */
  lemma RoundTripOfLists(list: seq<int>, maxValue: nat)
    requires Sorted(list) && forall x :: x in list ==> x <= maxValue
    ensures var s := Encoded(list, Blocks(maxValue));
      && IsHex(s)
      && (Decoded(s) == list <==> Ascending(list) && forall x :: x in list ==> x >= 1)
      && (Ascending(list) ==> |s| == Blocks(maxValue))
  {
    var s := Encoded(list, Blocks(maxValue));
    EncodedIsHex(list, Blocks(maxValue));
    DecodedAscending(s);
    if Ascending(list) {
      EncodedShape(list, Blocks(maxValue));
      if forall x :: x in list ==> x >= 1 {
        forall x
          ensures x in Decoded(s) <==> x in list
        {
          DecodedEncoded(list, Blocks(maxValue), x);
        }
        SameMembersSameList(Decoded(s), list);
      }
    }
  }

  /** Different lists have different texts. */
  lemma Injective(a: seq<int>, b: seq<int>, maxValue: nat)
    requires Ascending(a) && Ascending(b)
    requires forall x :: x in a || x in b ==> 1 <= x <= maxValue
    ensures Encoded(a, Blocks(maxValue)) == Encoded(b, Blocks(maxValue)) ==> a == b
  {
    RoundTripOfLists(a, maxValue);
    RoundTripOfLists(b, maxValue);
  }

  // ---------- Encoding what was decoded ----------

  ghost predicate Blank(list: seq<int>, b: int) {
    Weight(list, b) == 0
  }

  lemma BitsWeight(v: nat, b: int)
    requires v < 16
    ensures Weight(Bits(4 * (b - 1), v), b) == v
    ensures var bits := Bits(4 * (b - 1), v); forall c :: c != b ==> Blank(bits, c)
  {
    var bits := Bits(4 * (b - 1), v);
    BitsMembers(4 * (b - 1), v);
    NumberOfBits(v);
    WeightOfAscending(bits, b);
    forall c | c != b
      ensures Blank(bits, c)
    {
      WeightOfAscending(bits, c);
    }
  }

  /** One more digit in front changes the block it stands for, and no other. */
  lemma PrependWeight(c: char, rest: string, k: nat)
    requires IsDigit(Lower(c)) && IsHex(rest) && 1 <= k <= |rest| + 1
    ensures IsHex([c] + rest)
    ensures Weight(Decoded([c] + rest), k) == if k == |rest| + 1 then Value(Lower(c)) else Weight(Decoded(rest), k)
  {
    var list, base, v := Decoded(rest), 4 * |rest|, Value(Lower(c));
    DecodedPrepend(c, rest);
    DecodedAscending(rest);
    PlusBits(list, |rest| + 1, base, v, k);
  }

  lemma PlusBits(list: seq<int>, b: nat, base: nat, v: nat, k: nat)
    requires v < 16 && 1 <= k <= b && base == 4 * (b - 1) && forall x :: x in list ==> x <= base
    ensures Weight(list + Bits(base, v), k) == if k == b then v else Weight(list, k)
  {
    var bits := Bits(base, v);
    WeightConcat(list, bits, k);
    BitsWeight(v, b);
    if k == b {
      WeightBeyond(list, b);
    } else {
      assert Blank(bits, k);
    }
  }

  /** The digit at position `i` comes back. */
  lemma {:induction false} DecodedWeight(s: string, i: nat)
    requires IsHex(s) && i < |s|
    ensures Weight(Decoded(s), |s| - i) == Value(Lower(s[i]))
  {
    var rest := s[1..];
    assert s == [s[0]] + rest;
    PrependWeight(s[0], rest, |s| - i);
    if i > 0 {
      DecodedWeight(rest, i - 1);
    }
  }

  lemma ValueDigit(c: char)
    requires IsDigit(c)
    ensures Value(c) < 16 && Digit(Value(c)) == c
  {
  }

  lemma LowerRest(s: string, i: nat)
    requires i < |s|
    ensures LowerAll(s[i..]) == [Lower(s[i])] + LowerAll(s[i + 1..])
  {
  }

  lemma {:induction false} EncodedDecoded(s: string, blocks: nat)
    requires IsHex(s) && blocks <= |s|
    ensures Encoded(Decoded(s), blocks) == LowerAll(s[|s| - blocks..])
  {
    if blocks > 0 {
      EncodedDecoded(s, blocks - 1);
      DecodedWeight(s, |s| - blocks);
      ValueDigit(Lower(s[|s| - blocks]));
      LowerRest(s, |s| - blocks);
    }
  }

  /** The encoder returns the text that was decoded, in lower case. */
  lemma RoundTripOfTexts(s: string)
    requires IsHex(s)
    ensures Sorted(Decoded(s)) && forall x :: x in Decoded(s) ==> x <= 4 * |s|
    ensures Blocks(4 * |s|) == |s| && Encoded(Decoded(s), Blocks(4 * |s|)) == LowerAll(s)
  {
    DecodedAscending(s);
    EncodedDecoded(s, |s|);
    assert s[0..] == s;
  }

  // ---------- Text and list denote the same number ----------

  ghost function SixteenTo(k: nat): nat {
    if k == 0 then 1 else 16 * SixteenTo(k - 1)
  }

  lemma {:induction false} FourBits(k: nat)
    ensures TwoTo(4 * k) == SixteenTo(k)
  {
    if k > 0 {
      FourBits(k - 1);
      NextFour(4 * (k - 1));
    }
  }

  lemma NextFour(k: nat)
    ensures TwoTo(k + 1) == 2 * TwoTo(k) && TwoTo(k + 2) == 4 * TwoTo(k) && TwoTo(k + 3) == 8 * TwoTo(k)
    ensures TwoTo(k + 4) == 16 * TwoTo(k)
  {
    assert TwoTo(k + 2) == 2 * TwoTo(k + 1);
    assert TwoTo(k + 3) == 2 * TwoTo(k + 2);
  }

  /** The blocks up to a number, each at its place. */
  ghost function BlockSum(list: seq<int>, blocks: nat): int {
    if blocks == 0 then 0 else Weight(list, blocks) * SixteenTo(blocks - 1) + BlockSum(list, blocks - 1)
  }

  lemma {:induction false} BlockSumConcat(l: seq<int>, r: seq<int>, blocks: nat)
    ensures BlockSum(l + r, blocks) == BlockSum(l, blocks) + BlockSum(r, blocks)
  {
    if blocks > 0 {
      BlockSumConcat(l, r, blocks - 1);
      WeightConcat(l, r, blocks);
      SumTimes(Weight(l, blocks), Weight(r, blocks), SixteenTo(blocks - 1));
    }
  }

  lemma SumTimes(a: int, b: int, c: int)
    ensures (a + b) * c == a * c + b * c
  {
  }

  lemma {:induction false} BlockSumOfOne(x: int, blocks: nat)
    requires x >= 1
    ensures BlockSum([x], blocks) == if x <= 4 * blocks then TwoTo(x - 1) else 0
  {
    if blocks > 0 {
      BlockSumOfOne(x, blocks - 1);
      WeightOfOne(x, blocks);
      FourBits(blocks - 1);
      NextFour(4 * (blocks - 1));
    }
  }

  lemma WeightOfOne(x: int, b: int)
    ensures Weight([x], b)
            == match x - 4 * (b - 1) case 1 => 1 case 2 => 2 case 3 => 4 case 4 => 8 case _ => 0
  {
    assert [x][0..] == [x] && [x][1..] == [];
    WeightPrepend([x], 0, b);
    WeightBeyond([], b);
  }

  lemma {:induction false} NoBlocks(blocks: nat)
    ensures BlockSum([], blocks) == 0
  {
    if blocks > 0 {
      NoBlocks(blocks - 1);
    }
  }

  lemma {:induction false} BitSumIsBlockSum(list: seq<int>, blocks: nat)
    requires Positive(list) && forall x :: x in list ==> x <= 4 * blocks
    ensures BitSum(list) == BlockSum(list, blocks)
    decreases |list|
  {
    if list == [] {
      NoBlocks(blocks);
    } else {
      assert list == [list[0]] + list[1..] && list[0] in list;
      assert forall x :: x in list[1..] ==> x in list;
      BitSumIsBlockSum(list[1..], blocks);
      BlockSumOfOne(list[0], blocks);
      BlockSumConcat([list[0]], list[1..], blocks);
    }
  }

  lemma {:induction false} ReadPrepend(c: char, rest: string)
    ensures Read([c] + rest) == InBase16(c) * SixteenTo(|rest|) + Read(rest)
    decreases |rest|
  {
    if rest == "" {
      assert [c] + rest == [c] && [c][..0] == "";
    } else {
      var n := |rest| - 1;
      var front, last := rest[..n], rest[n];
      ReadPrepend(c, front);
      ReadAppend([c] + front, last);
      ReadAppend(front, last);
      assert [c] + rest == ([c] + front) + [last] && rest == front + [last];
      TimesSixteen(InBase16(c), SixteenTo(n));
    }
  }

  lemma ReadAppend(s: string, c: char)
    ensures Read(s + [c]) == 16 * Read(s) + InBase16(c)
  {
    assert (s + [c])[..|s|] == s;
  }

  lemma TimesSixteen(a: int, b: int)
    ensures 16 * (a * b) == a * (16 * b)
  {
  }

  lemma {:induction false} ReadEncoded(list: seq<int>, blocks: nat)
    requires Ascending(list)
    ensures Read(Encoded(list, blocks)) == BlockSum(list, blocks)
  {
    if blocks > 0 {
      var before := blocks - 1;
      ReadEncoded(list, before);
      FirstOfText(list, blocks, before);
    }
  }

  lemma FirstOfText(list: seq<int>, blocks: nat, before: nat)
    requires Ascending(list) && blocks == before + 1
    ensures Read(Encoded(list, blocks)) == Weight(list, blocks) * SixteenTo(before) + Read(Encoded(list, before))
  {
    EncodedShape(list, before);
    WeightBits(list, blocks, 0);
    ReadNumber(Weight(list, blocks), Encoded(list, before));
  }

  lemma ReadNumber(v: nat, rest: string)
    requires v < 16
    ensures Read(HexNumber(v) + rest) == v * SixteenTo(|rest|) + Read(rest)
  {
    DigitValue(v);
    ValueInBase16(Digit(v));
    ReadPrepend(Digit(v), rest);
  }

  lemma ValueInBase16(c: char)
    requires IsDigit(Lower(c))
    ensures Value(Lower(c)) == InBase16(c)
  {
  }

  /** The text of a list, read in base 16, is the number whose bits are the indices of the list. */
  lemma TextIsNumber(list: seq<int>, maxValue: nat)
    requires Ascending(list) && Positive(list) && forall x :: x in list ==> x <= maxValue
    ensures Read(Encoded(list, Blocks(maxValue))) == BitSum(list)
  {
    ReadEncoded(list, Blocks(maxValue));
    BitSumIsBlockSum(list, Blocks(maxValue));
  }

  lemma TextOfList(list: seq<int>, maxValue: nat, text: string)
    requires text == Encoded(list, Blocks(maxValue)) && forall x :: x in list ==> x <= maxValue
    ensures Denotes(text, list, maxValue)
  {
    if Ascending(list) && Positive(list) {
      EncodedShape(list, Blocks(maxValue));
      TextIsNumber(list, maxValue);
    }
  }

  lemma {:induction false} ReadDecoded(s: string, i: nat, blocks: nat)
    requires IsHex(s) && i + blocks == |s|
    ensures Read(s[i..]) == BlockSum(Decoded(s), blocks)
    decreases blocks
  {
    if blocks > 0 {
      ReadDecoded(s, i + 1, blocks - 1);
      ReadOneMore(s, i, blocks - 1);
    }
  }

  lemma ReadOneMore(s: string, i: nat, before: nat)
    requires IsHex(s) && i + before + 1 == |s|
    ensures Read(s[i..]) == Weight(Decoded(s), before + 1) * SixteenTo(before) + Read(s[i + 1..])
  {
    DecodedWeight(s, i);
    ReadFrom(s[i..], s[i + 1..]);
  }

  lemma ReadFrom(s: string, rest: string)
    requires s != "" && rest == s[1..] && IsDigit(Lower(s[0]))
    ensures Read(s) == Value(Lower(s[0])) * SixteenTo(|rest|) + Read(rest)
  {
    ValueInBase16(s[0]);
    assert s == [s[0]] + rest;
    ReadPrepend(s[0], rest);
  }

  /** The list of a text is the one whose indices are the bits of the text read in base 16. */
  lemma NumberIsText(s: string)
    requires IsHex(s)
    ensures Ascending(Decoded(s)) && Positive(Decoded(s)) && BitSum(Decoded(s)) == Read(s)
  {
    DecodedAscending(s);
    assert forall i :: 0 <= i < |Decoded(s)| ==> Decoded(s)[i] in Decoded(s);
    BitSumIsBlockSum(Decoded(s), |s|);
    ReadDecoded(s, 0, |s|);
    assert s[0..] == s;
  }
}
