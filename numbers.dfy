/**
 * Chinese numerals read one character at a time (numbers/numbers.go).
 *
 * The parser keeps three fields: the value so far, whether a multiplier
 * (十, 百, 千, 萬, ...) has been seen, and whether it has switched to reading
 * plain digit strings (六零一二七).  `Next` is the state change of one call
 * to `Consume`; the class `Parser` performs it on its fields.
 *
 * Every table entry is non-negative and every step keeps the value
 * non-negative, so Go's truncating `/` and `%` agree with Dafny's here and
 * the value is a `nat`.
 */
module Numbers {
  import opened Wrappers

  /** The numeral table `All`: code point to digit (below 10) or multiplier (10 and above); `None` off the table. */
  function All(r: int): Option<nat>
  {
    match r
    case 0x3007 => Some(0)
    case 0x3405 => Some(5)
    case 0x3483 => Some(2)
    case 0x382A => Some(5)
    case 0x3B4D => Some(7)
    case 0x4E00 => Some(1)
    case 0x4E03 => Some(7)
    case 0x4E07 => Some(10000)
    case 0x4E09 => Some(3)
    case 0x4E5D => Some(9)
    case 0x4E8C => Some(2)
    case 0x4E94 => Some(5)
    case 0x4E96 => Some(4)
    case 0x4EBF => Some(100000000)
    case 0x4EC0 => Some(10)
    case 0x4EDF => Some(1000)
    case 0x4EE8 => Some(3)
    case 0x4F0D => Some(5)
    case 0x4F70 => Some(100)
    case 0x5104 => Some(100000000)
    case 0x5146 => Some(1000000000000)
    case 0x5169 => Some(2)
    case 0x516B => Some(8)
    case 0x516D => Some(6)
    case 0x5341 => Some(10)
    case 0x5343 => Some(1000)
    case 0x5344 => Some(20)
    case 0x5345 => Some(30)
    case 0x534C => Some(40)
    case 0x53C1 => Some(3)
    case 0x53C2 => Some(3)
    case 0x53C3 => Some(3)
    case 0x53C4 => Some(3)
    case 0x56DB => Some(4)
    case 0x58F1 => Some(1)
    case 0x58F9 => Some(1)
    case 0x5E7A => Some(1)
    case 0x5EFE => Some(9)
    case 0x5EFF => Some(20)
    case 0x5F0C => Some(1)
    case 0x5F0D => Some(2)
    case 0x5F0E => Some(3)
    case 0x5F10 => Some(2)
    case 0x62FE => Some(10)
    case 0x634C => Some(8)
    case 0x67D2 => Some(7)
    case 0x6F06 => Some(7)
    case 0x7396 => Some(9)
    case 0x767E => Some(100)
    case 0x8086 => Some(4)
    case 0x842C => Some(10000)
    case 0x8CAE => Some(2)
    case 0x8CB3 => Some(2)
    case 0x8D30 => Some(2)
    case 0x9621 => Some(1000)
    case 0x9646 => Some(6)
    case 0x964C => Some(100)
    case 0x9678 => Some(6)
    case 0x96F6 => Some(0)
    case 0x20001 => Some(7)
    case 0x20064 => Some(4)
    case 0x200E2 => Some(4)
    case 0x20121 => Some(5)
    case 0x2092A => Some(1)
    case 0x20983 => Some(30)
    case 0x2098C => Some(40)
    case 0x2099C => Some(40)
    case 0x20AEA => Some(6)
    case 0x20AFD => Some(3)
    case 0x20B19 => Some(3)
    case 0x22390 => Some(2)
    case 0x22998 => Some(3)
    case 0x23B1B => Some(3)
    case 0x2626D => Some(4)
    case _ => None
  }

  /** The fields of a `Parser`. */
  datatype State = State(value: nat, positional: bool, digits: bool)

  /** The zero value `var p Parser`. */
  const Start: State := State(0, false, false)

  predicate IsDigit(r: int)
  {
    All(r).Some? && All(r).value < 10
  }

  /**
   * One call of `Consume(r)`: the new state when it returns true, `None`
   * when it returns false (and then the fields are left as they were).
   */
  function Next(s: State, r: int): Option<State>
  {
    match All(r)
    case None => None
    case Some(val) => Feed(s, val)
  }

  /** What `Consume` does with the table value `val` of its rune. */
  function Feed(s: State, val: nat): Option<State>
  {
    if val < 10 then
      if s.digits then Some(s.(value := s.value * 10 + val))
      else if s.positional && val == 0 then Some(s)
      else if s.positional && s.value % 10 != 0 then None
      else if !s.positional && s.value % 10 != 0 then Some(s.(digits := true, value := s.value * 10 + val))
      else Some(s.(value := s.value + val))
    else if s.digits then None
    else
      var before := (s.value / (val * 10)) * val * 10;
      var after := s.value % val;
      NonNegative(s.value, val, after);
      if after == 0 then Some(s.(positional := true, value := before + val))
      else Some(s.(positional := true, value := before + val * after))
  }

  lemma {:induction false} NonNegative(value: nat, val: nat, after: nat)
    requires val >= 10
    ensures (value / (val * 10)) * val * 10 >= 0 && val * after >= 0
  {
    var q := value / (val * 10);
    assert q >= 0;
  }

  /** The state after feeding every rune of `rs`, or `None` at the first rejected one. */
  function Run(s: State, rs: seq<int>): Option<State>
    decreases |rs|
  {
    if rs == [] then Some(s)
    else
      match Next(s, rs[0])
      case None => None
      case Some(t) => Run(t, rs[1..])
  }

  /** A character outside the table is rejected. */
  lemma {:induction false} UnknownRejected(s: State, r: int)
    requires All(r).None?
    ensures Next(s, r) == None
  {
  }

  /** In digit mode every further digit appends a decimal place. */
  lemma {:induction false} DigitAppends(s: State, r: int)
    requires s.digits && IsDigit(r)
    ensures Next(s, r) == Some(State(s.value * 10 + All(r).value, s.positional, true))
  {
  }

  /**
   * Before any multiplier, a digit after a value whose last place is nonzero
   * switches to digit mode; after a zero last place it is added.
   */
  lemma {:induction false} DigitBeforeMultiplier(s: State, r: int)
    requires !s.digits && !s.positional && IsDigit(r)
    ensures s.value % 10 != 0 ==> Next(s, r) == Some(State(s.value * 10 + All(r).value, false, true))
    ensures s.value % 10 == 0 ==> Next(s, r) == Some(State(s.value + All(r).value, false, false))
  {
  }

  /**
   * After a multiplier a zero is accepted and ignored; any other digit is
   * rejected when the last decimal place is already taken, and added otherwise.
   */
  lemma {:induction false} DigitAfterMultiplier(s: State, r: int)
    requires !s.digits && s.positional && IsDigit(r)
    ensures All(r).value == 0 ==> Next(s, r) == Some(s)
    ensures All(r).value != 0 ==> (Next(s, r).Some? <==> s.value % 10 == 0)
    ensures All(r).value != 0 && s.value % 10 == 0 ==> Next(s, r) == Some(s.(value := s.value + All(r).value))
  {
  }

  /**
   * A multiplier `m` is rejected in digit mode.  Otherwise it keeps the places
   * above `10 m`, multiplies the part below `m` by `m` (an omitted 一 counting
   * as one), and sets positional mode.
   */
  lemma {:induction false} Multiplier(s: State, r: int)
    requires All(r).Some? && All(r).value >= 10
    ensures s.digits ==> Next(s, r) == None
    ensures !s.digits ==> Next(s, r).Some? && Next(s, r).value.positional && !Next(s, r).value.digits
    ensures !s.digits ==>
      var m := All(r).value;
      Next(s, r).value.value == s.value / (10 * m) * (10 * m) + m * (if s.value % m == 0 then 1 else s.value % m)
  {
  }

  function Pow10(n: nat): (p: nat)
    ensures p >= 1
  {
    if n == 0 then 1 else 10 * Pow10(n - 1)
  }

  /** The decimal number written by a string of digit characters. */
  function Decimal(rs: seq<int>): nat
    requires forall i :: 0 <= i < |rs| ==> IsDigit(rs[i])
  {
    if rs == [] then 0
    else
      assert IsDigit(rs[0]);
      All(rs[0]).value * Pow10(|rs| - 1) + Decimal(rs[1..])
  }

  /** Once in digit mode, a string of digits is read as the decimal number it writes, after the value so far. */
  lemma {:induction false} DigitRun(s: State, rs: seq<int>)
    requires s.digits
    requires forall i :: 0 <= i < |rs| ==> IsDigit(rs[i])
    ensures Run(s, rs) == Some(s.(value := s.value * Pow10(|rs|) + Decimal(rs)))
    decreases |rs|
  {
    if rs != [] {
      var d := All(rs[0]).value;
      var t := s.(value := s.value * 10 + d);
      assert Next(s, rs[0]) == Some(t);
      DigitRun(t, rs[1..]);
      Shift(s.value, d, Pow10(|rs| - 1), Decimal(rs[1..]));
    }
  }

  lemma {:induction false} Shift(v: nat, d: nat, p: nat, x: nat)
    ensures (v * 10 + d) * p + x == v * (10 * p) + (d * p + x)
  {
  }

  /** `Parser`: the three fields `Consume` updates in place. */
  class Parser {
    var value: nat
    var positional: bool
    var digits: bool

    /** The fields as a state. */
    function Current(): State
      reads this
    {
      State(value, positional, digits)
    }

    /** A zero-valued parser. */
    constructor ()
      ensures Current() == Start
    {
      value, positional, digits := 0, false, false;
    }

    /** `Consume`: true and the new state when `r` continues the numeral, false and nothing changed otherwise. */
    method Consume(r: int) returns (ok: bool)
      modifies this
      ensures ok <==> Next(old(Current()), r).Some?
      ensures ok ==> Current() == Next(old(Current()), r).value
      ensures !ok ==> Current() == old(Current())
    {
      if All(r).None? {
        return false;
      }
      var val := All(r).value;
      if val < 10 {
        if digits {
          value := value * 10 + val;
          return true;
        }
        if positional {
          if val == 0 {
            return true;
          }
          if value % 10 != 0 {
            return false;
          }
        } else if value % 10 != 0 {
          digits := true;
          value := value * 10 + val;
          return true;
        }
        value := value + val;
        return true;
      }
      if digits {
        return false;
      }
      positional := true;
      var before := (value / (val * 10)) * val * 10;
      var after := value % val;
      if after == 0 {
        value := before + val;
        return true;
      }
      value := before + val * after;
      return true;
    }

    /** `Value`: the number read so far; reading it changes nothing. */
    function Value(): (v: nat)
      reads this
      ensures v == Current().value
    {
      value
    }
  }


  /** The table entries of the digits in the test numerals: 一 七 三 九 二 五 兩 八 六 四 零. */
  lemma ExampleTable()
    ensures All(0x4E00) == Some(1) && All(0x4E03) == Some(7) && All(0x4E09) == Some(3) && All(0x4E5D) == Some(9)
    ensures All(0x4E8C) == Some(2) && All(0x4E94) == Some(5) && All(0x5169) == Some(2) && All(0x516B) == Some(8)
    ensures All(0x516D) == Some(6) && All(0x56DB) == Some(4) && All(0x96F6) == Some(0)
  {
  }

  /** The table entries of the multipliers in the test numerals: 万 亿 兆 十 千 百 萬. */
  lemma ExampleMultipliers()
    ensures All(0x4E07) == Some(10000) && All(0x4EBF) == Some(100000000) && All(0x5146) == Some(1000000000000)
    ensures All(0x5341) == Some(10) && All(0x5343) == Some(1000) && All(0x767E) == Some(100)
    ensures All(0x842C) == Some(10000)
  {
  }

  /** The code points of a string, as `[]rune(s)` gives them. */
  function Codes(s: string): (rs: seq<int>)
    ensures |rs| == |s| && forall k :: 0 <= k < |s| ==> rs[k] == s[k] as int
  {
    seq(|s|, k requires 0 <= k < |s| => s[k] as int)
  }

  /**
   * The loop of the numeral test: a zero `Parser` consumes every rune of
   * `s`, and the result is its `Value`, or `None` as soon as `Consume`
   * returns false.
   */
  function Numeral(s: string): Option<nat>
  {
    match Run(Start, Codes(s))
    case None => None
    case Some(t) => Some(t.value)
  }

  /**
   * A run over `rs[lo..]` in which rune `lo + k` has the table value
   * `vals[k]` and takes the parser from `states[k]` to `states[k + 1]`
   * reaches the last of those states.
   */
  lemma {:induction false} RunTrace(rs: seq<int>, lo: nat, vals: seq<nat>, states: seq<State>)
    requires lo + |vals| <= |rs| && |states| == |vals| + 1
    requires forall k :: 0 <= k < |vals| ==> All(rs[lo + k]) == Some(vals[k])
    requires forall k :: 0 <= k < |vals| ==> Feed(states[k], vals[k]) == Some(states[k + 1])
    ensures Run(states[0], rs[lo..]) == Run(states[|vals|], rs[lo + |vals|..])
    decreases |vals|
  {
    if vals != [] {
      assert rs[lo..][1..] == rs[lo + 1..];
      RunTrace(rs, lo + 1, vals[1..], states[1..]);
    }
  }

  /** The code points of a concatenation are those of its parts. */
  lemma CodesConcat(a: string, b: string)
    ensures Codes(a + b) == Codes(a) + Codes(b)
  {
  }

  /** A run over `a + b` that gets through `a` to `t` goes on from `t` over `b`. */
  lemma {:induction false} RunConcat(s: State, a: seq<int>, b: seq<int>, t: State)
    requires Run(s, a) == Some(t)
    ensures Run(s, a + b) == Run(t, b)
    decreases |a|
  {
    if a == [] {
      assert a + b == b;
    } else {
      var u := Next(s, a[0]).value;
      assert (a + b)[0] == a[0] && (a + b)[1..] == a[1..] + b;
      assert Run(s, a + b) == Run(u, a[1..] + b);
      RunConcat(u, a[1..], b, t);
    }
  }

  /** The parser states over 五. */
  lemma Trace5()
    ensures Run(Start, Codes("五")) == Some(State(5, false, false))
  {
    ExampleTable();
    ExampleMultipliers();
    assert Feed(State(0, false, false), 5) == Some(State(5, false, false));
    var rs := Codes("五");
    RunTrace(rs, 0, [5],
      [State(0, false, false), State(5, false, false)]);
    assert rs[0..] == rs && rs[1..] == [];
  }

  /** The parser states over 一百六十八. */
  lemma Trace168()
    ensures Run(Start, Codes("一百六十八")) == Some(State(168, true, false))
  {
    ExampleTable();
    ExampleMultipliers();
    assert Feed(State(0, false, false), 1) == Some(State(1, false, false));
    assert Feed(State(1, false, false), 100) == Some(State(100, true, false));
    assert Feed(State(100, true, false), 6) == Some(State(106, true, false));
    assert Feed(State(106, true, false), 10) == Some(State(160, true, false));
    assert Feed(State(160, true, false), 8) == Some(State(168, true, false));
    var rs := Codes("一百六十八");
    RunTrace(rs, 0, [1, 100, 6, 10, 8],
      [State(0, false, false), State(1, false, false), State(100, true, false), State(106, true, false), State(160, true, false), State(168, true, false)]);
    assert rs[0..] == rs && rs[5..] == [];
  }

  /** The parser states over 六十. */
  lemma Trace60()
    ensures Run(Start, Codes("六十")) == Some(State(60, true, false))
  {
    ExampleTable();
    ExampleMultipliers();
    assert Feed(State(0, false, false), 6) == Some(State(6, false, false));
    assert Feed(State(6, false, false), 10) == Some(State(60, true, false));
    var rs := Codes("六十");
    RunTrace(rs, 0, [6, 10],
      [State(0, false, false), State(6, false, false), State(60, true, false)]);
    assert rs[0..] == rs && rs[2..] == [];
  }

  /** The parser states over 二十. */
  lemma Trace20()
    ensures Run(Start, Codes("二十")) == Some(State(20, true, false))
  {
    ExampleTable();
    ExampleMultipliers();
    assert Feed(State(0, false, false), 2) == Some(State(2, false, false));
    assert Feed(State(2, false, false), 10) == Some(State(20, true, false));
    var rs := Codes("二十");
    RunTrace(rs, 0, [2, 10],
      [State(0, false, false), State(2, false, false), State(20, true, false)]);
    assert rs[0..] == rs && rs[2..] == [];
  }

  /** The parser states over 兩百. */
  lemma Trace200()
    ensures Run(Start, Codes("兩百")) == Some(State(200, true, false))
  {
    ExampleTable();
    ExampleMultipliers();
    assert Feed(State(0, false, false), 2) == Some(State(2, false, false));
    assert Feed(State(2, false, false), 100) == Some(State(200, true, false));
    var rs := Codes("兩百");
    RunTrace(rs, 0, [2, 100],
      [State(0, false, false), State(2, false, false), State(200, true, false)]);
    assert rs[0..] == rs && rs[2..] == [];
  }

  /** The parser states over 二千. */
  lemma Trace2000()
    ensures Run(Start, Codes("二千")) == Some(State(2000, true, false))
  {
    ExampleTable();
    ExampleMultipliers();
    assert Feed(State(0, false, false), 2) == Some(State(2, false, false));
    assert Feed(State(2, false, false), 1000) == Some(State(2000, true, false));
    var rs := Codes("二千");
    RunTrace(rs, 0, [2, 1000],
      [State(0, false, false), State(2, false, false), State(2000, true, false)]);
    assert rs[0..] == rs && rs[2..] == [];
  }

  /** The parser states over 四十五. */
  lemma Trace45()
    ensures Run(Start, Codes("四十五")) == Some(State(45, true, false))
  {
    ExampleTable();
    ExampleMultipliers();
    assert Feed(State(0, false, false), 4) == Some(State(4, false, false));
    assert Feed(State(4, false, false), 10) == Some(State(40, true, false));
    assert Feed(State(40, true, false), 5) == Some(State(45, true, false));
    var rs := Codes("四十五");
    RunTrace(rs, 0, [4, 10, 5],
      [State(0, false, false), State(4, false, false), State(40, true, false), State(45, true, false)]);
    assert rs[0..] == rs && rs[3..] == [];
  }

  /** The parser states over 兩千三百六十二. */
  lemma Trace2362()
    ensures Run(Start, Codes("兩千三百六十二")) == Some(State(2362, true, false))
  {
    ExampleTable();
    ExampleMultipliers();
    assert Feed(State(0, false, false), 2) == Some(State(2, false, false));
    assert Feed(State(2, false, false), 1000) == Some(State(2000, true, false));
    assert Feed(State(2000, true, false), 3) == Some(State(2003, true, false));
    assert Feed(State(2003, true, false), 100) == Some(State(2300, true, false));
    assert Feed(State(2300, true, false), 6) == Some(State(2306, true, false));
    assert Feed(State(2306, true, false), 10) == Some(State(2360, true, false));
    assert Feed(State(2360, true, false), 2) == Some(State(2362, true, false));
    var rs := Codes("兩千三百六十二");
    RunTrace(rs, 0, [2, 1000, 3, 100, 6, 10, 2],
      [State(0, false, false), State(2, false, false), State(2000, true, false), State(2003, true, false), State(2300, true, false), State(2306, true, false), State(2360, true, false), State(2362, true, false)]);
    assert rs[0..] == rs && rs[7..] == [];
  }

  /** The parser states over 十四. */
  lemma Trace14()
    ensures Run(Start, Codes("十四")) == Some(State(14, true, false))
  {
    ExampleTable();
    ExampleMultipliers();
    assert Feed(State(0, false, false), 10) == Some(State(10, true, false));
    assert Feed(State(10, true, false), 4) == Some(State(14, true, false));
    var rs := Codes("十四");
    RunTrace(rs, 0, [10, 4],
      [State(0, false, false), State(10, true, false), State(14, true, false)]);
    assert rs[0..] == rs && rs[2..] == [];
  }

  /** The parser states over 一萬兩千. */
  lemma Trace12000()
    ensures Run(Start, Codes("一萬兩千")) == Some(State(12000, true, false))
  {
    ExampleTable();
    ExampleMultipliers();
    assert Feed(State(0, false, false), 1) == Some(State(1, false, false));
    assert Feed(State(1, false, false), 10000) == Some(State(10000, true, false));
    assert Feed(State(10000, true, false), 2) == Some(State(10002, true, false));
    assert Feed(State(10002, true, false), 1000) == Some(State(12000, true, false));
    var rs := Codes("一萬兩千");
    RunTrace(rs, 0, [1, 10000, 2, 1000],
      [State(0, false, false), State(1, false, false), State(10000, true, false), State(10002, true, false), State(12000, true, false)]);
    assert rs[0..] == rs && rs[4..] == [];
  }

  /** The parser states over 一百一十四. */
  lemma Trace114()
    ensures Run(Start, Codes("一百一十四")) == Some(State(114, true, false))
  {
    ExampleTable();
    ExampleMultipliers();
    assert Feed(State(0, false, false), 1) == Some(State(1, false, false));
    assert Feed(State(1, false, false), 100) == Some(State(100, true, false));
    assert Feed(State(100, true, false), 1) == Some(State(101, true, false));
    assert Feed(State(101, true, false), 10) == Some(State(110, true, false));
    assert Feed(State(110, true, false), 4) == Some(State(114, true, false));
    var rs := Codes("一百一十四");
    RunTrace(rs, 0, [1, 100, 1, 10, 4],
      [State(0, false, false), State(1, false, false), State(100, true, false), State(101, true, false), State(110, true, false), State(114, true, false)]);
    assert rs[0..] == rs && rs[5..] == [];
  }

  /** The parser states over 一千一百五十八. */
  lemma Trace1158()
    ensures Run(Start, Codes("一千一百五十八")) == Some(State(1158, true, false))
  {
    ExampleTable();
    ExampleMultipliers();
    assert Feed(State(0, false, false), 1) == Some(State(1, false, false));
    assert Feed(State(1, false, false), 1000) == Some(State(1000, true, false));
    assert Feed(State(1000, true, false), 1) == Some(State(1001, true, false));
    assert Feed(State(1001, true, false), 100) == Some(State(1100, true, false));
    assert Feed(State(1100, true, false), 5) == Some(State(1105, true, false));
    assert Feed(State(1105, true, false), 10) == Some(State(1150, true, false));
    assert Feed(State(1150, true, false), 8) == Some(State(1158, true, false));
    var rs := Codes("一千一百五十八");
    RunTrace(rs, 0, [1, 1000, 1, 100, 5, 10, 8],
      [State(0, false, false), State(1, false, false), State(1000, true, false), State(1001, true, false), State(1100, true, false), State(1105, true, false), State(1150, true, false), State(1158, true, false)]);
    assert rs[0..] == rs && rs[7..] == [];
  }

  /** The parser states over 十二兆三千四, the runes 0 to 5 of 十二兆三千四百五十六亿七千八百九十万二千三百四十五. */
  lemma Trace12345678902345Part1()
    ensures Run(State(0, false, false), Codes("十二兆三千四")) == Some(State(12000000003004, true, false))
  {
    ExampleTable();
    ExampleMultipliers();
    assert Feed(State(0, false, false), 10) == Some(State(10, true, false));
    assert Feed(State(10, true, false), 2) == Some(State(12, true, false));
    assert Feed(State(12, true, false), 1000000000000) == Some(State(12000000000000, true, false));
    assert Feed(State(12000000000000, true, false), 3) == Some(State(12000000000003, true, false));
    assert Feed(State(12000000000003, true, false), 1000) == Some(State(12000000003000, true, false));
    assert Feed(State(12000000003000, true, false), 4) == Some(State(12000000003004, true, false));
    var rs := Codes("十二兆三千四");
    RunTrace(rs, 0, [10, 2, 1000000000000, 3, 1000, 4],
      [State(0, false, false), State(10, true, false), State(12, true, false), State(12000000000000, true, false), State(12000000000003, true, false), State(12000000003000, true, false), State(12000000003004, true, false)]);
    assert rs[0..] == rs && rs[6..] == [];
  }

  /** The parser states over 百五十六亿七, the runes 6 to 11 of 十二兆三千四百五十六亿七千八百九十万二千三百四十五. */
  lemma Trace12345678902345Part2()
    ensures Run(State(12000000003004, true, false), Codes("百五十六亿七")) == Some(State(12345600000007, true, false))
  {
    ExampleTable();
    ExampleMultipliers();
    assert Feed(State(12000000003004, true, false), 100) == Some(State(12000000003400, true, false));
    assert Feed(State(12000000003400, true, false), 5) == Some(State(12000000003405, true, false));
    assert Feed(State(12000000003405, true, false), 10) == Some(State(12000000003450, true, false));
    assert Feed(State(12000000003450, true, false), 6) == Some(State(12000000003456, true, false));
    assert Feed(State(12000000003456, true, false), 100000000) == Some(State(12345600000000, true, false));
    assert Feed(State(12345600000000, true, false), 7) == Some(State(12345600000007, true, false));
    var rs := Codes("百五十六亿七");
    RunTrace(rs, 0, [100, 5, 10, 6, 100000000, 7],
      [State(12000000003004, true, false), State(12000000003400, true, false), State(12000000003405, true, false), State(12000000003450, true, false), State(12000000003456, true, false), State(12345600000000, true, false), State(12345600000007, true, false)]);
    assert rs[0..] == rs && rs[6..] == [];
  }

  /** The parser states over 千八百九十万二, the runes 12 to 18 of 十二兆三千四百五十六亿七千八百九十万二千三百四十五. */
  lemma Trace12345678902345Part3()
    ensures Run(State(12345600000007, true, false), Codes("千八百九十万二")) == Some(State(12345678900002, true, false))
  {
    ExampleTable();
    ExampleMultipliers();
    assert Feed(State(12345600000007, true, false), 1000) == Some(State(12345600007000, true, false));
    assert Feed(State(12345600007000, true, false), 8) == Some(State(12345600007008, true, false));
    assert Feed(State(12345600007008, true, false), 100) == Some(State(12345600007800, true, false));
    assert Feed(State(12345600007800, true, false), 9) == Some(State(12345600007809, true, false));
    assert Feed(State(12345600007809, true, false), 10) == Some(State(12345600007890, true, false));
    assert Feed(State(12345600007890, true, false), 10000) == Some(State(12345678900000, true, false));
    assert Feed(State(12345678900000, true, false), 2) == Some(State(12345678900002, true, false));
    var rs := Codes("千八百九十万二");
    RunTrace(rs, 0, [1000, 8, 100, 9, 10, 10000, 2],
      [State(12345600000007, true, false), State(12345600007000, true, false), State(12345600007008, true, false), State(12345600007800, true, false), State(12345600007809, true, false), State(12345600007890, true, false), State(12345678900000, true, false), State(12345678900002, true, false)]);
    assert rs[0..] == rs && rs[7..] == [];
  }

  /** The parser states over 千三百四十五, the runes 19 to 24 of 十二兆三千四百五十六亿七千八百九十万二千三百四十五. */
  lemma Trace12345678902345Part4()
    ensures Run(State(12345678900002, true, false), Codes("千三百四十五")) == Some(State(12345678902345, true, false))
  {
    ExampleTable();
    ExampleMultipliers();
    assert Feed(State(12345678900002, true, false), 1000) == Some(State(12345678902000, true, false));
    assert Feed(State(12345678902000, true, false), 3) == Some(State(12345678902003, true, false));
    assert Feed(State(12345678902003, true, false), 100) == Some(State(12345678902300, true, false));
    assert Feed(State(12345678902300, true, false), 4) == Some(State(12345678902304, true, false));
    assert Feed(State(12345678902304, true, false), 10) == Some(State(12345678902340, true, false));
    assert Feed(State(12345678902340, true, false), 5) == Some(State(12345678902345, true, false));
    var rs := Codes("千三百四十五");
    RunTrace(rs, 0, [1000, 3, 100, 4, 10, 5],
      [State(12345678900002, true, false), State(12345678902000, true, false), State(12345678902003, true, false), State(12345678902300, true, false), State(12345678902304, true, false), State(12345678902340, true, false), State(12345678902345, true, false)]);
    assert rs[0..] == rs && rs[6..] == [];
  }

  /** The longest test numeral is the concatenation of the four parts traced above. */
  lemma LongNumeralParts()
    ensures "十二兆三千四百五十六亿七千八百九十万二千三百四十五" == "十二兆三千四" + "百五十六亿七" + "千八百九十万二" + "千三百四十五"
  {}

  /** The parser states over 十二兆三千四百五十六亿七千八百九十万二千三百四十五, joined from its four parts. */
  lemma Trace12345678902345()
    ensures Run(Start, Codes("十二兆三千四百五十六亿七千八百九十万二千三百四十五")) == Some(State(12345678902345, true, false))
  {
    Trace12345678902345Part1();
    Trace12345678902345Part2();
    Trace12345678902345Part3();
    Trace12345678902345Part4();
    LongNumeralParts();
    CodesConcat("十二兆三千四", "百五十六亿七");
    CodesConcat("十二兆三千四" + "百五十六亿七", "千八百九十万二");
    CodesConcat("十二兆三千四" + "百五十六亿七" + "千八百九十万二", "千三百四十五");
    RunConcat(State(0, false, false), Codes("十二兆三千四"), Codes("百五十六亿七"), State(12000000003004, true, false));
    RunConcat(State(0, false, false), Codes("十二兆三千四" + "百五十六亿七"), Codes("千八百九十万二"), State(12345600000007, true, false));
    RunConcat(State(0, false, false), Codes("十二兆三千四" + "百五十六亿七" + "千八百九十万二"), Codes("千三百四十五"), State(12345678900002, true, false));
  }

  /** The parser states over 二百零五. */
  lemma Trace205()
    ensures Run(Start, Codes("二百零五")) == Some(State(205, true, false))
  {
    ExampleTable();
    ExampleMultipliers();
    assert Feed(State(0, false, false), 2) == Some(State(2, false, false));
    assert Feed(State(2, false, false), 100) == Some(State(200, true, false));
    assert Feed(State(200, true, false), 0) == Some(State(200, true, false));
    assert Feed(State(200, true, false), 5) == Some(State(205, true, false));
    var rs := Codes("二百零五");
    RunTrace(rs, 0, [2, 100, 0, 5],
      [State(0, false, false), State(2, false, false), State(200, true, false), State(200, true, false), State(205, true, false)]);
    assert rs[0..] == rs && rs[4..] == [];
  }

  /** The parser states over 十萬零四. */
  lemma Trace100004()
    ensures Run(Start, Codes("十萬零四")) == Some(State(100004, true, false))
  {
    ExampleTable();
    ExampleMultipliers();
    assert Feed(State(0, false, false), 10) == Some(State(10, true, false));
    assert Feed(State(10, true, false), 10000) == Some(State(100000, true, false));
    assert Feed(State(100000, true, false), 0) == Some(State(100000, true, false));
    assert Feed(State(100000, true, false), 4) == Some(State(100004, true, false));
    var rs := Codes("十萬零四");
    RunTrace(rs, 0, [10, 10000, 0, 4],
      [State(0, false, false), State(10, true, false), State(100000, true, false), State(100000, true, false), State(100004, true, false)]);
    assert rs[0..] == rs && rs[4..] == [];
  }

  /** The parser states over 一千零五萬二十六. */
  lemma Trace10050026()
    ensures Run(Start, Codes("一千零五萬二十六")) == Some(State(10050026, true, false))
  {
    ExampleTable();
    ExampleMultipliers();
    assert Feed(State(0, false, false), 1) == Some(State(1, false, false));
    assert Feed(State(1, false, false), 1000) == Some(State(1000, true, false));
    assert Feed(State(1000, true, false), 0) == Some(State(1000, true, false));
    assert Feed(State(1000, true, false), 5) == Some(State(1005, true, false));
    assert Feed(State(1005, true, false), 10000) == Some(State(10050000, true, false));
    assert Feed(State(10050000, true, false), 2) == Some(State(10050002, true, false));
    assert Feed(State(10050002, true, false), 10) == Some(State(10050020, true, false));
    assert Feed(State(10050020, true, false), 6) == Some(State(10050026, true, false));
    var rs := Codes("一千零五萬二十六");
    RunTrace(rs, 0, [1, 1000, 0, 5, 10000, 2, 10, 6],
      [State(0, false, false), State(1, false, false), State(1000, true, false), State(1000, true, false), State(1005, true, false), State(10050000, true, false), State(10050002, true, false), State(10050020, true, false), State(10050026, true, false)]);
    assert rs[0..] == rs && rs[8..] == [];
  }

  /** The parser states over 六零一二七. */
  lemma Trace60127()
    ensures Run(Start, Codes("六零一二七")) == Some(State(60127, false, true))
  {
    ExampleTable();
    ExampleMultipliers();
    assert Feed(State(0, false, false), 6) == Some(State(6, false, false));
    assert Feed(State(6, false, false), 0) == Some(State(60, false, true));
    assert Feed(State(60, false, true), 1) == Some(State(601, false, true));
    assert Feed(State(601, false, true), 2) == Some(State(6012, false, true));
    assert Feed(State(6012, false, true), 7) == Some(State(60127, false, true));
    var rs := Codes("六零一二七");
    RunTrace(rs, 0, [6, 0, 1, 2, 7],
      [State(0, false, false), State(6, false, false), State(60, false, true), State(601, false, true), State(6012, false, true), State(60127, false, true)]);
    assert rs[0..] == rs && rs[5..] == [];
  }

  /** Every numeral of the test table reads as its value. */
  lemma NumeralTests()
    ensures Numeral("五") == Some(5)
    ensures Numeral("一百六十八") == Some(168)
    ensures Numeral("六十") == Some(60)
    ensures Numeral("二十") == Some(20)
    ensures Numeral("兩百") == Some(200)
    ensures Numeral("二千") == Some(2000)
    ensures Numeral("四十五") == Some(45)
    ensures Numeral("兩千三百六十二") == Some(2362)
    ensures Numeral("十四") == Some(14)
    ensures Numeral("一萬兩千") == Some(12000)
    ensures Numeral("一百一十四") == Some(114)
    ensures Numeral("一千一百五十八") == Some(1158)
    ensures Numeral("十二兆三千四百五十六亿七千八百九十万二千三百四十五") == Some(12345678902345)
    ensures Numeral("二百零五") == Some(205)
    ensures Numeral("十萬零四") == Some(100004)
    ensures Numeral("一千零五萬二十六") == Some(10050026)
    ensures Numeral("六零一二七") == Some(60127)
  {
    Trace5();
    Trace168();
    Trace60();
    Trace20();
    Trace200();
    Trace2000();
    Trace45();
    Trace2362();
    Trace14();
    Trace12000();
    Trace114();
    Trace1158();
    Trace12345678902345();
    Trace205();
    Trace100004();
    Trace10050026();
    Trace60127();
  }
}
