/** number() of kernel/vsprintf.c: a 32-bit value in any base, with width, precision and flags. */
module NumberPrinter {

  const MIN_INT := -0x8000_0000
  const MAX_INT := 0x7FFF_FFFF

  newtype Word = x | MIN_INT <= x <= MAX_INT

  datatype Flags = Flags(zeropad: bool, sign: bool, plus: bool, space: bool, left: bool, special: bool, small: bool)

  /** Negation in 32 bits: the most negative value is its own. */
  function Negated(x: Word): (y: Word)
    ensures y as int == if x as int == MIN_INT then MIN_INT else -(x as int)
  {
    if x as int == MIN_INT then x else -x
  }

  /** The register contents as divl sees them. */
  function Unsigned(x: Word): nat {
    if x < 0 then x as int + 0x1_0000_0000 else x as int
  }

  function Signed(n: nat): Word
    requires n < 0x1_0000_0000
  {
    if n > MAX_INT then (n - 0x1_0000_0000) as Word else n as Word
  }

  // ----- digits -----

  function Digit(d: int, small: bool): char
    requires 0 <= d < 36
  {
    if d < 10 then '0' + d as char else if small then 'a' + (d - 10) as char else 'A' + (d - 10) as char
  }

  /** The value of a digit in either case; 99 for any other character. */
  function ValueOf(c: char): nat {
    if '0' <= c <= '9' then (c - '0') as int
    else if 'a' <= c <= 'z' then (c - 'a') as int + 10
    else if 'A' <= c <= 'Z' then (c - 'A') as int + 10
    else 99
  }

  lemma DigitValue(d: int, small: bool)
    requires 0 <= d < 36
    ensures ValueOf(Digit(d, small)) == d && (Digit(d, small) == '0' <==> d == 0)
  {
  }

  /** Base 2 to 36. */
  predicate BaseOk(base: int) {
    2 <= base <= 36
  }

  /** The digits of n, the last one first, as number() collects them. */
  function DigitsOf(n: nat, base: nat, small: bool): (s: seq<char>)
    requires BaseOk(base)
    decreases n
  {
    if n < base then [Digit(n, small)] else [Digit(n % base, small)] + DigitsOf(n / base, base, small)
  }

  function Reversed(s: seq<char>): seq<char> {
    if s == [] then [] else Reversed(s[1..]) + [s[0]]
  }

  function Repeated(c: char, n: int): seq<char> {
    if n <= 0 then [] else seq(n, _ => c)
  }

  /** The value of a string of digits, the first one the most significant. */
  function Value(s: seq<char>, base: nat): nat {
    if s == [] then 0 else Value(s[..|s| - 1], base) * base + ValueOf(s[|s| - 1])
  }

  lemma ValueOne(c: char, base: nat)
    ensures Value([c], base) == ValueOf(c)
  {
    assert [c][..0] == [];
  }

  lemma ValueMore(s: seq<char>, c: char, base: nat)
    ensures Value(s + [c], base) == Value(s, base) * base + ValueOf(c)
  {
    assert (s + [c])[..|s|] == s;
  }

  lemma DivMod(n: nat, base: nat)
    requires base >= 2
    ensures n == n / base * base + n % base && 0 <= n % base < base
    ensures n >= base ==> 1 <= n / base < n
  {
  }

  lemma ReversedMore(c: char, s: seq<char>)
    ensures Reversed([c] + s) == Reversed(s) + [c]
  {
    assert ([c] + s)[1..] == s;
  }

  lemma ReversedOne(c: char)
    ensures Reversed([c]) == [c]
  {
  }

  lemma ReversedValue(c: char, d: seq<char>, base: nat, q: nat, r: nat)
    requires Value(Reversed(d), base) == q && ValueOf(c) == r
    ensures Value(Reversed([c] + d), base) == q * base + r
  {
    ReversedMore(c, d);
    ValueMore(Reversed(d), c, base);
  }

  lemma DigitsMore(n: nat, base: nat, small: bool)
    requires BaseOk(base) && n >= base
    ensures 0 <= n % base < base
    ensures DigitsOf(n, base, small) == [Digit(n % base, small)] + DigitsOf(n / base, base, small)
  {
  }

  /** The digits of n stand for n. */
  lemma {:induction false} DigitsValue(n: nat, base: nat, small: bool)
    requires BaseOk(base)
    ensures Value(Reversed(DigitsOf(n, base, small)), base) == n
    decreases n
  {
    if n < base {
      DigitValue(n, small);
      ReversedOne(Digit(n, small));
      ValueOne(Digit(n, small), base);
    } else {
      DivMod(n, base);
      DigitsValue(n / base, base, small);
      DigitValue(n % base, small);
      DigitsMore(n, base, small);
      ReversedValue(Digit(n % base, small), DigitsOf(n / base, base, small), base, n / base, n % base);
    }
  }

  /** They are digits of the base, and only a single one can be zero. */
  lemma {:induction false} DigitsShape(n: nat, base: nat, small: bool)
    requires BaseOk(base)
    ensures var s := Reversed(DigitsOf(n, base, small));
      && |s| == |DigitsOf(n, base, small)| >= 1
      && (forall c | c in s :: ValueOf(c) < base)
      && (s[0] == '0' ==> n == 0)
    decreases n
  {
    if n < base {
      DigitValue(n, small);
      ReversedOne(Digit(n, small));
    } else {
      DivMod(n, base);
      DigitsMore(n, base, small);
      DigitsShape(n / base, base, small);
      DigitValue(n % base, small);
      ReversedMore(Digit(n % base, small), DigitsOf(n / base, base, small));
    }
  }

  /** Leading zeros do not count. */
  lemma {:induction false} LeadingZeros(k: int, s: seq<char>, base: nat)
    requires BaseOk(base)
    ensures Value(Repeated('0', k) + s, base) == Value(s, base)
  {
    var z := Repeated('0', k);
    if s == [] {
      if k > 0 {
        LeadingZeros(k - 1, [], base);
        ValueMore(Repeated('0', k - 1), '0', base);
        assert Repeated('0', k - 1) + [] == Repeated('0', k - 1) && z + [] == Repeated('0', k - 1) + ['0'];
      } else {
        assert z + [] == [];
      }
    } else {
      var c, r := s[|s| - 1], s[..|s| - 1];
      LeadingZeros(k, r, base);
      ValueMore(z + r, c, base);
      ValueMore(r, c, base);
      assert z + s == z + r + [c] && s == r + [c];
    }
  }

  // ----- what number() prints -----

  /** The number that is meant: with SIGN the value itself, otherwise the register without sign. */
  function Meant(num: Word, f: Flags): int {
    if f.sign then num as int else Unsigned(num)
  }

  function Magnitude(num: Word, f: Flags): nat {
    if f.sign && num < 0 then Unsigned(Negated(num)) else Unsigned(num)
  }

  lemma MagnitudeIs(num: Word, f: Flags)
    ensures Meant(num, f) == if f.sign && num < 0 then -(Magnitude(num, f) as int) else Magnitude(num, f)
  {
  }

  function SignOf(num: Word, f: Flags): seq<char> {
    if f.sign && num < 0 then "-" else if f.plus then "+" else if f.space then " " else ""
  }

  function PrefixOf(base: int, f: Flags): seq<char> {
    if !f.special then "" else if base == 8 then "0" else if base == 16 then ['0', if f.small then 'x' else 'X'] else ""
  }

  function Max(a: int, b: int): int {
    if a > b then a else b
  }

  /** Padding that brings the body to the wanted size. */
  function Padding(num: Word, base: nat, size: int, precision: int, f: Flags): int
    requires BaseOk(base)
  {
    size - |SignOf(num, f)| - |PrefixOf(base, f)| - Max(precision, |DigitsOf(Magnitude(num, f), base, f.small)|)
  }

  /** Spaces, sign, prefix, zeros, digits, spaces. */
  function Printed(num: Word, base: nat, size: int, precision: int, f: Flags): seq<char>
    requires BaseOk(base)
  {
    var digits := DigitsOf(Magnitude(num, f), base, f.small);
    var pad := Padding(num, base, size, precision, f);
    Repeated(' ', if f.left || f.zeropad then 0 else pad) + SignOf(num, f) + PrefixOf(base, f)
    + Repeated('0', if !f.left && f.zeropad then pad else 0) + Repeated('0', precision - |digits|)
    + Reversed(digits) + Repeated(' ', if f.left then pad else 0)
  }

  /** The string is as long as asked for, or longer if the number needs it. */
  lemma PrintedLength(num: Word, base: nat, size: int, precision: int, f: Flags)
    requires BaseOk(base)
    ensures |Printed(num, base, size, precision, f)|
      == Max(size, |SignOf(num, f)| + |PrefixOf(base, f)| + Max(precision, |DigitsOf(Magnitude(num, f), base, f.small)|))
  {
    DigitsShape(Magnitude(num, f), base, f.small);
  }

  /** Sign and prefix; zeros for the precision, and the digits. */
  function FrontOf(num: Word, base: nat, f: Flags): seq<char> {
    SignOf(num, f) + PrefixOf(base, f)
  }

  function BackOf(num: Word, base: nat, precision: int, f: Flags): seq<char>
    requires BaseOk(base)
  {
    var digits := DigitsOf(Magnitude(num, f), base, f.small);
    Repeated('0', precision - |digits|) + Reversed(digits)
  }

  lemma Regroup(a: seq<char>, s: seq<char>, p: seq<char>, z: seq<char>, q: seq<char>, d: seq<char>, b: seq<char>)
    ensures a + s + p + z + q + d + b == a + (((s + p) + z) + (q + d)) + b
  {
    assert a + s + p == a + (s + p);
    Associates(a, s + p, z);
    Associates(a + ((s + p) + z), q, d);
    Associates(a, (s + p) + z, q + d);
  }

  lemma Associates(x: seq<char>, y: seq<char>, z: seq<char>)
    ensures x + y + z == x + (y + z)
  {
  }

  lemma PrintedGroups(num: Word, base: nat, size: int, precision: int, f: Flags)
    requires BaseOk(base)
    ensures var pad := Padding(num, base, size, precision, f);
      Printed(num, base, size, precision, f) ==
        Repeated(' ', if f.left || f.zeropad then 0 else pad)
        + ((FrontOf(num, base, f) + Repeated('0', if !f.left && f.zeropad then pad else 0)) + BackOf(num, base, precision, f))
        + Repeated(' ', if f.left then pad else 0)
  {
    var digits, pad := DigitsOf(Magnitude(num, f), base, f.small), Padding(num, base, size, precision, f);
    Regroup(Repeated(' ', if f.left || f.zeropad then 0 else pad), SignOf(num, f), PrefixOf(base, f),
            Repeated('0', if !f.left && f.zeropad then pad else 0), Repeated('0', precision - |digits|), Reversed(digits),
            Repeated(' ', if f.left then pad else 0));
  }

  /** Without a size there is no padding. */
  lemma BareIs(num: Word, base: nat, precision: int, f: Flags)
    requires BaseOk(base)
    ensures var bare := Printed(num, base, 0, precision, f);
      bare == FrontOf(num, base, f) + BackOf(num, base, precision, f) && BackOf(num, base, precision, f) != []
      && forall size :: Padding(num, base, size, precision, f) == size - |bare|
  {
    PrintedGroups(num, base, 0, precision, f);
    DigitsShape(Magnitude(num, f), base, f.small);
    NoPadding([], FrontOf(num, base, f), [], BackOf(num, base, precision, f), []);
    assert Padding(num, base, 0, precision, f) <= 0;
  }

  lemma NoPadding(a: seq<char>, front: seq<char>, z: seq<char>, back: seq<char>, b: seq<char>)
    ensures a == [] && z == [] ==> a + ((front + z) + back) + b == (front + back) + b
    ensures z == [] && b == [] ==> a + ((front + z) + back) + b == a + (front + back)
    ensures a == [] && b == [] ==> a + ((front + z) + back) + b == front + z + back
    ensures (front + back)[..|front|] == front && (front + back)[|front|..] == back
  {
  }

  /** The padding is spaces behind the number with `left`, zeros between the sign or prefix and the digits with
      `zeropad` alone, and otherwise spaces in front. */
  lemma PaddedIs(num: Word, base: nat, size: int, precision: int, f: Flags)
    requires BaseOk(base)
    ensures var bare := Printed(num, base, 0, precision, f);
      var k := |SignOf(num, f)| + |PrefixOf(base, f)|;
      k <= |bare| && Printed(num, base, size, precision, f) ==
        if f.left then bare + Repeated(' ', size - |bare|)
        else if f.zeropad then bare[..k] + Repeated('0', size - |bare|) + bare[k..]
        else Repeated(' ', size - |bare|) + bare
  {
    var pad, front, back := Padding(num, base, size, precision, f), FrontOf(num, base, f), BackOf(num, base, precision, f);
    BareIs(num, base, precision, f);
    PrintedGroups(num, base, size, precision, f);
    NoPadding(Repeated(' ', if f.left || f.zeropad then 0 else pad), front, Repeated('0', if !f.left && f.zeropad then pad else 0),
              back, Repeated(' ', if f.left then pad else 0));
  }

  /** It begins with the sign, and then, with `special`, with 0 in base 8, 0x in base 16. */
  lemma FrontIs(num: Word, base: nat, precision: int, f: Flags)
    requires BaseOk(base)
    ensures var bare := Printed(num, base, 0, precision, f);
      var sign := if f.sign && num < 0 then "-" else if f.plus then "+" else if f.space then " " else "";
      var prefix := if f.special && base == 8 then "0" else if f.special && base == 16 then if f.small then "0x" else "0X" else "";
      sign + prefix <= bare && |bare| > |sign + prefix|
  {
    BareIs(num, base, precision, f);
  }

  /** Letters are small, or capital. */
  lemma {:induction false} CaseIs(n: nat, base: nat, small: bool, i: nat)
    requires BaseOk(base) && i < |DigitsOf(n, base, small)|
    ensures var c := DigitsOf(n, base, small)[i]; '0' <= c <= '9' || if small then 'a' <= c <= 'z' else 'A' <= c <= 'Z'
    decreases n
  {
    if n < base || i == 0 {
      DivMod(n, base);
    } else {
      DivMod(n, base);
      DigitsMore(n, base, small);
      CaseIs(n / base, base, small, i - 1);
    }
  }

  // ----- reading it back -----

  function SkipSpaces(s: seq<char>): seq<char> {
    if s != [] && s[0] == ' ' then SkipSpaces(s[1..]) else s
  }

  function LeadingDigits(s: seq<char>, base: nat): seq<char> {
    if s != [] && ValueOf(s[0]) < base then [s[0]] + LeadingDigits(s[1..], base) else []
  }

  /** The reading of a printed number: spaces, a sign, a 0x where one is expected, digits. */
  function Read(s: seq<char>, base: nat, special: bool): int {
    var t := SkipSpaces(s);
    var negative := t != [] && t[0] == '-';
    var u := if t != [] && t[0] in {'-', '+'} then t[1..] else t;
    var v := if special && base == 16 && |u| >= 2 then u[2..] else u;
    var value: int := Value(LeadingDigits(v, base), base);
    if negative then -value else value
  }

  lemma {:induction false} SkipsAll(n: int, s: seq<char>)
    requires s != [] && s[0] != ' '
    ensures SkipSpaces(Repeated(' ', n) + s) == s
    decreases n
  {
    if n > 0 {
      assert (Repeated(' ', n) + s)[1..] == Repeated(' ', n - 1) + s;
      SkipsAll(n - 1, s);
    } else {
      assert Repeated(' ', n) + s == s;
    }
  }

  lemma {:induction false} TakesDigits(s: seq<char>, n: int, base: nat)
    requires BaseOk(base) && forall c | c in s :: ValueOf(c) < base
    ensures LeadingDigits(s + Repeated(' ', n), base) == s
  {
    if s == [] {
    } else {
      assert (s + Repeated(' ', n))[1..] == s[1..] + Repeated(' ', n);
      TakesDigits(s[1..], n, base);
    }
  }

  /** Sign and prefix as they are read: a space sign is one more space in front. */
  function VisibleSign(num: Word, f: Flags): seq<char> {
    if f.sign && num < 0 then "-" else if f.plus then "+" else ""
  }

  /** The digits that are read: with the zeros before them, and the 0 of an octal prefix. */
  function Body(num: Word, base: nat, size: int, precision: int, f: Flags): seq<char>
    requires BaseOk(base)
  {
    var digits := DigitsOf(Magnitude(num, f), base, f.small);
    (if f.special && base == 8 then "0" else "")
    + (Repeated('0', if !f.left && f.zeropad then Padding(num, base, size, precision, f) else 0) + Repeated('0', precision - |digits|))
    + Reversed(digits)
  }

  function Hex(base: nat, f: Flags): seq<char> {
    if f.special && base == 16 then ['0', if f.small then 'x' else 'X'] else ""
  }

  /** All that is printed, in the order in which it is read. */
  lemma PrintedParts(num: Word, base: nat, size: int, precision: int, f: Flags) returns (front: nat, back: int)
    requires BaseOk(base)
    ensures Printed(num, base, size, precision, f)
      == Repeated(' ', front) + (VisibleSign(num, f) + Hex(base, f) + Body(num, base, size, precision, f) + Repeated(' ', back))
  {
    var pad := Padding(num, base, size, precision, f);
    var before := if f.left || f.zeropad then 0 else Max(pad, 0);
    back := if f.left then pad else 0;
    assert Repeated(' ', before) == Repeated(' ', if f.left || f.zeropad then 0 else pad);
    if SignOf(num, f) == VisibleSign(num, f) {
      front := before;
    } else {
      front := before + 1;
      assert Repeated(' ', before) + SignOf(num, f) == Repeated(' ', front);
    }
    assert Repeated(' ', before) + SignOf(num, f) == Repeated(' ', front) + VisibleSign(num, f);
    PartsAppend(Repeated(' ', before), SignOf(num, f), Repeated(' ', front), VisibleSign(num, f), PrefixOf(base, f), Hex(base, f),
                if f.special && base == 8 then "0" else "",
                Repeated('0', if !f.left && f.zeropad then pad else 0),
                Repeated('0', precision - |DigitsOf(Magnitude(num, f), base, f.small)|),
                Reversed(DigitsOf(Magnitude(num, f), base, f.small)), Repeated(' ', back));
  }

  lemma PartsAppend(a: seq<char>, b: seq<char>, a': seq<char>, b': seq<char>, p: seq<char>, hex: seq<char>, oct: seq<char>,
                    z: seq<char>, y: seq<char>, d: seq<char>, t: seq<char>)
    requires a + b == a' + b' && p == hex + oct
    ensures a + b + p + z + y + d + t == a' + (b' + hex + (oct + (z + y) + d) + t)
  {
    assert a + b + p + z + y + d + t == (a + b) + (p + z + y + d + t);
    assert a' + (b' + hex + (oct + (z + y) + d) + t) == (a' + b') + (hex + oct + z + y + d + t);
  }

  /** What is printed reads back as the number that was meant: for every value, the most negative one
      included, every base, width, precision and set of flags. */
  lemma ReadBack(num: Word, base: nat, size: int, precision: int, f: Flags)
    requires BaseOk(base)
    ensures Read(Printed(num, base, size, precision, f), base, f.special) == Meant(num, f)
  {
    var body := Body(num, base, size, precision, f);
    BodyValue(num, base, size, precision, f);
    var front, back := PrintedParts(num, base, size, precision, f);
    TakesDigits(body, back, base);
    ReadTail(VisibleSign(num, f), Hex(base, f), body, back, base, f.special);
    SkipsAll(front, VisibleSign(num, f) + Hex(base, f) + body + Repeated(' ', back));
    MagnitudeIs(num, f);
  }

  lemma BodyValue(num: Word, base: nat, size: int, precision: int, f: Flags)
    requires BaseOk(base)
    ensures var body := Body(num, base, size, precision, f);
      && body != [] && body[0] !in {' ', '-', '+'} && (forall c | c in body :: ValueOf(c) < base)
      && Value(body, base) == Magnitude(num, f)
  {
    var n := Magnitude(num, f);
    DigitsValue(n, base, f.small);
    DigitsShape(n, base, f.small);
    ZerosValue(if f.special && base == 8 then "0" else "", if !f.left && f.zeropad then Padding(num, base, size, precision, f) else 0,
               precision - |DigitsOf(n, base, f.small)|, Reversed(DigitsOf(n, base, f.small)), base);
  }

  lemma ZerosValue(octal: seq<char>, k: int, l: int, s: seq<char>, base: nat)
    requires BaseOk(base) && octal in {"", "0"} && s != [] && forall c | c in s :: ValueOf(c) < base
    ensures var body := octal + (Repeated('0', k) + Repeated('0', l)) + s;
      && Value(body, base) == Value(s, base) && (forall c | c in body :: ValueOf(c) < base)
      && body != [] && body[0] !in {' ', '-', '+'}
  {
    var z := octal + (Repeated('0', k) + Repeated('0', l));
    assert z == Repeated('0', |z|);
    LeadingZeros(|z|, s, base);
    assert (z + s)[0] in z + s;
  }

  lemma ReadTail(sign: seq<char>, hex: seq<char>, body: seq<char>, back: int, base: nat, special: bool)
    requires BaseOk(base) && sign in {"", "+", "-"} && (special && base == 16 ==> |hex| == 2 && hex[0] == '0')
    requires !(special && base == 16) ==> hex == ""
    requires body != [] && LeadingDigits(body + Repeated(' ', back), base) == body && body[0] !in {' ', '-', '+'}
    ensures var t, value: int := sign + hex + body + Repeated(' ', back), Value(body, base);
      && t[0] != ' ' && forall s | SkipSpaces(s) == t :: Read(s, base, special) == if sign == "-" then -value else value
  {
    var t := sign + hex + body + Repeated(' ', back);
    var u := hex + body + Repeated(' ', back);
    assert sign != "" ==> t[1..] == u;
    assert sign == "" ==> t == u;
    assert hex != "" ==> u[2..] == body + Repeated(' ', back);
    assert hex == "" ==> u == body + Repeated(' ', back);
  }

  lemma DecimalDigit(c: char)
    ensures '0' <= c <= '9' <==> ValueOf(c) < 10
    ensures '0' <= c <= '9' ==> ValueOf(c) == c as int - '0' as int
  {
  }

  lemma OneMoreDigit(before: seq<char>, c: char, more: seq<char>)
    ensures before + ([c] + more) == (before + [c]) + more
  {
  }

  /** skip_atoi: the decimal number at the front of a format, and what follows it. */
  method SkipAtoi(s: seq<char>) returns (n: nat, rest: seq<char>)
    ensures s == LeadingDigits(s, 10) + rest && n == Value(LeadingDigits(s, 10), 10)
    ensures rest != [] ==> ValueOf(rest[0]) >= 10
  {
    n, rest := 0, s;
    ghost var all, before: seq<char> := LeadingDigits(s, 10), [];
    while rest != [] && '0' <= rest[0] <= '9'
      invariant s == before + rest && n == Value(before, 10)
      invariant all == before + LeadingDigits(rest, 10)
      decreases |rest|
    {
      var c := rest[0];
      DecimalDigit(c);
      ValueMore(before, c, 10);
      OneMoreDigit(before, c, rest[1..]);
      OneMoreDigit(before, c, LeadingDigits(rest[1..], 10));
      assert rest == [c] + rest[1..];
      n := n * 10 + (c as int - '0' as int);
      before := before + [c];
      rest := rest[1..];
    }
    if rest != [] {
      DecimalDigit(rest[0]);
    }
    assert before + [] == before;
  }

  // ----- the function itself -----

  /** number(): what it appends to the output; None is its null result, for a base out of range. */
  datatype Result = None | Text(s: seq<char>)

  method Number(num0: Word, base: int, size0: int, precision0: int, f: Flags) returns (r: Result)
    ensures r == if BaseOk(base) then Text(Printed(num0, base, size0, precision0, f)) else None
  {
    if base < 2 || base > 36 {
      return None;
    }
    var num, size, sign := TakeSign(num0, base, size0, f);
    var precision := precision0;
    var tmp := Collect(num, base, f.small);
    var i := |tmp|;
    if i > precision {
      precision := i;
    }
    size := size - precision;
    assert size == Padding(num0, base, size0, precision0, f) && sign == SignOf(num0, f);
    var str := Layout(sign, base, size, precision, tmp, f);
    assert Repeated('0', precision - i) == Repeated('0', precision0 - i);
    r := Text(str);
  }

  /** The sign is set apart, and the size becomes what is left beside sign and prefix. */
  method TakeSign(num0: Word, base: int, size0: int, f: Flags) returns (num: Word, size: int, sign: seq<char>)
    ensures Unsigned(num) == Magnitude(num0, f) && sign == SignOf(num0, f)
    ensures size == size0 - |sign| - |PrefixOf(base, f)|
  {
    num, size, sign := num0, size0, "";
    if f.sign && num < 0 {
      sign := "-";
      num := Negated(num);
    } else if f.plus {
      sign := "+";
    } else if f.space {
      sign := " ";
    }
    if sign != "" {
      size := size - 1;
    }
    if f.special {
      if base == 16 {
        size := size - 2;
      } else if base == 8 {
        size := size - 1;
      }
    }
  }

  /** The second half of number(): everything is put out in its order. */
  method Layout(sign: seq<char>, base: int, size0: int, precision: int, tmp: seq<char>, f: Flags) returns (str: seq<char>)
    ensures str == Repeated(' ', if f.left || f.zeropad then 0 else size0) + sign + PrefixOf(base, f)
      + Repeated('0', if !f.left && f.zeropad then size0 else 0) + Repeated('0', precision - |tmp|)
      + Reversed(tmp) + Repeated(' ', if f.left then size0 else 0)
  {
    var size := size0;
    str := [];
    if !(f.zeropad && !f.left) && !f.left {
      str := Put(str, ' ', size);
      size := if size > 0 then -1 else size - 1;
    }
    assert str == Repeated(' ', if f.left || f.zeropad then 0 else size0);
    str := str + sign;
    if f.special {
      if base == 8 {
        str := str + "0";
      } else if base == 16 {
        str := str + ['0', Digit(33, f.small)];
      }
    }
    ghost var front := str;
    assert front == Repeated(' ', if f.left || f.zeropad then 0 else size0) + sign + PrefixOf(base, f);
    if !f.left {
      str := Put(str, if f.zeropad then '0' else ' ', size);
      size := if size > 0 then -1 else size - 1;
    }
    assert str == front + Repeated('0', if !f.left && f.zeropad then size0 else 0);
    assert Repeated(' ', size) == Repeated(' ', if f.left then size0 else 0);
    str := Put(str, '0', precision - |tmp|);
    str := PutDigits(str, tmp);
    str := Put(str, ' ', size);
  }

  /** The digits of num, taken as an unsigned number. */
  method Collect(num: Word, base: int, small: bool) returns (tmp: seq<char>)
    requires BaseOk(base)
    ensures tmp == DigitsOf(Unsigned(num), base, small) && |tmp| >= 1
  {
    if num == 0 {
      return [Digit(0, small)];
    }
    tmp := [];
    var n := num;
    ghost var all := DigitsOf(Unsigned(num), base, small);
    while n != 0
      invariant n != 0 ==> all == tmp + DigitsOf(Unsigned(n), base, small)
      invariant n == 0 ==> all == tmp && tmp != []
      decreases Unsigned(n)
    {
      var q, d := DoDiv(n, base);
      DigitsSplit(Unsigned(n), base, small);
      tmp := tmp + [Digit(d, small)];
      n := q;
    }
  }

  /** One unsigned division in a register: the quotient stays there. */
  method DoDiv(n: Word, base: int) returns (q: Word, d: nat)
    requires BaseOk(base)
    ensures Unsigned(q) == Unsigned(n) / base && d == Unsigned(n) % base < base
    ensures n != 0 ==> Unsigned(q) < Unsigned(n)
  {
    DivMod(Unsigned(n), base);
    SmallDiv(Unsigned(n), base);
    q := Signed(Unsigned(n) / base);
    d := Unsigned(n) % base;
  }

  lemma SmallDiv(n: nat, base: nat)
    requires base >= 2
    ensures n < base ==> n / base == 0 && n % base == n
  {
  }

  lemma DigitsSplit(n: nat, base: nat, small: bool)
    requires BaseOk(base)
    ensures 0 <= n % base < base
    ensures DigitsOf(n, base, small) == [Digit(n % base, small)] + if n / base == 0 then [] else DigitsOf(n / base, base, small)
  {
    SmallDiv(n, base);
    DivMod(n, base);
  }

  /** while (n-- > 0) *str++ = c */
  method Put(str0: seq<char>, c: char, n0: int) returns (str: seq<char>)
    ensures str == str0 + Repeated(c, n0)
  {
    str := str0;
    var n := n0;
    while n > 0
      invariant str + Repeated(c, n) == str0 + Repeated(c, n0)
    {
      assert Repeated(c, n) == [c] + Repeated(c, n - 1);
      str := str + [c];
      n := n - 1;
    }
  }

  method PutDigits(str0: seq<char>, tmp: seq<char>) returns (str: seq<char>)
    ensures str == str0 + Reversed(tmp)
  {
    str := str0;
    var i := |tmp|;
    assert tmp[..|tmp|] == tmp;
    while i > 0
      invariant 0 <= i <= |tmp| && str0 + Reversed(tmp) == str + Reversed(tmp[..i])
    {
      i := i - 1;
      LastFirst(tmp[..i + 1]);
      assert tmp[..i + 1][..i] == tmp[..i];
      str := str + [tmp[i]];
    }
    assert tmp[..0] == [];
  }

  lemma {:induction false} LastFirst(s: seq<char>)
    requires s != []
    ensures Reversed(s) == [s[|s| - 1]] + Reversed(s[..|s| - 1])
  {
    if |s| == 1 {
    } else {
      LastFirst(s[1..]);
      assert s[1..][..|s| - 2] == s[..|s| - 1][1..];
    }
  }
}
