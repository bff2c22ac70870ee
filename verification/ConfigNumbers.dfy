/** What reading a number from a file means, for every text in plain decimal notation, and what a file puts
    into a field, also one whose reading throws. */
module ConfigNumbers {
  import opened ConfigFile
  import opened ConfigKeySearch
  import opened ConfigKeys
  import opened ConfigText
  import opened Options

  // ----- the value of digits

  /** Digits are read in base ten, most significant first, whatever leading zeros they have. */
  lemma DigitsValue(d: string, c: char)
    requires AllDigits(d) && '0' <= c <= '9'
    ensures AllDigits(d + [c]) && NatOf(d + [c]) == 10 * NatOf(d) + (c as int - '0' as int)
    ensures NatOf("") == 0
  {
    assert (d + [c])[..|d|] == d;
  }

  lemma PowersOfTen(n: nat)
    ensures Power10(0) == 1 && Power10(n + 1) == 10 * Power10(n)
  {
  }

  lemma {:induction false} RealPower(n: nat)
    ensures Power10Real(n) == Power10(n) as real
  {
    if n > 0 {
      RealPower(n - 1);
    }
  }

  lemma {:induction false} DigitsJoin(d: string, f: string)
    requires AllDigits(d) && AllDigits(f)
    ensures AllDigits(d + f) && NatOf(d + f) == NatOf(d) * Power10(|f|) + NatOf(f)
    decreases |f|
  {
    if f == "" {
      assert d + f == d;
    } else {
      var g, c := f[..|f| - 1], f[|f| - 1];
      assert f == g + [c] && d + f == (d + g) + [c];
      DigitsJoin(d, g);
      DigitsValue(d + g, c);
      DigitsValue(g, c);
      TenTimes(NatOf(d), Power10(|g|));
      hide NatOf;
    }
  }

  lemma TenTimes(n: nat, p: nat)
    ensures n * (10 * p) == 10 * (n * p)
  {
  }

  // ----- spaces and sign

  predicate Blank(w: string) {
    forall i :: 0 <= i < |w| ==> w[i] in {' ', '\t', '\n', '\r', 11 as char, 12 as char}
  }

  predicate IsSign(sign: string) {
    sign == "" || sign == "+" || sign == "-"
  }

  /** A text that starts with neither a space nor a sign. */
  predicate Starts(t: string) {
    t == "" || (t[0] !in {' ', '\t', '\n', '\r', 11 as char, 12 as char} && t[0] != '+' && t[0] != '-')
  }

  lemma {:induction false} BlankIsSkipped(w: string, t: string)
    requires Blank(w) && (t == "" || t[0] !in {' ', '\t', '\n', '\r', 11 as char, 12 as char})
    ensures SkipSpaces(w + t) == t
  {
    if w == "" {
      assert w + t == t;
    } else {
      assert (w + t)[1..] == w[1..] + t;
      BlankIsSkipped(w[1..], t);
    }
  }

  lemma SignIsSplit(w: string, sign: string, t: string)
    requires Blank(w) && IsSign(sign) && Starts(t)
    ensures SplitSign(SkipSpaces(w + sign + t)) == (sign == "-", t)
  {
    assert w + sign + t == w + (sign + t);
    BlankIsSkipped(w, sign + t);
    if sign == "" {
      assert sign + t == t;
    } else {
      assert (sign + t)[1..] == t;
    }
  }

  // ----- integers

  function SignedInt(sign: string, n: int): int {
    if sign == "-" then -n else n
  }

  /** An integer is read with leading spaces and a sign, up to the first character that is no digit; one
      that does not fit 32 bits throws. */
  lemma IntegerValue(w: string, sign: string, d: string, tail: string)
    requires Blank(w) && IsSign(sign) && d != "" && AllDigits(d)
    requires tail == "" || !('0' <= tail[0] <= '9')
    ensures ParseInteger(w + sign + d + tail)
         == if -0x8000_0000 <= SignedInt(sign, NatOf(d)) <= 0x7FFF_FFFF then Some(SignedInt(sign, NatOf(d))) else None
  {
    hide SkipSpaces, SplitSign, NatOf, DigitRun;
    assert (d + tail)[0] == d[0];
    assert w + sign + d + tail == w + sign + (d + tail);
    SignIsSplit(w, sign, d + tail);
    DigitRunOf(d, tail);
  }

  /** A text without a digit where a number should start throws. */
  lemma NoIntegerValue(w: string, sign: string, tail: string)
    requires Blank(w) && IsSign(sign) && Starts(tail)
    requires tail == "" || !('0' <= tail[0] <= '9')
    ensures ParseInteger(w + sign + tail) == None
  {
    hide SkipSpaces, SplitSign;
    SignIsSplit(w, sign, tail);
    assert "" + tail == tail;
    DigitRunOf("", tail);
  }

  // ----- decimal numbers

  predicate Stops(tail: string) {
    tail == "" || !('0' <= tail[0] <= '9' || tail[0] in {'e', 'E', 'x', 'X'})
  }

  function SignedReal(sign: string, n: nat): real {
    if sign == "-" then -(n as real) else n as real
  }

  /** x is the number with these digits before and after the point. */
  ghost predicate IsDecimal(x: real, sign: string, d: string, f: string)
    requires AllDigits(d) && AllDigits(f)
  {
    AllDigits(d + f) && x * Power10(|f|) as real == SignedReal(sign, NatOf(d + f))
  }

  lemma MagnitudeValue(d: string, f: string, tail: string)
    requires AllDigits(d) && AllDigits(f) && d + f != "" && Stops(tail)
    ensures ParseMagnitude(d + "." + f + tail) == Some(NatOf(d) as real + Decimals(NatOf(f), |f|))
  {
    hide NatOf, Decimals, DigitRun, ParseMagnitude;
    var rest := f + tail;
    PointText(d, f, tail);
    DigitRunOf(d, "." + rest);
    DigitRunOf(f, tail);
    SplitAtPoint(d + "." + rest, d, f, tail);
  }

  lemma PointText(d: string, f: string, tail: string)
    ensures d + "." + f + tail == d + "." + (f + tail) == d + ("." + (f + tail))
  {
  }

  lemma ShiftedPoint(n: nat, m: nat, k: nat)
    ensures (n as real + Decimals(m, k)) * Power10(k) as real == (n * Power10(k) + m) as real
  {
    RealPower(k);
    var p, q := Power10(k) as real, m as real / Power10Real(k);
    assert q * p == m as real;
    assert (n as real + q) * p == n as real * p + q * p;
    ProductOfNats(n, Power10(k));
  }

  lemma ProductOfNats(n: nat, p: nat)
    ensures n as real * p as real == (n * p) as real
  {
  }

  /** A number with a decimal point is the integer of all its digits divided by the power of ten that the
      digits after the point call for, with its sign, up to the first character that stops it. */
  lemma DecimalValue(w: string, sign: string, d: string, f: string, tail: string)
    requires Blank(w) && IsSign(sign) && AllDigits(d) && AllDigits(f) && d + f != "" && Stops(tail)
    ensures ParseDouble(w + sign + d + "." + f + tail).Some?
    ensures IsDecimal(ParseDouble(w + sign + d + "." + f + tail).value, sign, d, f)
  {
    hide SkipSpaces, SplitSign, ParseMagnitude, NatOf, Decimals, Power10;
    var t := d + "." + f + tail;
    assert Starts(t);
    assert w + sign + d + "." + f + tail == w + sign + t;
    SignIsSplit(w, sign, t);
    MagnitudeValue(d, f, tail);
    DigitsJoin(d, f);
    ShiftedPoint(NatOf(d), NatOf(f), |f|);
    Negated(NatOf(d) as real + Decimals(NatOf(f), |f|), Power10(|f|) as real);
  }

  lemma Negated(x: real, p: real)
    ensures (-x) * p == -(x * p)
  {
  }

  /** A number without a point is the integer of its digits. */
  lemma WholeValue(w: string, sign: string, d: string, tail: string)
    requires Blank(w) && IsSign(sign) && d != "" && AllDigits(d) && Stops(tail)
    requires tail == "" || tail[0] != '.'
    ensures ParseDouble(w + sign + d + tail) == Some(SignedReal(sign, NatOf(d)))
  {
    hide SkipSpaces, SplitSign, NatOf, DigitRun;
    assert (d + tail)[0] == d[0];
    assert w + sign + d + tail == w + sign + (d + tail);
    SignIsSplit(w, sign, d + tail);
    DigitRunOf(d, tail);
  }

  /** No digit where a number should start, neither before nor after a point: throws. */
  lemma NoDecimalValue(w: string, sign: string, tail: string)
    requires Blank(w) && IsSign(sign) && Starts(tail)
    requires tail == "" || !('0' <= tail[0] <= '9' || tail[0] in {'.', 'i', 'I', 'n', 'N'})
    ensures ParseDouble(w + sign + tail) == None
  {
    hide SkipSpaces, SplitSign;
    SignIsSplit(w, sign, tail);
    assert "" + tail == tail;
    DigitRunOf("", tail);
  }

  // ----- what is printed

  /** Decimal digits without superfluous zeros. */
  predicate IsNumeral(d: string, n: nat) {
    d != "" && AllDigits(d) && NatOf(d) == n && (d[0] == '0' ==> d == "0")
  }

  lemma {:induction false} DigitsNumeral(n: nat)
    ensures IsNumeral(Digits(n), n)
    ensures n > 0 ==> Digits(n)[0] != '0'
  {
    DigitsRoundTrip(n);
    if n >= 10 {
      DigitsNumeral(n / 10);
      assert Digits(n)[0] == Digits(n / 10)[0];
    }
    hide NatOf;
  }

  /** An integer is printed as its numeral, after a minus sign exactly if it is negative. */
  lemma PrintedInteger(n: int) returns (d: string)
    ensures IsNumeral(d, if n < 0 then -n else n)
    ensures ShowInteger(n) == if n < 0 then "-" + d else d
  {
    d := Digits(if n < 0 then -n else n);
    DigitsNumeral(if n < 0 then -n else n);
  }

  /** m is the number of millionths nearest to y, the even one of two that are equally near. */
  predicate NearestMillionth(y: real, m: nat) {
    && -0.5 <= m as real - y * 1000000.0 <= 0.5
    && (m as real - y * 1000000.0 == 0.5 || m as real - y * 1000000.0 == -0.5 ==> m % 2 == 0)
  }

  lemma NearestIsUnique(y: real, m: nat, n: nat)
    requires NearestMillionth(y, m) && NearestMillionth(y, n)
    ensures m == n
  {
  }

  /** A text of the form d.f with six digits after the point. */
  predicate SixDecimals(t: string, d: string, f: string, m: nat) {
    && t == d + "." + f && |f| == 6
    && AllDigits(f) && AllDigits(d) && d != "" && (d[0] == '0' ==> d == "0")
    && AllDigits(d + f) && NatOf(d + f) == m
  }

  /** A decimal number is printed with six digits after the point, rounded to nearest and ties to even, after
      a minus sign exactly if it is negative, also where it rounds to zero. */
  lemma PrintedDecimal(x: real) returns (d: string, f: string, m: nat)
    ensures NearestMillionth(if x < 0.0 then -x else x, m)
    ensures SixDecimals(d + "." + f, d, f, m)
    ensures ShowDouble(x) == if x < 0.0 then "-" + (d + "." + f) else d + "." + f
  {
    m := Millionths(Magnitude(x));
    NearestMillionths(Magnitude(x));
    d, f := Digits(m / MILLION), Padded(m % MILLION, 6);
    DigitsNumeral(m / MILLION);
    SixPadded(m % MILLION);
    DigitsJoin(d, f);
    Power10Six();
    assert ShowMillionths(m) == d + "." + f;
    assert m == m / MILLION * MILLION + m % MILLION;
    hide Digits, Padded, NatOf, Millionths, Power10;
    assert "" + (d + "." + f) == d + "." + f;
  }

  lemma NearestMillionths(y: real)
    requires y >= 0.0
    ensures NearestMillionth(y, Millionths(y))
  {
  }

  lemma SixPadded(n: nat)
    requires n < MILLION
    ensures NatOf(Padded(n, 6)) == n
  {
    Power10Six();
    PaddedRoundTrip(n, 6);
  }

  // ----- what a file puts into a field

  /** Line i is the last one to mention the key. */
  predicate LastLine(ls: seq<string>, i: nat, k: Key) {
    && i < |ls| && Contains(ls[i], Name(k))
    && forall j :: i < j < |ls| ==> !Contains(ls[j], Name(k))
  }

  lemma {:induction false} UnmentionedField(c: Config, ls: seq<string>, k: Key)
    requires WellTyped(c) && ReadLines(c, ls).1
    requires forall j :: 0 <= j < |ls| ==> !Contains(ls[j], Name(k))
    ensures WellTyped(ReadLines(c, ls).0) && ReadLines(c, ls).0[k] == c[k]
    decreases |ls|
  {
    hide Name, ReadKeys, Contains, Fits, Index;
    if ls != [] {
      ReadKeysResult(c, ls[0], 0);
      assert FieldRead(c, ls[0], 0, ReadKeys(c, ls[0], 0).0, k);
      UnmentionedField(ReadKeys(c, ls[0], 0).0, ls[1..], k);
    }
  }

  /** Any file that loads: a field holds what the last line that mentions its key converts to, and what it
      held before if there is none. */
  lemma {:induction false} LoadedField(c: Config, ls: seq<string>, i: nat, k: Key)
    requires WellTyped(c) && ReadLines(c, ls).1
    requires LastLine(ls, i, k)
    ensures WellTyped(ReadLines(c, ls).0)
    ensures Some(ReadLines(c, ls).0[k]) == Parse(KindOf(k), ValueText(ls[i]))
    decreases |ls|
  {
    hide Name, ReadKeys, Contains, Fits, Index, Parse, KindOf;
    ReadKeysResult(c, ls[0], 0);
    var d := ReadKeys(c, ls[0], 0).0;
    assert FieldRead(c, ls[0], 0, d, k);
    var rest := ls[1..];
    if i == 0 {
      UnmentionedField(d, rest, k);
    } else {
      assert rest[i - 1] == ls[i];
      LoadedField(d, rest, i - 1, k);
    }
  }

  /** What follows the first equals sign is read as the value, and the whole line if there is none. */
  lemma ValueRule(line: string, a: string, b: string)
    ensures '=' !in a ==> ValueText(a + ['='] + b) == b
    ensures '=' !in line ==> ValueText(line) == line
  {
    if '=' !in a {
      FirstEquals(a, b);
    }
    CharOccurs(line, '=');
  }

  /** A file that does not load stops at one line: the lines before it have been read completely, that one
      up to the key that throws, and nothing after it. */
  lemma {:induction false} ThrowingFile(c: Config, ls: seq<string>) returns (i: nat)
    requires !ReadLines(c, ls).1
    ensures i < |ls| && ReadLines(c, ls[..i]).1
    ensures !ReadKeys(ReadLines(c, ls[..i]).0, ls[i], 0).1
    ensures ReadLines(c, ls).0 == ReadKeys(ReadLines(c, ls[..i]).0, ls[i], 0).0
    decreases |ls|
  {
    hide ReadKeys;
    var (d, ok) := ReadKeys(c, ls[0], 0);
    i := 0;
    if ok {
      i := ThrowingFile(d, ls[1..]);
      assert ls[1..][..i] == ls[..i + 1][1..];
      i := i + 1;
    }
  }

  /** Any file that loads: a line `key=d.f` that is the last to mention the key puts exactly the decimal
      number d.f into the field, with any number of digits on either side of the point. */
  lemma LoadedDecimal(c: Config, text: string, i: nat, k: Key, sign: string, d: string, f: string, tail: string)
    requires WellTyped(c) && Load(c, text).1 && KindOf(k) == Double
    requires IsSign(sign) && AllDigits(d) && AllDigits(f) && d + f != "" && Stops(tail)
    requires LastLine(Lines(text), i, k)
    requires Lines(text)[i] == Name(k) + ['='] + (sign + d + "." + f + tail)
    ensures WellTyped(Load(c, text).0)
    ensures Load(c, text).0[k].Decimal? && IsDecimal(Load(c, text).0[k].x, sign, d, f)
  {
    hide Name, ReadLines, Lines, ParseDouble, NatOf, Power10, Contains, Fits, LastLine;
    var number := sign + d + "." + f + tail;
    LoadedField(c, Lines(text), i, k);
    NameIsWord(k);
    FirstEquals(Name(k), number);
    DecimalValue("", sign, d, f, tail);
    assert "" + sign + d + "." + f + tail == number;
  }

  /** The same for integers, which 8-bit fields keep modulo 256. */
  lemma LoadedInteger(c: Config, text: string, i: nat, k: Key, sign: string, d: string, tail: string)
    requires WellTyped(c) && Load(c, text).1 && (KindOf(k) == Flag || KindOf(k) == Integer)
    requires IsSign(sign) && d != "" && AllDigits(d)
    requires tail == "" || !('0' <= tail[0] <= '9')
    requires LastLine(Lines(text), i, k)
    requires Lines(text)[i] == Name(k) + ['='] + (sign + d + tail)
    ensures WellTyped(Load(c, text).0)
    ensures var n := SignedInt(sign, NatOf(d));
            Load(c, text).0[k] == Number(if KindOf(k) == Flag then n % 256 else n)
  {
    hide Name, ReadLines, Lines, ParseInteger, NatOf, Contains, Fits, LastLine;
    var number := sign + d + tail;
    LoadedField(c, Lines(text), i, k);
    NameIsWord(k);
    FirstEquals(Name(k), number);
    IntegerValue("", sign, d, tail);
    assert "" + sign + d + tail == number;
  }
}
