/** Text handling of the configuration file: searching, decimal numbers, lines. */
module ConfigText {
  import opened Options

  /** `t` occurs in `s` at offset `o`. */
  predicate OccursAt(s: string, t: string, o: nat) {
    o + |t| <= |s| && s[o..o + |t|] == t
  }

  ghost predicate Occurs(s: string, t: string) {
    exists o: nat :: OccursAt(s, t, o)
  }

  /** Offset of the first occurrence at or after `from`. */
  function Find(s: string, t: string, from: nat): (r: Option<nat>)
    ensures r.None? ==> forall o :: from <= o ==> !OccursAt(s, t, o)
    ensures r.Some? ==> from <= r.value && OccursAt(s, t, r.value)
                        && forall o :: from <= o < r.value ==> !OccursAt(s, t, o)
    decreases |s| - from
  {
    if from + |t| > |s| then None
    else if OccursAt(s, t, from) then Some(from)
    else Find(s, t, from + 1)
  }

  predicate Contains(s: string, t: string)
    ensures Contains(s, t) <==> Occurs(s, t)
  {
    Find(s, t, 0).Some?
  }

  lemma OccursAtChars(s: string, t: string, o: nat)
    ensures OccursAt(s, t, o) <==> o + |t| <= |s| && forall j :: 0 <= j < |t| ==> s[o + j] == t[j]
  {
    if o + |t| <= |s| && (forall j :: 0 <= j < |t| ==> s[o + j] == t[j]) {
      assert s[o..o + |t|] == t;
    }
    if OccursAt(s, t, o) {
      forall j | 0 <= j < |t| ensures s[o + j] == t[j] {
        assert s[o..o + |t|][j] == s[o + j];
      }
    }
  }

  lemma OccursInside(a: string, s: string, b: string, t: string)
    requires Occurs(s, t)
    ensures Occurs(a + s + b, t)
  {
    var o: nat :| OccursAt(s, t, o);
    OccursAtChars(s, t, o);
    OccursAtChars(a + s + b, t, |a| + o);
  }

  /** An occurrence in `a + [c] + b` of a text without the character c lies in one of the two parts. */
  lemma OccursBeside(a: string, c: char, b: string, t: string)
    requires c !in t && t != ""
    ensures Occurs(a + [c] + b, t) <==> Occurs(a, t) || Occurs(b, t)
  {
    var s := a + [c] + b;
    if Occurs(s, t) {
      var o: nat :| OccursAt(s, t, o);
      if o <= |a| < o + |t| {
        assert t[|a| - o] != c;
        OccursAtChars(s, t, o);
        assert false;
      }
      OccursAtChars(s, t, o);
      if o + |t| <= |a| {
        OccursAtChars(a, t, o);
      } else {
        var p: nat := o - |a| - 1;
        OccursAtChars(b, t, p);
      }
    }
    if Occurs(a, t) {
      assert s == "" + a + ([c] + b);
      OccursInside("", a, [c] + b, t);
    }
    if Occurs(b, t) {
      assert s == (a + [c]) + b + "";
      OccursInside(a + [c], b, "", t);
    }
  }

  // ----- numbers

  predicate IsDigit(c: char) {
    '0' <= c <= '9'
  }

  function DigitOf(n: nat): (c: char)
    requires n < 10
    ensures IsDigit(c)
  {
    '0' + n as char
  }

  predicate AllDigits(s: string) {
    forall i :: 0 <= i < |s| ==> IsDigit(s[i])
  }

  function NatOf(s: string): nat
    requires AllDigits(s)
  {
    if s == "" then 0 else 10 * NatOf(s[..|s| - 1]) + (s[|s| - 1] as nat - '0' as nat)
  }

  function Digits(n: nat): (s: string)
    ensures s != "" && AllDigits(s)
  {
    if n < 10 then [DigitOf(n)] else Digits(n / 10) + [DigitOf(n % 10)]
  }

  /** The last `width` decimal digits, with leading zeros. */
  function Padded(n: nat, width: nat): (s: string)
    ensures |s| == width && AllDigits(s)
  {
    if width == 0 then "" else Padded(n / 10, width - 1) + [DigitOf(n % 10)]
  }

  lemma NatOfAppend(s: string, n: nat)
    requires AllDigits(s) && n < 10
    ensures AllDigits(s + [DigitOf(n)])
    ensures NatOf(s + [DigitOf(n)]) == 10 * NatOf(s) + n
  {
    var t := s + [DigitOf(n)];
    assert t[..|t| - 1] == s;
  }

  lemma {:induction false} DigitsRoundTrip(n: nat)
    ensures NatOf(Digits(n)) == n
  {
    if n < 10 {
      NatOfAppend("", n);
      assert "" + [DigitOf(n)] == [DigitOf(n)];
    } else {
      DigitsRoundTrip(n / 10);
      NatOfAppend(Digits(n / 10), n % 10);
    }
  }

  function Power10(n: nat): nat {
    if n == 0 then 1 else 10 * Power10(n - 1)
  }

  lemma {:induction false} PaddedRoundTrip(n: nat, width: nat)
    requires n < Power10(width)
    ensures NatOf(Padded(n, width)) == n
  {
    if width > 0 {
      PaddedRoundTrip(n / 10, width - 1);
      NatOfAppend(Padded(n / 10, width - 1), n % 10);
    }
  }

  /** Length of the longest prefix of digits. */
  function DigitRun(s: string): (n: nat)
    ensures n <= |s| && AllDigits(s[..n])
    ensures n < |s| ==> !IsDigit(s[n])
  {
    if s == "" || !IsDigit(s[0]) then 0 else
      var n := 1 + DigitRun(s[1..]);
      assert forall i :: 0 < i < n ==> s[i] == s[1..][i - 1];
      n
  }

  lemma DigitRunOf(d: string, rest: string)
    requires AllDigits(d)
    requires rest != "" ==> !IsDigit(rest[0])
    ensures DigitRun(d + rest) == |d|
    ensures (d + rest)[..|d|] == d && (d + rest)[|d|..] == rest
  {
    var s := d + rest;
    assert s[..|d|] == d && s[|d|..] == rest;
    DigitRunAt(s, |d|);
  }

  /** The digit run is determined by being all digits and not extensible. */
  lemma {:induction false} DigitRunAt(s: string, n: nat)
    requires n <= |s| && AllDigits(s[..n])
    requires n < |s| ==> !IsDigit(s[n])
    ensures DigitRun(s) == n
  {
    if n > 0 {
      assert s[..n][0] == s[0];
      assert s[1..][..n - 1] == s[..n][1..];
      DigitRunAt(s[1..], n - 1);
    }
  }

  predicate IsSpace(c: char) {
    c == ' ' || c == '\t' || c == '\n' || c == '\r' || c == (11 as char) || c == (12 as char)
  }

  function SkipSpaces(s: string): string {
    if s != "" && IsSpace(s[0]) then SkipSpaces(s[1..]) else s
  }

  /** Splits off an optional sign; true means negative. */
  function SplitSign(s: string): (bool, string) {
    if s != "" && s[0] == '-' then (true, s[1..])
    else if s != "" && s[0] == '+' then (false, s[1..])
    else (false, s)
  }

  const INT_MIN: int := -0x8000_0000
  const INT_MAX: int := 0x7FFF_FFFF

  /** std::stoi: leading spaces, a sign, at least one digit; what follows is ignored. Nothing is
      returned where the original throws. */
  function ParseInteger(s: string): Option<int> {
    var (negative, t) := SplitSign(SkipSpaces(s));
    var n := DigitRun(t);
    if n == 0 then None else
      var magnitude: int := NatOf(t[..n]);
      var value := if negative then -magnitude else magnitude;
      if INT_MIN <= value <= INT_MAX then Some(value) else None
  }

  /** An unsigned number in plain decimal notation. */
  function ParseMagnitude(t: string): Option<real> {
    var n := DigitRun(t);
    var whole := NatOf(t[..n]) as real;
    if n < |t| && t[n] == '.' then
      var fraction := t[n + 1..];
      var m := DigitRun(fraction);
      if n + m == 0 then None else Some(whole + Decimals(NatOf(fraction[..m]), m))
    else if n == 0 then None
    else Some(whole)
  }

  /** The fraction n / 10^places. */
  function Decimals(n: nat, places: nat): real {
    n as real / Power10Real(places)
  }

  /** std::stod on plain decimal notation. */
  function ParseDouble(s: string): Option<real> {
    var (negative, t) := SplitSign(SkipSpaces(s));
    match ParseMagnitude(t)
    case None => None
    case Some(magnitude) => Some(if negative then -magnitude else magnitude)
  }

  function Power10Real(n: nat): (r: real)
    ensures r > 0.0
  {
    if n == 0 then 1.0 else 10.0 * Power10Real(n - 1)
  }

  /** std::to_string of an integer. */
  function ShowInteger(n: int): string {
    if n < 0 then "-" + Digits(-n) else Digits(n)
  }

  lemma IntegerRoundTrip(n: int)
    requires INT_MIN <= n <= INT_MAX
    ensures ParseInteger(ShowInteger(n)) == Some(n)
  {
    var d := Digits(if n < 0 then -n else n);
    DigitsRoundTrip(if n < 0 then -n else n);
    DigitRunOf(d, "");
    assert d + "" == d;
    assert ("-" + d)[1..] == d;
  }

  const MILLION: nat := 1_000_000

  /** Number of millionths nearest to a non-negative number, ties to even. */
  function Millionths(x: real): (n: nat)
    requires x >= 0.0
    ensures -0.5 <= n as real - x * 1000000.0 <= 0.5
  {
    var scaled := x * 1000000.0;
    var low := scaled.Floor;
    var excess := scaled - low as real;
    if excess < 0.5 || (excess == 0.5 && low % 2 == 0) then low else low + 1
  }

  function Magnitude(x: real): (r: real)
    ensures r >= 0.0
  {
    if x < 0.0 then -x else x
  }

  /** n millionths with six decimals. */
  function ShowMillionths(n: nat): (s: string)
    ensures s != "" && IsDigit(s[0])
  {
    Digits(n / MILLION) + "." + Padded(n % MILLION, 6)
  }

  /** std::to_string of a double. */
  function ShowDouble(x: real): string {
    (if x < 0.0 then "-" else "") + ShowMillionths(Millionths(Magnitude(x)))
  }

  /** The printed value: the multiple of one millionth nearest to x. */
  function Rounded(x: real): (r: real)
    ensures -0.0000005 <= r - x <= 0.0000005
  {
    var n := Millionths(Magnitude(x));
    assert -0.5 <= n as real - Magnitude(x) * 1000000.0 <= 0.5;
    if x < 0.0 then -(n as real / 1000000.0) else n as real / 1000000.0
  }

  lemma Power10Six()
    ensures Power10(6) == MILLION
    ensures Power10Real(6) == 1000000.0
  {
    assert Power10(3) == 1000;
    assert Power10Real(3) == 1000.0;
  }

  lemma MagnitudeOf(whole: string, fraction: string)
    requires whole != "" && AllDigits(whole) && AllDigits(fraction)
    ensures ParseMagnitude(whole + "." + fraction)
         == Some(NatOf(whole) as real + Decimals(NatOf(fraction), |fraction|))
  {
    var t := whole + "." + fraction;
    assert t == whole + ("." + fraction) && fraction == fraction + "";
    DigitRunOf(whole, "." + fraction);
    DigitRunOf(fraction, "");
    SplitAtPoint(t, whole, fraction, "");
  }

  lemma PointParts(t: string, whole: string, rest: string)
    requires t == whole + "." + rest
    ensures |whole| < |t| && t[..|whole|] == whole && t[|whole|] == '.' && t[|whole| + 1..] == rest
  {
  }

  lemma SplitAtPoint(t: string, whole: string, fraction: string, tail: string)
    requires whole + fraction != "" && AllDigits(whole) && AllDigits(fraction)
    requires t == whole + "." + (fraction + tail)
    requires DigitRun(t) == |whole| && DigitRun(fraction + tail) == |fraction|
    ensures ParseMagnitude(t) == Some(NatOf(whole) as real + Decimals(NatOf(fraction), |fraction|))
  {
    hide NatOf, Decimals, DigitRun, AllDigits;
    var rest := fraction + tail;
    PointParts(t, whole, rest);
    assert rest[..|fraction|] == fraction;
    assert |whole| + |fraction| > 0;
  }

  /** The text of n millionths reads back as n millionths. */
  lemma MillionthsRoundTrip(n: nat)
    ensures ParseMagnitude(ShowMillionths(n)) == Some(n as real / 1000000.0)
  {
    hide Digits, Padded, ParseMagnitude, NatOf;
    Power10Six();
    DigitsRoundTrip(n / MILLION);
    PaddedRoundTrip(n % MILLION, 6);
    MagnitudeOf(Digits(n / MILLION), Padded(n % MILLION, 6));
    MillionthParts(n);
    hide Power10, Power10Real;
  }

  lemma SignRoundTrip(negative: bool, t: string)
    requires t != "" && IsDigit(t[0])
    ensures SplitSign(SkipSpaces((if negative then "-" else "") + t)) == (negative, t)
  {
    assert ("-" + t)[1..] == t && "" + t == t;
  }

  lemma DoubleRoundTrip(x: real)
    ensures ParseDouble(ShowDouble(x)) == Some(Rounded(x))
  {
    hide Digits, Padded, ParseMagnitude, Millionths, SplitSign, SkipSpaces, ShowMillionths;
    var n := Millionths(Magnitude(x));
    SignRoundTrip(x < 0.0, ShowMillionths(n));
    MillionthsRoundTrip(n);
  }

  lemma MillionthParts(n: nat)
    ensures (n / MILLION) as real + (n % MILLION) as real / 1000000.0 == n as real / 1000000.0
  {
    assert n == MILLION * (n / MILLION) + n % MILLION;
  }

  lemma MillionthsOfWhole(y: real, n: nat)
    requires y >= 0.0 && y * 1000000.0 == n as real
    ensures Millionths(y) == n
  {
  }

  /** Printing and rounding again changes nothing. */
  lemma RoundedTwice(x: real)
    ensures Rounded(Rounded(x)) == Rounded(x)
  {
    var n := Millionths(Magnitude(x));
    var y := n as real / 1000000.0;
    assert Magnitude(Rounded(x)) == y;
    MillionthsOfWhole(y, n);
    hide Millionths;
  }

  // ----- lines

  /** What repeated std::getline yields. */
  function Lines(s: string): seq<string>
    decreases |s|
  {
    if s == "" then []
    else
      match Find(s, "\n", 0)
      case None => [s]
      case Some(o) => [s[..o]] + Lines(s[o + 1..])
  }

  lemma CharOccurs(s: string, c: char)
    ensures forall o: nat :: OccursAt(s, [c], o) ==> c in s
  {
    forall o: nat | OccursAt(s, [c], o) ensures c in s {
      assert s[o..o + 1][0] == s[o];
    }
  }

  /** A last line may lack its newline; an empty rest is no line. */
  lemma UnterminatedLine(line: string)
    requires '\n' !in line
    ensures Lines(line) == if line == "" then [] else [line]
  {
    CharOccurs(line, '\n');
    assert "\n" == ['\n'];
  }

  lemma LinesStep(line: string, rest: string)
    requires '\n' !in line
    ensures Lines(line + "\n" + rest) == [line] + Lines(rest)
  {
    var s := line + "\n" + rest;
    assert OccursAt(s, "\n", |line|);
    forall o | 0 <= o < |line| ensures !OccursAt(s, "\n", o) {
      assert s[o] == line[o];
    }
    var first := Find(s, "\n", 0);
    assert first == Some(|line|);
    assert s[..|line|] == line && s[|line| + 1..] == rest;
  }
}
