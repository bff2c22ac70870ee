/** The configuration file: what is written, what is read back. */
module ConfigFile {
  import opened Options
  import opened ConfigKeys
  import opened ConfigText
  import opened ConfigKeySearch

  datatype Value = Number(n: int) | Decimal(x: real) | Words(s: string)

  /** The fields of the configuration, by the key under which they are read. */
  type Config = map<Key, Value>

  predicate Fits(kind: Kind, v: Value) {
    match kind
    case Flag => v.Number? && 0 <= v.n < 256
    case Integer => v.Number? && INT_MIN <= v.n <= INT_MAX
    case Double => v.Decimal?
    case Text => v.Words?
  }

  ghost predicate WellTyped(c: Config) {
    forall k: Key :: k in c && Fits(KindOf(k), c[k])
  }

  // ----- writing

  /** The field whose value is printed under a key. The line of `safe_landing_enabled` prints the
      flag of the simple collision avoidance. */
  function PrintedField(k: Key): Key {
    if k == SafeLandingEnabled then SimpleCollisionAvoidEnabled else k
  }

  function Show(v: Value): string {
    match v
    case Number(n) => ShowInteger(n)
    case Decimal(x) => ShowDouble(x)
    case Words(s) => s
  }

  function LineOf(c: Config, k: Key): string
    requires WellTyped(c)
  {
    Name(k) + "=" + Show(c[PrintedField(k)])
  }

  function KeyAt(i: nat): Key
    requires i < KEY_COUNT
  {
    Keys()[i]
  }

  lemma KeyOrder(k: Key)
    ensures Index(k) < KEY_COUNT && KeyAt(Index(k)) == k
  {
  }

  lemma IndexAtFirst(i: nat)
    requires 0 <= i < 12
    ensures Index(KeyAt(i)) == i
  {
  }

  lemma IndexAtMiddle(i: nat)
    requires 12 <= i < 24
    ensures Index(KeyAt(i)) == i
  {
  }

  lemma IndexAtLast(i: nat)
    requires 24 <= i < 36
    ensures Index(KeyAt(i)) == i
  {
  }

  lemma IndexAt(i: nat)
    requires i < KEY_COUNT
    ensures Index(KeyAt(i)) == i
  {
    hide Keys;
    if i < 12 {
      IndexAtFirst(i);
    } else if i < 24 {
      IndexAtMiddle(i);
    } else {
      IndexAtLast(i);
    }
  }

  function TextFrom(c: Config, i: nat): string
    requires WellTyped(c) && i <= KEY_COUNT
    decreases KEY_COUNT - i, |c|
  {
    if i == KEY_COUNT then "" else LineOf(c, KeyAt(i)) + "\n" + TextFrom(c, i + 1)
  }

  function FileText(c: Config): string
    requires WellTyped(c)
  {
    Header() + "\n" + TextFrom(c, 0)
  }

  // ----- reading

  /** Everything after the first `=`, the whole line if there is none. */
  function ValueText(line: string): string {
    match Find(line, "=", 0)
    case None => line
    case Some(o) => line[o + 1..]
  }

  lemma FirstEquals(a: string, b: string)
    requires '=' !in a
    ensures ValueText(a + ['='] + b) == b
  {
    var s := a + ['='] + b;
    assert OccursAt(s, "=", |a|);
    forall o | 0 <= o < |a| ensures !OccursAt(s, "=", o) {
      assert s[o] == a[o];
    }
    var first := Find(s, "=", 0);
    assert first == Some(|a|);
    assert s[|a| + 1..] == b;
  }

  /** Conversion to a field's type; nothing where the original throws. */
  function Parse(kind: Kind, s: string): (v: Option<Value>)
    ensures v.Some? ==> Fits(kind, v.value)
  {
    match kind
    case Flag => (match ParseInteger(s) case None => None case Some(n) => Some(Number(n % 256)))
    case Integer => (match ParseInteger(s) case None => None case Some(n) => Some(Number(n)))
    case Double => (match ParseDouble(s) case None => None case Some(x) => Some(Decimal(x)))
    case Text => Some(Words(s))
  }

  /** The keys from position i on, tried on one line; false when a conversion throws. */
  function ReadKeys(c: Config, line: string, i: nat): (r: (Config, bool))
    requires i <= KEY_COUNT
    decreases KEY_COUNT - i, line
  {
    if i == KEY_COUNT then (c, true)
    else
      var k := KeyAt(i);
      if !Contains(line, Name(k)) then ReadKeys(c, line, i + 1)
      else
        match Parse(KindOf(k), ValueText(line))
        case None => (c, false)
        case Some(v) => ReadKeys(c[k := v], line, i + 1)
  }

  function ReadLines(c: Config, lines: seq<string>): (r: (Config, bool))
    decreases |lines|
  {
    if lines == [] then (c, true)
    else
      var (d, ok) := ReadKeys(c, lines[0], 0);
      if ok then ReadLines(d, lines[1..]) else (d, false)
  }

  function Load(c: Config, text: string): (r: (Config, bool)) {
    ReadLines(c, Lines(text))
  }

  // ----- what one line does

  ghost predicate Convertible(line: string, k: Key) {
    Contains(line, Name(k)) ==> Parse(KindOf(k), ValueText(line)).Some?
  }

  /** What field k holds after the line, given that the keys from position i on were tried. */
  ghost predicate FieldRead(c: Config, line: string, i: nat, d: Config, k: Key) {
    && k in c && k in d
    && if i <= Index(k) && Contains(line, Name(k))
       then Some(d[k]) == Parse(KindOf(k), ValueText(line))
       else d[k] == c[k]
  }

  lemma {:induction false} ReadKeysField(c: Config, line: string, i: nat, k: Key)
    requires WellTyped(c) && i <= KEY_COUNT
    ensures var (d, ok) := ReadKeys(c, line, i);
            && Fits(KindOf(k), if k in d then d[k] else c[k])
            && (ok ==> (i <= Index(k) ==> Convertible(line, k)) && FieldRead(c, line, i, d, k))
            && k in d
    decreases KEY_COUNT - i
  {
    hide Keys, Name, Parse, Contains, ValueText, Fits, KindOf, GroupOf;
    KeyOrder(k);
    if i < KEY_COUNT {
      IndexAt(i);
      var l := KeyAt(i);
      if !Contains(line, Name(l)) {
        ReadKeysField(c, line, i + 1, k);
      } else if Parse(KindOf(l), ValueText(line)).Some? {
        ReadKeysField(c[l := Parse(KindOf(l), ValueText(line)).value], line, i + 1, k);
      }
    }
  }

  /** Reading stops at the first key that the line mentions and does not convert to; the keys before it
      have been assigned, and no other. */
  lemma {:induction false} BlockingKey(c: Config, line: string, i: nat) returns (k: Key)
    requires WellTyped(c) && i <= KEY_COUNT && !ReadKeys(c, line, i).1
    ensures i <= Index(k) && !Convertible(line, k)
    ensures forall l: Key :: i <= Index(l) < Index(k) ==> Convertible(line, l)
    ensures forall l: Key ::
              if Index(l) < Index(k) then FieldRead(c, line, i, ReadKeys(c, line, i).0, l)
              else l in ReadKeys(c, line, i).0 && ReadKeys(c, line, i).0[l] == c[l]
    decreases KEY_COUNT - i
  {
    hide Keys, Name, Parse, Contains, ValueText, Fits, KindOf, GroupOf, Index;
    IndexAt(i);
    KeysAreOrdered();
    k := KeyAt(i);
    if !Contains(line, Name(k)) {
      k := BlockingKey(c, line, i + 1);
    } else if Parse(KindOf(k), ValueText(line)).Some? {
      k := BlockingKey(c[k := Parse(KindOf(k), ValueText(line)).value], line, i + 1);
    }
  }

  lemma KeysAreOrdered()
    ensures forall k: Key :: Index(k) < KEY_COUNT && KeyAt(Index(k)) == k
  {
    hide Keys, Index;
    forall k: Key ensures Index(k) < KEY_COUNT && KeyAt(Index(k)) == k {
      KeyOrder(k);
    }
  }

  /** Together: a line is read exactly when every key it mentions converts, and then it changes just
      the fields whose keys it mentions. */
  lemma ReadKeysResult(c: Config, line: string, i: nat)
    requires WellTyped(c) && i <= KEY_COUNT
    ensures var (d, ok) := ReadKeys(c, line, i);
            && WellTyped(d)
            && (ok <==> forall k: Key :: i <= Index(k) ==> Convertible(line, k))
            && (ok ==> forall k: Key :: FieldRead(c, line, i, d, k))
  {
    hide ReadKeys, Index, Convertible, FieldRead, Fits, KindOf;
    var (d, ok) := ReadKeys(c, line, i);
    forall k: Key
      ensures k in d && Fits(KindOf(k), d[k])
      ensures ok ==> (i <= Index(k) ==> Convertible(line, k)) && FieldRead(c, line, i, d, k)
    {
      ReadKeysField(c, line, i, k);
    }
    if !ok {
      var k := BlockingKey(c, line, i);
    }
  }

  /** A line that throws: the keys before the first one that does not convert take the line's value if the
      line mentions them, and everything else keeps what it held. */
  lemma ThrowingLine(c: Config, line: string) returns (k: Key)
    requires WellTyped(c) && !ReadKeys(c, line, 0).1
    ensures Contains(line, Name(k)) && Parse(KindOf(k), ValueText(line)) == None
    ensures var d := ReadKeys(c, line, 0).0;
            forall l: Key :: l in d &&
              if Index(l) < Index(k) && Contains(line, Name(l))
              then Some(d[l]) == Parse(KindOf(l), ValueText(line))
              else d[l] == c[l]
  {
    k := BlockingKey(c, line, 0);
    hide ReadKeys, Index, Contains, Parse, Name, KindOf, ValueText;
  }
}
