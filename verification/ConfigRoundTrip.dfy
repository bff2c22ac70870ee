/** Saving and loading the configuration: when exactly the file gives back what was written. */
module ConfigRoundTrip {
  import opened Options
  import opened ConfigKeys
  import opened ConfigText
  import opened ConfigKeySearch
  import opened ConfigFile

  /** What a value becomes by printing and parsing it. */
  function Settled(v: Value): Value {
    if v.Decimal? then Decimal(Rounded(v.x)) else v
  }

  /** What a clean load of the written file yields. */
  function Restored(c: Config): Config
    requires forall k: Key :: k in c
  {
    map k | k in c :: Settled(c[PrintedField(k)])
  }

  // ----- conditions on a configuration

  ghost predicate Mentions(c: Config, j: Key, k: Key)
    requires WellTyped(c)
  {
    KindOf(j) == Text && Occurs(c[j].s, Name(k))
  }

  /** No text spans several lines. */
  ghost predicate SingleLine(c: Config)
    requires WellTyped(c)
  {
    forall j: Key :: KindOf(j) == Text ==> '\n' !in c[j].s
  }

  /** A text that mentions a key converts to the type of that key. */
  ghost predicate Readable(c: Config)
    requires WellTyped(c)
  {
    forall j: Key, k: Key :: Mentions(c, j, k) ==> Parse(KindOf(k), c[j].s).Some?
  }

  /** Of the texts below a key's own line, j is the last to mention it. */
  ghost predicate LastMention(c: Config, j: Key, k: Key)
    requires WellTyped(c)
  {
    && Mentions(c, j, k) && Index(k) < Index(j)
    && forall l: Key :: Index(j) < Index(l) ==> !Mentions(c, l, k)
  }

  /** The last text below a key's line to mention the key, if any, repeats the key's own value. */
  ghost predicate Kept(c: Config, k: Key)
    requires WellTyped(c)
  {
    forall j: Key :: LastMention(c, j, k) ==> Parse(KindOf(k), c[j].s) == Some(Restored(c)[k])
  }

  ghost predicate Undisturbed(c: Config)
    requires WellTyped(c)
  {
    forall k: Key :: Kept(c, k)
  }

  // ----- the written lines

  function FileLines(c: Config, i: nat): (ls: seq<string>)
    requires WellTyped(c) && i <= KEY_COUNT
    ensures |ls| == KEY_COUNT - i
    decreases KEY_COUNT - i, |c|
  {
    if i == KEY_COUNT then [] else [LineOf(c, KeyAt(i))] + FileLines(c, i + 1)
  }

  lemma ShowParses(kind: Kind, v: Value)
    requires Fits(kind, v)
    ensures Parse(kind, Show(v)) == Some(Settled(v))
    ensures kind != Text ==> IsNumeral(Show(v))
  {
    hide ShowInteger, ShowDouble, ParseInteger, ParseDouble, IsNumeral, Rounded;
    match v {
      case Number(n) =>
        IntegerRoundTrip(n);
        NumeralsAreNumerals(n, 0.0);
      case Decimal(x) =>
        DoubleRoundTrip(x);
        NumeralsAreNumerals(0, x);
      case Words(s) =>
    }
  }

  lemma PrintedFits(c: Config, k: Key)
    requires WellTyped(c)
    ensures Fits(KindOf(k), c[PrintedField(k)])
  {
  }

  lemma LineValue(c: Config, j: Key)
    requires WellTyped(c)
    ensures ValueText(LineOf(c, j)) == Show(c[PrintedField(j)])
  {
    hide Name, Show, Fits;
    NameIsWord(j);
    FirstEquals(Name(j), Show(c[PrintedField(j)]));
    assert LineOf(c, j) == Name(j) + ['='] + Show(c[PrintedField(j)]);
  }

  /** A value mentions a key only inside a text. */
  lemma ValueMentions(c: Config, j: Key, k: Key)
    requires WellTyped(c)
    ensures Occurs(Show(c[PrintedField(j)]), Name(k)) <==> Mentions(c, j, k)
  {
    hide Name, ShowInteger, ShowDouble, IsNumeral, Occurs, Parse;
    PrintedFits(c, j);
    if KindOf(j) != Text {
      ShowParses(KindOf(j), c[PrintedField(j)]);
      NoKeyInNumeral(Show(c[PrintedField(j)]), k);
    }
  }

  /** A line mentions its own key, and other keys only inside a text. */
  lemma LineMentions(c: Config, j: Key, k: Key)
    requires WellTyped(c)
    ensures Contains(LineOf(c, j), Name(k)) <==> k == j || Mentions(c, j, k)
  {
    hide Name, Show, Fits, Occurs, Mentions;
    var v := Show(c[PrintedField(j)]);
    assert LineOf(c, j) == Name(j) + ['='] + v;
    NameIsWord(k);
    ValueMentions(c, j, k);
    NameOccursOnce(k, j);
    OccursBeside(Name(j), '=', v, Name(k));
  }

  // ----- reading the written lines

  /** Line j assigns field k. */
  ghost predicate Assigns(c: Config, j: Key, k: Key)
    requires WellTyped(c)
  {
    k == j || Mentions(c, j, k)
  }

  /** What line j assigns to field k. */
  function Assigned(c: Config, j: Key, k: Key): (v: Option<Value>)
    requires WellTyped(c)
    ensures v.Some? ==> Fits(KindOf(k), v.value)
  {
    Parse(KindOf(k), Show(c[PrintedField(j)]))
  }

  lemma ReadOwnLine(c: Config, d: Config, j: Key)
    requires WellTyped(c) && WellTyped(d)
    ensures var (e, ok) := ReadKeys(d, LineOf(c, j), 0);
            && WellTyped(e)
            && (ok <==> forall k: Key :: Assigns(c, j, k) ==> Assigned(c, j, k).Some?)
            && (ok ==> forall k: Key ::
                  if Assigns(c, j, k) then Some(e[k]) == Assigned(c, j, k) else e[k] == d[k])
  {
    hide Name, Parse, Contains, ValueText, LineOf, ReadKeys, Mentions, Show, Fits, KindOf, GroupOf;
    var line := LineOf(c, j);
    ReadKeysResult(d, line, 0);
    LineValue(c, j);
    var (e, ok) := ReadKeys(d, line, 0);
    forall k: Key
      ensures Convertible(line, k) <==> (Assigns(c, j, k) ==> Assigned(c, j, k).Some?)
      ensures ok ==> if Assigns(c, j, k) then Some(e[k]) == Assigned(c, j, k) else e[k] == d[k]
    {
      LineMentions(c, j, k);
      assert ok ==> FieldRead(d, line, 0, e, k);
    }
    hide Convertible, FieldRead, Assigns, Assigned;
  }

  ghost predicate AllConvert(c: Config, i: nat)
    requires WellTyped(c)
  {
    forall j: Key, k: Key :: i <= Index(j) && Assigns(c, j, k) ==> Assigned(c, j, k).Some?
  }

  lemma {:induction false} ReadResult(c: Config, d: Config, i: nat)
    requires WellTyped(c) && WellTyped(d) && i <= KEY_COUNT
    ensures WellTyped(ReadLines(d, FileLines(c, i)).0)
    ensures ReadLines(d, FileLines(c, i)).1 <==> AllConvert(c, i)
    decreases KEY_COUNT - i
  {
    hide Keys, Name, Parse, ReadKeys, Assigns, Assigned, Fits, LineOf;
    if i == KEY_COUNT {
      forall j: Key ensures Index(j) < i {
        KeyOrder(j);
      }
    } else {
      var j := KeyAt(i);
      IndexAt(i);
      ReadOwnLine(c, d, j);
      var (e, ok) := ReadKeys(d, LineOf(c, j), 0);
      assert FileLines(c, i)[0] == LineOf(c, j);
      assert FileLines(c, i)[1..] == FileLines(c, i + 1);
      ReadResult(c, e, i + 1);
      forall l: Key ensures i <= Index(l) <==> l == j || i + 1 <= Index(l) {
        KeyOrder(l);
      }
    }
  }

  /** The last line that assigns a field decides. */
  lemma {:induction false} LastLineDecides(c: Config, d: Config, i: nat, j: Key, k: Key)
    requires WellTyped(c) && WellTyped(d) && i <= KEY_COUNT
    requires AllConvert(c, i)
    requires forall l: Key :: Index(j) < Index(l) ==> !Assigns(c, l, k)
    requires i <= Index(j) ==> Assigns(c, j, k)
    ensures WellTyped(ReadLines(d, FileLines(c, i)).0)
    ensures var e := ReadLines(d, FileLines(c, i)).0;
            if i <= Index(j) then Some(e[k]) == Assigned(c, j, k) else e[k] == d[k]
    decreases KEY_COUNT - i
  {
    hide Keys, Name, Parse, ReadKeys, Assigns, Assigned, Fits, LineOf, PrintedField, Index, KindOf, GroupOf;
    KeyOrder(j);
    if i < KEY_COUNT {
      var l := KeyAt(i);
      IndexAt(i);
      ReadOwnLine(c, d, l);
      var (e, ok) := ReadKeys(d, LineOf(c, l), 0);
      assert FileLines(c, i)[0] == LineOf(c, l);
      assert FileLines(c, i)[1..] == FileLines(c, i + 1);
      LastLineDecides(c, e, i + 1, j, k);
    }
  }

  // ----- the whole file

  lemma LineIsSingle(c: Config, j: Key)
    requires WellTyped(c) && SingleLine(c)
    ensures '\n' !in LineOf(c, j)
  {
    hide Name, ShowInteger, ShowDouble, Fits;
    NameIsWord(j);
    PrintedFits(c, j);
    ShowParses(KindOf(j), c[PrintedField(j)]);
  }

  lemma {:induction false} LinesFrom(c: Config, i: nat)
    requires WellTyped(c) && SingleLine(c) && i <= KEY_COUNT
    ensures Lines(TextFrom(c, i)) == FileLines(c, i)
    decreases KEY_COUNT - i
  {
    hide Keys, LineOf, SingleLine, Fits;
    if i < KEY_COUNT {
      LineIsSingle(c, KeyAt(i));
      LinesStep(LineOf(c, KeyAt(i)), TextFrom(c, i + 1));
      LinesFrom(c, i + 1);
    }
  }

  lemma HeaderChangesNothing(d: Config)
    requires WellTyped(d)
    ensures ReadKeys(d, Header(), 0) == (d, true)
  {
    hide Header, Name, Contains, Parse, ReadKeys;
    ReadKeysResult(d, Header(), 0);
    var (e, ok) := ReadKeys(d, Header(), 0);
    forall k: Key ensures Convertible(Header(), k) && (ok ==> e[k] == d[k]) {
      NoKeyInHeader(k);
      assert ok ==> FieldRead(d, Header(), 0, e, k);
    }
    assert e == d;
  }

  lemma LoadReadsLines(c: Config, d: Config)
    requires WellTyped(c) && WellTyped(d) && SingleLine(c)
    ensures Load(d, FileText(c)) == ReadLines(d, FileLines(c, 0))
  {
    hide ReadKeys, SingleLine, WellTyped, FileLines, TextFrom;
    LinesFrom(c, 0);
    LinesStep(Header(), TextFrom(c, 0));
    HeaderChangesNothing(d);
    hide Header;
    var ls := [Header()] + FileLines(c, 0);
    assert ls[1..] == FileLines(c, 0);
  }

  lemma OwnLine(c: Config, k: Key)
    requires WellTyped(c)
    ensures Assigned(c, k, k) == Some(Restored(c)[k])
  {
    hide Parse, Show, Fits, Settled;
    PrintedFits(c, k);
    ShowParses(KindOf(k), c[PrintedField(k)]);
  }

  lemma MentionedText(c: Config, j: Key, k: Key)
    requires WellTyped(c) && Mentions(c, j, k)
    ensures Assigned(c, j, k) == Parse(KindOf(k), c[j].s)
  {
    hide Parse, Occurs;
  }

  lemma ReadableMeansConvertible(c: Config)
    requires WellTyped(c)
    ensures AllConvert(c, 0) <==> Readable(c)
  {
    hide Parse, Assigned, Occurs, Restored, Index;
    forall j: Key, k: Key | Mentions(c, j, k)
      ensures Assigned(c, j, k) == Parse(KindOf(k), c[j].s)
    {
      MentionedText(c, j, k);
    }
    forall k: Key ensures Assigned(c, k, k).Some? {
      OwnLine(c, k);
    }
    if AllConvert(c, 0) {
      forall j: Key, k: Key | Mentions(c, j, k) ensures Parse(KindOf(k), c[j].s).Some? {
        assert Assigns(c, j, k);
      }
    }
  }

  lemma {:induction false} LastAssigner(c: Config, k: Key, i: nat) returns (j: Key)
    requires WellTyped(c) && Index(k) <= i < KEY_COUNT
    requires forall l: Key :: i < Index(l) ==> !Assigns(c, l, k)
    ensures Assigns(c, j, k) && Index(k) <= Index(j)
    ensures forall l: Key :: Index(j) < Index(l) ==> !Assigns(c, l, k)
    decreases i
  {
    hide Keys, Mentions, Fits;
    j := KeyAt(i);
    IndexAt(i);
    if !Assigns(c, j, k) {
      forall l: Key | i - 1 < Index(l) ensures !Assigns(c, l, k) {
        KeyOrder(l);
      }
      KeyOrder(k);
      j := LastAssigner(c, k, i - 1);
    }
  }

  lemma LastMentionAssigns(c: Config, k: Key, j: Key)
    requires WellTyped(c) && j != k && Assigns(c, j, k) && Index(k) <= Index(j)
    requires forall l: Key :: Index(j) < Index(l) ==> !Assigns(c, l, k)
    ensures LastMention(c, j, k)
    ensures forall l: Key :: LastMention(c, l, k) ==> l == j
  {
    hide Occurs, Fits, Keys;
    KeyOrder(j);
    KeyOrder(k);
    forall l: Key | LastMention(c, l, k) ensures l == j {
      KeyOrder(l);
      assert Assigns(c, l, k);
    }
  }

  /** A field is restored unless the last text below its line to mention its key says otherwise. */
  lemma FieldAfterLoad(c: Config, d: Config, e: Config, k: Key)
    requires WellTyped(c) && WellTyped(d) && AllConvert(c, 0) && WellTyped(e)
    requires e == ReadLines(d, FileLines(c, 0)).0
    ensures e[k] == Restored(c)[k] <==> Kept(c, k)
  {
    hide Parse, Assigned, Mentions, Restored, Fits, FileLines, ReadLines, AllConvert;
    KeyOrder(k);
    forall l: Key ensures Index(l) < KEY_COUNT {
      KeyOrder(l);
    }
    var j := LastAssigner(c, k, KEY_COUNT - 1);
    LastLineDecides(c, d, 0, j, k);
    OwnLine(c, k);
    if j != k {
      LastMentionAssigns(c, k, j);
      MentionedText(c, j, k);
    }
  }
}
