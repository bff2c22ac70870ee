/** The main results about the configuration file. */
module ConfigTheorems {
  import opened Options
  import opened ConfigKeys
  import opened ConfigText
  import opened ConfigKeySearch
  import opened ConfigFile
  import opened ConfigRoundTrip

  // ----- a text that spans lines is never restored

  predicate AllSingle(ls: seq<string>) {
    forall i :: 0 <= i < |ls| ==> '\n' !in ls[i]
  }

  lemma {:induction false} LinesAreSingle(s: string)
    ensures AllSingle(Lines(s))
    decreases |s|
  {
    if s != "" {
      match Find(s, "\n", 0) {
        case None =>
          forall o | 0 <= o < |s| ensures s[o] != '\n' {
            assert s[o..o + 1] == [s[o]];
            assert !OccursAt(s, "\n", o);
          }
        case Some(o) =>
          forall p | 0 <= p < o ensures s[p] != '\n' {
            assert s[p..p + 1] == [s[p]];
            assert !OccursAt(s, "\n", p);
          }
          LinesAreSingle(s[o + 1..]);
      }
    }
  }

  ghost predicate SomeLineContains(ls: seq<string>, t: string) {
    exists i :: 0 <= i < |ls| && Occurs(ls[i], t)
  }

  lemma {:induction false} OccursInSomeLine(s: string, t: string)
    requires Occurs(s, t) && t != "" && '\n' !in t
    ensures SomeLineContains(Lines(s), t)
    decreases |s|
  {
    hide Occurs;
    if s == "" {
      NothingInEmpty(t);
    } else {
      match Find(s, "\n", 0) {
        case None =>
          assert Occurs(Lines(s)[0], t);
        case Some(o) =>
          var a, b := s[..o], s[o + 1..];
          assert s[o] == s[o..o + 1][0];
          assert s == a + ['\n'] + b;
          OccursBeside(a, '\n', b, t);
          if Occurs(a, t) {
            assert Lines(s)[0] == a;
          } else {
            OccursInSomeLine(b, t);
            var i :| 0 <= i < |Lines(b)| && Occurs(Lines(b)[i], t);
            assert Lines(s)[i + 1] == Lines(b)[i];
          }
      }
    }
  }

  lemma NothingInEmpty(t: string)
    requires t != ""
    ensures !Occurs("", t)
  {
  }

  lemma ValueTextSingle(line: string)
    requires '\n' !in line
    ensures '\n' !in ValueText(line)
  {
  }

  lemma {:induction false} TextsAreSingle(d: Config, ls: seq<string>, j: Key)
    requires WellTyped(d) && KindOf(j) == Text && AllSingle(ls)
    requires SomeLineContains(ls, Name(j)) || '\n' !in d[j].s
    ensures var (e, ok) := ReadLines(d, ls);
            && WellTyped(e)
            && (ok ==> '\n' !in e[j].s)
    decreases |ls|
  {
    hide Name, KindOf, ReadKeys, ValueText, Contains, Fits, Index;
    if ls != [] {
      ReadKeysResult(d, ls[0], 0);
      var (e, ok) := ReadKeys(d, ls[0], 0);
      ValueTextSingle(ls[0]);
      assert Contains(ls[0], Name(j)) <==> Occurs(ls[0], Name(j));
      if ok {
        assert FieldRead(d, ls[0], 0, e, j);
        assert ls[1..] == ls[1..|ls|];
        TextsAreSingle(e, ls[1..], j);
      }
    }
  }

  lemma {:induction false} NameInText(c: Config, i: nat, j: Key)
    requires WellTyped(c) && i <= Index(j) < KEY_COUNT
    ensures Occurs(TextFrom(c, i), Name(j))
    decreases KEY_COUNT - i
  {
    hide Name, Keys, Occurs, Fits;
    var line, rest := LineOf(c, KeyAt(i)), TextFrom(c, i + 1);
    assert TextFrom(c, i) == line + "\n" + rest;
    hide TextFrom;
    if i == Index(j) {
      KeyOrder(j);
      NameOccursOnce(j, j);
      NameStartsLine(Name(j), Show(c[PrintedField(j)]), rest);
    } else {
      NameInText(c, i + 1, j);
      assert line + "\n" + rest == (line + "\n") + rest + "";
      OccursInside(line + "\n", rest, "", Name(j));
    }
  }

  lemma NameStartsLine(name: string, value: string, rest: string)
    requires Occurs(name, name)
    ensures Occurs(name + "=" + value + "\n" + rest, name)
  {
    hide Occurs;
    var tail := "=" + value + "\n" + rest;
    assert name + "=" + value + "\n" + rest == "" + name + tail;
    OccursInside("", name, tail, name);
  }

  /** Whatever the file was written from, a text read from it is a single line. */
  lemma LoadedTextIsSingle(c: Config, d: Config, j: Key)
    requires WellTyped(c) && WellTyped(d) && KindOf(j) == Text
    ensures var (e, ok) := Load(d, FileText(c));
            WellTyped(e) && (ok ==> '\n' !in e[j].s)
  {
    hide Name, Keys, Occurs, Fits, Header, TextFrom, Lines, ReadLines;
    var s := FileText(c);
    KeyOrder(j);
    NameInText(c, 0, j);
    NameIsWord(j);
    assert s == (Header() + "\n") + TextFrom(c, 0) + "";
    OccursInside(Header() + "\n", TextFrom(c, 0), "", Name(j));
    OccursInSomeLine(s, Name(j));
    LinesAreSingle(s);
    TextsAreSingle(d, Lines(s), j);
  }

  // ----- the round trip

  lemma RestoredField(c: Config, k: Key)
    requires WellTyped(c)
    ensures k in Restored(c) && Restored(c)[k] == Settled(c[PrintedField(k)])
    ensures Fits(KindOf(k), Restored(c)[k])
    ensures KindOf(k) == Text ==> Restored(c)[k] == c[k]
  {
    PrintedFits(c, k);
  }

  lemma RestoredFields(c: Config)
    requires WellTyped(c)
    ensures WellTyped(Restored(c))
    ensures forall k: Key :: KindOf(k) == Text ==> Restored(c)[k] == c[k]
  {
    hide Restored, Fits, KindOf;
    forall k: Key
      ensures k in Restored(c) && Fits(KindOf(k), Restored(c)[k])
      ensures KindOf(k) == Text ==> Restored(c)[k] == c[k]
    {
      RestoredField(c, k);
    }
  }

  lemma RestoredMeansSingle(c: Config, d: Config)
    requires WellTyped(c) && WellTyped(d)
    requires Load(d, FileText(c)) == (Restored(c), true)
    ensures SingleLine(c)
  {
    hide Load, FileText, Restored;
    RestoredFields(c);
    forall j: Key ensures KindOf(j) == Text ==> '\n' !in c[j].s {
      if KindOf(j) == Text {
        LoadedTextIsSingle(c, d, j);
      }
    }
  }

  /** Loading a written file restores the configuration (with the one swapped flag, and numbers to the
      printed millionth) exactly when no text spans lines, every text that mentions a key converts to
      that key's type, and no such text is the last word on another key's value. */
  lemma RoundTripExactly(c: Config, d: Config)
    requires WellTyped(c) && WellTyped(d)
    ensures Load(d, FileText(c)) == (Restored(c), true)
       <==> SingleLine(c) && Readable(c) && Undisturbed(c)
  {
    hide FileText, Parse, Readable, AllConvert, Kept, Load, ReadLines, FileLines, SingleLine, Restored;
    if Load(d, FileText(c)) == (Restored(c), true) {
      RestoredMeansSingle(c, d);
    }
    if SingleLine(c) {
      LoadReadsLines(c, d);
      ReadResult(c, d, 0);
      ReadableMeansConvertible(c);
      if Readable(c) {
        LoadKeepsFields(c, d, Load(d, FileText(c)).0);
      }
    }
  }

  lemma LoadKeepsFields(c: Config, d: Config, e: Config)
    requires WellTyped(c) && WellTyped(d) && AllConvert(c, 0) && WellTyped(e)
    requires e == ReadLines(d, FileLines(c, 0)).0
    ensures e == Restored(c) <==> Undisturbed(c)
  {
    hide Parse, AllConvert, Kept, ReadLines, FileLines, Restored, Fits;
    RestoredFields(c);
    forall k: Key ensures e[k] == Restored(c)[k] <==> Kept(c, k) {
      FieldAfterLoad(c, d, e, k);
    }
    if forall k: Key :: e[k] == Restored(c)[k] {
      assert e == Restored(c);
    }
  }

  /** A configuration whose texts are single lines that mention no key. */
  ghost predicate Plain(c: Config)
    requires WellTyped(c)
  {
    SingleLine(c) && forall j: Key, k: Key :: !Mentions(c, j, k)
  }

  lemma RestoredIsPlain(c: Config)
    requires WellTyped(c) && Plain(c)
    ensures WellTyped(Restored(c)) && Plain(Restored(c))
  {
    hide Name, Occurs, Restored, Fits;
    RestoredFields(c);
    forall j: Key, k: Key ensures !Mentions(Restored(c), j, k) {
      assert !Mentions(c, j, k);
    }
  }

  /** Key k's line holds k's own value, and holds it without rounding. */
  ghost predicate PrintsExactly(c: Config, k: Key)
    requires WellTyped(c)
  {
    && (k == SafeLandingEnabled ==> c[SafeLandingEnabled] == c[SimpleCollisionAvoidEnabled])
    && (KindOf(k) == Double ==> Rounded(c[k].x) == c[k].x)
  }

  /** Both enable flags agree and every number is a whole number of millionths. */
  ghost predicate Printable(c: Config)
    requires WellTyped(c)
  {
    forall k: Key :: PrintsExactly(c, k)
  }

  lemma PrintableField(c: Config, k: Key)
    requires WellTyped(c)
    ensures k in Restored(c) && (Restored(c)[k] == c[k] <==> PrintsExactly(c, k))
  {
    hide Rounded, Restored;
    RestoredField(c, k);
  }

  lemma PrintableIsFixed(c: Config)
    requires WellTyped(c)
    ensures Restored(c) == c <==> Printable(c)
  {
    hide PrintsExactly, Restored, Fits, KindOf;
    RestoredFields(c);
    forall k: Key ensures Restored(c)[k] == c[k] <==> PrintsExactly(c, k) {
      PrintableField(c, k);
    }
    if forall k: Key :: Restored(c)[k] == c[k] {
      assert Restored(c) == c;
    }
  }

  lemma RestoredTwice(c: Config)
    requires WellTyped(c) && WellTyped(Restored(c))
    ensures Restored(Restored(c)) == Restored(c)
  {
    hide Rounded, Restored, Fits;
    var r := Restored(c);
    RestoredFields(r);
    forall k: Key ensures Restored(r)[k] == r[k] {
      RestoredField(c, k);
      RestoredField(c, PrintedField(k));
      RestoredField(r, k);
      if c[PrintedField(k)].Decimal? {
        RoundedTwice(c[PrintedField(k)].x);
      }
    }
    assert Restored(r) == r;
  }

  /** Whatever was configured before, loading the file of a plain configuration succeeds. It is the
      identity only if the two flags agree and the numbers are whole millionths; a second round trip
      changes nothing more. */
  lemma PlainRoundTrip(c: Config, d: Config)
    requires WellTyped(c) && WellTyped(d) && Plain(c)
    ensures Load(d, FileText(c)) == (Restored(c), true)
    ensures Load(d, FileText(c)) == (c, true) <==> Printable(c)
    ensures WellTyped(Restored(c)) && Load(d, FileText(Restored(c))) == (Restored(c), true)
  {
    hide Name, Occurs, Load, FileText, Rounded, Restored, Printable, Parse;
    RoundTripExactly(c, d);
    RestoredIsPlain(c);
    RoundTripExactly(Restored(c), d);
    RestoredTwice(c);
    PrintableIsFixed(c);
  }

  // ----- how a file fails to give back what was written

  /** A text below a key's own line that is the last to mention the key overwrites its value. */
  lemma LaterTextOverwrites(c: Config, d: Config, j: Key, k: Key)
    requires WellTyped(c) && WellTyped(d) && SingleLine(c) && Readable(c)
    requires LastMention(c, j, k)
    ensures var (e, ok) := Load(d, FileText(c));
            ok && k in e && Some(e[k]) == Parse(KindOf(k), c[j].s)
  {
    hide Parse, Mentions, Fits, Load, FileText, ReadLines, FileLines, Readable, AllConvert, LastMention;
    LoadReadsLines(c, d);
    ReadResult(c, d, 0);
    ReadableMeansConvertible(c);
    MentionDecides(c, d, Load(d, FileText(c)).0, j, k);
  }

  lemma MentionDecides(c: Config, d: Config, e: Config, j: Key, k: Key)
    requires WellTyped(c) && WellTyped(d) && WellTyped(e) && AllConvert(c, 0)
    requires e == ReadLines(d, FileLines(c, 0)).0
    requires LastMention(c, j, k)
    ensures Some(e[k]) == Parse(KindOf(k), c[j].s)
  {
    hide Parse, Mentions, Fits, ReadLines, FileLines, Assigned, AllConvert;
    forall l: Key | Index(j) < Index(l) ensures !Assigns(c, l, k) {
    }
    LastLineDecides(c, d, 0, j, k);
    MentionedText(c, j, k);
  }

  /** A written file cannot be loaded when a text mentions a key whose type it does not convert to. */
  lemma UnreadableTextThrows(c: Config, d: Config, j: Key, k: Key)
    requires WellTyped(c) && WellTyped(d) && SingleLine(c)
    requires Mentions(c, j, k) && Parse(KindOf(k), c[j].s).None?
    ensures !Load(d, FileText(c)).1
  {
    hide Parse, Occurs, Fits, Load, FileText, ReadLines, FileLines, SingleLine;
    LoadReadsLines(c, d);
    ReadResult(c, d, 0);
    ReadableMeansConvertible(c);
  }

  lemma WordsDoNotConvert(kind: Kind, s: string)
    requires s != "" && IsWord(s) && kind != Text
    ensures Parse(kind, s).None?
  {
    assert 'a' <= s[0] <= 'z' || s[0] == '_';
    assert DigitRun(s) == 0;
    assert SplitSign(SkipSpaces(s)) == (false, s);
  }

  /** For instance, a script or an input type named after a key that holds a number. */
  lemma TextNamedAfterKey(c: Config, d: Config, j: Key, k: Key)
    requires WellTyped(c) && WellTyped(d) && SingleLine(c)
    requires KindOf(j) == Text && KindOf(k) != Text && c[j] == Words(Name(k))
    ensures !Load(d, FileText(c)).1
  {
    hide Load, FileText, SingleLine, Name, Parse, Fits;
    NameIsWord(k);
    NameOccursOnce(k, k);
    WordsDoNotConvert(KindOf(k), Name(k));
    UnreadableTextThrows(c, d, j, k);
  }
}
