/** No key occurs inside another key, in the header or in a printed number.

    Every key starts with one of ten three-letter heads; the lemmas below find all places where a head
    occurs inside a key and rule out that a whole key continues there. */
module ConfigKeySearch {
  import opened ConfigKeys
  import opened ConfigText

  predicate IsHead(a: char, b: char, c: char) {
    || (a == 'a' && b == 'u' && c == 't')
    || (a == 'd' && b == 'e' && c == 'c')
    || (a == 's' && b == 'c' && c == 'r')
    || (a == 'a' && b == 'p' && c == 'i')
    || (a == 'l' && b == 'o' && c == 'c')
    || (a == 'g' && b == 'l' && c == 'o')
    || (a == 'c' && b == 'a' && c == 'm')
    || (a == 's' && b == 'a' && c == 'f')
    || (a == 'l' && b == 'a' && c == 'n')
    || (a == 's' && b == 'i' && c == 'm')
  }

  predicate HeadAt(s: string, o: nat) {
    o + 3 <= |s| && IsHead(s[o], s[o + 1], s[o + 2])
  }

  // ----- heads inside the first words

  lemma PrefixShape(g: Group)
    ensures HeadAt(Prefix(g), 0) && |Prefix(g)| >= 4 && Prefix(g)[|Prefix(g)| - 1] == '_'
  {
  }

  lemma HeadInShortPrefix(g: Group, o: nat)
    requires g in {Autopilot, Decision, Script, Api, Camera}
    requires HeadAt(Prefix(g), o)
    ensures o == 0
  {
  }

  lemma HeadInPositionPrefix(g: Group, o: nat)
    requires g in {Local, Global}
    requires HeadAt(Prefix(g), o)
    ensures o == 0
  {
  }

  lemma HeadInLandingPrefix(g: Group, o: nat)
    requires g == Landing
    requires HeadAt(Prefix(g), o)
    ensures o == 0
  {
  }

  lemma HeadInSafePrefix(g: Group, o: nat)
    requires g == Safe
    requires HeadAt(Prefix(g), o)
    ensures o == 0 || o == 5
  {
  }

  lemma HeadInSimplePrefix(g: Group, o: nat)
    requires g == Simple
    requires HeadAt(Prefix(g), o)
    ensures o == 0
  {
  }

  lemma HeadInPrefix(g: Group, o: nat)
    requires HeadAt(Prefix(g), o)
    ensures o == 0 || (g == Safe && o == 5)
  {
    hide Prefix, HeadAt;
    match g
    case Landing => HeadInLandingPrefix(g, o);
    case Safe => HeadInSafePrefix(g, o);
    case Simple => HeadInSimplePrefix(g, o);
    case Local => HeadInPositionPrefix(g, o);
    case Global => HeadInPositionPrefix(g, o);
    case _ => HeadInShortPrefix(g, o);
  }

  lemma SameHead(g: Group, h: Group)
    requires |Prefix(g)| >= 3 && |Prefix(h)| >= 3
    requires Prefix(g)[0] == Prefix(h)[0] && Prefix(g)[1] == Prefix(h)[1] && Prefix(g)[2] == Prefix(h)[2]
    ensures g == h
  {
  }

  // ----- heads inside the rest of a key

  lemma NoHeadInFirstRests(k: Key, o: nat)
    requires Index(k) < 4
    ensures !HeadAt(Rest(k), o)
  {
  }

  lemma NoHeadInLocalRests(k: Key, o: nat)
    requires 4 <= Index(k) < 10
    ensures !HeadAt(Rest(k), o)
  {
  }

  lemma NoHeadInGlobalRests(k: Key, o: nat)
    requires 10 <= Index(k) < 16
    ensures !HeadAt(Rest(k), o)
  {
  }

  lemma NoHeadInCameraRests(k: Key, o: nat)
    requires 16 <= Index(k) < 19
    ensures !HeadAt(Rest(k), o)
  {
  }

  lemma HeadInSafeRests(k: Key, o: nat)
    requires 19 <= Index(k) < 23
    requires HeadAt(Rest(k), o)
    ensures Rest(k)[o] in {'s', 'l'} && Rest(k)[o + 1] == 'a' && |Rest(k)| <= o + 9
  {
  }

  lemma HeadInLastSafeRest(k: Key, o: nat)
    requires Index(k) == 23
    requires HeadAt(Rest(k), o)
    ensures Rest(k)[o] == 'l' && Rest(k)[o + 1] == 'a' && |Rest(k)| <= o + 20
  {
  }

  lemma NoHeadInSearchRests(k: Key, o: nat)
    requires 24 <= Index(k) < 27
    ensures !HeadAt(Rest(k), o)
  {
  }

  lemma NoHeadInAbortRest(k: Key, o: nat)
    requires Index(k) == 27
    ensures !HeadAt(Rest(k), o)
  {
  }

  lemma NoHeadInLastSearchRests(k: Key, o: nat)
    requires 28 <= Index(k) < 33
    ensures !HeadAt(Rest(k), o)
  {
  }

  lemma NoHeadInSimpleRests(k: Key, o: nat)
    requires 33 <= Index(k)
    ensures !HeadAt(Rest(k), o)
  {
  }

  /** Where a head occurs in the rest of a key, too little of the key is left for a whole key. */
  lemma HeadInRest(k: Key, o: nat)
    requires HeadAt(Rest(k), o)
    ensures GroupOf(k) == Safe
    ensures Rest(k)[o] in {'s', 'l'} && Rest(k)[o + 1] == 'a'
    ensures |Rest(k)| <= o + (if Rest(k)[o] == 's' then 9 else 20)
  {
    hide Rest, HeadAt;
    var i := Index(k);
    if i < 4 {
      NoHeadInFirstRests(k, o);
    } else if i < 10 {
      NoHeadInLocalRests(k, o);
    } else if i < 16 {
      NoHeadInGlobalRests(k, o);
    } else if i < 19 {
      NoHeadInCameraRests(k, o);
    } else if i < 23 {
      HeadInSafeRests(k, o);
    } else if i == 23 {
      HeadInLastSafeRest(k, o);
    } else if i < 27 {
      NoHeadInSearchRests(k, o);
    } else if i == 27 {
      NoHeadInAbortRest(k, o);
    } else if i < 33 {
      NoHeadInLastSearchRests(k, o);
    } else {
      NoHeadInSimpleRests(k, o);
    }
  }

  // ----- one key inside another

  lemma SearchRestsDiffer(a: Key, b: Key)
    requires GroupOf(a) == GroupOf(b) == Landing
    requires forall j :: 0 <= j < |Rest(a)| ==> j < |Rest(b)| && Rest(a)[j] == Rest(b)[j]
    ensures a == b
  {
    var s, t := Rest(a), Rest(b);
    assert 2 < |s| ==> s[2] == t[2];
    assert 7 < |s| ==> s[7] == t[7];
  }

  lemma PositionRestsDiffer(a: Key, b: Key)
    requires GroupOf(a) == GroupOf(b) && GroupOf(a) in {Local, Global}
    requires forall j :: 0 <= j < |Rest(a)| ==> j < |Rest(b)| && Rest(a)[j] == Rest(b)[j]
    ensures a == b
  {
    var s, t := Rest(a), Rest(b);
    assert 7 < |s| ==> s[7] == t[7];
    assert 8 < |s| ==> s[8] == t[8];
    assert 9 < |s| ==> s[9] == t[9];
    assert 10 < |s| ==> s[10] == t[10];
  }

  lemma OtherRestsDiffer(a: Key, b: Key)
    requires GroupOf(a) == GroupOf(b) && GroupOf(a) !in {Local, Global, Landing}
    requires forall j :: 0 <= j < |Rest(a)| ==> j < |Rest(b)| && Rest(a)[j] == Rest(b)[j]
    ensures a == b
  {
    var s, t := Rest(a), Rest(b);
    assert 0 < |s| ==> s[0] == t[0];
    assert 7 < |s| ==> s[7] == t[7];
  }

  lemma RestLengths(k: Key)
    ensures |Rest(k)| >= 3 && (GroupOf(k) == Landing ==> |Rest(k)| >= 5)
  {
  }

  /** Wherever a key occurs, a head occurs. */
  lemma KeyBringsHead(s: string, a: Key, o: nat)
    requires OccursAt(s, Name(a), o)
    ensures HeadAt(s, o)
  {
    hide Prefix, Rest;
    PrefixShape(GroupOf(a));
    var t := Name(a);
    OccursAtChars(s, t, o);
    assert s[o + 0] == t[0] && s[o + 1] == t[1] && s[o + 2] == t[2];
  }

  /** An occurrence of one name in another, character by character. */
  lemma NameOccurrence(a: Key, b: Key, o: nat)
    requires OccursAt(Name(b), Name(a), o)
    ensures |Name(a)| >= 3 && HeadAt(Name(a), 0) && HeadAt(Name(b), o)
    ensures forall j :: 0 <= j < |Name(a)| ==> o + j < |Name(b)| && Name(b)[o + j] == Name(a)[j]
  {
    hide Prefix, Rest;
    KeyBringsHead(Name(b), a, o);
    assert OccursAt(Name(a), Name(a), 0);
    KeyBringsHead(Name(a), a, 0);
    OccursAtChars(Name(b), Name(a), o);
  }

  /** No head lies across the underscore that ends the first words. */
  lemma NotAcross(k: Key, o: nat)
    requires HeadAt(Name(k), o)
    ensures o + 3 <= |Prefix(GroupOf(k))| || |Prefix(GroupOf(k))| <= o
  {
    hide Prefix, Rest;
    PrefixShape(GroupOf(k));
  }

  lemma NotInRest(a: Key, b: Key, o: nat)
    requires OccursAt(Name(b), Name(a), o)
    ensures o < |Prefix(GroupOf(b))|
  {
    hide Prefix, Rest;
    NameOccurrence(a, b, o);
    PrefixShape(GroupOf(a));
    var q := |Prefix(GroupOf(b))|;
    if q <= o {
      HeadInRest(b, o - q);
      LongName(a);
      assert false;
    }
  }

  /** After "safe_" comes "landing_", but no key goes on like this one. */
  lemma NotAfterSafe(a: Key, b: Key)
    requires GroupOf(b) == Safe
    ensures !OccursAt(Name(b), Name(a), 5)
  {
    hide Prefix, Rest;
    if OccursAt(Name(b), Name(a), 5) {
      NameOccurrence(a, b, 5);
      SearchName(a);
      SafeName(b);
      assert false;
    }
  }

  lemma SafeName(b: Key)
    requires GroupOf(b) == Safe
    ensures |Name(b)| > 13 && Name(b)[5] == 'l' && Name(b)[6] == 'a' && Name(b)[13] != 's'
  {
    hide Rest;
    SafeRestStart(b);
  }

  lemma SearchName(a: Key)
    ensures HeadAt(Name(a), 0)
    ensures Name(a)[0] == 'l' && Name(a)[1] == 'a' ==> |Name(a)| >= 20 && Name(a)[8] == 's'
  {
    hide Rest, Prefix;
    PrefixShape(GroupOf(a));
    SearchPrefix(GroupOf(a));
  }

  lemma SearchPrefix(g: Group)
    requires |Prefix(g)| >= 4
    ensures Prefix(g)[0] == 'l' && Prefix(g)[1] == 'a' ==> |Prefix(g)| == 20 && Prefix(g)[8] == 's'
  {
  }

  lemma SafeRestStart(b: Key)
    requires GroupOf(b) == Safe
    ensures Rest(b) != "" && Rest(b)[0] != 's'
  {
  }

  /** The keys are free of each other: the reader never takes one key's line for another's. */
  lemma NoKeyInKey(a: Key, b: Key, o: nat)
    requires OccursAt(Name(b), Name(a), o)
    ensures a == b && o == 0
  {
    hide Prefix, Rest;
    NameOccurrence(a, b, o);
    NotAcross(b, o);
    NotInRest(a, b, o);
    var p, q := Prefix(GroupOf(a)), Prefix(GroupOf(b));
    assert HeadAt(q, o) by {
      assert q[o] == Name(b)[o] && q[o + 1] == Name(b)[o + 1] && q[o + 2] == Name(b)[o + 2];
    }
    HeadInPrefix(GroupOf(b), o);
    if o == 5 {
      NotAfterSafe(a, b);
    }
    PrefixShape(GroupOf(a));
    assert p[0] == Name(a)[0] && p[1] == Name(a)[1] && p[2] == Name(a)[2];
    SameHead(GroupOf(a), GroupOf(b));
    forall j | 0 <= j < |Rest(a)| ensures j < |Rest(b)| && Rest(a)[j] == Rest(b)[j] {
      assert Name(a)[|p| + j] == Rest(a)[j];
    }
    if GroupOf(a) == Landing {
      SearchRestsDiffer(a, b);
    } else if GroupOf(a) in {Local, Global} {
      PositionRestsDiffer(a, b);
    } else {
      OtherRestsDiffer(a, b);
    }
  }

  lemma NameOccursOnce(a: Key, b: Key)
    ensures Occurs(Name(b), Name(a)) <==> a == b
  {
    hide Prefix, Rest;
    if Occurs(Name(b), Name(a)) {
      var o: nat :| OccursAt(Name(b), Name(a), o);
      NoKeyInKey(a, b, o);
    }
    assert OccursAt(Name(a), Name(a), 0);
  }

  // ----- keys outside keys

  predicate IsNumeral(s: string) {
    forall i :: 0 <= i < |s| ==> IsDigit(s[i]) || s[i] == '.' || s[i] == '-'
  }

  lemma NumeralsAreNumerals(n: int, x: real)
    ensures IsNumeral(ShowInteger(n)) && IsNumeral(ShowDouble(x))
  {
  }

  lemma NoKeyInNumeral(s: string, a: Key)
    requires IsNumeral(s)
    ensures !Occurs(s, Name(a))
  {
    hide Prefix, Rest;
    if Occurs(s, Name(a)) {
      var o: nat :| OccursAt(s, Name(a), o);
      KeyBringsHead(s, a, o);
      assert false;
    }
  }

  function Header(): string {
    "[Autopilot" + "ManagerConfig]"
  }

  lemma NoHeadInHeader(o: nat)
    ensures !HeadAt(Header(), o)
  {
  }

  lemma NoKeyInHeader(a: Key)
    ensures !Occurs(Header(), Name(a))
  {
    hide Prefix, Rest, Header;
    if Occurs(Header(), Name(a)) {
      var o: nat :| OccursAt(Header(), Name(a), o);
      KeyBringsHead(Header(), a, o);
      NoHeadInHeader(o);
    }
  }

  /** Keys hold lower-case letters and underscores only, hence neither `=` nor a newline. */
  predicate IsWord(s: string) {
    forall i :: 0 <= i < |s| ==> 'a' <= s[i] <= 'z' || s[i] == '_'
  }

  lemma LongPrefixIsWord(g: Group)
    requires g in {Landing, Simple}
    ensures IsWord(Prefix(g))
  {
  }

  lemma ShortPrefixIsWord(g: Group)
    requires g !in {Landing, Simple}
    ensures IsWord(Prefix(g))
  {
  }

  lemma FirstRestIsWord(k: Key)
    requires 0 <= Index(k) < 10
    ensures IsWord(Rest(k))
  {
  }

  lemma GlobalRestIsWord(k: Key)
    requires 10 <= Index(k) < 16
    ensures IsWord(Rest(k))
  {
  }

  lemma CameraRestIsWord(k: Key)
    requires 16 <= Index(k) < 20
    ensures IsWord(Rest(k))
  {
  }

  lemma SafeRestIsWord(k: Key)
    requires 20 <= Index(k) < 24
    ensures IsWord(Rest(k))
  {
  }

  lemma SearchRestIsWord(k: Key)
    requires 24 <= Index(k) < 30
    ensures IsWord(Rest(k))
  {
  }

  lemma PatternRestIsWord(k: Key)
    requires 30 <= Index(k) < 33
    ensures IsWord(Rest(k))
  {
  }

  lemma SimpleRestIsWord(k: Key)
    requires 33 <= Index(k) < 36
    ensures IsWord(Rest(k))
  {
  }

  lemma NameIsWord(k: Key)
    ensures IsWord(Name(k)) && Name(k) != ""
    ensures '=' !in Name(k) && '\n' !in Name(k)
  {
    hide Prefix, Rest;
    var g, i := GroupOf(k), Index(k);
    if g in {Landing, Simple} {
      LongPrefixIsWord(g);
    } else {
      ShortPrefixIsWord(g);
    }
    if i < 10 {
      FirstRestIsWord(k);
    } else if i < 16 {
      GlobalRestIsWord(k);
    } else if i < 20 {
      CameraRestIsWord(k);
    } else if i < 24 {
      SafeRestIsWord(k);
    } else if i < 30 {
      SearchRestIsWord(k);
    } else if i < 33 {
      PatternRestIsWord(k);
    } else {
      SimpleRestIsWord(k);
    }
    PrefixShape(g);
  }

  lemma LongName(a: Key)
    ensures HeadAt(Name(a), 0)
    ensures |Name(a)| >= 7
    ensures Name(a)[0] == 's' && Name(a)[1] == 'a' ==> |Name(a)| > 9
    ensures Name(a)[0] == 'l' && Name(a)[1] == 'a' ==> |Name(a)| > 20
  {
    hide Rest;
    RestLengths(a);
  }
}
