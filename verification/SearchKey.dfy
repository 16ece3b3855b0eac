/** Search keys (internal/erpnext/client.go, NormalizeForSearch): lower case, Latin letters,
    no apostrophes, x as h, and single spaces between runs of letters and digits. */
module SearchKey {
  import opened Text
  import opened Transliteration

  /** The Unicode tables of the Go runtime: unicode.ToLower, IsLetter and IsDigit. */
  datatype Unicode = Unicode(lower: Lowering, letter: char -> bool, digit: char -> bool)

  /** What the model needs of those tables. */
  ghost predicate Lawful(u: Unicode) {
    && (forall c :: u.lower(u.lower(c)) == u.lower(c))
    && (forall c :: c < '\U{0080}' ==> u.lower(c) == LowerAscii(c))
    && (forall c :: Capital(c).Some? ==> u.lower(c) == LowerCyrillic(c))
    && (forall c :: Small(c).Some? ==> u.lower(c) == c)
    && (forall c :: IsSpace(c) ==> u.lower(c) == c && !u.letter(c) && !u.digit(c))
  }

  predicate IsWordRune(u: Unicode, c: char) { u.letter(c) || u.digit(c) }

  /** The second replacement: apostrophes go, x becomes h. */
  function Plain(c: char): string {
    if c == '\'' || c == '`' || c == '\U{02BB}' || c == '\U{02BC}' || c == '\U{2019}' then ""
    else if c == 'x' then "h" else [c]
  }

  /** What a rune of the input becomes before spaces are counted. */
  function Sound(u: Unicode, c: char): string { Each(Latin(u.lower(c)), Plain) }

  function Sounds(u: Unicode): char -> string { c => Sound(u, c) }

  /** Runs of other runes become one space, none at the start. */
  function Collapsed(u: Unicode, s: string): string {
    if |s| == 0 then ""
    else
      var before := Collapsed(u, s[..|s| - 1]);
      var c := s[|s| - 1];
      if IsWordRune(u, c) then before + [c]
      else if before != "" && before[|before| - 1] != ' ' then before + " "
      else before
  }

  /** The key of a text. */
  function Normalized(u: Unicode, s: string): string {
    TrimSpace(Collapsed(u, Each(s, Sounds(u))))
  }

  // ----- single runes -----

  lemma {:induction false} PlainOfWord(u: Unicode, c: char)
    requires Lawful(u) && ('a' <= c <= 'z' || c == '\'')
    ensures forall i :: 0 <= i < |Plain(c)| ==> Sound(u, Plain(c)[i]) == [Plain(c)[i]]
  {
    hide Capital, Small, Latin, IsSpace;
    if c != '\'' {
      var d := if c == 'x' then 'h' else c;
      LatinOfAscii(d);
      EachOne(d, Plain);
    }
  }

  lemma {:induction false} PlainOfWords(u: Unicode, s: string)
    requires Lawful(u) && LatinWord(s)
    ensures forall i :: 0 <= i < |Each(s, Plain)| ==> Sound(u, Each(s, Plain)[i]) == [Each(s, Plain)[i]]
  {
    hide Lawful, Plain, Sound;
    if |s| > 0 {
      PlainOfWord(u, s[0]);
      PlainOfWords(u, s[1..]);
    }
  }

  /** What a rune becomes stays as it is. */
  lemma {:induction false} SoundIsStable(u: Unicode, c: char)
    requires Lawful(u)
    ensures forall i :: 0 <= i < |Sound(u, c)| ==> Sound(u, Sound(u, c)[i]) == [Sound(u, c)[i]]
  {
    hide Capital, Small, IsSpace;
    var l := u.lower(c);
    if Small(l).Some? {
      SmallSpelling(l);
      PlainOfWords(u, Latin(l));
    } else if Capital(l).Some? {
      assert u.lower(l) == l;
      CapitalInRange(l);
    } else {
      EachOne(l, Plain);
      if l == 'x' { PlainOfWord(u, 'x'); }
    }
  }

  lemma {:induction false} LowersToPlain(u: Unicode, s: string, t: string)
    requires Lawful(u) && LowersTo(s, t)
    ensures Each(s, Sounds(u)) == Each(t, Plain)
  {
    hide Capital, Small, Latin, Plain, IsSpace;
    if |s| > 0 {
      assert LowerAscii(s[0]) == t[0] && t[0] < '\U{0080}';
      LatinOfAscii(t[0]);
      EachOne(t[0], Plain);
      LowersToPlain(u, s[1..], t[1..]);
    }
  }

  /** A rune and its Latin spelling sound the same. */
  lemma {:induction false} LatinSoundsTheSame(u: Unicode, c: char)
    requires Lawful(u)
    ensures Each(Latin(c), Sounds(u)) == Sound(u, c)
  {
    hide Capital, Small, Plain, IsSpace, LowersTo;
    if Small(c).Some? {
      SmallSpelling(c);
      WordLowers(Latin(c));
      LowersToPlain(u, Latin(c), Latin(c));
    } else if Capital(c).Some? {
      CapitalSpelling(c);
      LowersToPlain(u, Latin(c), Latin(LowerCyrillic(c)));
    } else {
      EachOne(c, Sounds(u));
    }
  }

  lemma WordLowers(s: string)
    requires LatinWord(s)
    ensures LowersTo(s, s)
  {
  }

  lemma {:induction false} SpaceSound(u: Unicode, c: char)
    requires Lawful(u) && IsSpace(c)
    ensures Sound(u, c) == [c] && !IsWordRune(u, c)
  {
    hide Capital, Small;
    if Small(c).Some? { SmallSpelling(c); }
    if Capital(c).Some? { CapitalInRange(c); }
    EachOne(c, Plain);
  }

  // ----- collapsed text -----

  /** Word runes and single spaces, no space at the start. */
  ghost predicate Neat(u: Unicode, s: string) {
    && (forall i :: 0 <= i < |s| ==> IsWordRune(u, s[i]) || s[i] == ' ')
    && (|s| > 0 ==> s[0] != ' ')
    && (forall i, j :: 0 <= i && j == i + 1 < |s| ==> s[i] != ' ' || s[j] != ' ')
  }

  lemma {:induction false} CollapsedIsNeat(u: Unicode, s: string)
    requires Lawful(u)
    ensures Neat(u, Collapsed(u, s))
  {
    hide Lawful;
    if |s| > 0 {
      CollapsedIsNeat(u, s[..|s| - 1]);
      SpaceIsNoWord(u);
    }
  }

  lemma SpaceIsNoWord(u: Unicode)
    requires Lawful(u)
    ensures !IsWordRune(u, ' ')
  {
    hide Capital, Small;
    assert IsSpace(' ');
  }

  lemma {:induction false} NeatCollapses(u: Unicode, s: string)
    requires Lawful(u) && Neat(u, s)
    ensures Collapsed(u, s) == s
  {
    hide Lawful;
    if |s| > 0 {
      var n := |s| - 1;
      NeatCollapses(u, s[..n]);
      SpaceIsNoWord(u);
      assert s == s[..n] + [s[n]];
    }
  }

  /** Only word runes keep their text from being dropped at the start. */
  lemma {:induction false} CollapsedDropsLeft(u: Unicode, blank: string, s: string)
    requires forall i :: 0 <= i < |blank| ==> !IsWordRune(u, blank[i])
    ensures Collapsed(u, blank + s) == Collapsed(u, s)
    decreases |blank| + |s|
  {
    hide IsWordRune;
    if |s| > 0 {
      assert (blank + s)[..|blank + s| - 1] == blank + s[..|s| - 1];
      CollapsedDropsLeft(u, blank, s[..|s| - 1]);
    } else if |blank| > 0 {
      assert blank + s == blank;
      CollapsedDropsLeft(u, blank[..|blank| - 1], s);
      assert blank[..|blank| - 1] + s == blank[..|blank| - 1];
    } else {
      assert blank + s == s;
    }
  }

  lemma {:induction false} CollapsedDropsRight(u: Unicode, s: string, blank: string)
    requires forall i :: 0 <= i < |blank| ==> !IsWordRune(u, blank[i])
    ensures Collapsed(u, s + blank) == Collapsed(u, s) || Collapsed(u, s + blank) == Collapsed(u, s) + " "
    decreases |blank|
  {
    hide IsWordRune;
    if |blank| > 0 {
      CollapsedDropsRight(u, s, blank[..|blank| - 1]);
      assert (s + blank)[..|s + blank| - 1] == s + blank[..|blank| - 1];
    } else {
      assert s + blank == s;
    }
  }

  /** Trimming the input first changes nothing. */
  lemma {:induction false} TrimmedFirst(u: Unicode, s: string)
    requires Lawful(u)
    ensures Normalized(u, TrimSpace(s)) == Normalized(u, s)
  {
    hide Lawful, TrimSpace, IsSpace, Sound, Collapsed, IsWordRune;
    var left, right := TrimSpaceDecomposes(s);
    var f := Sounds(u);
    EachConcat(left + TrimSpace(s), right, f);
    EachConcat(left, TrimSpace(s), f);
    SpacesSound(u, left);
    SpacesSound(u, right);
    var core := Each(TrimSpace(s), f);
    assert Each(s, f) == left + core + right;
    assert left + core + right == left + (core + right);
    CollapsedDropsLeft(u, left, core + right);
    CollapsedDropsRight(u, core, right);
    assert AllSpace(" ") by { SpaceIsSpace(); }
    TrimDropsRight(Collapsed(u, core), " ");
  }

  lemma SpaceIsSpace()
    ensures IsSpace(' ')
  {
  }

  lemma {:induction false} SpacesSound(u: Unicode, s: string)
    requires Lawful(u) && AllSpace(s)
    ensures Each(s, Sounds(u)) == s
    ensures forall i :: 0 <= i < |s| ==> !IsWordRune(u, s[i])
  {
    hide Lawful, Sound, IsSpace, IsWordRune;
    forall i | 0 <= i < |s| ensures Sound(u, s[i]) == [s[i]] && !IsWordRune(u, s[i]) {
      SpaceSound(u, s[i]);
    }
    EachFixed(s, Sounds(u));
  }

  // ----- keys -----

  /** Every rune of the text stands for itself. */
  ghost predicate Stable(u: Unicode, s: string) {
    forall i :: 0 <= i < |s| ==> Sound(u, s[i]) == [s[i]]
  }

  lemma {:induction false} SoundsAreStable(u: Unicode, s: string)
    requires Lawful(u)
    ensures Stable(u, Each(s, Sounds(u)))
  {
    hide Lawful, Sound;
    if |s| > 0 {
      SoundIsStable(u, s[0]);
      SoundsAreStable(u, s[1..]);
    }
  }

  lemma {:induction false} CollapsedStays(u: Unicode, s: string)
    requires Lawful(u) && Stable(u, s)
    ensures Stable(u, Collapsed(u, s))
  {
    hide Lawful, Sound, IsWordRune, IsSpace;
    if |s| > 0 {
      var n := |s| - 1;
      assert Stable(u, s[..n]);
      CollapsedStays(u, s[..n]);
      SpaceIsSpace();
      SpaceSound(u, ' ');
      assert Sound(u, s[n]) == [s[n]];
    }
  }

  /** A key is neat, does not end in a space, and is made of runes that stay. */
  lemma {:induction false} KeyIsNeat(u: Unicode, s: string)
    requires Lawful(u)
    ensures Neat(u, Normalized(u, s)) && Trimmed(Normalized(u, s)) && Stable(u, Normalized(u, s))
  {
    hide Lawful, Sound, IsSpace, Collapsed, TrimSpace, IsWordRune;
    var c := Collapsed(u, Each(s, Sounds(u)));
    SoundsAreStable(u, s);
    CollapsedStays(u, Each(s, Sounds(u)));
    CollapsedIsNeat(u, Each(s, Sounds(u)));
    var left, right := TrimSpaceDecomposes(c);
    SpacesSound(u, left);
    assert c == left + (TrimSpace(c) + right);
    NeatStart(u, left, TrimSpace(c) + right);
    assert c == TrimSpace(c) + right;
    NeatPrefix(u, TrimSpace(c), right);
  }

  lemma NeatStart(u: Unicode, blank: string, rest: string)
    requires Neat(u, blank + rest) && forall i :: 0 <= i < |blank| ==> !IsWordRune(u, blank[i])
    ensures blank == ""
  {
    hide IsWordRune;
    assert forall i :: 0 <= i < |blank| ==> (blank + rest)[i] == blank[i];
  }

  lemma NeatPrefix(u: Unicode, s: string, rest: string)
    requires Neat(u, s + rest) && Stable(u, s + rest)
    ensures Neat(u, s) && Stable(u, s)
  {
    hide Sound, IsWordRune;
    forall i | 0 <= i < |s| ensures s[i] == (s + rest)[i] {
    }
  }

  /** Normalising twice is normalising once. */
  lemma {:induction false} NormalizedTwice(u: Unicode, s: string)
    requires Lawful(u)
    ensures Normalized(u, Normalized(u, s)) == Normalized(u, s)
  {
    hide Lawful, Sound, IsSpace, Collapsed, TrimSpace, IsWordRune;
    var key := Normalized(u, s);
    KeyIsNeat(u, s);
    EachFixed(key, Sounds(u));
    NeatCollapses(u, key);
    TrimmedIsFixed(key);
  }

  /** A text and its transliteration have the same key. */
  lemma {:induction false} BothSpellingsMatch(u: Unicode, s: string)
    requires Lawful(u)
    ensures Normalized(u, TransliterateCyrillicToLatin(s)) == Normalized(u, s)
  {
    hide Lawful, Sound, Latin, Collapsed, TrimSpace;
    forall c ensures Sound(u, c) == Each(Latin(c), Sounds(u)) {
      LatinSoundsTheSame(u, c);
    }
    EachChain(s, Latin, Sounds(u), Sounds(u));
  }

  /** The three steps the code takes one after the other are one replacement. */
  lemma ReplacedAtOnce(u: Unicode, s: string)
    ensures Each(Each(ToLower(u.lower, s), Latin), Plain) == Each(s, Sounds(u))
  {
    hide Latin, Plain;
    var small := (c: char) => [u.lower(c)];
    var spelled := (c: char) => Latin(u.lower(c));
    LoweredRunes(u.lower, s, small);
    forall c ensures spelled(c) == Each(small(c), Latin) {
      EachOne(u.lower(c), Latin);
    }
    EachChain(s, small, Latin, spelled);
    EachChain(s, spelled, Plain, Sounds(u));
  }

  lemma {:induction false} LoweredRunes(lower: Lowering, s: string, small: char -> string)
    requires forall c :: small(c) == [lower(c)]
    ensures ToLower(lower, s) == Each(s, small)
  {
    if |s| > 0 {
      LoweredRunes(lower, s[1..], small);
      assert ToLower(lower, s) == [lower(s[0])] + ToLower(lower, s[1..]);
    }
  }

  lemma CollapsedStep(u: Unicode, s: string, i: nat)
    requires i < |s|
    ensures var before, c := Collapsed(u, s[..i]), s[i];
      Collapsed(u, s[..i + 1]) ==
        if IsWordRune(u, c) then before + [c]
        else if before != "" && before[|before| - 1] != ' ' then before + " "
        else before
  {
    hide IsWordRune;
    assert s[..i + 1][..i] == s[..i];
  }

  method NormalizeForSearch(u: Unicode, input: string) returns (key: string)
    requires Lawful(u)
    ensures key == Normalized(u, input)
  {
    hide Lawful, Latin, Plain, Sound, TrimSpace, IsSpace, IsWordRune, ToLower, Collapsed, Each;
    TrimmedFirst(u, input);
    ReplacedAtOnce(u, TrimSpace(input));
    NothingIsNormal(u);
    if TrimSpace(input) == "" {
      return "";
    }
    var lower := ToLower(u.lower, TrimSpace(input));
    var transliterated := TransliterateCyrillicToLatin(lower);
    transliterated := Each(transliterated, Plain);
    SpaceIsNoWord(u);
    var buffer := "";
    var lastWasSpace := false;
    NothingCollapses(u);
    assert transliterated[..0] == "";
    for i := 0 to |transliterated|
      invariant buffer == Collapsed(u, transliterated[..i]) || buffer == " " + Collapsed(u, transliterated[..i])
      invariant lastWasSpace <==> buffer != "" && buffer[|buffer| - 1] == ' '
      invariant buffer == "" ==> Collapsed(u, transliterated[..i]) == ""
    {
      CollapsedStep(u, transliterated, i);
      var r := transliterated[i];
      if IsWordRune(u, r) {
        buffer := buffer + [r];
        lastWasSpace := false;
      } else if !lastWasSpace {
        buffer := buffer + " ";
        lastWasSpace := true;
      }
    }
    assert transliterated[..|transliterated|] == transliterated;
    SpaceIsSpace();
    TrimDropsLeft(" ", Collapsed(u, transliterated));
    key := TrimSpace(buffer);
  }

  lemma NothingCollapses(u: Unicode)
    ensures Collapsed(u, "") == ""
  {
  }

  lemma NothingIsNormal(u: Unicode)
    ensures Normalized(u, "") == ""
  {
  }
}
