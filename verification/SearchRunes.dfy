/** What a search key keeps (internal/erpnext/client.go:530-561): every letter and digit of
    the lowered, spelled and replaced text, in order, and one space where others lay between. */
module SearchRunes {
  import opened Text
  import opened Transliteration
  import opened SearchKey

  /** The text the scan runs over. */
  function Scanned(u: Unicode, s: string): string {
    Each(Each(ToLower(u.lower, s), Latin), Plain)
  }

  /** Its letters and digits. */
  function Kept(u: Unicode, text: string): string {
    if |text| == 0 then ""
    else Kept(u, text[..|text| - 1]) + if u.letter(text[|text| - 1]) || u.digit(text[|text| - 1]) then [text[|text| - 1]] else ""
  }

  /** A text with its spaces taken out. */
  function Dense(s: string): string {
    if |s| == 0 then "" else Dense(s[..|s| - 1]) + if s[|s| - 1] == ' ' then "" else [s[|s| - 1]]
  }

  lemma {:induction false} DenseConcat(a: string, b: string)
    ensures Dense(a + b) == Dense(a) + Dense(b)
  {
    if |b| == 0 {
      assert a + b == a && Dense(a) + "" == Dense(a);
    } else {
      var n := |b| - 1;
      assert (a + b)[..|a + b| - 1] == a + b[..n];
      DenseConcat(a, b[..n]);
      Regroup(Dense(a), Dense(b[..n]), if b[n] == ' ' then "" else [b[n]]);
    }
  }

  lemma {:induction false} DenseOfSpaces(s: string)
    requires forall i :: 0 <= i < |s| ==> s[i] == ' '
    ensures Dense(s) == ""
  {
    if |s| > 0 { DenseOfSpaces(s[..|s| - 1]); }
  }

  lemma DenseOne(c: char)
    ensures Dense([c]) == if c == ' ' then "" else [c]
  {
    assert [c][..0] == "";
  }

  lemma {:induction false} CollapsedKeeps(u: Unicode, text: string)
    requires Lawful(u)
    ensures Dense(Collapsed(u, text)) == Kept(u, text)
  {
    hide Lawful;
    if |text| > 0 {
      var n := |text| - 1;
      CollapsedKeeps(u, text[..n]);
      SpaceIsNoWord(u);
      DenseOne(text[n]);
      DenseOne(' ');
      DenseConcat(Collapsed(u, text[..n]), [text[n]]);
      DenseConcat(Collapsed(u, text[..n]), " ");
    }
  }

  lemma WordIsNoSpace(u: Unicode, c: char)
    requires Lawful(u) && IsSpace(c)
    ensures !u.letter(c) && !u.digit(c)
  {
    hide Capital, Small;
  }

  /** A collapsed text is its key, with a space behind it or not. */
  lemma KeyOfCollapsed(u: Unicode, text: string)
    requires Lawful(u)
    ensures var c := Collapsed(u, text); c == TrimSpace(c) || c == TrimSpace(c) + " "
  {
    hide Lawful, TrimSpace, IsSpace, Collapsed;
    var c := Collapsed(u, text);
    CollapsedIsNeat(u, text);
    var left, right := TrimSpaceDecomposes(c);
    assert c == left + (TrimSpace(c) + right);
    forall i | 0 <= i < |left| ensures !IsWordRune(u, left[i]) { WordIsNoSpace(u, left[i]); }
    NeatStart(u, left, TrimSpace(c) + right);
    assert c == TrimSpace(c) + right;
    if |right| >= 2 { NotTwoSpaces(u, TrimSpace(c), right); }
    forall i | 0 <= i < |right| ensures right[i] == ' ' {
      WordIsNoSpace(u, right[i]);
      assert c[|TrimSpace(c)| + i] == right[i];
    }
    if |right| == 1 { assert right == " "; } else { assert c == TrimSpace(c); }
  }

  lemma NotTwoSpaces(u: Unicode, s: string, right: string)
    requires Neat(u, s + right) && |right| >= 2
    ensures right[0] != ' ' || right[1] != ' '
  {
    hide IsWordRune;
    assert (s + right)[|s|] == right[0] && (s + right)[|s| + 1] == right[1];
  }

  /** The key with its spaces taken out is the letters and digits of the text. */
  lemma {:induction false} KeyKeepsRunes(u: Unicode, s: string)
    requires Lawful(u)
    ensures Dense(Normalized(u, s)) == Kept(u, Scanned(u, s))
  {
    hide Lawful, TrimSpace, Collapsed, Latin, Plain, Dense, Kept;
    ReplacedAtOnce(u, s);
    var text := Each(s, Sounds(u));
    CollapsedKeeps(u, text);
    KeyOfCollapsed(u, text);
    DenseConcat(Normalized(u, s), " ");
    DenseOfSpaces(" ");
    assert Dense(Normalized(u, s)) + "" == Dense(Normalized(u, s));
  }

  // ----- where they stand -----

  predicate WordAt(u: Unicode, text: string, i: nat)
    requires i < |text|
  {
    u.letter(text[i]) || u.digit(text[i])
  }

  /** Two letters or digits with nothing but other runes between them. */
  predicate Neighbours(u: Unicode, text: string, i: nat, j: nat) {
    && i < j < |text| && WordAt(u, text, i) && WordAt(u, text, j)
    && forall k :: i < k < j ==> !WordAt(u, text, k)
  }

  lemma {:induction false} CollapsedGrows(u: Unicode, text: string, i: nat)
    requires i <= |text|
    ensures Collapsed(u, text[..i]) <= Collapsed(u, text)
    decreases |text|
  {
    hide IsWordRune;
    if i < |text| {
      var n := |text| - 1;
      assert text[..n][..i] == text[..i];
      CollapsedGrows(u, text[..n], i);
    } else {
      assert text[..i] == text;
    }
  }

  /** What one more rune does to a collapsed text that ends in a letter, a digit or a space. */
  lemma OneMoreRune(u: Unicode, text: string, k: nat, before: string, c: char)
    requires k < |text| && (Collapsed(u, text[..k]) == before + [c] || Collapsed(u, text[..k]) == before + [c] + " ")
    requires c != ' ' && !WordAt(u, text, k)
    ensures Collapsed(u, text[..k + 1]) == before + [c] + " "
  {
    hide Collapsed;
    CollapsedStep(u, text, k);
    var first := before + [c];
    assert first[|first| - 1] == c && (first + " ")[|first|] == ' ';
  }

  lemma {:induction false} GapCollapses(u: Unicode, text: string, i: nat, k: nat)
    requires Lawful(u) && i < k <= |text| && WordAt(u, text, i) && forall j :: i < j < k ==> !WordAt(u, text, j)
    ensures Collapsed(u, text[..k]) == Collapsed(u, text[..i]) + [text[i]] + if k == i + 1 then "" else " "
    decreases k
  {
    hide Lawful, Collapsed, IsSpace;
    var before := Collapsed(u, text[..i]);
    WordIsNoBlank(u, text[i]);
    assert before + [text[i]] + "" == before + [text[i]];
    if k == i + 1 {
      CollapsedStep(u, text, i);
    } else {
      GapCollapses(u, text, i, k - 1);
      OneMoreRune(u, text, k - 1, before, text[i]);
    }
  }

  lemma WordIsNoBlank(u: Unicode, c: char)
    requires Lawful(u) && (u.letter(c) || u.digit(c))
    ensures c != ' '
  {
    hide Lawful;
    SpaceIsNoWord(u);
  }

  /** A rune at p of the key that stands for the one at i of the text: as many letters and
      digits come before it. */
  predicate StandsAt(u: Unicode, text: string, i: nat, key: string, p: nat) {
    i < |text| && p < |key| && key[p] == text[i] && Dense(key[..p]) == Kept(u, text[..i])
  }

  lemma {:induction false} RuneStands(u: Unicode, text: string, i: nat)
    requires Lawful(u) && i < |text| && WordAt(u, text, i)
    ensures StandsAt(u, text, i, TrimSpace(Collapsed(u, text)), |Collapsed(u, text[..i])|)
  {
    hide Lawful, TrimSpace, Collapsed, Dense, Kept;
    var c, before := Collapsed(u, text), Collapsed(u, text[..i]);
    GapCollapses(u, text, i, i + 1);
    CollapsedGrows(u, text, i + 1);
    KeyOfCollapsed(u, text);
    CollapsedKeeps(u, text[..i]);
    SpaceIsNoWord(u);
    assert before + [text[i]] + "" == before + [text[i]];
    assert c[..|before| + 1] == before + [text[i]];
    assert c[|before|] == text[i] && c[..|before|] == before;
    var key := TrimSpace(c);
    assert |before| < |key| by { if c == key + " " { assert c[|key|] == ' '; } }
    assert key[..|before|] == c[..|before|];
  }

  /** Two neighbours stand in the key side by side exactly when they do in the text, and with
      one space between them otherwise. */
  lemma {:induction false} NeighboursInKey(u: Unicode, s: string, i: nat, j: nat)
    requires Lawful(u) && Neighbours(u, Scanned(u, s), i, j)
    ensures var text, key := Scanned(u, s), Normalized(u, s);
      exists p: nat, q: nat :: StandsAt(u, text, i, key, p) && StandsAt(u, text, j, key, q)
        && (if j == i + 1 then q == p + 1 else q == p + 2 && key[p + 1] == ' ')
  {
    hide Lawful, TrimSpace, Collapsed, Latin, Plain, StandsAt, IsWordRune;
    ReplacedAtOnce(u, s);
    var text := Each(s, Sounds(u));
    var key := Normalized(u, s);
    RuneStands(u, text, i);
    RuneStands(u, text, j);
    GapCollapses(u, text, i, j);
    CollapsedGrows(u, text, j);
    KeyOfCollapsed(u, text);
    var p, q := |Collapsed(u, text[..i])|, |Collapsed(u, text[..j])|;
    StandsWithin(u, text, j, key, q);
    assert StandsAt(u, text, i, key, p) && StandsAt(u, text, j, key, q);
    if j > i + 1 {
      assert Collapsed(u, text[..j])[p + 1] == ' ';
      assert Collapsed(u, text)[p + 1] == ' ' && key[p + 1] == ' ';
    }
  }

  lemma StandsWithin(u: Unicode, text: string, i: nat, key: string, p: nat)
    requires StandsAt(u, text, i, key, p)
    ensures p < |key|
  {
  }

  // ----- the replacements -----

  lemma {:induction false} NoneOfTheReplaced(text: string)
    ensures forall i :: 0 <= i < |Each(text, Plain)| ==>
      Each(text, Plain)[i] !in ['x', '\'', '`', '\U{02BB}', '\U{02BC}', '\U{2019}']
  {
    hide Plain;
    if |text| > 0 {
      NoneOfTheReplaced(text[1..]);
      PlainIsNone(text[0]);
    }
  }

  lemma PlainIsNone(c: char)
    ensures forall i :: 0 <= i < |Plain(c)| ==> Plain(c)[i] !in ['x', '\'', '`', '\U{02BB}', '\U{02BC}', '\U{2019}']
  {
  }

  lemma {:induction false} KeptIsThere(u: Unicode, text: string, c: char)
    requires c in Kept(u, text)
    ensures c in text
  {
    var n := |text| - 1;
    assert text == text[..n] + [text[n]];
    if c in Kept(u, text[..n]) { KeptIsThere(u, text[..n], c); }
  }

  lemma {:induction false} DenseKeeps(s: string, c: char)
    requires c in s && c != ' '
    ensures c in Dense(s)
  {
    var n := |s| - 1;
    assert s == s[..n] + [s[n]];
    if c in s[..n] { DenseKeeps(s[..n], c); }
  }

  /** No key holds an x or an apostrophe. */
  lemma {:induction false} KeyHasNone(u: Unicode, s: string, c: char)
    requires Lawful(u) && c in Normalized(u, s)
    ensures c !in ['x', '\'', '`', '\U{02BB}', '\U{02BC}', '\U{2019}']
  {
    hide Lawful, Plain, Latin, Normalized, Kept, Dense;
    if c != ' ' {
      KeyKeepsRunes(u, s);
      DenseKeeps(Normalized(u, s), c);
      KeptIsThere(u, Scanned(u, s), c);
      NoneOfTheReplaced(Each(ToLower(u.lower, s), Latin));
    }
  }

  // ----- the laws -----

  function SimpleLower(c: char): char {
    if Capital(c).Some? then LowerCyrillic(c) else LowerAscii(c)
  }

  /** Tables that meet the laws: the letters of the transliteration table and of ASCII. */
  function Simple(): Unicode {
    Unicode(SimpleLower, c => 'a' <= c <= 'z' || Small(c).Some?, c => '0' <= c <= '9')
  }

  lemma LawsCanHold()
    ensures Lawful(Simple())
  {
    forall c: char ensures SimpleLower(SimpleLower(c)) == SimpleLower(c) {
      SimpleLaws(c);
      SimpleLaws(LowerCyrillic(c));
    }
    forall c: char ensures
      (c < '\U{0080}' ==> SimpleLower(c) == LowerAscii(c)) && (Capital(c).Some? ==> SimpleLower(c) == LowerCyrillic(c))
      && (Small(c).Some? ==> SimpleLower(c) == c)
      && (IsSpace(c) ==> SimpleLower(c) == c && !('a' <= c <= 'z' || Small(c).Some?) && !('0' <= c <= '9'))
    {
      SimpleLaws(c);
    }
  }

  lemma SimpleLaws(c: char)
    ensures Capital(c).Some? ==> CapitalRange(c) && Small(LowerCyrillic(c)).Some?
    ensures Small(c).Some? ==> SmallRange(c) && c >= '\U{0080}'
    ensures IsSpace(c) ==> !Small(c).Some? && !Capital(c).Some?
  {
    if Capital(c).Some? { CapitalInRange(c); }
    if Small(c).Some? { SmallSpelling(c); }
  }
}
