/** Where the total of several fields departs from the best field: beyond thirteen fields a
    match may be lost, beyond six the best tier. */
module SearchLimits {
  import opened Text
  import opened Transliteration
  import opened SearchKey
  import opened Search

  // ----- keys of plain words -----

  ghost predicate AsciiLetters(u: Unicode) {
    forall c :: 'a' <= c <= 'z' ==> u.letter(c)
  }

  /** Small letters other than x, and single spaces between them. */
  predicate PlainText(s: string) {
    && (forall i :: 0 <= i < |s| ==> ('a' <= s[i] <= 'z' && s[i] != 'x') || s[i] == ' ')
    && (s != "" ==> s[0] != ' ' && s[|s| - 1] != ' ')
    && (forall i, j :: 0 <= i && j == i + 1 < |s| ==> s[i] != ' ' || s[j] != ' ')
  }

  lemma PlainRune(u: Unicode, c: char)
    requires Lawful(u) && (('a' <= c <= 'z' && c != 'x') || c == ' ')
    ensures Sound(u, c) == [c] && (c != ' ' ==> !IsSpace(c))
  {
    hide Small, Capital;
    LatinOfAscii(c);
    EachOne(c, Plain);
  }

  lemma PlainTextIsKey(u: Unicode, s: string)
    requires Lawful(u) && AsciiLetters(u) && PlainText(s)
    ensures Normalized(u, s) == s
  {
    hide Lawful, Sound, Collapsed, TrimSpace, IsSpace;
    forall i | 0 <= i < |s| ensures Sound(u, s[i]) == [s[i]] && (s[i] != ' ' ==> !IsSpace(s[i])) {
      PlainRune(u, s[i]);
    }
    EachFixed(s, Sounds(u));
    assert Neat(u, s);
    NeatCollapses(u, s);
    TrimmedIsFixed(s);
  }

  // ----- scores of four words against bcd -----

  lemma NotContained(s: string, sub: string)
    requires forall i, j :: 0 <= i && j == i + |sub| <= |s| ==> s[i..j] != sub
    ensures !Contains(s, sub)
  {
    forall i | 0 <= i <= |s| ensures !HasPrefix(s[i..], sub) {
      if i <= |s| - |sub| { assert s[i..][..|sub|] == s[i..i + |sub|]; }
    }
  }

  lemma CompactWord(s: string)
    requires forall i :: 0 <= i < |s| ==> s[i] != ' '
    ensures Compact(s) == s
  {
    EachFixed(s, NoSpace);
  }

  lemma NeedleParts()
    ensures Compact("bcd") == "bcd" && Skeleton("bcd") == "bcd" && ByteLength("bcd") == 3
  {
    CompactWord("bcd");
    EachFixed("bcd", NoVowel);
    assert "bcd"[1..] == "cd" && "cd"[1..] == "d" && "d"[1..] == "";
    assert ByteLength("d") == 1 + ByteLength("") && ByteLength("cd") == 1 + ByteLength("d");
  }

  lemma MissScores()
    ensures KeyScore("bcd", "bcd", "bcd", "q") == 0
  {
    hide Contains, Fields;
    NeedleParts();
    ScoreHeights("bcd", "q");
    CompactWord("q");
    EachFixed("q", NoVowel);
    NotContained("q", "bcd");
  }

  lemma SkeletonOfHit()
    ensures Skeleton("hbacad") == "hbcd"
  {
    assert "hbacad" == ['h', 'b'] + (['a'] + (['c'] + (['a'] + ['d'])));
    EachConcat(['h', 'b'], ['a'] + (['c'] + (['a'] + ['d'])), NoVowel);
    EachConcat(['a'], ['c'] + (['a'] + ['d']), NoVowel);
    EachConcat(['c'], ['a'] + ['d'], NoVowel);
    EachConcat(['a'], ['d'], NoVowel);
    EachFixed(['h', 'b'], NoVowel);
    EachOne('a', NoVowel);
    EachOne('c', NoVowel);
    EachOne('d', NoVowel);
  }

  lemma SkeletonHitScores()
    ensures KeyScore("bcd", "bcd", "bcd", "hbacad") == 125
  {
    hide Contains, Fields, Compact, Skeleton, ByteLength;
    NeedleParts();
    SkeletonOfHit();
    CompactWord("hbacad");
    ScoreHeights("bcd", "hbacad");
    var h := "hbacad";
    assert h[0..3] == "hba" && h[1..4] == "bac" && h[2..5] == "aca" && h[3..6] == "cad";
    NotContained(h, "bcd");
    ContainsAt("h", "bcd", "");
    assert "h" + "bcd" + "" == "hbcd";
  }

  lemma CompactOfSpaced()
    ensures Compact("b cd") == "bcd"
  {
    assert "b cd" == ['b'] + ([' '] + ['c', 'd']);
    EachConcat(['b'], [' '] + ['c', 'd'], NoSpace);
    EachConcat([' '], ['c', 'd'], NoSpace);
    EachOne('b', NoSpace);
    EachOne(' ', NoSpace);
    EachFixed(['c', 'd'], NoSpace);
  }

  lemma SpacedHitScores()
    ensures KeyScore("bcd", "bcd", "bcd", "b cd") == 500
  {
    hide Contains, Fields, Skeleton, ByteLength, WordPrefix, Compact, Agree, HasPrefix;
    NeedleParts();
    CompactOfSpaced();
    ScoreHeights("bcd", "b cd");
    var h := "b cd";
    assert h[0..3] == "b c" && h[1..4] == " cd";
    NotContained(h, "bcd");
  }

  lemma InnerHitScores()
    ensures KeyScore("bcd", "bcd", "bcd", "abcd") == 550
  {
    hide Contains, Skeleton, ByteLength, Compact;
    NeedleParts();
    ScoreHeights("bcd", "abcd");
    ContainsAt("a", "bcd", "");
    assert "a" + "bcd" + "" == "abcd";
    OneField("abcd");
  }

  lemma OneField(s: string)
    requires s != "" && forall i :: 0 <= i < |s| ==> !IsSpace(s[i])
    ensures Fields(s) == [s]
  {
    hide IsSpace;
    assert WordRun(s) == |s|;
    assert s[..|s|] == s && s[|s|..] == "";
    assert Fields("") == [];
  }

  // ----- many fields -----

  lemma ValueScoreOf(u: Unicode, value: string)
    requires Lawful(u) && AsciiLetters(u) && PlainText(value)
    ensures Normalized(u, "bcd") == "bcd" && ValueScore(u, "bcd", value) == KeyScore("bcd", "bcd", "bcd", value)
  {
    hide Lawful, Normalized, KeyScore;
    PlainTextIsKey(u, "bcd");
    PlainTextIsKey(u, value);
    NeedleParts();
  }

  /** More than thirteen fields, the last of which matches: the total is zero. */
  lemma {:induction false} LateMatchIsLost(u: Unicode, n: nat) returns (values: seq<string>)
    requires Lawful(u) && AsciiLetters(u) && n > 13
    ensures |values| == n && ValueScore(u, "bcd", values[n - 1]) > 0 && QueryScore(u, "bcd", values) == 0
    ensures Normalized(u, "bcd") != ""
  {
    hide Lawful, Normalized, ValueScore, KeyScore, Best, AsciiLetters;
    values := seq(n - 1, _ => "q") + ["hbacad"];
    ValueScoreOf(u, "q");
    ValueScoreOf(u, "hbacad");
    MissScores();
    SkeletonHitScores();
    var scores := Scores(u, "bcd", values);
    assert forall i :: 0 <= i < n - 1 ==> scores[i] == 0;
    BestIsMaximum(scores);
  }

  /** More than six fields, the last of which has the best tier: the total is the first
      one's. */
  lemma {:induction false} LateTierIsLost(u: Unicode, n: nat) returns (values: seq<string>)
    requires Lawful(u) && AsciiLetters(u) && n > 6
    ensures |values| == n && Leads(Scores(u, "bcd", values), n - 1)
    ensures QueryScore(u, "bcd", values) == ValueScore(u, "bcd", values[0]) == 500
    ensures ValueScore(u, "bcd", values[n - 1]) - 10 * (n - 1) < 500
    ensures Normalized(u, "bcd") != ""
  {
    hide Lawful, Normalized, ValueScore, KeyScore, Best, AsciiLetters;
    values := ["b cd"] + seq(n - 2, _ => "q") + ["abcd"];
    ValueScoreOf(u, "q");
    ValueScoreOf(u, "b cd");
    ValueScoreOf(u, "abcd");
    MissScores();
    SpacedHitScores();
    InnerHitScores();
    var scores := Scores(u, "bcd", values);
    assert scores[0] == 500 && scores[n - 1] == 550 && forall i :: 0 < i < n - 1 ==> scores[i] == 0;
    BestIsMaximum(scores);
  }

  // ----- the exact numbers of fields -----

  ghost predicate MatchCounts(u: Unicode, query: string, values: seq<string>) {
    QueryScore(u, query, values) > 0 <==> exists i :: 0 <= i < |values| && ValueScore(u, query, values[i]) > 0
  }

  /** Any field's match counts, for all queries and all values of n fields, exactly when n
      is at most thirteen. */
  lemma ThirteenIsExact(u: Unicode, n: nat)
    requires Lawful(u) && AsciiLetters(u)
    ensures n <= 13 <==>
      forall query, values :: |values| == n && Normalized(u, query) != "" ==> MatchCounts(u, query, values)
  {
    hide Lawful, Normalized, ValueScore, QueryScore, AsciiLetters;
    if n <= 13 {
      forall query, values | |values| == n && Normalized(u, query) != "" ensures MatchCounts(u, query, values) {
        PositiveIff(u, query, values);
      }
    } else {
      var values := LateMatchIsLost(u, n);
      assert !MatchCounts(u, "bcd", values);
    }
  }

  ghost predicate BestTierWins(u: Unicode, query: string, values: seq<string>) {
    forall first: nat :: Leads(Scores(u, query, values), first) ==>
      QueryScore(u, query, values) == ValueScore(u, query, values[first]) - 10 * first
  }

  /** The best tier at its first index decides, for all queries and all values of n fields,
      exactly when n is at most six. */
  lemma SixIsExact(u: Unicode, n: nat)
    requires Lawful(u) && AsciiLetters(u)
    ensures n <= 6 <==>
      forall query, values :: |values| == n && Normalized(u, query) != "" ==> BestTierWins(u, query, values)
  {
    hide Lawful, Normalized, ValueScore, QueryScore, AsciiLetters;
    if n <= 6 {
      forall query, values | |values| == n && Normalized(u, query) != "" ensures BestTierWins(u, query, values) {
        forall first: nat | Leads(Scores(u, query, values), first)
          ensures QueryScore(u, query, values) == ValueScore(u, query, values[first]) - 10 * first
        {
          BestTierFirstIndex(u, query, values, first);
        }
      }
    } else {
      var values := LateTierIsLost(u, n);
      assert !BestTierWins(u, "bcd", values);
    }
  }
}
