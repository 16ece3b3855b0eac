/** Search scores (internal/erpnext/client.go): ten tiers of agreement between the key of
    a query and the key of a value, and the best of several fields. */
module Search {
  import opened Text
  import opened Transliteration
  import opened SearchKey

  // ----- compact keys and skeletons -----

  function NoSpace(c: char): string { if c == ' ' then "" else [c] }

  function Compact(s: string): string { Each(s, NoSpace) }

  predicate IsVowel(c: char) { c == 'a' || c == 'e' || c == 'i' || c == 'o' || c == 'u' }

  function NoVowel(c: char): string { if IsVowel(c) then "" else [c] }

  function Skeleton(s: string): string { Each(s, NoVowel) }

  method SearchSkeleton(input: string) returns (skeleton: string)
    ensures skeleton == Skeleton(input)
  {
    skeleton := "";
    for i := 0 to |input|
      invariant skeleton == Skeleton(input[..i])
    {
      assert input[..i + 1] == input[..i] + [input[i]];
      EachConcat(input[..i], [input[i]], NoVowel);
      EachOne(input[i], NoVowel);
      if IsVowel(input[i]) {
        continue;
      }
      skeleton := skeleton + [input[i]];
    }
    assert input[..|input|] == input;
  }

  function RuneLength(c: char): nat {
    if c < '\U{0080}' then 1 else if c < '\U{0800}' then 2 else if c < '\U{10000}' then 3 else 4
  }

  /** len of a string: its UTF-8 bytes. */
  function ByteLength(s: string): nat {
    if |s| == 0 then 0
    else RuneLength(s[0]) + ByteLength(s[1..])
  }

  // ----- words -----

  predicate WordPrefix(haystack: string, needle: string) {
    exists i :: 0 <= i < |Fields(haystack)| && HasPrefix(Fields(haystack)[i], needle)
  }

  method HasWordPrefix(haystack: string, needle: string) returns (found: bool)
    ensures found <==> WordPrefix(haystack, needle)
  {
    hide Fields, HasPrefix;
    var words := Fields(haystack);
    for i := 0 to |words|
      invariant forall j :: 0 <= j < i ==> !HasPrefix(words[j], needle)
    {
      if HasPrefix(words[i], needle) {
        return true;
      }
    }
    found := false;
  }

  // ----- containment -----

  lemma ContainsAt(left: string, sub: string, right: string)
    ensures Contains(left + sub + right, sub)
  {
    var s := left + sub + right;
    assert s[|left|..] == sub + right;
    assert HasPrefix(s[|left|..], sub) by { PrefixOfConcat(sub, right); }
  }

  lemma ContainedAt(s: string, sub: string) returns (left: string, right: string)
    requires Contains(s, sub)
    ensures s == left + sub + right
  {
    var i :| 0 <= i <= |s| && HasPrefix(s[i..], sub);
    left, right := s[..i], s[i..][|sub|..];
    assert s == s[..i] + s[i..];
    assert s[i..] == sub + right;
    assert left + (sub + right) == left + sub + right;
  }

  lemma PrefixIsContained(s: string, sub: string)
    requires HasPrefix(s, sub)
    ensures Contains(s, sub)
  {
    assert s[0..] == s;
  }

  /** Dropping runes keeps containment. */
  lemma EachKeepsContains(s: string, sub: string, f: char -> string)
    requires Contains(s, sub)
    ensures Contains(Each(s, f), Each(sub, f))
  {
    hide Contains;
    var left, right := ContainedAt(s, sub);
    EachConcat(left + sub, right, f);
    EachConcat(left, sub, f);
    ContainsAt(Each(left, f), Each(sub, f), Each(right, f));
  }

  lemma TailContains(s: string, k: nat, sub: string)
    requires k <= |s| && Contains(s[k..], sub)
    ensures Contains(s, sub)
  {
    hide Contains;
    var left, right := ContainedAt(s[k..], sub);
    assert s == s[..k] + s[k..];
    assert s[..k] + (left + sub + right) == (s[..k] + left) + sub + right;
    ContainsAt(s[..k] + left, sub, right);
  }

  lemma {:induction false} WordPrefixIsContained(s: string, needle: string, i: nat)
    requires i < |Fields(s)| && HasPrefix(Fields(s)[i], needle)
    ensures Contains(s, needle)
    decreases |s|
  {
    hide IsSpace, Contains;
    if IsSpace(s[0]) {
      WordPrefixIsContained(s[1..], needle, i);
      TailContains(s, 1, needle);
    } else if i == 0 {
      PrefixIsContained(s, needle);
    } else {
      WordPrefixIsContained(s[WordRun(s)..], needle, i - 1);
      TailContains(s, WordRun(s), needle);
    }
  }

  // ----- one value -----

  /** The tiers, on keys. */
  function KeyScore(needle: string, needleCompact: string, needleSkeleton: string, haystack: string): int {
    if haystack == "" then 0
    else if haystack == needle then 1000
    else if HasPrefix(haystack, needle) then 850
    else if WordPrefix(haystack, needle) then 700
    else if Contains(haystack, needle) then 550
    else if needleCompact == "" then 0
    else CompactScore(needleCompact, needleSkeleton, Compact(haystack))
  }

  function CompactScore(needleCompact: string, needleSkeleton: string, haystackCompact: string): int {
    if haystackCompact == needleCompact then 500
    else if HasPrefix(haystackCompact, needleCompact) then 425
    else if Contains(haystackCompact, needleCompact) then 350
    else if ByteLength(needleSkeleton) < 3 then 0
    else SkeletonScore(needleSkeleton, Skeleton(haystackCompact))
  }

  function SkeletonScore(needleSkeleton: string, haystackSkeleton: string): int {
    if haystackSkeleton == needleSkeleton then 250
    else if HasPrefix(haystackSkeleton, needleSkeleton) then 175
    else if Contains(haystackSkeleton, needleSkeleton) then 125
    else 0
  }

  function ValueScore(u: Unicode, query: string, value: string): int {
    var needle := Normalized(u, query);
    KeyScore(needle, Compact(needle), Skeleton(Compact(needle)), Normalized(u, value))
  }

  method SearchValueScore(u: Unicode, needle: string, needleCompact: string, needleSkeleton: string, value: string) returns (score: int)
    requires Lawful(u)
    ensures score == KeyScore(needle, needleCompact, needleSkeleton, Normalized(u, value))
  {
    hide Lawful, Normalized, Contains, HasPrefix, Compact, Skeleton, WordPrefix;
    var haystack := NormalizeForSearch(u, value);
    if haystack == "" {
      return 0;
    }
    if haystack == needle {
      return 1000;
    }
    if HasPrefix(haystack, needle) {
      return 850;
    }
    var atWord := HasWordPrefix(haystack, needle);
    if atWord {
      return 700;
    }
    if Contains(haystack, needle) {
      return 550;
    }
    if needleCompact == "" {
      return 0;
    }
    var haystackCompact := Compact(haystack);
    if haystackCompact == needleCompact {
      return 500;
    }
    if HasPrefix(haystackCompact, needleCompact) {
      return 425;
    }
    if Contains(haystackCompact, needleCompact) {
      return 350;
    }
    NoBytes();
    if needleSkeleton == "" || ByteLength(needleSkeleton) < 3 {
      return 0;
    }
    var haystackSkeleton := SearchSkeleton(haystackCompact);
    if haystackSkeleton == needleSkeleton {
      return 250;
    }
    if HasPrefix(haystackSkeleton, needleSkeleton) {
      return 175;
    }
    if Contains(haystackSkeleton, needleSkeleton) {
      return 125;
    }
    score := 0;
  }

  lemma NoBytes()
    ensures ByteLength("") == 0
  {
  }

  lemma CompactOfKey(needle: string)
    requires needle != "" && needle[0] != ' '
    ensures Compact(needle) != ""
  {
  }

  lemma AnythingContainsItself(s: string)
    ensures Contains(s, s)
  {
    ContainsAt("", s, "");
    assert "" + s + "" == s;
  }

  lemma EmptyContains(sub: string)
    requires sub != ""
    ensures !Contains("", sub)
  {
  }

  /** The keys agree without their spaces, or in a skeleton of three bytes. */
  predicate Agree(needle: string, haystack: string) {
    || Contains(Compact(haystack), Compact(needle))
    || (ByteLength(Skeleton(Compact(needle))) >= 3 && Contains(Skeleton(Compact(haystack)), Skeleton(Compact(needle))))
  }

  lemma KeyScoreIff(needle: string, haystack: string)
    requires needle != "" && needle[0] != ' '
    ensures KeyScore(needle, Compact(needle), Skeleton(Compact(needle)), haystack) > 0 <==> Agree(needle, haystack)
  {
    hide Contains, ByteLength, HasPrefix, WordPrefix, Fields;
    CompactOfKey(needle);
    AnythingContainsItself(Compact(needle));
    AnythingContainsItself(Skeleton(Compact(needle)));
    NoBytes();
    EmptyContains(Compact(needle));
    if Skeleton(Compact(needle)) != "" { EmptyContains(Skeleton(Compact(needle))); }
    if haystack == needle || HasPrefix(haystack, needle) || WordPrefix(haystack, needle) || Contains(haystack, needle) {
      UpperTiersContain(needle, haystack);
    }
    if HasPrefix(Compact(haystack), Compact(needle)) { PrefixIsContained(Compact(haystack), Compact(needle)); }
    var h, n := Skeleton(Compact(haystack)), Skeleton(Compact(needle));
    if HasPrefix(h, n) { PrefixIsContained(h, n); }
  }

  lemma UpperTiersContain(needle: string, haystack: string)
    requires haystack == needle || HasPrefix(haystack, needle) || WordPrefix(haystack, needle) || Contains(haystack, needle)
    ensures Contains(Compact(haystack), Compact(needle))
  {
    hide Contains, HasPrefix, WordPrefix;
    if haystack == needle { AnythingContainsItself(needle); }
    if HasPrefix(haystack, needle) { PrefixIsContained(haystack, needle); }
    if WordPrefix(haystack, needle) { WordIsContained(haystack, needle); }
    EachKeepsContains(haystack, needle, NoSpace);
  }

  /** What each height of a score means: equality, prefix, word prefix, containment, and
      the same without spaces and without vowels. */
  lemma {:induction false} ScoreHeights(needle: string, haystack: string)
    requires needle != "" && needle[0] != ' '
    ensures var score := KeyScore(needle, Compact(needle), Skeleton(Compact(needle)), haystack);
      && (score >= 1000 <==> haystack == needle)
      && (score >= 850 <==> HasPrefix(haystack, needle))
      && (score >= 700 <==> HasPrefix(haystack, needle) || WordPrefix(haystack, needle))
      && (score >= 550 <==> Contains(haystack, needle))
      && (score >= 500 <==> Contains(haystack, needle) || Compact(haystack) == Compact(needle))
      && (score >= 350 <==> Contains(Compact(haystack), Compact(needle)))
      && (score > 0 <==> Agree(needle, haystack))
  {
    hide Contains, ByteLength, WordPrefix, Fields, Agree;
    CompactOfKey(needle);
    AnythingContainsItself(needle);
    AnythingContainsItself(Compact(needle));
    NothingInEmpty(needle);
    KeyScoreIff(needle, haystack);
    if HasPrefix(haystack, needle) { PrefixIsContained(haystack, needle); }
    if WordPrefix(haystack, needle) { WordIsContained(haystack, needle); }
    if HasPrefix(Compact(haystack), Compact(needle)) { PrefixIsContained(Compact(haystack), Compact(needle)); }
    if Contains(haystack, needle) { EachKeepsContains(haystack, needle, NoSpace); }
  }

  lemma NothingInEmpty(needle: string)
    requires needle != "" && Compact(needle) != ""
    ensures !HasPrefix("", needle) && !WordPrefix("", needle) && !Contains("", needle)
    ensures Compact("") == "" && !Contains("", Compact(needle))
  {
    EmptyContains(needle);
    EmptyContains(Compact(needle));
  }

  lemma WordIsContained(haystack: string, needle: string)
    requires WordPrefix(haystack, needle)
    ensures Contains(haystack, needle)
  {
    hide Contains, Fields, HasPrefix;
    var i :| 0 <= i < |Fields(haystack)| && HasPrefix(Fields(haystack)[i], needle);
    WordPrefixIsContained(haystack, needle, i);
  }

  /** A value scores above zero exactly when its space-free key contains the space-free
      query, or the query's vowel-free skeleton has three bytes and is in the value's. */
  lemma {:induction false} ScoreIff(u: Unicode, query: string, value: string)
    requires Lawful(u)
    ensures Normalized(u, query) != "" ==>
      (ValueScore(u, query, value) > 0 <==> Agree(Normalized(u, query), Normalized(u, value)))
  {
    hide Lawful, Normalized, Compact, Skeleton, KeyScore, Agree;
    KeyIsNeat(u, query);
    if Normalized(u, query) != "" { KeyScoreIff(Normalized(u, query), Normalized(u, value)); }
  }

  // ----- several fields -----

  predicate IsTier(score: int) {
    score in {0, 125, 175, 250, 350, 425, 500, 550, 700, 850, 1000}
  }

  lemma ScoresAreTiers(u: Unicode, query: string, value: string)
    ensures IsTier(ValueScore(u, query, value))
  {
    hide Normalized, HasPrefix, Contains, WordPrefix, Compact, Skeleton, ByteLength;
  }

  function Scores(u: Unicode, query: string, values: seq<string>): seq<int> {
    seq(|values|, i requires 0 <= i < |values| => ValueScore(u, query, values[i]))
  }

  /** The best score, each field ten below the one before it. */
  function Best(scores: seq<int>): int {
    if |scores| == 0 then 0
    else
      var n := |scores| - 1;
      var before := Best(scores[..n]);
      if scores[n] != 0 && scores[n] - 10 * n > before then scores[n] - 10 * n else before
  }

  function QueryScore(u: Unicode, query: string, values: seq<string>): int {
    if Normalized(u, query) == "" then 1 else Best(Scores(u, query, values))
  }

  method SearchQueryScore(u: Unicode, query: string, values: seq<string>) returns (best: int)
    requires Lawful(u)
    ensures best == QueryScore(u, query, values)
  {
    hide Lawful, Normalized, KeyScore, Compact, Skeleton;
    var needle := NormalizeForSearch(u, query);
    if needle == "" {
      return 1;
    }
    var needleCompact := Compact(needle);
    var needleSkeleton := SearchSkeleton(needleCompact);
    ghost var scores := Scores(u, query, values);
    best := 0;
    for index := 0 to |values|
      invariant best == Best(scores[..index])
    {
      assert scores[..index + 1][..index] == scores[..index];
      var score := SearchValueScore(u, needle, needleCompact, needleSkeleton, values[index]);
      assert score == scores[index];
      if score == 0 {
        continue;
      }
      score := score - index * 10;
      if score > best {
        best := score;
      }
    }
    assert scores[..|values|] == scores;
  }

  /** The best is reached by some field and no field exceeds it. */
  lemma {:induction false} BestIsMaximum(scores: seq<int>)
    ensures Best(scores) >= 0
    ensures forall i :: 0 <= i < |scores| && scores[i] != 0 ==> scores[i] - 10 * i <= Best(scores)
    ensures Best(scores) > 0 ==> exists i :: 0 <= i < |scores| && scores[i] != 0 && Best(scores) == scores[i] - 10 * i
  {
    if |scores| > 0 {
      var n := |scores| - 1;
      BestIsMaximum(scores[..n]);
      forall i | 0 <= i < |scores| && scores[i] != 0 ensures scores[i] - 10 * i <= Best(scores) {
        if i < n { assert scores[..n][i] == scores[i]; }
      }
      if Best(scores) > 0 && Best(scores) == Best(scores[..n]) {
        var i :| 0 <= i < n && scores[..n][i] != 0 && Best(scores[..n]) == scores[..n][i] - 10 * i;
        assert scores[i] != 0 && Best(scores) == scores[i] - 10 * i;
      } else if Best(scores) > 0 {
        assert scores[n] != 0 && Best(scores) == scores[n] - 10 * n;
      }
    }
  }

  /** Whatever the number of fields, the total is positive exactly when some field's
      score is more than ten times its index; up to thirteen fields any score is. */
  lemma {:induction false} PositiveIff(u: Unicode, query: string, values: seq<string>)
    requires Normalized(u, query) != ""
    ensures QueryScore(u, query, values) > 0
      <==> exists i :: 0 <= i < |values| && ValueScore(u, query, values[i]) > 10 * i
    ensures |values| <= 13 ==>
      (QueryScore(u, query, values) > 0 <==> exists i :: 0 <= i < |values| && ValueScore(u, query, values[i]) > 0)
  {
    hide Normalized, ValueScore, Best;
    var scores := Scores(u, query, values);
    BestIsMaximum(scores);
    forall i | 0 <= i < |values| ensures scores[i] == ValueScore(u, query, values[i]) && IsTier(scores[i]) {
      ScoresAreTiers(u, query, values[i]);
    }
    if i :| 0 <= i < |values| && ValueScore(u, query, values[i]) > 10 * i {
      assert scores[i] - 10 * i <= Best(scores);
    }
    if QueryScore(u, query, values) > 0 {
      var i :| 0 <= i < |scores| && scores[i] != 0 && Best(scores) == scores[i] - 10 * i;
      assert ValueScore(u, query, values[i]) > 10 * i;
    }
    if |values| <= 13 {
      if i :| 0 <= i < |values| && ValueScore(u, query, values[i]) > 0 {
        assert scores[i] >= 125;
      }
    }
  }

  /** A first field with the best score, which is positive. */
  predicate Leads(scores: seq<int>, first: nat) {
    && first < |scores| && scores[first] > 0
    && (forall j :: 0 <= j < |scores| ==> scores[j] <= scores[first])
    && (forall j :: 0 <= j < first ==> scores[j] < scores[first])
  }

  /** Up to six fields, the total is the best tier less ten times the first index that
      reaches it. */
  lemma {:induction false} BestTierFirstIndex(u: Unicode, query: string, values: seq<string>, first: nat)
    requires |values| <= 6
    ensures Normalized(u, query) != "" && Leads(Scores(u, query, values), first) ==>
      QueryScore(u, query, values) == ValueScore(u, query, values[first]) - 10 * first
  {
    hide Normalized, ValueScore, Best, IsTier;
    var scores := Scores(u, query, values);
    BestIsMaximum(scores);
    forall i | 0 <= i < |values| ensures scores[i] == ValueScore(u, query, values[i]) && IsTier(scores[i]) {
      ScoresAreTiers(u, query, values[i]);
    }
    if Leads(scores, first) {
      TierIsHigh(scores[first]);
      assert Best(scores) >= scores[first] - 10 * first;
      var i :| 0 <= i < |scores| && scores[i] != 0 && Best(scores) == scores[i] - 10 * i;
      if scores[i] != scores[first] { TierGap(scores[i], scores[first]); }
    }
  }

  lemma TierIsHigh(a: int)
    requires IsTier(a) && a > 0
    ensures a >= 125
  {
  }

  lemma TierGap(a: int, b: int)
    requires IsTier(a) && IsTier(b) && a < b
    ensures b - a >= 50
  {
  }

  // ----- spellings -----

  /** A query scores the same in either spelling, against values in either spelling. */
  lemma {:induction false} SpellingsScoreTheSame(u: Unicode, query: string, values: seq<string>, k: nat)
    requires Lawful(u) && k < |values|
    ensures QueryScore(u, TransliterateCyrillicToLatin(query), values) == QueryScore(u, query, values)
    ensures QueryScore(u, query, values[k := TransliterateCyrillicToLatin(values[k])]) == QueryScore(u, query, values)
  {
    hide Lawful, Normalized, Best, TransliterateCyrillicToLatin, KeyScore;
    BothSpellingsMatch(u, query);
    BothSpellingsMatch(u, values[k]);
    assert Scores(u, TransliterateCyrillicToLatin(query), values) == Scores(u, query, values);
    assert Scores(u, query, values[k := TransliterateCyrillicToLatin(values[k])]) == Scores(u, query, values);
  }
}
