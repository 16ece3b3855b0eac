/** Cyrillic spelled in Latin letters (internal/erpnext/client.go): every rune of the table
    is replaced by its Latin spelling, every other rune stays. */
module Transliteration {
  import opened Text

  /** The small letters of the table, as code points, in its order. */
  function Small(c: char): Option<string> {
    match c
    case '\U{0430}' => Some("a") case '\U{04D9}' => Some("a") case '\U{0431}' => Some("b") case '\U{0432}' => Some("v")
    case '\U{0433}' => Some("g") case '\U{0493}' => Some("g'") case '\U{0434}' => Some("d") case '\U{0435}' => Some("e")
    case '\U{0451}' => Some("yo") case '\U{0436}' => Some("j") case '\U{0437}' => Some("z") case '\U{0438}' => Some("i")
    case '\U{0439}' => Some("y") case '\U{043A}' => Some("k") case '\U{049B}' => Some("q") case '\U{043B}' => Some("l")
    case '\U{043C}' => Some("m") case '\U{043D}' => Some("n") case '\U{04A3}' => Some("ng") case '\U{043E}' => Some("o")
    case '\U{04E9}' => Some("o") case '\U{043F}' => Some("p") case '\U{0440}' => Some("r") case '\U{0441}' => Some("s")
    case '\U{0442}' => Some("t") case '\U{0443}' => Some("u") case '\U{045E}' => Some("o'") case '\U{04AF}' => Some("u")
    case '\U{0444}' => Some("f") case '\U{0445}' => Some("x") case '\U{04B3}' => Some("h") case '\U{0446}' => Some("ts")
    case '\U{0447}' => Some("ch") case '\U{0448}' => Some("sh") case '\U{0449}' => Some("sh") case '\U{044A}' => Some("'")
    case '\U{044C}' => Some("") case '\U{044D}' => Some("e") case '\U{044E}' => Some("yu") case '\U{044F}' => Some("ya")
    case _ => None
  }

  /** The small letter of a Cyrillic capital. */
  function LowerCyrillic(c: char): char {
    if '\U{0410}' <= c <= '\U{042F}' then (c as int + 32) as char
    else if c == '\U{0401}' || c == '\U{040E}' then (c as int + 80) as char
    else if c < '\U{0500}' then (c as int + 1) as char else c
  }

  predicate CapitalRange(c: char) {
    || '\U{0410}' <= c <= '\U{042F}' || c == '\U{0401}' || c == '\U{040E}'
    || ('\U{0490}' <= c < '\U{0500}' && c as int % 2 == 0)
  }

  function Raised(s: string): string {
    if s != "" && 'a' <= s[0] <= 'z' then [(s[0] as int - 32) as char] + s[1..] else s
  }

  /** The capitals of the table: every small letter has one, spelled with its first letter
      raised. */
  function Capital(c: char): Option<string> {
    if !CapitalRange(c) then None
    else match Small(LowerCyrillic(c)) case None => None case Some(s) => Some(Raised(s))
  }

  function Latin(c: char): string {
    match Small(c)
    case Some(s) => s
    case None => match Capital(c) case Some(s) => s case None => [c]
  }

  /** A replacement of single runes over a text (strings.NewReplacer). */
  function Each(s: string, f: char -> string): string {
    if |s| == 0 then "" else f(s[0]) + Each(s[1..], f)
  }

  function TransliterateCyrillicToLatin(s: string): string { Each(s, Latin) }

  lemma {:induction false} EachConcat(a: string, b: string, f: char -> string)
    ensures Each(a + b, f) == Each(a, f) + Each(b, f)
  {
    if |a| == 0 {
      assert a + b == b;
    } else {
      assert (a + b)[1..] == a[1..] + b;
      EachConcat(a[1..], b, f);
    }
  }

  lemma EachOne(c: char, f: char -> string)
    ensures Each([c], f) == f(c)
  {
    assert Each([c][1..], f) == "";
  }

  /** Two replacements in a row are one. */
  lemma {:induction false} EachChain(s: string, f: char -> string, g: char -> string, both: char -> string)
    requires forall c :: both(c) == Each(f(c), g)
    ensures Each(Each(s, f), g) == Each(s, both)
  {
    if |s| > 0 {
      EachConcat(f(s[0]), Each(s[1..], f), g);
      EachChain(s[1..], f, g, both);
    }
  }

  lemma {:induction false} EachFixed(s: string, f: char -> string)
    requires forall i :: 0 <= i < |s| ==> f(s[i]) == [s[i]]
    ensures Each(s, f) == s
  {
    if |s| > 0 { EachFixed(s[1..], f); }
  }

  // ----- the table -----

  predicate LatinWord(s: string) {
    forall i :: 0 <= i < |s| ==> 'a' <= s[i] <= 'z' || s[i] == '\''
  }

  predicate LowersTo(s: string, t: string) {
    |s| == |t| && forall i :: 0 <= i < |s| ==> s[i] < '\U{0080}' && LowerAscii(s[i]) == t[i]
  }

  predicate SmallRange(c: char) {
    || '\U{0430}' <= c <= '\U{044F}' || c == '\U{0451}' || c == '\U{045E}'
    || ('\U{0490}' <= c < '\U{0500}' && c as int % 2 == 1)
  }

  lemma SmallSpelling(c: char)
    requires Small(c).Some?
    ensures LatinWord(Small(c).value) && SmallRange(c)
  {
  }

  lemma CapitalInRange(c: char)
    requires Capital(c).Some?
    ensures CapitalRange(c)
  {
    hide Small;
  }

  /** A capital is spelled like its small letter, up to case. */
  lemma {:induction false} CapitalSpelling(c: char)
    requires Capital(c).Some?
    ensures Small(c).None?
    ensures Small(LowerCyrillic(c)).Some? && LowersTo(Capital(c).value, Small(LowerCyrillic(c)).value)
  {
    hide Small, LowerCyrillic;
    SmallSpelling(LowerCyrillic(c));
    if Small(c).Some? { SmallSpelling(c); }
  }

  lemma LatinOfAscii(c: char)
    requires c < '\U{0080}'
    ensures Latin(c) == [c]
  {
    hide Capital, Small;
    if Small(c).Some? { SmallSpelling(c); }
    if Capital(c).Some? { CapitalInRange(c); }
  }
}
