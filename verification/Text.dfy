/** The Go string helpers the modelled code calls: white space, trimming,
    line splitting and decimal numerals. Text is a sequence of runes. */
module Text {

  datatype Option<+T> = None | Some(value: T) {
    predicate IsFailure() { None? }

    function PropagateFailure<U>(): Option<U>
      requires None?
    {
      None
    }

    function Extract(): T
      requires Some?
    {
      value
    }
  }

  datatype Result<+T, +E> = Ok(value: T) | Err(error: E)

  lemma Regroup<T>(a: seq<T>, b: seq<T>, c: seq<T>)
    ensures (a + b) + c == a + (b + c)
  {
  }

  // ----- white space -----

  /** unicode.IsSpace */
  predicate IsSpace(c: char) {
    || '\t' <= c <= '\r' || c == ' ' || c == '\U{0085}' || c == '\U{00A0}'
    || c == '\U{1680}' || '\U{2000}' <= c <= '\U{200A}'
    || c == '\U{2028}' || c == '\U{2029}' || c == '\U{202F}'
    || c == '\U{205F}' || c == '\U{3000}'
  }

  function TrimLeft(s: string): string {
    if |s| > 0 && IsSpace(s[0]) then TrimLeft(s[1..]) else s
  }

  function TrimRight(s: string): string {
    if |s| > 0 && IsSpace(s[|s| - 1]) then TrimRight(s[..|s| - 1]) else s
  }

  /** strings.TrimSpace */
  function TrimSpace(s: string): string {
    TrimRight(TrimLeft(s))
  }

  predicate Trimmed(s: string) {
    s == "" || (!IsSpace(s[0]) && !IsSpace(s[|s| - 1]))
  }

  predicate AllSpace(s: string) {
    forall i :: 0 <= i < |s| ==> IsSpace(s[i])
  }

  lemma {:induction false} TrimLeftDecomposes(s: string) returns (k: nat)
    ensures k <= |s| && TrimLeft(s) == s[k..] && AllSpace(s[..k])
    ensures k < |s| ==> !IsSpace(s[k])
  {
    if |s| > 0 && IsSpace(s[0]) {
      var j := TrimLeftDecomposes(s[1..]);
      k := j + 1;
      assert s[1..][j..] == s[k..];
      forall i | 0 <= i < k ensures IsSpace(s[..k][i]) {
        if i > 0 { assert s[1..][..j][i - 1] == s[i]; }
      }
    } else {
      k := 0;
      assert s[0..] == s;
    }
  }

  lemma {:induction false} TrimRightDecomposes(s: string) returns (k: nat)
    ensures k <= |s| && TrimRight(s) == s[..k] && AllSpace(s[k..])
    ensures k > 0 ==> !IsSpace(s[k - 1])
  {
    if |s| > 0 && IsSpace(s[|s| - 1]) {
      k := TrimRightDecomposes(s[..|s| - 1]);
      assert s[..|s| - 1][..k] == s[..k];
      forall i | 0 <= i < |s| - k ensures IsSpace(s[k..][i]) {
        if k + i < |s| - 1 { assert s[..|s| - 1][k..][i] == s[k + i]; }
      }
    } else {
      k := |s|;
      assert s[..k] == s;
    }
  }

  /** Trimming keeps one contiguous piece, and what it drops on either side is white space. */
  lemma TrimSpaceDecomposes(s: string) returns (left: string, right: string)
    ensures s == left + TrimSpace(s) + right && AllSpace(left) && AllSpace(right)
    ensures Trimmed(TrimSpace(s))
  {
    hide IsSpace;
    var k := TrimLeftDecomposes(s);
    var m := TrimRightDecomposes(s[k..]);
    left, right := s[..k], s[k..][m..];
    assert s == s[..k] + s[k..];
    assert s[k..] == s[k..][..m] + s[k..][m..];
    assert s[..k] + (s[k..][..m] + s[k..][m..]) == s[..k] + s[k..][..m] + s[k..][m..];
    if m > 0 { assert TrimSpace(s)[0] == s[k]; }
  }

  lemma TrimmedIsFixed(s: string)
    requires Trimmed(s)
    ensures TrimSpace(s) == s
  {
  }

  lemma TrimIdempotent(s: string)
    ensures TrimSpace(TrimSpace(s)) == TrimSpace(s)
  {
    var l, r := TrimSpaceDecomposes(s);
    TrimmedIsFixed(TrimSpace(s));
  }

  lemma {:induction false} TrimLeftDropsSpace(ws: string, s: string)
    requires AllSpace(ws)
    ensures TrimLeft(ws + s) == TrimLeft(s)
  {
    if ws == "" {
      assert ws + s == s;
    } else {
      assert (ws + s)[1..] == ws[1..] + s;
      assert IsSpace(ws[0]);
      TrimLeftDropsSpace(ws[1..], s);
    }
  }

  lemma {:induction false} TrimRightDropsSpace(s: string, ws: string)
    requires AllSpace(ws)
    ensures TrimRight(s + ws) == TrimRight(s)
  {
    if ws == "" {
      assert s + ws == s;
    } else {
      assert (s + ws)[..|s + ws| - 1] == s + ws[..|ws| - 1];
      assert IsSpace(ws[|ws| - 1]);
      TrimRightDropsSpace(s, ws[..|ws| - 1]);
    }
  }

  /** White space put around trimmed text is exactly what trimming removes. */
  lemma TrimPadded(left: string, s: string, right: string)
    requires AllSpace(left) && AllSpace(right) && Trimmed(s)
    ensures TrimSpace(left + s + right) == s
  {
    assert left + s + right == left + (s + right);
    TrimLeftDropsSpace(left, s + right);
    if s == "" {
      assert s + right == right;
      assert right + "" == right;
      TrimLeftDropsSpace(right, "");
    } else {
      assert (s + right)[0] == s[0];
      TrimRightDropsSpace(s, right);
    }
  }

  /** White space at the end does not change what trimming yields. */
  lemma TrimDropsRight(s: string, ws: string)
    requires AllSpace(ws)
    ensures TrimSpace(s + ws) == TrimSpace(s)
  {
    var l, r := TrimSpaceDecomposes(s);
    assert s + ws == l + TrimSpace(s) + (r + ws);
    TrimPadded(l, TrimSpace(s), r + ws);
  }

  lemma TrimDropsLeft(ws: string, s: string)
    requires AllSpace(ws)
    ensures TrimSpace(ws + s) == TrimSpace(s)
  {
    TrimLeftDropsSpace(ws, s);
  }

  // ----- words -----

  /** The length of the leading run of non-space runes. */
  function WordRun(s: string): (k: nat)
    ensures k <= |s| && forall i :: 0 <= i < k ==> !IsSpace(s[i])
    ensures k < |s| ==> IsSpace(s[k])
  {
    if s == "" || IsSpace(s[0]) then 0
    else
      var k := 1 + WordRun(s[1..]);
      assert forall i :: 0 < i < k ==> s[i] == s[1..][i - 1];
      k
  }

  /** strings.Fields */
  function Fields(s: string): seq<string> {
    if |s| == 0 then []
    else if IsSpace(s[0]) then Fields(s[1..])
    else [s[..WordRun(s)]] + Fields(s[WordRun(s)..])
  }

  // ----- case -----

  /** A lower-casing of runes: unicode.ToLower, or a part of it. */
  type Lowering = char -> char

  /** strings.ToLower */
  function ToLower(lower: Lowering, s: string): (r: string)
    ensures |r| == |s|
  {
    seq(|s|, i requires 0 <= i < |s| => lower(s[i]))
  }

  /** What strings.EqualFold compares of two trimmed texts. */
  function Key(fold: Lowering, s: string): string { ToLower(fold, TrimSpace(s)) }

  lemma LowerFixed(lower: Lowering, s: string)
    requires forall i :: 0 <= i < |s| ==> lower(s[i]) == s[i]
    ensures ToLower(lower, s) == s
  {
  }

  function LowerAscii(c: char): char {
    if 'A' <= c <= 'Z' then (c as int + 32) as char else c
  }

  // ----- prefixes -----

  /** strings.HasPrefix */
  predicate HasPrefix(s: string, p: string) {
    |p| <= |s| && s[..|p|] == p
  }

  lemma PrefixOfConcat(p: string, rest: string)
    ensures HasPrefix(p + rest, p) && (p + rest)[|p|..] == rest
  {
    assert (p + rest)[..|p|] == p;
    assert (p + rest)[|p|..] == rest;
  }

  /** strings.Contains */
  predicate Contains(s: string, sub: string) {
    exists i :: 0 <= i <= |s| && HasPrefix(s[i..], sub)
  }

  /** strings.Join */
  function Join(parts: seq<string>, sep: string): string {
    if |parts| == 0 then ""
    else if |parts| == 1 then parts[0]
    else parts[0] + sep + Join(parts[1..], sep)
  }

  // ----- decimal numerals -----

  predicate IsDigit(c: char) { '0' <= c <= '9' }

  predicate AllDigits(s: string) {
    forall i :: 0 <= i < |s| ==> IsDigit(s[i])
  }

  function DigitChar(d: nat): (c: char)
    requires d < 10
    ensures IsDigit(c)
  {
    (d + '0' as int) as char
  }

  function DigitValue(c: char): (d: nat)
    requires IsDigit(c)
    ensures d < 10
  {
    c as int - '0' as int
  }

  /** %d of a non-negative number. */
  function Decimal(n: nat): (s: string)
    ensures |s| > 0 && AllDigits(s)
  {
    if n < 10 then [DigitChar(n)] else Decimal(n / 10) + [DigitChar(n % 10)]
  }

  /** The number a run of decimal digits denotes. */
  function NatOf(s: string): nat
    requires AllDigits(s)
  {
    if s == "" then 0 else 10 * NatOf(s[..|s| - 1]) + DigitValue(s[|s| - 1])
  }

  lemma {:induction false} DecimalDenotes(n: nat)
    ensures NatOf(Decimal(n)) == n
  {
    var s := Decimal(n);
    if n < 10 {
      assert s[..|s| - 1] == "";
    } else {
      DecimalDenotes(n / 10);
      assert s[..|s| - 1] == Decimal(n / 10);
    }
  }

  function Zeros(k: nat): (s: string)
    ensures |s| == k && AllDigits(s)
  {
    if k == 0 then "" else "0" + Zeros(k - 1)
  }

  /** Zero padding on the left up to a width, as in %010d. */
  function ZeroPad(s: string, width: nat): (r: string)
    ensures |r| == if |s| < width then width else |s|
    ensures AllDigits(s) ==> AllDigits(r)
  {
    if |s| < width then Zeros(width - |s|) + s else s
  }

  lemma {:induction false} LeadingZeros(k: nat, s: string)
    requires AllDigits(s)
    ensures AllDigits(Zeros(k) + s) && NatOf(Zeros(k) + s) == NatOf(s)
    decreases |s|, k
  {
    var z := Zeros(k) + s;
    if s == "" {
      assert z == Zeros(k);
      if k > 0 {
        LeadingZeros(k - 1, "");
        assert Zeros(k - 1) + "" == Zeros(k - 1);
        ZerosSnoc(k - 1);
        assert z[..|z| - 1] == Zeros(k - 1);
      }
    } else {
      LeadingZeros(k, s[..|s| - 1]);
      assert z[..|z| - 1] == Zeros(k) + s[..|s| - 1];
    }
  }

  lemma {:induction false} ZerosSnoc(k: nat)
    ensures Zeros(k + 1) == Zeros(k) + "0"
  {
    if k > 0 {
      ZerosSnoc(k - 1);
      assert Zeros(k + 1) == "0" + (Zeros(k - 1) + "0") == ("0" + Zeros(k - 1)) + "0";
    }
  }

  lemma ZeroPadDenotes(n: nat, width: nat)
    ensures NatOf(ZeroPad(Decimal(n), width)) == n
  {
    DecimalDenotes(n);
    if |Decimal(n)| < width { LeadingZeros(width - |Decimal(n)|, Decimal(n)); }
  }

  function Pow10(k: nat): (p: nat)
    ensures p > 0
  {
    if k == 0 then 1 else 10 * Pow10(k - 1)
  }

  /** A numeral has at most k digits exactly when the number is below 10^k. */
  lemma {:induction false} DecimalWidth(n: nat, k: nat)
    requires k > 0
    ensures |Decimal(n)| <= k <==> n < Pow10(k)
  {
    if n < 10 {
      assert Pow10(k) == 10 * Pow10(k - 1);
    } else if k == 1 {
      assert Pow10(1) == 10 * Pow10(0) == 10;
      assert |Decimal(n)| == |Decimal(n / 10)| + 1;
    } else {
      DecimalWidth(n / 10, k - 1);
      assert Pow10(k) == 10 * Pow10(k - 1);
    }
  }

  /** The length of the longest run of digits at the front. */
  function DigitRun(s: string): (k: nat)
    ensures k <= |s| && AllDigits(s[..k])
    ensures k < |s| ==> !IsDigit(s[k])
  {
    if s == "" || !IsDigit(s[0]) then 0
    else
      var k := 1 + DigitRun(s[1..]);
      assert forall i :: 0 < i < k ==> s[i] == s[1..][..k - 1][i - 1];
      k
  }

  lemma {:induction false} DigitRunOf(digits: string, rest: string)
    requires AllDigits(digits) && (rest == "" || !IsDigit(rest[0]))
    ensures DigitRun(digits + rest) == |digits|
  {
    var s := digits + rest;
    var k := DigitRun(s);
    assert forall i :: 0 <= i < |digits| ==> IsDigit(s[i]) by { assert forall i :: 0 <= i < |digits| ==> s[i] == digits[i]; }
    assert forall i :: 0 <= i < k ==> IsDigit(s[i]) by { assert forall i :: 0 <= i < k ==> s[i] == s[..k][i]; }
    assert rest != "" ==> s[|digits|] == rest[0];
  }

  /** The length of the longest run of digits at the back. */
  function DigitTail(s: string): (k: nat)
    ensures k <= |s| && AllDigits(s[|s| - k..])
    ensures forall i :: |s| - k <= i < |s| ==> IsDigit(s[i])
    ensures k < |s| ==> !IsDigit(s[|s| - k - 1])
  {
    if s == "" || !IsDigit(s[|s| - 1]) then 0 else 1 + DigitTail(s[..|s| - 1])
  }

  lemma {:induction false} DigitTailOf(front: string, digits: string)
    requires AllDigits(digits) && (front == "" || !IsDigit(front[|front| - 1]))
    ensures DigitTail(front + digits) == |digits|
  {
    hide IsDigit;
    var s := front + digits;
    var k := DigitTail(s);
    assert forall i :: |front| <= i < |s| ==> s[i] == digits[i - |front|];
    if front != "" {
      assert s[|front| - 1] == front[|front| - 1];
    }
  }

  /** strings.HasSuffix */
  predicate HasSuffix(s: string, suffix: string) {
    |suffix| <= |s| && s[|s| - |suffix|..] == suffix
  }
}
