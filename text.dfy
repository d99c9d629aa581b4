/**
 * The Rust standard-library string operations the session controller and the
 * configuration dialogs rely on: `split_whitespace`, `split(',')`, `trim`,
 * `split_once('=')`, `starts_with`, `parse::<u64>` and `to_lowercase`.
 */
module Text {
  import opened Wrappers

  /** `char::is_whitespace`: the characters with the Unicode White_Space property. */
  predicate IsWhitespace(c: char) {
    c in WhitespaceChars
  }

  const WhitespaceChars: set<char> := {
    '\U{0009}', '\U{000A}', '\U{000B}', '\U{000C}', '\U{000D}', '\U{0020}', '\U{0085}', '\U{00A0}', '\U{1680}',
    '\U{2000}', '\U{2001}', '\U{2002}', '\U{2003}', '\U{2004}', '\U{2005}', '\U{2006}', '\U{2007}', '\U{2008}', '\U{2009}', '\U{200A}',
    '\U{2028}', '\U{2029}', '\U{202F}', '\U{205F}', '\U{3000}'}

  /** A token `split_whitespace` can produce: non-empty, with no whitespace in it. */
  predicate IsWord(w: string) {
    |w| > 0 && forall i | 0 <= i < |w| :: !IsWhitespace(w[i])
  }

  /** The length of the leading run of non-whitespace characters. */
  function WordLength(s: string): (n: nat)
    ensures n <= |s|
    ensures forall i | 0 <= i < n :: !IsWhitespace(s[i])
    ensures n == |s| || IsWhitespace(s[n])
  {
    if s == [] || IsWhitespace(s[0]) then 0 else 1 + WordLength(s[1..])
  }

  /** `str::split_whitespace`: the maximal runs of non-whitespace characters, in order. */
  function Words(s: string): (ws: seq<string>)
    ensures forall i | 0 <= i < |ws| :: IsWord(ws[i])
    decreases |s|
  {
    if s == [] then []
    else if IsWhitespace(s[0]) then Words(s[1..])
    else
      var n := WordLength(s);
      [s[..n]] + Words(s[n..])
  }

  /** `parts.join(sep)`. */
  function JoinWith(parts: seq<string>, sep: string): string {
    if parts == [] then ""
    else if |parts| == 1 then parts[0]
    else parts[0] + sep + JoinWith(parts[1..], sep)
  }

  lemma {:induction false} WordLengthOfWord(w: string, t: string)
    requires IsWord(w)
    requires t == [] || IsWhitespace(t[0])
    ensures WordLength(w + t) == |w|
    decreases |w|
  {
    if |w| > 1 {
      assert (w + t)[1..] == w[1..] + t;
      WordLengthOfWord(w[1..], t);
    } else {
      assert (w + t)[1..] == t;
    }
  }

  /** Leading whitespace never contributes a token. */
  lemma {:induction false} WordsSkipSpace(sp: string, t: string)
    requires forall i | 0 <= i < |sp| :: IsWhitespace(sp[i])
    ensures Words(sp + t) == Words(t)
    decreases |sp|
  {
    if sp != [] {
      var s := sp + t;
      assert s[0] == sp[0] && IsWhitespace(s[0]);
      assert s[1..] == sp[1..] + t;
      assert Words(s) == Words(s[1..]);
      assert forall i | 0 <= i < |sp[1..]| :: sp[1..][i] == sp[i + 1];
      WordsSkipSpace(sp[1..], t);
    } else {
      assert sp + t == t;
    }
  }

  lemma WordsOfWordThen(w: string, t: string)
    requires IsWord(w)
    requires t == [] || IsWhitespace(t[0])
    ensures Words(w + t) == [w] + Words(t)
  {
    WordLengthOfWord(w, t);
    assert (w + t)[..|w|] == w;
    assert (w + t)[|w|..] == t;
  }

  /**
   * Joining tokens with single spaces and splitting the result on whitespace
   * gives back the tokens.
   */
  lemma {:induction false} WordsOfJoin(ws: seq<string>)
    requires forall i | 0 <= i < |ws| :: IsWord(ws[i])
    ensures Words(JoinWith(ws, " ")) == ws
    decreases |ws|
  {
    if ws == [] {
    } else if |ws| == 1 {
      WordsOfWordThen(ws[0], "");
      assert ws[0] + "" == ws[0];
    } else {
      var rest := JoinWith(ws[1..], " ");
      assert JoinWith(ws, " ") == ws[0] + (" " + rest);
      WordsOfWordThen(ws[0], " " + rest);
      WordsSkipSpace(" ", rest);
      WordsOfJoin(ws[1..]);
      assert ws == [ws[0]] + ws[1..];
    }
  }

  /** A string yields no token exactly when it is all whitespace. */
  lemma {:induction false} WordsEmpty(s: string)
    ensures Words(s) == [] <==> forall i | 0 <= i < |s| :: IsWhitespace(s[i])
    decreases |s|
  {
    if s != [] {
      if IsWhitespace(s[0]) {
        WordsEmpty(s[1..]);
        assert forall i | 1 <= i < |s| :: s[i] == s[1..][i - 1];
      }
    }
  }

  /** The first index of `c` in `s`, or `|s|` if there is none. */
  function IndexOf(s: string, c: char): (i: nat)
    ensures i <= |s|
    ensures i < |s| ==> s[i] == c
    ensures forall j | 0 <= j < i :: s[j] != c
  {
    if s == [] then 0 else if s[0] == c then 0 else 1 + IndexOf(s[1..], c)
  }

  /** `str::split(sep)` for a single-character separator; always at least one piece. */
  function SplitOn(s: string, sep: char): (parts: seq<string>)
    ensures |parts| >= 1
    ensures forall i | 0 <= i < |parts| :: sep !in parts[i]
    decreases |s|
  {
    var i := IndexOf(s, sep);
    if i == |s| then [s] else [s[..i]] + SplitOn(s[i + 1..], sep)
  }

  /** Joining pieces free of the separator and splitting again gives back the pieces. */
  lemma {:induction false} SplitOnJoin(parts: seq<string>, sep: char)
    requires |parts| >= 1
    requires forall i | 0 <= i < |parts| :: sep !in parts[i]
    ensures SplitOn(JoinWith(parts, [sep]), sep) == parts
    decreases |parts|
  {
    var p := parts[0];
    if |parts| == 1 {
      assert IndexOf(p, sep) == |p|;
    } else {
      var rest := JoinWith(parts[1..], [sep]);
      var s := p + [sep] + rest;
      assert JoinWith(parts, [sep]) == s;
      assert s[|p|] == sep;
      assert forall j | 0 <= j < |p| :: s[j] == p[j];
      assert IndexOf(s, sep) == |p|;
      assert s[..|p|] == p;
      assert s[|p| + 1..] == rest;
      SplitOnJoin(parts[1..], sep);
      assert parts == [p] + parts[1..];
    }
  }

  /** The length of the leading run of whitespace. */
  function LeadingSpace(s: string): (n: nat)
    ensures n <= |s|
    ensures forall j | 0 <= j < n :: IsWhitespace(s[j])
    ensures n == |s| || !IsWhitespace(s[n])
  {
    if s != [] && IsWhitespace(s[0]) then 1 + LeadingSpace(s[1..]) else 0
  }

  /** Where the trailing run of whitespace starts. */
  function TrailingSpace(s: string): (n: nat)
    ensures n <= |s|
    ensures forall j | n <= j < |s| :: IsWhitespace(s[j])
    ensures n == 0 || !IsWhitespace(s[n - 1])
  {
    if s != [] && IsWhitespace(s[|s| - 1]) then TrailingSpace(s[..|s| - 1]) else |s|
  }

  /** `str::trim_start`. */
  function TrimStart(s: string): string
  {
    s[LeadingSpace(s)..]
  }

  /** `str::trim_end`. */
  function TrimEnd(s: string): string
  {
    s[..TrailingSpace(s)]
  }

  /** `str::trim`: `TrimShape` says what it cuts. */
  function Trim(s: string): string
  {
    TrimEnd(TrimStart(s))
  }

  /**
   * `t` is `s` with its outer whitespace cut: the slice of `s` that starts
   * after the leading whitespace, everything cut away is whitespace, and `t`
   * neither starts nor ends with whitespace.
   */
  predicate IsTrimOf(t: string, s: string) {
    var i := LeadingSpace(s);
    && i + |t| <= |s| && t == s[i..i + |t|]
    && (forall j | 0 <= j < i :: IsWhitespace(s[j]))
    && (forall j | i + |t| <= j < |s| :: IsWhitespace(s[j]))
    && (t == [] || (!IsWhitespace(t[0]) && !IsWhitespace(t[|t| - 1])))
  }

  /** What `Trim` cuts is exactly the outer whitespace. */
  lemma {:induction false} TrimShape(s: string)
    ensures IsTrimOf(Trim(s), s)
  {
    var i := LeadingSpace(s);
    var a := s[i..];
    var k := TrailingSpace(a);
    assert Trim(s) == a[..k] == s[i..i + k];
    forall j | i + k <= j < |s| ensures IsWhitespace(s[j]) {
      assert s[j] == a[j - i];
    }
  }

  /** Trimming twice trims nothing more. */
  lemma {:induction false} TrimIdempotent(s: string)
    ensures Trim(Trim(s)) == Trim(s)
  {
    TrimShape(s);
    var t := Trim(s);
    if t != [] {
      assert LeadingSpace(t) == 0;
      assert TrimStart(t) == t;
      assert TrailingSpace(t) == |t|;
    }
  }

  /** `str::split_once(c)` on a string that contains `c`: the parts before and after its first occurrence. */
  function SplitOnce(s: string, c: char): (kv: (string, string))
    requires c in s
    ensures kv.0 + [c] + kv.1 == s
    ensures c !in kv.0
  {
    var i := IndexOf(s, c);
    assert s == s[..i] + [c] + s[i + 1..];
    (s[..i], s[i + 1..])
  }

  /** Splitting at the first `c` of `k + [c] + v` gives back `k` and `v` when `k` has no `c`. */
  lemma SplitOnceOf(k: string, c: char, v: string)
    requires c !in k
    ensures c in k + [c] + v
    ensures SplitOnce(k + [c] + v, c) == (k, v)
  {
    var s := k + [c] + v;
    assert s[|k|] == c;
    var kv := SplitOnce(s, c);
    assert kv.0 == s[..|k|] == k;
    assert kv.1 == s[|k| + 1..] == v;
  }

  /** `str::starts_with`. */
  predicate StartsWith(s: string, prefix: string) {
    |prefix| <= |s| && s[..|prefix|] == prefix
  }

  /** `char::to_ascii_lowercase`. */
  function LowerChar(c: char): char {
    if 'A' <= c <= 'Z' then (c as int + 32) as char else c
  }

  /**
   * Lower-casing that folds the ASCII capitals and leaves every other character as it is.
   */
  function ToLowerAscii(s: string): (t: string)
    ensures |t| == |s|
    ensures forall i | 0 <= i < |s| :: t[i] == LowerChar(s[i])
  {
    if s == [] then [] else [LowerChar(s[0])] + ToLowerAscii(s[1..])
  }

  /** Text without ASCII capitals is its own lower-case form. */
  lemma ToLowerAsciiOfLower(s: string)
    requires forall i | 0 <= i < |s| :: !('A' <= s[i] <= 'Z')
    ensures ToLowerAscii(s) == s
  {
  }

  /** Lower-casing twice is lower-casing once. */
  lemma ToLowerAsciiIdempotent(s: string)
    ensures ToLowerAscii(ToLowerAscii(s)) == ToLowerAscii(s)
  {
  }

  predicate IsDigit(c: char) {
    '0' <= c <= '9'
  }

  predicate AllDigits(s: string) {
    forall i | 0 <= i < |s| :: IsDigit(s[i])
  }

  function DigitValue(c: char): nat
    requires IsDigit(c)
  {
    c as int - '0' as int
  }

  function DigitChar(d: nat): (c: char)
    requires d < 10
    ensures IsDigit(c) && DigitValue(c) == d
  {
    ('0' as int + d) as char
  }

  /** The value of a string of decimal digits, most significant first. */
  function DigitsValue(s: string): nat
    requires AllDigits(s)
  {
    if s == [] then 0 else 10 * DigitsValue(s[..|s| - 1]) + DigitValue(s[|s| - 1])
  }

  /** 2^64: the values of a Rust `u64` are those below it. */
  const U64Limit: nat := 0x1_0000_0000_0000_0000

  /**
   * `str::parse::<u64>`: an optional `+` followed by one or more decimal digits
   * whose value fits in 64 bits. A sign alone, a `-`, whitespace and the empty
   * string are all rejected.
   */
  function ParseU64(s: string): (r: Option<nat>)
    ensures r.Some? ==> r.value < U64Limit
    ensures r.Some? ==> s != [] && s != "+"
    ensures r.Some? ==> forall i | 0 <= i < |s| :: IsDigit(s[i]) || (i == 0 && s[i] == '+')
  {
    var digits := if |s| > 0 && s[0] == '+' then s[1..] else s;
    if digits != [] && AllDigits(digits) && DigitsValue(digits) < U64Limit
    then Some(DigitsValue(digits))
    else None
  }

  /** The canonical decimal spelling of `n`. */
  function DecimalString(n: nat): (s: string)
    ensures |s| > 0 && AllDigits(s)
    decreases n
  {
    if n < 10 then [DigitChar(n)] else DecimalString(n / 10) + [DigitChar(n % 10)]
  }

  lemma {:induction false} DecimalValue(n: nat)
    ensures DigitsValue(DecimalString(n)) == n
    decreases n
  {
    if n >= 10 {
      var s := DecimalString(n);
      assert s[..|s| - 1] == DecimalString(n / 10);
      DecimalValue(n / 10);
    }
  }

  /**
   * `parse::<u64>` reads back every value below 2^64 from its decimal spelling,
   * with or without a leading `+`, and rejects 2^64 itself.
   */
  lemma ParseU64Decimal(n: nat)
    ensures n < U64Limit ==> ParseU64(DecimalString(n)) == Some(n)
    ensures n < U64Limit ==> ParseU64("+" + DecimalString(n)) == Some(n)
    ensures n >= U64Limit ==> ParseU64(DecimalString(n)) == None
  {
    DecimalValue(n);
    var s := DecimalString(n);
    assert ("+" + s)[1..] == s;
  }
}
