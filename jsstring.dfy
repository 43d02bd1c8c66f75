/**
 * The JavaScript string built-ins the flashcard code relies on, over
 * `string` = `seq<char>` (one char per code point):
 * `String.prototype.split` with a one-character separator, `Array.prototype.join`,
 * `String.prototype.trim`, `parseInt(s, 10)`, decimal number-to-string conversion
 * (template literals) and `String.prototype.endsWith`.
 */
module JsString {
  import opened Wrappers

  // ---------------------------------------------------------------------------
  // Whitespace and trim
  // ---------------------------------------------------------------------------

  /** ECMAScript WhiteSpace and LineTerminator code points: what `trim` strips
    * and what `parseInt` skips before the number. */
  predicate IsWhiteSpace(c: char) {
    || c == '\t' || c == '\n' || c == '\U{B}' || c == '\U{C}' || c == '\r'
    || c == ' ' || c == '\U{A0}' || c == '\U{1680}'
    || ('\U{2000}' <= c <= '\U{200A}')
    || c == '\U{2028}' || c == '\U{2029}' || c == '\U{202F}' || c == '\U{205F}'
    || c == '\U{3000}' || c == '\U{FEFF}'
  }

  /** "Blank": nothing but whitespace (so `s.trim()` is falsy). */
  predicate IsBlank(s: string) {
    forall i :: 0 <= i < |s| ==> IsWhiteSpace(s[i])
  }

  /** Neither end of `s` is whitespace. */
  predicate IsTrimmed(s: string) {
    s == [] || (!IsWhiteSpace(s[0]) && !IsWhiteSpace(s[|s| - 1]))
  }

  /** Drops the leading whitespace. */
  function TrimStart(s: string): string
    decreases |s|
  {
    if s != [] && IsWhiteSpace(s[0]) then TrimStart(s[1..]) else s
  }

  /** Drops the trailing whitespace. */
  function TrimEnd(s: string): string
    decreases |s|
  {
    if s != [] && IsWhiteSpace(s[|s| - 1]) then TrimEnd(s[..|s| - 1]) else s
  }

  /** `s.trim()`. */
  function Trim(s: string): string {
    TrimEnd(TrimStart(s))
  }

  /** `TrimStart(s)` is the suffix of `s` that starts at its first
    * non-whitespace character. */
  lemma {:induction false} TrimStartSpec(s: string)
    ensures |TrimStart(s)| <= |s| && TrimStart(s) == s[|s| - |TrimStart(s)|..]
    ensures TrimStart(s) == [] || !IsWhiteSpace(TrimStart(s)[0])
    ensures forall i :: 0 <= i < |s| - |TrimStart(s)| ==> IsWhiteSpace(s[i])
    decreases |s|
  {
    if s != [] && IsWhiteSpace(s[0]) {
      TrimStartSpec(s[1..]);
    }
  }

  /** `TrimEnd(s)` is the prefix of `s` that ends at its last non-whitespace
    * character. */
  lemma {:induction false} TrimEndSpec(s: string)
    ensures |TrimEnd(s)| <= |s| && TrimEnd(s) == s[..|TrimEnd(s)|]
    ensures TrimEnd(s) == [] || !IsWhiteSpace(TrimEnd(s)[|TrimEnd(s)| - 1])
    ensures forall i :: |TrimEnd(s)| <= i < |s| ==> IsWhiteSpace(s[i])
    decreases |s|
  {
    if s != [] && IsWhiteSpace(s[|s| - 1]) {
      TrimEndSpec(s[..|s| - 1]);
    }
  }

  /** `s.trim()` has no whitespace at either end, leaves an already trimmed
    * string alone, is empty exactly when `s` is blank, and keeps only
    * characters of `s`. */
  lemma TrimSpec(s: string)
    ensures IsTrimmed(Trim(s))
    ensures IsTrimmed(s) ==> Trim(s) == s
    ensures Trim(s) == [] <==> IsBlank(s)
    ensures forall c :: c in Trim(s) ==> c in s
  {
    var t := TrimStart(s);
    var r := TrimEnd(t);
    TrimStartSpec(s);
    TrimEndSpec(t);
    assert forall k :: 0 <= k < |r| ==> r[k] == s[|s| - |t| + k];
    if IsTrimmed(s) && s != [] {
      assert t == s;
    }
  }

  /** Trimming twice is trimming once. */
  lemma TrimIdempotent(s: string)
    ensures Trim(Trim(s)) == Trim(s)
  {
    TrimSpec(s);
    TrimSpec(Trim(s));
  }

  // ---------------------------------------------------------------------------
  // split and join
  // ---------------------------------------------------------------------------

  /** `parts.join([d])`: the pieces with one `d` between neighbours; `[]` joins
    * to the empty string. */
  function Join(parts: seq<string>, d: char): string
    decreases |parts|
  {
    if |parts| == 0 then ""
    else if |parts| == 1 then parts[0]
    else parts[0] + [d] + Join(parts[1..], d)
  }

  /** `s.split(d)` for a one-character separator. */
  function Split(s: string, d: char): (r: seq<string>)
    ensures |r| >= 1
    decreases |s|
  {
    if s == [] then [""]
    else
      var rest := Split(s[1..], d);
      if s[0] == d then [""] + rest
      else [[s[0]] + rest[0]] + rest[1..]
  }

  /** n occurrences of `d` give n + 1 pieces (empty pieces included), no piece
    * contains `d`, and joining the pieces back with `d` gives `s`. */
  lemma {:induction false} SplitSpec(s: string, d: char)
    ensures |Split(s, d)| == multiset(s)[d] + 1
    ensures forall i :: 0 <= i < |Split(s, d)| ==> d !in Split(s, d)[i]
    ensures Join(Split(s, d), d) == s
    decreases |s|
  {
    if s != [] {
      assert s == [s[0]] + s[1..];
      SplitSpec(s[1..], d);
      var rest := Split(s[1..], d);
      if s[0] != d {
        JoinExtendsFirst(rest, [s[0]], d);
      }
    }
  }

  /** Prepending to the first piece prepends to the joined text. */
  lemma JoinExtendsFirst(parts: seq<string>, x: string, d: char)
    requires |parts| >= 1
    ensures Join([x + parts[0]] + parts[1..], d) == x + Join(parts, d)
  {
    var q := [x + parts[0]] + parts[1..];
    assert q[1..] == parts[1..];
  }

  /** A text with no separator is one piece. */
  lemma {:induction false} SplitNoDelimiter(p: string, d: char)
    requires d !in p
    ensures Split(p, d) == [p]
    decreases |p|
  {
    if p != [] {
      SplitNoDelimiter(p[1..], d);
      assert [p[0]] + p[1..] == p;
    }
  }

  /** A separator-free piece followed by a separator splits off as the first piece. */
  lemma {:induction false} SplitAfterPiece(p: string, t: string, d: char)
    requires d !in p
    ensures Split(p + [d] + t, d) == [p] + Split(t, d)
    decreases |p|
  {
    var s := p + [d] + t;
    if p == [] {
      assert s[1..] == t;
    } else {
      assert s[1..] == p[1..] + [d] + t;
      SplitAfterPiece(p[1..], t, d);
      var rest := Split(s[1..], d);
      assert rest == [p[1..]] + Split(t, d);
      assert Split(s, d) == [[s[0]] + rest[0]] + rest[1..];
      assert [p[0]] + p[1..] == p;
    }
  }

  /** `split` undoes `join` when no piece contains the separator. */
  lemma {:induction false} SplitJoin(parts: seq<string>, d: char)
    requires |parts| >= 1
    requires forall i :: 0 <= i < |parts| ==> d !in parts[i]
    ensures Split(Join(parts, d), d) == parts
    decreases |parts|
  {
    if |parts| == 1 {
      SplitNoDelimiter(parts[0], d);
    } else {
      SplitJoin(parts[1..], d);
      SplitAfterPiece(parts[0], Join(parts[1..], d), d);
      assert [parts[0]] + parts[1..] == parts;
    }
  }

  // ---------------------------------------------------------------------------
  // Decimal numbers: parseInt(s, 10) and number-to-string
  // ---------------------------------------------------------------------------

  predicate IsDigit(c: char) {
    '0' <= c <= '9'
  }

  predicate AllDigits(s: string) {
    forall i :: 0 <= i < |s| ==> IsDigit(s[i])
  }

  function DigitValue(c: char): nat
    requires IsDigit(c)
  {
    (c as int) - ('0' as int)
  }

  function DigitChar(n: nat): char
    requires n < 10
  {
    ((('0' as int) + n) as char)
  }

  /** The longest prefix of `s` made of decimal digits. */
  function DigitPrefix(s: string): (r: string)
    ensures AllDigits(r)
    decreases |s|
  {
    if s != [] && IsDigit(s[0]) then [s[0]] + DigitPrefix(s[1..]) else []
  }

  /** A string of digits is its own longest digit prefix. */
  lemma {:induction false} DigitPrefixOfDigits(s: string)
    requires AllDigits(s)
    ensures DigitPrefix(s) == s
    decreases |s|
  {
    if s != [] {
      DigitPrefixOfDigits(s[1..]);
    }
  }

  /** The value of a string of decimal digits, most significant first. */
  function DecimalValue(ds: string): nat
    requires AllDigits(ds)
    decreases |ds|
  {
    if ds == [] then 0 else DecimalValue(ds[..|ds| - 1]) * 10 + DigitValue(ds[|ds| - 1])
  }

  /** `parseInt(s, 10)`: leading whitespace skipped, then an optional sign, then
    * the longest run of decimal digits; `None` (NaN) when that run is empty.
    * Mathematical integers: a huge digit run is exact here where JavaScript
    * rounds it, which never turns it into a small value. */
  function ParseInt(s: string): Option<int>
  {
    var t := TrimStart(s);
    var signed := |t| > 0 && (t[0] == '-' || t[0] == '+');
    var negative := signed && t[0] == '-';
    var digits := DigitPrefix(if signed then t[1..] else t);
    var magnitude: int := if digits == [] then 0 else DecimalValue(digits);
    if digits == [] then None
    else if negative then Some(-magnitude)
    else Some(magnitude)
  }

  /** `${n}` for a natural number: its decimal digits without leading zeros. */
  function NatToString(n: nat): (r: string)
    ensures |r| > 0 && AllDigits(r)
    ensures r[0] == '0' ==> n == 0
    decreases n
  {
    if n < 10 then [DigitChar(n)] else NatToString(n / 10) + [DigitChar(n % 10)]
  }

  /** Reading the decimal digits back gives the number. */
  lemma {:induction false} DecimalValueOfNatToString(n: nat)
    ensures DecimalValue(NatToString(n)) == n
    decreases n
  {
    if n >= 10 {
      var s := NatToString(n);
      assert s[..|s| - 1] == NatToString(n / 10);
      DecimalValueOfNatToString(n / 10);
    }
  }

  /** `parseInt(String(n), 10) === n` for every natural number. */
  lemma ParseIntOfNatToString(n: nat)
    ensures ParseInt(NatToString(n)) == Some(n)
  {
    var s := NatToString(n);
    assert !IsWhiteSpace(s[0]);
    assert TrimStart(s) == s;
    DigitPrefixOfDigits(s);
    DecimalValueOfNatToString(n);
  }

  /** A run of digits followed by anything that does not start with a digit:
    * the longest digit prefix is the run. */
  lemma {:induction false} DigitPrefixThen(ds: string, rest: string)
    requires AllDigits(ds)
    requires rest == [] || !IsDigit(rest[0])
    ensures DigitPrefix(ds + rest) == ds
    decreases |ds|
  {
    if ds == [] {
      assert ds + rest == rest;
    } else {
      assert (ds + rest)[1..] == ds[1..] + rest;
      DigitPrefixThen(ds[1..], rest);
    }
  }

  /** `parseInt` reads the leading digit run, leading zeros included, and
    * stops at the first character that is not a digit. */
  lemma ParseIntOfDigitsThen(ds: string, rest: string)
    requires ds != [] && AllDigits(ds)
    requires rest == [] || !IsDigit(rest[0])
    ensures ParseInt(ds + rest) == Some(DecimalValue(ds))
  {
    var s := ds + rest;
    assert s[0] == ds[0];
    assert TrimStart(s) == s;
    DigitPrefixThen(ds, rest);
  }

  /** One sign character in front of a digit run. */
  lemma ParseIntAfterSign(sign: char, ds: string, rest: string)
    requires sign == '+' || sign == '-'
    requires ds != [] && AllDigits(ds)
    requires rest == [] || !IsDigit(rest[0])
    ensures ParseInt([sign] + (ds + rest))
            == Some(if sign == '-' then -(DecimalValue(ds) as int) else DecimalValue(ds))
  {
    var t := [sign] + (ds + rest);
    assert TrimStart(t) == t;
    assert t[1..] == ds + rest;
    DigitPrefixThen(ds, rest);
  }

  /** A sign in front of the digit run is read as the sign of the number. */
  lemma ParseIntSigned(ds: string, rest: string)
    requires ds != [] && AllDigits(ds)
    requires rest == [] || !IsDigit(rest[0])
    ensures ParseInt("+" + ds + rest) == Some(DecimalValue(ds))
    ensures ParseInt("-" + ds + rest) == Some(-(DecimalValue(ds) as int))
  {
    assert "+" + ds + rest == ['+'] + (ds + rest);
    assert "-" + ds + rest == ['-'] + (ds + rest);
    ParseIntAfterSign('+', ds, rest);
    ParseIntAfterSign('-', ds, rest);
  }

  /** No digit where the number should start gives NaN: an empty string, a
    * string starting with a character that is neither a digit, whitespace
    * nor a sign, and a sign not followed by a digit. */
  lemma ParseIntNoDigits(s: string)
    requires s == [] || (!IsDigit(s[0]) && !IsWhiteSpace(s[0]))
    requires |s| > 0 && (s[0] == '+' || s[0] == '-') ==> |s| == 1 || !IsDigit(s[1])
    ensures ParseInt(s) == None
  {
    assert TrimStart(s) == s;
  }

  /** Drops a blank prefix: the leading whitespace. */
  lemma {:induction false} TrimStartBlankPrefix(w: string, s: string)
    requires IsBlank(w)
    ensures TrimStart(w + s) == TrimStart(s)
    decreases |w|
  {
    if w == [] {
      assert w + s == s;
    } else {
      assert (w + s)[0] == w[0];
      assert (w + s)[1..] == w[1..] + s;
      TrimStartBlankPrefix(w[1..], s);
    }
  }

  /** Whitespace in front of the number is skipped. */
  lemma ParseIntSkipsWhitespace(w: string, s: string)
    requires IsBlank(w)
    ensures ParseInt(w + s) == ParseInt(s)
  {
    TrimStartBlankPrefix(w, s);
  }

  /** Leading zeros are read past: `"01"` is 1. */
  lemma ParseIntLeadingZero()
    ensures ParseInt("01") == Some(1)
  {
    ParseIntOfDigitsThen("01", "");
    assert "01" + "" == "01";
    assert "01"[..1] == "0" && "0"[..0] == "";
  }

  /** The number ends at the first non-digit: `"2abc"` and `"2.5"` are 2. */
  lemma ParseIntStopsAtNonDigit()
    ensures ParseInt("2abc") == Some(2)
    ensures ParseInt("2.5") == Some(2)
  {
    ParseIntOfDigitsThen("2", "abc");
    assert "2" + "abc" == "2abc";
    ParseIntOfDigitsThen("2", ".5");
    assert "2" + ".5" == "2.5";
    assert "2"[..0] == "";
  }

  /** Distinct numbers print differently. */
  lemma NatToStringInjective(m: nat, n: nat)
    requires NatToString(m) == NatToString(n)
    ensures m == n
  {
    DecimalValueOfNatToString(m);
    DecimalValueOfNatToString(n);
  }

  // ---------------------------------------------------------------------------
  // endsWith
  // ---------------------------------------------------------------------------

  /** `s.endsWith(suffix)`. */
  predicate EndsWith(s: string, suffix: string) {
    |suffix| <= |s| && s[|s| - |suffix|..] == suffix
  }
}
