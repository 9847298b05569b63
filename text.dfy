/**
 * The string and number primitives the line parsers rely on: `trim`,
 * `split(' ')`, `split(/\s+/)`, and decimal `parseInt`, `parseFloat` and
 * `Number`. A conversion that yields `NaN` yields `None` here.
 *
 * The functions are plain definitions; what they guarantee is stated in
 * the lemmas next to them.
 */
module Text {
  import opened Base

  /** The white-space characters `trim` and `\s` recognise (ASCII, no-break space, BOM, line separators). */
  predicate IsWhitespace(c: char)
  {
    c == ' ' || c == '\t' || c == '\n' || c == '\r' || c == '\U{000B}' || c == '\U{000C}' ||
    c == '\U{00A0}' || c == '\U{FEFF}' || c == '\U{2028}' || c == '\U{2029}'
  }

  predicate NoWhitespace(s: string)
  {
    forall i :: 0 <= i < |s| ==> !IsWhitespace(s[i])
  }

  predicate AllWhitespace(s: string)
  {
    forall i :: 0 <= i < |s| ==> IsWhitespace(s[i])
  }

  /** Neither end of the string is white space. */
  predicate Trimmed(s: string)
  {
    s == [] || (!IsWhitespace(s[0]) && !IsWhitespace(s[|s| - 1]))
  }

  /** `trimStart`. */
  function TrimStart(s: string): string
  {
    if s != [] && IsWhitespace(s[0]) then TrimStart(s[1..]) else s
  }

  /** `trimEnd`. */
  function TrimEnd(s: string): string
  {
    if s != [] && IsWhitespace(s[|s| - 1]) then TrimEnd(s[..|s| - 1]) else s
  }

  /** `trim`. */
  function Trim(s: string): string
  {
    TrimEnd(TrimStart(s))
  }

  /** `trimStart` drops the white-space prefix, and only that. */
  lemma {:induction false} TrimStartFacts(s: string)
    ensures |TrimStart(s)| <= |s| && TrimStart(s) == s[|s| - |TrimStart(s)|..]
    ensures AllWhitespace(s[..|s| - |TrimStart(s)|])
    ensures TrimStart(s) == [] || !IsWhitespace(TrimStart(s)[0])
    decreases |s|
  {
    if s != [] && IsWhitespace(s[0]) {
      TrimStartFacts(s[1..]);
      var k := |s| - |TrimStart(s)|;
      assert s[..k] == [s[0]] + s[1..][..k - 1];
    }
  }

  /** `trimEnd` drops the white-space suffix, and only that. */
  lemma {:induction false} TrimEndFacts(s: string)
    ensures |TrimEnd(s)| <= |s| && TrimEnd(s) == s[..|TrimEnd(s)|]
    ensures AllWhitespace(s[|TrimEnd(s)|..])
    ensures TrimEnd(s) == [] || !IsWhitespace(TrimEnd(s)[|TrimEnd(s)| - 1])
    decreases |s|
  {
    if s != [] && IsWhitespace(s[|s| - 1]) {
      var t := s[..|s| - 1];
      TrimEndFacts(t);
      var k := |TrimEnd(s)|;
      assert s[k..] == t[k..] + [s[|s| - 1]];
    }
  }

  /** `trim` leaves no white space at either end. */
  lemma TrimIsTrimmed(s: string)
    ensures Trimmed(Trim(s))
  {
    var t := TrimStart(s);
    TrimStartFacts(s);
    TrimEndFacts(t);
    assert Trim(s) != [] ==> Trim(s)[0] == t[0];
  }

  /** `trim` removes white space at the ends and nothing else. */
  lemma TrimRemovesOnlyWhitespace(s: string)
    ensures exists i ::
      0 <= i <= |s| - |Trim(s)| && Trim(s) == s[i..i + |Trim(s)|] && AllWhitespace(s[..i]) && AllWhitespace(s[i + |Trim(s)|..])
  {
    var t := TrimStart(s);
    var r := TrimEnd(t);
    TrimStartFacts(s);
    TrimEndFacts(t);
    var i := |s| - |t|;
    assert r == s[i..i + |r|];
    assert s[i + |r|..] == t[|r|..];
  }

  /** A string that is already trimmed is left as it is. */
  lemma TrimOfTrimmed(s: string)
    requires Trimmed(s)
    ensures TrimStart(s) == s && Trim(s) == s
  {
  }

  /** Trimming twice is trimming once. */
  lemma TrimIdempotent(s: string)
    ensures Trim(Trim(s)) == Trim(s)
  {
    TrimIsTrimmed(s);
    TrimOfTrimmed(Trim(s));
  }

  /** The parts joined back with the separator between each two. */
  function JoinOn(parts: seq<string>, sep: string): string
    requires |parts| > 0
    decreases |parts|
  {
    if |parts| == 1 then parts[0] else parts[0] + sep + JoinOn(parts[1..], sep)
  }

  lemma JoinOnPrepend(x: string, parts: seq<string>, sep: string)
    requires |parts| > 0
    ensures JoinOn([x + parts[0]] + parts[1..], sep) == x + JoinOn(parts, sep)
  {
    var ps := [x + parts[0]] + parts[1..];
    assert ps[1..] == parts[1..];
  }

  /** `s.split(c)` for a one-character separator. */
  function SplitOn(s: string, c: char): (r: seq<string>)
    ensures |r| >= 1
  {
    if s == [] then
      [[]]
    else
      var rest := SplitOn(s[1..], c);
      if s[0] == c then [[]] + rest else [[s[0]] + rest[0]] + rest[1..]
  }

  /** `split(c)` returns one piece more than there are separators. */
  lemma {:induction false} SplitOnCount(s: string, c: char)
    ensures |SplitOn(s, c)| == multiset(s)[c] + 1
    decreases |s|
  {
    if s != [] {
      SplitOnCount(s[1..], c);
      assert s == [s[0]] + s[1..];
    }
  }

  /** No piece of `split(c)` holds the separator. */
  lemma {:induction false} SplitOnPiecesFree(s: string, c: char)
    ensures forall i :: 0 <= i < |SplitOn(s, c)| ==> c !in SplitOn(s, c)[i]
    decreases |s|
  {
    if s != [] {
      var rest := SplitOn(s[1..], c);
      SplitOnPiecesFree(s[1..], c);
      if s[0] != c {
        assert forall i :: 1 <= i < |SplitOn(s, c)| ==> SplitOn(s, c)[i] == rest[i];
      }
    }
  }

  /** Joining the pieces of `split(c)` back with `c` gives the string. */
  lemma {:induction false} SplitOnJoin(s: string, c: char)
    ensures JoinOn(SplitOn(s, c), [c]) == s
    decreases |s|
  {
    if s != [] {
      var rest := SplitOn(s[1..], c);
      SplitOnJoin(s[1..], c);
      assert s == [s[0]] + s[1..];
      if s[0] == c {
        assert ([[]] + rest)[1..] == rest;
      } else {
        JoinOnPrepend([s[0]], rest, [c]);
      }
    }
  }

  /** A string without the separator is one piece. */
  lemma {:induction false} SplitWithoutSeparator(a: string, c: char)
    requires c !in a
    ensures SplitOn(a, c) == [a]
    decreases |a|
  {
    if a != [] {
      SplitWithoutSeparator(a[1..], c);
      assert [a[0]] + a[1..] == a;
    }
  }

  /** Splitting after a separator-free head gives the head and then the split of the tail. */
  lemma {:induction false} SplitAfterSeparator(a: string, t: string, c: char)
    requires c !in a
    ensures SplitOn(a + [c] + t, c) == [a] + SplitOn(t, c)
    decreases |a|
  {
    var s := a + [c] + t;
    if a == [] {
      assert s[0] == c && s[1..] == t;
    } else {
      assert s[0] == a[0] != c;
      assert s[1..] == a[1..] + [c] + t;
      SplitAfterSeparator(a[1..], t, c);
      assert [a[0]] + a[1..] == a;
    }
  }

  /** Splitting undoes joining, as long as no piece contains the separator. */
  lemma {:induction false} SplitJoin(parts: seq<string>, c: char)
    requires |parts| > 0
    requires forall i :: 0 <= i < |parts| ==> c !in parts[i]
    ensures SplitOn(JoinOn(parts, [c]), c) == parts
    decreases |parts|
  {
    if |parts| == 1 {
      SplitWithoutSeparator(parts[0], c);
    } else {
      SplitJoin(parts[1..], c);
      SplitAfterSeparator(parts[0], JoinOn(parts[1..], [c]), c);
      assert [parts[0]] + parts[1..] == parts;
    }
  }

  /**
   * `s.split(/\s+/)`: a white-space character that another one follows
   * belongs to the same run and separates nothing.
   */
  function SplitOnWhitespaceRuns(s: string): (r: seq<string>)
    ensures |r| >= 1
  {
    if s == [] then
      [[]]
    else
      var rest := SplitOnWhitespaceRuns(s[1..]);
      if !IsWhitespace(s[0]) then [[s[0]] + rest[0]] + rest[1..]
      else if |s| > 1 && IsWhitespace(s[1]) then rest
      else [[]] + rest
  }

  /**
   * `split(/\s+/)` returns the pieces between maximal white-space runs: no
   * piece holds white space, every piece but the first and the last is
   * non-empty, and the first (last) is non-empty when the string starts
   * (ends) with something else than white space.
   */
  lemma {:induction false} RunsFacts(s: string)
    ensures forall i :: 0 <= i < |SplitOnWhitespaceRuns(s)| ==> NoWhitespace(SplitOnWhitespaceRuns(s)[i])
    ensures forall i :: 0 < i < |SplitOnWhitespaceRuns(s)| - 1 ==> |SplitOnWhitespaceRuns(s)[i]| > 0
    ensures s != [] && !IsWhitespace(s[0]) ==> |SplitOnWhitespaceRuns(s)[0]| > 0
    ensures s != [] && !IsWhitespace(s[|s| - 1]) ==> |SplitOnWhitespaceRuns(s)[|SplitOnWhitespaceRuns(s)| - 1]| > 0
    decreases |s|
  {
    if s != [] {
      RunsFacts(s[1..]);
      assert |s| > 1 ==> s[1..][0] == s[1] && s[1..][|s[1..]| - 1] == s[|s| - 1];
    }
  }

  /** On a trimmed, non-empty string, every piece of the white-space split is a real token. */
  lemma TrimmedTokensNonEmpty(s: string)
    requires Trimmed(s) && s != []
    ensures forall i :: 0 <= i < |SplitOnWhitespaceRuns(s)| ==> |SplitOnWhitespaceRuns(s)[i]| > 0
  {
    RunsFacts(s);
  }

  /** A string without white space is one piece. */
  lemma {:induction false} SplitRunsWithoutWhitespace(a: string)
    requires NoWhitespace(a)
    ensures SplitOnWhitespaceRuns(a) == [a]
    decreases |a|
  {
    if a != [] {
      SplitRunsWithoutWhitespace(a[1..]);
      assert [a[0]] + a[1..] == a;
    }
  }

  /** A white-space run before a token separates one empty piece, however long the run. */
  lemma {:induction false} SplitRunsOfRun(w: string, t: string)
    requires |w| > 0 && AllWhitespace(w)
    requires t == [] || !IsWhitespace(t[0])
    ensures SplitOnWhitespaceRuns(w + t) == [[]] + SplitOnWhitespaceRuns(t)
    decreases |w|
  {
    var s := w + t;
    assert s[0] == w[0] && s[1..] == w[1..] + t;
    if |w| > 1 {
      assert s[1] == w[1];
      SplitRunsOfRun(w[1..], t);
    } else {
      assert s[1..] == t;
    }
  }

  /** A white-space run after a white-space-free head ends the head's piece, however long the run. */
  lemma {:induction false} SplitRunsAfterRun(a: string, w: string, t: string)
    requires NoWhitespace(a) && |w| > 0 && AllWhitespace(w)
    requires t == [] || !IsWhitespace(t[0])
    ensures SplitOnWhitespaceRuns(a + w + t) == [a] + SplitOnWhitespaceRuns(t)
    decreases |a|
  {
    var s := a + w + t;
    if a == [] {
      assert s == w + t;
      SplitRunsOfRun(w, t);
    } else {
      assert s[0] == a[0] && s[1..] == a[1..] + w + t;
      SplitRunsAfterRun(a[1..], w, t);
      assert [a[0]] + a[1..] == a;
    }
  }

  predicate IsDigit(c: char)
  {
    '0' <= c <= '9'
  }

  predicate AllDigits(s: string)
  {
    forall i :: 0 <= i < |s| ==> IsDigit(s[i])
  }

  /** A digit is neither white space, nor a sign, nor a decimal point. */
  lemma DigitIsPlain(c: char)
    requires IsDigit(c)
    ensures !IsWhitespace(c) && c != '+' && c != '-' && c != '.'
  {
  }

  function DigitValue(c: char): (r: nat)
    requires IsDigit(c)
    ensures r < 10
  {
    (c as int) - ('0' as int)
  }

  function DigitChar(d: nat): (c: char)
    requires d < 10
    ensures IsDigit(c) && DigitValue(c) == d
  {
    (('0' as int) + d) as char
  }

  /** The value of a string of decimal digits, most significant first. */
  function Value(ds: string): nat
    requires AllDigits(ds)
    decreases |ds|
  {
    if ds == [] then 0 else Value(ds[..|ds| - 1]) * 10 + DigitValue(ds[|ds| - 1])
  }

  function Pow10(k: nat): (r: nat)
    ensures r > 0
  {
    if k == 0 then 1 else 10 * Pow10(k - 1)
  }

  /** The decimal numeral of `n`, without leading zeros. */
  function ShowNat(n: nat): (r: string)
    ensures |r| > 0 && AllDigits(r)
    decreases n
  {
    if n < 10 then [DigitChar(n)] else ShowNat(n / 10) + [DigitChar(n % 10)]
  }

  /** A numeral denotes the number it was written from. */
  lemma {:induction false} ShowNatValue(n: nat)
    ensures Value(ShowNat(n)) == n
    decreases n
  {
    if n >= 10 {
      ShowNatValue(n / 10);
      var r := ShowNat(n);
      assert r[..|r| - 1] == ShowNat(n / 10);
    }
  }

  /** A numeral is trimmed and holds neither white space nor a space. */
  lemma NumeralIsPlain(n: nat)
    ensures Trimmed(ShowNat(n)) && NoWhitespace(ShowNat(n)) && ' ' !in ShowNat(n)
  {
    var s := ShowNat(n);
    forall i | 0 <= i < |s|
      ensures !IsWhitespace(s[i]) && s[i] != ' '
    {
      DigitIsPlain(s[i]);
    }
  }

  /** The longest prefix of decimal digits. */
  function DigitsPrefix(s: string): (r: string)
    ensures |r| <= |s| && AllDigits(r)
  {
    if s != [] && IsDigit(s[0]) then [s[0]] + DigitsPrefix(s[1..]) else []
  }

  /** The digit prefix is a prefix, and whatever follows it is not a digit. */
  lemma {:induction false} DigitsPrefixFacts(s: string)
    ensures DigitsPrefix(s) == s[..|DigitsPrefix(s)|]
    ensures |DigitsPrefix(s)| == |s| || !IsDigit(s[|DigitsPrefix(s)|])
    decreases |s|
  {
    if s != [] && IsDigit(s[0]) {
      DigitsPrefixFacts(s[1..]);
    }
  }

  lemma {:induction false} DigitsPrefixOfDigits(ds: string, t: string)
    requires AllDigits(ds)
    requires t == [] || !IsDigit(t[0])
    ensures DigitsPrefix(ds + t) == ds
    decreases |ds|
  {
    if ds != [] {
      assert (ds + t)[0] == ds[0] && (ds + t)[1..] == ds[1..] + t;
      DigitsPrefixOfDigits(ds[1..], t);
      assert [ds[0]] + ds[1..] == ds;
    } else {
      assert ds + t == t;
    }
  }

  predicate HasSign(s: string)
  {
    s != [] && (s[0] == '+' || s[0] == '-')
  }

  /** Whether the text starts with a minus sign. */
  predicate IsNegative(s: string)
  {
    s != [] && s[0] == '-'
  }

  /** The text after one leading sign, if there is one. */
  function Unsigned(s: string): string
  {
    if HasSign(s) then s[1..] else s
  }

  function Signed(negative: bool, x: real): real
  {
    if negative then -x else x
  }

  /** `parseInt(s, 10)`. */
  function ParseInt(s: string): Option<int>
  {
    var t := Unsigned(TrimStart(s));
    var ds := DigitsPrefix(t);
    var v: int := if ds == [] then 0 else Value(ds);
    if ds == [] then None
    else if IsNegative(TrimStart(s)) then Some(-v) else Some(v)
  }

  /**
   * `parseInt` skips leading white space and one sign, and is a number
   * exactly when a digit comes next.
   */
  lemma ParseIntFacts(s: string)
    ensures var t := Unsigned(TrimStart(s));
      ParseInt(s).Some? <==> t != [] && IsDigit(t[0])
  {
  }

  /** The integer digits of an unsigned decimal literal at the start of `u`. */
  function WholeDigits(u: string): (r: string)
    ensures |r| <= |u| && AllDigits(r)
  {
    DigitsPrefix(u)
  }

  /** Whether a decimal point follows the integer digits. */
  predicate HasPoint(u: string)
  {
    |WholeDigits(u)| < |u| && u[|WholeDigits(u)|] == '.'
  }

  /** The fraction digits after the point, if there is one. */
  function FractionDigits(u: string): (r: string)
    ensures AllDigits(r)
  {
    if HasPoint(u) then DigitsPrefix(u[|WholeDigits(u)| + 1..]) else []
  }

  /**
   * The decimal literal `[sign]digits[.digits]` or `[sign].digits` at the
   * very start of `t`, read as far as it goes; `NaN` without any digit.
   */
  function ReadDecimal(t: string): Option<real>
  {
    var u := Unsigned(t);
    var whole, frac := WholeDigits(u), FractionDigits(u);
    if whole == [] && frac == [] then None
    else Some(Signed(IsNegative(t), Value(whole) as real + Value(frac) as real / Pow10(|frac|) as real))
  }

  /** How many characters of `t` the decimal literal takes up. */
  function DecimalLength(t: string): nat
  {
    var u := Unsigned(t);
    (if HasSign(t) then 1 else 0) + |WholeDigits(u)| + (if HasPoint(u) then 1 + |FractionDigits(u)| else 0)
  }

  /** `parseFloat`, without exponents and `Infinity`. */
  function ParseFloat(s: string): Option<real>
  {
    ReadDecimal(TrimStart(s))
  }

  /**
   * `parseFloat` skips leading white space and one sign, and is a number
   * exactly when a digit, or a point and a digit, come next.
   */
  lemma ParseFloatFacts(s: string)
    ensures var u := Unsigned(TrimStart(s));
      ParseFloat(s).Some? <==> (u != [] && IsDigit(u[0])) || (|u| > 1 && u[0] == '.' && IsDigit(u[1]))
  {
    var u := Unsigned(TrimStart(s));
    if |u| > 1 && u[0] == '.' {
      assert !IsDigit(u[0]) && WholeDigits(u) == [] && HasPoint(u);
      assert u[1..][0] == u[1];
    }
  }

  /** `Number(s)`, without exponents, hexadecimal and `Infinity`. */
  function ToNumber(s: string): Option<real>
  {
    var t := Trim(s);
    if t == [] then Some(0.0)
    else if DecimalLength(t) != |t| then None
    else ReadDecimal(t)
  }

  /**
   * `Number` of a blank string is 0; otherwise it is a number only when
   * the decimal literal fills the whole trimmed string, and then
   * `parseFloat` reads the same number.
   */
  lemma ToNumberFacts(s: string)
    ensures Trim(s) == [] ==> ToNumber(s) == Some(0.0)
    ensures Trim(s) != [] && ToNumber(s).Some? ==>
      ToNumber(s) == ParseFloat(Trim(s)) && DecimalLength(Trim(s)) == |Trim(s)|
  {
    TrimIsTrimmed(s);
    TrimOfTrimmed(Trim(s));
  }

  /** `Number.isInteger` on a number that is not `NaN`. */
  predicate IsInteger(x: real)
  {
    x.Floor as real == x
  }

  /** A numeral followed by anything starts with a digit: nothing to trim, no sign. */
  lemma NumeralHead(n: nat, tail: string)
    ensures var s := ShowNat(n) + tail; TrimStart(s) == s && !HasSign(s) && Unsigned(s) == s
  {
    var s := ShowNat(n) + tail;
    assert s[0] == ShowNat(n)[0];
    DigitIsPlain(s[0]);
  }

  /** `parseInt` reads a numeral back, whatever non-digit text follows it. */
  lemma ParseIntOfNumeral(n: nat, tail: string)
    requires tail == [] || !IsDigit(tail[0])
    ensures ParseInt(ShowNat(n) + tail) == Some(n)
  {
    NumeralHead(n, tail);
    DigitsPrefixOfDigits(ShowNat(n), tail);
    ShowNatValue(n);
  }

  /** Before anything that is neither a digit nor a point, a numeral is all integer digits and no fraction. */
  lemma NumeralBeforeTail(n: nat, tail: string)
    requires tail == [] || (!IsDigit(tail[0]) && tail[0] != '.')
    ensures var s := ShowNat(n) + tail; WholeDigits(s) == ShowNat(n) && !HasPoint(s) && FractionDigits(s) == []
  {
    var s := ShowNat(n) + tail;
    DigitsPrefixOfDigits(ShowNat(n), tail);
    assert s[|ShowNat(n)|..] == tail;
  }

  /** `parseFloat` reads a numeral back, whatever follows that is neither a digit nor a point. */
  lemma ParseFloatOfNumeral(n: nat, tail: string)
    requires tail == [] || (!IsDigit(tail[0]) && tail[0] != '.')
    ensures ParseFloat(ShowNat(n) + tail) == Some(n as real)
  {
    NumeralHead(n, tail);
    NumeralBeforeTail(n, tail);
    ShowNatValue(n);
  }

  /** `Number` reads a numeral back when nothing else is there. */
  lemma ToNumberOfNumeral(n: nat)
    ensures ToNumber(ShowNat(n)) == Some(n as real)
  {
    var s := ShowNat(n);
    NumeralIsPlain(n);
    TrimOfTrimmed(s);
    NumeralHead(n, []);
    assert s + [] == s;
    DigitsPrefixOfDigits(s, []);
    assert !HasPoint(s) && FractionDigits(s) == [];
    assert DecimalLength(s) == |s|;
    ShowNatValue(n);
  }

  /** All three conversions read a lone numeral back. */
  lemma NumeralReadsBack(n: nat)
    ensures ParseInt(ShowNat(n)) == Some(n)
    ensures ParseFloat(ShowNat(n)) == Some(n as real)
    ensures ToNumber(ShowNat(n)) == Some(n as real)
  {
    assert ShowNat(n) + [] == ShowNat(n);
    ParseIntOfNumeral(n, []);
    ParseFloatOfNumeral(n, []);
    ToNumberOfNumeral(n);
  }

  /** A numeral is all integer digits, with no point and no fraction. */
  lemma NumeralDigits(n: nat)
    ensures WholeDigits(ShowNat(n)) == ShowNat(n) && !HasPoint(ShowNat(n)) && FractionDigits(ShowNat(n)) == []
    ensures Value(ShowNat(n)) == n
  {
    assert ShowNat(n) + [] == ShowNat(n);
    DigitsPrefixOfDigits(ShowNat(n), []);
    ShowNatValue(n);
  }

  /** `parseFloat` reads a minus sign and a numeral as the negated number. */
  lemma ParseFloatOfNegativeNumeral(n: nat)
    ensures ParseFloat(['-'] + ShowNat(n)) == Some(-(n as real))
  {
    var s := ['-'] + ShowNat(n);
    assert TrimStart(s) == s by {
      assert s[0] == '-';
    }
    assert IsNegative(s) && Unsigned(s) == ShowNat(n);
    NumeralDigits(n);
  }

  /** The digits of a numeral with one fraction digit: the numeral, a point, and that digit. */
  lemma OneDecimalDigits(n: nat, c: char)
    requires IsDigit(c)
    ensures var s := ShowNat(n) + ['.', c];
      && WholeDigits(s) == ShowNat(n) && HasPoint(s) && FractionDigits(s) == [c] && DecimalLength(s) == |s|
  {
    var tail := ['.', c];
    var s := ShowNat(n) + tail;
    NumeralHead(n, tail);
    DigitsPrefixOfDigits(ShowNat(n), tail);
    var k := |ShowNat(n)|;
    assert s[k] == '.' && s[k + 1..] == [c] + [];
    DigitsPrefixOfDigits([c], []);
  }

  /** `Number` reads a numeral with one fraction digit as the decimal it denotes. */
  lemma ReadOneDecimal(n: nat, d: nat)
    requires d < 10
    ensures ToNumber(ShowNat(n) + ['.', DigitChar(d)]) == Some(n as real + d as real / 10.0)
  {
    var c := DigitChar(d);
    var s := ShowNat(n) + ['.', c];
    assert s[0] == ShowNat(n)[0] && s[|s| - 1] == c;
    DigitIsPlain(c);
    DigitIsPlain(s[0]);
    TrimOfTrimmed(s);
    assert ToNumber(s) == ReadDecimal(s) by {
      OneDecimalDigits(n, c);
    }
    ReadOneDecimalValue(n, d);
  }

  /** The decimal literal of a numeral with one fraction digit has the value it denotes. */
  lemma ReadOneDecimalValue(n: nat, d: nat)
    requires d < 10
    ensures ReadDecimal(ShowNat(n) + ['.', DigitChar(d)]) == Some(n as real + d as real / 10.0)
  {
    var c := DigitChar(d);
    var s := ShowNat(n) + ['.', c];
    NumeralHead(n, ['.', c]);
    OneDecimalDigits(n, c);
    assert Value([c]) == d by {
      assert [c][..0] == [];
    }
    ShowNatValue(n);
  }
}
