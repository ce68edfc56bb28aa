/** String helpers that stand for Python's str methods and for number/text conversion. */
module Text {
  import opened Results

  /** Python's str.isspace() for one character. */
  predicate IsSpace(c: char)
  {
    ('\U{9}' <= c <= '\U{D}') || ('\U{1C}' <= c <= '\U{20}') || c == '\U{85}' || c == '\U{A0}'
    || c == '\U{1680}' || ('\U{2000}' <= c <= '\U{200A}') || c == '\U{2028}' || c == '\U{2029}'
    || c == '\U{202F}' || c == '\U{205F}' || c == '\U{3000}'
  }

  /** The first index at or after `i` that is not whitespace (or |s|). */
  function SkipSpace(s: string, i: nat): (a: nat)
    requires i <= |s|
    ensures i <= a <= |s| && (a == |s| || !IsSpace(s[a]))
    ensures forall k :: i <= k < a ==> IsSpace(s[k])
    decreases |s| - i
  {
    if i < |s| && IsSpace(s[i]) then SkipSpace(s, i + 1) else i
  }

  /** The index just past the last non-whitespace character in s[a..j] (or a). */
  function BackSpace(s: string, a: nat, j: nat): (e: nat)
    requires a <= j <= |s|
    ensures a <= e <= j && (e == a || !IsSpace(s[e - 1]))
    ensures forall k :: e <= k < j ==> IsSpace(s[k])
    decreases j - a
  {
    if j > a && IsSpace(s[j - 1]) then BackSpace(s, a, j - 1) else j
  }

  /** Where the text kept by strip() begins. */
  function StripStart(s: string): (a: nat)
    ensures a <= |s|
  {
    SkipSpace(s, 0)
  }

  /** Where the text kept by strip() ends. */
  function StripEnd(s: string): (e: nat)
    ensures StripStart(s) <= e <= |s|
  {
    BackSpace(s, StripStart(s), |s|)
  }

  /** str.strip(): drop the leading and the trailing whitespace. */
  function Strip(s: string): (r: string)
    ensures |r| <= |s|
    ensures r == [] || (!IsSpace(r[0]) && !IsSpace(r[|r| - 1]))
  {
    s[StripStart(s)..StripEnd(s)]
  }

  /** What strip() keeps is an infix of its input, and everything it removed is whitespace. */
  lemma StripIsTrimmedInfix(s: string)
    ensures var r, a := Strip(s), StripStart(s);
      a + |r| <= |s| && r == s[a..a + |r|]
      && (forall i :: 0 <= i < a ==> IsSpace(s[i]))
      && (forall i :: a + |r| <= i < |s| ==> IsSpace(s[i]))
    ensures Strip(s) == [] || (!IsSpace(Strip(s)[0]) && !IsSpace(Strip(s)[|Strip(s)| - 1]))
  {
    var a, e := StripStart(s), StripEnd(s);
    if a < e {
      assert Strip(s)[0] == s[a] && Strip(s)[e - a - 1] == s[e - 1];
    }
  }

  /** strip() is idempotent. */
  lemma StripIdempotent(s: string)
    ensures Strip(Strip(s)) == Strip(s)
  {
    var r := Strip(s);
    StripIsTrimmedInfix(s);
    assert StripStart(r) == 0;
    assert StripEnd(r) == |r|;
  }

  /** str.replace(ch, ""): every occurrence of `ch` removed, the rest kept in order. */
  function RemoveChar(s: string, ch: char): (r: string)
    ensures |r| <= |s|
    ensures forall c :: c in r <==> c in s && c != ch
    ensures multiset(r) == multiset(s)[ch := 0]
  {
    if s == [] then []
    else
      assert s == [s[0]] + s[1..];
      (if s[0] == ch then [] else [s[0]]) + RemoveChar(s[1..], ch)
  }

  /** `idx` tells, for each character of `r`, the position of `s` it comes from. */
  ghost predicate IndexesInto(s: string, r: string, idx: seq<nat>)
  {
    |idx| == |r| && forall k :: 0 <= k < |idx| ==> idx[k] < |s| && r[k] == s[idx[k]]
  }

  /** `idx` is strictly increasing. */
  ghost predicate Increasing(idx: seq<nat>)
  {
    forall k, l :: 0 <= k < l < |idx| ==> idx[k] < idx[l]
  }

  /** Every position of `s` not holding `ch` is listed in `idx`. */
  ghost predicate ListsKept(s: string, ch: char, idx: seq<nat>)
  {
    forall i :: 0 <= i < |s| && s[i] != ch ==> i in idx
  }

  /** The positions kept from `s`, given those kept from s[1..]. */
  function ConsIndexes(s: string, ch: char, rest: seq<nat>): (idx: seq<nat>)
    requires s != []
    ensures |idx| == (if s[0] == ch then 0 else 1) + |rest|
  {
    (if s[0] == ch then [] else [0]) + seq(|rest|, k requires 0 <= k < |rest| => rest[k] + 1)
  }

  lemma ConsIndexesInto(s: string, ch: char, rest: seq<nat>)
    requires s != [] && IndexesInto(s[1..], RemoveChar(s[1..], ch), rest)
    ensures IndexesInto(s, RemoveChar(s, ch), ConsIndexes(s, ch, rest))
  {
    var idx, r, r' := ConsIndexes(s, ch, rest), RemoveChar(s, ch), RemoveChar(s[1..], ch);
    var h := if s[0] == ch then 0 else 1;
    assert r == (if s[0] == ch then [] else [s[0]]) + r';
    forall k | 0 <= k < |idx| ensures idx[k] < |s| && r[k] == s[idx[k]] {
      if k >= h {
        assert idx[k] == rest[k - h] + 1 && r[k] == r'[k - h];
      }
    }
  }

  lemma ConsIncreasing(s: string, ch: char, rest: seq<nat>)
    requires s != [] && Increasing(rest)
    ensures Increasing(ConsIndexes(s, ch, rest))
  {
    var idx := ConsIndexes(s, ch, rest);
    var h := if s[0] == ch then 0 else 1;
    forall k, l | 0 <= k < l < |idx| ensures idx[k] < idx[l] {
      assert idx[l] == rest[l - h] + 1;
      if k >= h {
        assert idx[k] == rest[k - h] + 1;
      }
    }
  }

  lemma ConsListsKept(s: string, ch: char, rest: seq<nat>)
    requires s != [] && ListsKept(s[1..], ch, rest)
    ensures ListsKept(s, ch, ConsIndexes(s, ch, rest))
  {
    var idx := ConsIndexes(s, ch, rest);
    var h := if s[0] == ch then 0 else 1;
    forall i | 0 <= i < |s| && s[i] != ch ensures i in idx {
      if i > 0 {
        assert s[1..][i - 1] == s[i];
        var k :| 0 <= k < |rest| && rest[k] == i - 1;
        assert idx[h + k] == i;
      }
    }
  }

  /**
   * The characters RemoveChar keeps are those of `s` other than `ch`, in their
   * order: `idx` lists, increasing, the positions of `s` they come from, and
   * every position not holding `ch` is listed.
   */
  lemma {:induction false} RemoveCharKeepsOrder(s: string, ch: char) returns (idx: seq<nat>)
    ensures IndexesInto(s, RemoveChar(s, ch), idx) && Increasing(idx) && ListsKept(s, ch, idx)
  {
    if s == [] {
      idx := [];
    } else {
      var rest := RemoveCharKeepsOrder(s[1..], ch);
      ConsIndexesInto(s, ch, rest);
      ConsIncreasing(s, ch, rest);
      ConsListsKept(s, ch, rest);
      idx := ConsIndexes(s, ch, rest);
    }
  }

  lemma {:induction false} RemoveAbsentChar(s: string, ch: char)
    requires ch !in s
    ensures RemoveChar(s, ch) == s
  {
    if s != [] {
      RemoveAbsentChar(s[1..], ch);
    }
  }

  /** str.find(ch): the first index of `ch` in `s`, or -1. */
  function Find(s: string, ch: char): (r: int)
    ensures -1 <= r < |s|
    ensures r == -1 <==> ch !in s
    ensures r >= 0 ==> s[r] == ch && forall i :: 0 <= i < r ==> s[i] != ch
  {
    FindFrom(s, ch, 0)
  }

  /** The first index at or after `i` holding `ch`, or -1. */
  function FindFrom(s: string, ch: char, i: nat): (r: int)
    requires i <= |s|
    ensures -1 <= r < |s|
    ensures r == -1 <==> forall k :: i <= k < |s| ==> s[k] != ch
    ensures r >= 0 ==> i <= r && s[r] == ch && forall k :: i <= k < r ==> s[k] != ch
    decreases |s| - i
  {
    if i == |s| then -1 else if s[i] == ch then i else FindFrom(s, ch, i + 1)
  }

  /** str.rfind(ch): the last index of `ch` in `s`, or -1. */
  function RFind(s: string, ch: char): (r: int)
    ensures -1 <= r < |s|
    ensures r == -1 <==> ch !in s
    ensures r >= 0 ==> s[r] == ch && forall i :: r < i < |s| ==> s[i] != ch
  {
    FindBefore(s, ch, |s|)
  }

  /** The last index before `j` holding `ch`, or -1. */
  function FindBefore(s: string, ch: char, j: nat): (r: int)
    requires j <= |s|
    ensures -1 <= r < j
    ensures r == -1 <==> forall k :: 0 <= k < j ==> s[k] != ch
    ensures r >= 0 ==> s[r] == ch && forall k :: r < k < j ==> s[k] != ch
  {
    if j == 0 then -1 else if s[j - 1] == ch then j - 1 else FindBefore(s, ch, j - 1)
  }

  // ---------------------------------------------------------------------
  // Decimal digits: str() of an integer and the parsing done by to_numeric
  // ---------------------------------------------------------------------

  predicate IsDigit(c: char) { '0' <= c <= '9' }

  function DigitChar(d: nat): (c: char)
    requires d < 10
    ensures IsDigit(c)
  {
    ['0', '1', '2', '3', '4', '5', '6', '7', '8', '9'][d]
  }

  function DigitValue(c: char): (d: nat)
    requires IsDigit(c)
    ensures d < 10
  {
    (c as int - '0' as int) as nat
  }

  lemma DigitRoundTrip(d: nat)
    requires d < 10
    ensures DigitValue(DigitChar(d)) == d
  {
  }

  predicate AllDigits(s: string)
  {
    forall i :: 0 <= i < |s| ==> IsDigit(s[i])
  }

  /** The value of a string of decimal digits, most significant first. */
  function DigitsValue(s: string): nat
    requires AllDigits(s)
  {
    if s == [] then 0 else DigitsValue(s[..|s| - 1]) * 10 + DigitValue(s[|s| - 1])
  }

  /** The decimal digits of a natural number, as str(n) writes them. */
  function NatText(n: nat): (r: string)
    ensures r != [] && AllDigits(r)
  {
    if n < 10 then [DigitChar(n)] else NatText(n / 10) + [DigitChar(n % 10)]
  }

  /** str(i) of a Python int. */
  function IntText(i: int): (r: string)
  {
    if i < 0 then "-" + NatText(-i) else NatText(i)
  }

  lemma {:induction false} NatTextValue(n: nat)
    ensures DigitsValue(NatText(n)) == n
  {
    if n >= 10 {
      NatTextValue(n / 10);
      var t := NatText(n);
      assert t[..|t| - 1] == NatText(n / 10);
      DigitRoundTrip(n % 10);
    } else {
      DigitRoundTrip(n);
    }
  }

  /** Up to `fuel` decimal digits of a fraction in [0, 1), stopping once it is exhausted. */
  function FracDigits(f: real, fuel: nat): (r: string)
    requires 0.0 <= f < 1.0
    ensures AllDigits(r)
    decreases fuel
  {
    if fuel == 0 || f == 0.0 then []
    else
      var d := (f * 10.0).Floor;
      [DigitChar(d as nat)] + FracDigits(f * 10.0 - d as real, fuel - 1)
  }

  /**
   * str() of a float: integral values as "k.0", others with up to 16 fractional
   * digits, always written positionally (Python switches to exponent notation
   * below 1e-4 and from 1e16).
   */
  function NumText(x: real): string
  {
    var m := if x < 0.0 then -x else x;
    var sign := if x < 0.0 then "-" else "";
    var whole := m.Floor;
    var frac := FracDigits(m - whole as real, 16);
    sign + NatText(whole as nat) + "." + (if frac == [] then "0" else frac)
  }

  /** Digits with an optional "." inside, at least one digit in all. */
  function ParseUnsigned(s: string): (r: Option<real>)
    ensures r.Some? ==> r.value >= 0.0
  {
    var k := Find(s, '.');
    var whole := if k == -1 then s else s[..k];
    var frac := if k == -1 then [] else s[k + 1..];
    if |whole| + |frac| == 0 || !AllDigits(whole) || !AllDigits(frac) then None
    else Some(DigitsValue(whole) as real + Scaled(DigitsValue(frac), Pow10(|frac|)))
  }

  /** `digits / scale` as a real. */
  function Scaled(digits: nat, scale: nat): (r: real)
    requires scale >= 1
    ensures r >= 0.0
  {
    assert digits as real >= 0.0 && scale as real >= 1.0;
    digits as real / scale as real
  }

  function Pow10(k: nat): (r: nat)
    ensures r >= 1
  {
    if k == 0 then 1 else 10 * Pow10(k - 1)
  }

  predicate IsExponentMark(c: char) { c == 'e' || c == 'E' }

  /** The first index at or after `i` holding an exponent mark, or -1. */
  function FindExponent(s: string, i: nat): (r: int)
    requires i <= |s|
    ensures -1 <= r < |s|
    ensures r == -1 <==> forall k :: i <= k < |s| ==> !IsExponentMark(s[k])
    ensures r >= 0 ==> i <= r && IsExponentMark(s[r]) && forall k :: i <= k < r ==> !IsExponentMark(s[k])
    decreases |s| - i
  {
    if i == |s| then -1 else if IsExponentMark(s[i]) then i else FindExponent(s, i + 1)
  }

  /** The exponent after the mark: an optional sign, then at least one digit. */
  function ParseExponent(s: string): (r: Option<int>)
    ensures r.Some? ==> s != []
  {
    var signed := s != [] && (s[0] == '-' || s[0] == '+');
    var digits := if signed then s[1..] else s;
    if digits == [] || !AllDigits(digits) then None
    else Some(if signed && s[0] == '-' then -(DigitsValue(digits) as int) else DigitsValue(digits))
  }

  /** `m` times ten to the power `e`. */
  function TimesPow10(m: real, e: int): real
  {
    if e >= 0 then m * Pow10(e) as real else Scaled(1, Pow10(-e)) * m
  }

  /** An unsigned mantissa, optionally followed by `e` or `E` and an exponent. */
  function ParseMagnitude(s: string): (r: Option<real>)
  {
    var k := FindExponent(s, 0);
    if k == -1 then ParseUnsigned(s)
    else
      match (ParseUnsigned(s[..k]), ParseExponent(s[k + 1..]))
      case (Some(m), Some(e)) => Some(TimesPow10(m, e))
      case _ => None
  }

  /**
   * The whitespace pandas' float reader skips around a number: the space and
   * the ASCII controls tab through carriage return, and nothing else.
   */
  predicate IsAsciiSpace(c: char)
  {
    c == ' ' || ('\t' <= c <= '\r')
  }

  /** The first index at or after `i` that is not ASCII whitespace (or |s|). */
  function SkipAsciiSpace(s: string, i: nat): (a: nat)
    requires i <= |s|
    ensures i <= a <= |s| && (a == |s| || !IsAsciiSpace(s[a]))
    ensures forall k :: i <= k < a ==> IsAsciiSpace(s[k])
    decreases |s| - i
  {
    if i < |s| && IsAsciiSpace(s[i]) then SkipAsciiSpace(s, i + 1) else i
  }

  /** The index just past the last non-ASCII-whitespace character in s[a..j] (or a). */
  function BackAsciiSpace(s: string, a: nat, j: nat): (e: nat)
    requires a <= j <= |s|
    ensures a <= e <= j && (e == a || !IsAsciiSpace(s[e - 1]))
    ensures forall k :: e <= k < j ==> IsAsciiSpace(s[k])
    decreases j - a
  {
    if j > a && IsAsciiSpace(s[j - 1]) then BackAsciiSpace(s, a, j - 1) else j
  }

  /**
   * The text between the ASCII whitespace runs at either end: what is left
   * is an infix, everything dropped is ASCII whitespace, and what is kept
   * neither starts nor ends with it.
   */
  function TrimAscii(s: string): (r: string)
    ensures var a := SkipAsciiSpace(s, 0);
      && a + |r| <= |s| && r == s[a..a + |r|]
      && (forall i :: 0 <= i < a ==> IsAsciiSpace(s[i]))
      && (forall i :: a + |r| <= i < |s| ==> IsAsciiSpace(s[i]))
    ensures r == [] || (!IsAsciiSpace(r[0]) && !IsAsciiSpace(r[|r| - 1]))
  {
    var a := SkipAsciiSpace(s, 0);
    s[a..BackAsciiSpace(s, a, |s|)]
  }

  /**
   * The numeric strings pandas.to_numeric reads: surrounding ASCII whitespace
   * is ignored (other Unicode whitespace is not), then an optional sign and a
   * decimal with an optional exponent. "nan" and the infinities are not
   * numbers here: pandas reads them as NaN and as infinite floats, neither of
   * which a real can hold.
   */
  function ParseDecimal(s: string): Option<real>
  {
    ParseSigned(TrimAscii(s))
  }

  /** An optional sign, then a magnitude. */
  function ParseSigned(t: string): Option<real>
  {
    if t != [] && (t[0] == '-' || t[0] == '+') then
      match ParseMagnitude(t[1..])
      case Some(x) => Some(if t[0] == '-' then -x else x)
      case None => None
    else ParseMagnitude(t)
  }

  /** Trimming twice is trimming once, so padding with ASCII whitespace never changes what is read. */
  lemma ParseIgnoresAsciiPadding(s: string)
    ensures TrimAscii(TrimAscii(s)) == TrimAscii(s)
    ensures ParseDecimal(TrimAscii(s)) == ParseDecimal(s)
  {
    var r := TrimAscii(s);
    if r != [] {
      TrimUntouched(r);
    }
  }

  /** Text with no ASCII whitespace at either end is left alone by the trim. */
  lemma TrimUntouched(t: string)
    requires t != [] && !IsAsciiSpace(t[0]) && !IsAsciiSpace(t[|t| - 1])
    ensures TrimAscii(t) == t
  {
    assert SkipAsciiSpace(t, 0) == 0;
    assert BackAsciiSpace(t, 0, |t|) == |t|;
  }

  /** An exponent is read: "1e3" is 1000. */
  lemma ParseExponentForm()
    ensures ParseDecimal("1e3") == Some(1000.0)
  {
    TrimUntouched("1e3");
    ExponentMagnitude();
  }

  lemma ExponentMagnitude()
    ensures ParseMagnitude("1e3") == Some(1000.0)
  {
    assert FindExponent("1e3", 0) == 1;
    assert "1e3"[..1] == "1" && "1e3"[2..] == "3";
    ParseDigits("1");
    assert ParseExponent("3") == Some(3);
    assert Pow10(3) == 1000;
  }

  /** A negative exponent divides: "-25E-1" is -2.5. */
  lemma ParseNegativeExponent()
    ensures ParseDecimal("-25E-1") == Some(-2.5)
  {
    var s := "-25E-1";
    TrimUntouched(s);
    assert s[1..] == "25E-1";
    NegativeExponentMagnitude();
  }

  lemma NegativeExponentMagnitude()
    ensures ParseMagnitude("25E-1") == Some(2.5)
  {
    var m := "25E-1";
    assert FindExponent(m, 2) == 2;
    assert FindExponent(m, 0) == 2;
    assert m[..2] == "25" && m[3..] == "-1";
    ParseDigits("25");
    MinusOneExponent();
  }

  lemma MinusOneExponent()
    ensures ParseExponent("-1") == Some(-1) && TimesPow10(25.0, -1) == 2.5
  {
    var one := "-1"[1..];
    assert one == "1" && AllDigits(one);
    assert one[..0] == [] && DigitsValue(one) == 1;
    assert Pow10(1) == 10 && Scaled(1, 10) == 0.1;
  }

  /** Surrounding whitespace is ignored: " 12 " is 12. */
  lemma ParseSurroundingSpace()
    ensures ParseDecimal(" 12 ") == Some(12.0)
  {
    var s := " 12 ";
    assert SkipAsciiSpace(s, 1) == 1;
    assert SkipAsciiSpace(s, 0) == 1;
    assert BackAsciiSpace(s, 1, 3) == 3;
    assert BackAsciiSpace(s, 1, 4) == 3;
    assert TrimAscii(s) == "12";
    ParseDigits("12");
  }

  /**
   * Whitespace outside ASCII is not skipped: a number after a no-break space
   * is no number, though str.strip() would remove that space.
   */
  lemma ParseNoBreakSpace()
    ensures ParseDecimal("\U{A0}12").None?
    ensures Strip("\U{A0}12") == "12"
  {
    var s := "\U{A0}12";
    TrimUntouched(s);
    assert Find(s, '.') == -1 by {
      assert s[0] != '.' && s[1] != '.' && s[2] != '.';
    }
    assert FindExponent(s, 3) == -1;
    assert FindExponent(s, 2) == -1;
    assert FindExponent(s, 1) == -1;
    assert FindExponent(s, 0) == -1;
    assert !IsDigit(s[0]);
    assert SkipSpace(s, 1) == 1;
    assert SkipSpace(s, 0) == 1;
    assert BackSpace(s, 1, 3) == 3;
  }

  /** A mark without digits, or digits only after the mark, is not a number. */
  lemma ParseIncompleteExponent()
    ensures ParseDecimal("1e") == None && ParseDecimal("e3") == None
  {
    TrimUntouched("1e");
    MissingExponent();
    TrimUntouched("e3");
    MissingMantissa();
  }

  lemma MissingExponent()
    ensures ParseMagnitude("1e") == None
  {
    assert FindExponent("1e", 0) == 1;
    assert "1e"[2..] == [];
  }

  lemma MissingMantissa()
    ensures ParseMagnitude("e3") == None
  {
    assert FindExponent("e3", 0) == 0;
    assert "e3"[..0] == [];
  }

  /** A non-empty run of digits reads back as its value. */
  lemma ParseDigits(s: string)
    requires s != [] && AllDigits(s)
    ensures ParseMagnitude(s) == Some(DigitsValue(s) as real)
  {
    forall j | 0 <= j < |s| ensures s[j] != '.' && !IsExponentMark(s[j]) {
      assert IsDigit(s[j]);
    }
    assert Find(s, '.') == -1;
    assert FindExponent(s, 0) == -1;
  }

  /** A natural number written by str() reads back as the same number. */
  lemma NatTextParses(n: nat)
    ensures ParseMagnitude(NatText(n)) == Some(n as real)
  {
    ParseDigits(NatText(n));
    NatTextValue(n);
  }

  /** An integer written by str() reads back as the same number. */
  lemma IntTextParses(i: int)
    ensures ParseDecimal(IntText(i)) == Some(i as real)
  {
    var n: nat := if i < 0 then -i else i;
    var t := NatText(n);
    assert IsDigit(t[0]) && IsDigit(t[|t| - 1]);
    TrimUntouched(IntText(i));
    SignedIntText(i);
  }

  lemma SignedIntText(i: int)
    ensures ParseSigned(IntText(i)) == Some(i as real)
  {
    var n: nat := if i < 0 then -i else i;
    var t := NatText(n);
    NatTextParses(n);
    assert IsDigit(t[0]);
    if i < 0 {
      assert IntText(i)[1..] == t;
    }
  }
}
