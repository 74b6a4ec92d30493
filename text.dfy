/** String helpers with the meaning JavaScript gives them in the dashboard:
    the decimal digits of integers, `padStart`, `split` on one character,
    `includes`, ASCII `toLowerCase`, `parseInt(s, 10)` and `parseInt(s)`. */
module Text {

  datatype Option<+T> = None | Some(value: T)

  predicate IsDigit(c: char) { '0' <= c <= '9' }

  predicate AllDigits(s: string) { forall i :: 0 <= i < |s| ==> IsDigit(s[i]) }

  function DigitChar(d: nat): (c: char)
    requires d < 10
    ensures IsDigit(c) && c as int - '0' as int == d
  {
    ('0' as int + d) as char
  }

  function DigitValue(c: char): nat
    requires IsDigit(c)
  {
    c as int - '0' as int
  }

  /** The decimal digits of a natural number, with no leading zero (what `String(n)` gives
      for integers below 10^21). */
  function Decimal(n: nat): (s: string)
    ensures |s| >= 1 && AllDigits(s)
    ensures s[0] == '0' <==> n == 0
    decreases n
  {
    if n < 10 then [DigitChar(n)] else Decimal(n / 10) + [DigitChar(n % 10)]
  }

  /** The value of a string of decimal digits (the empty string has value 0). */
  function DigitsValue(s: string): nat
    requires AllDigits(s)
  {
    if s == [] then 0 else DigitsValue(s[..|s| - 1]) * 10 + DigitValue(s[|s| - 1])
  }

  /** Reading back the decimal form of `n` gives `n`. */
  lemma {:induction false} DigitsValueOfDecimal(n: nat)
    ensures DigitsValue(Decimal(n)) == n
  {
    if n >= 10 {
      var s := Decimal(n);
      assert s[..|s| - 1] == Decimal(n / 10);
      DigitsValueOfDecimal(n / 10);
    } else {
      assert Decimal(n)[..0] == [];
    }
  }

  lemma DecimalInjective(a: nat, b: nat)
    ensures Decimal(a) == Decimal(b) <==> a == b
  {
    DigitsValueOfDecimal(a);
    DigitsValueOfDecimal(b);
  }

  /** `String(i)` for an integer of magnitude below 10^21: a `-` for negatives, then the
      decimal digits. */
  function IntToString(i: int): string
  {
    if i < 0 then "-" + Decimal(-i) else Decimal(i)
  }

  /** `s.padStart(n, [c])`: copies of `c` are put in front until the length is `n`. */
  function PadStart(s: string, n: nat, c: char): (r: string)
    ensures |r| == if |s| >= n then |s| else n
    ensures r[|r| - |s|..] == s
    ensures forall i :: 0 <= i < |r| - |s| ==> r[i] == c
    decreases n - |s|
  {
    if |s| >= n then s else PadStart([c] + s, n, c)
  }

  /** A leading zero does not change the value of a digit string. */
  lemma {:induction false} DigitsValueLeadingZero(s: string)
    requires AllDigits(s)
    ensures AllDigits(['0'] + s) && DigitsValue(['0'] + s) == DigitsValue(s)
  {
    var t := ['0'] + s;
    if s == [] {
      assert t[..0] == [];
    } else {
      assert t[..|t| - 1] == ['0'] + s[..|s| - 1];
      DigitsValueLeadingZero(s[..|s| - 1]);
    }
  }

  /** Padding a digit string with zeros keeps its value. */
  lemma {:induction false} DigitsValuePadStart(s: string, n: nat)
    requires AllDigits(s)
    ensures AllDigits(PadStart(s, n, '0')) && DigitsValue(PadStart(s, n, '0')) == DigitsValue(s)
    decreases n - |s|
  {
    if |s| < n {
      DigitsValueLeadingZero(s);
      DigitsValuePadStart(['0'] + s, n);
    }
  }

  /** `s.split(c)`: the maximal pieces of `s` between occurrences of `c`. */
  function Split(s: string, c: char): (r: seq<string>)
    ensures |r| >= 1
    ensures forall i :: 0 <= i < |r| ==> c !in r[i]
    ensures r[0] <= s
    ensures |r| == 1 <==> c !in s
    ensures |r[0]| < |s| ==> s[|r[0]|] == c
  {
    if s == [] then [[]]
    else
      var rest := Split(s[1..], c);
      if s[0] == c then [[]] + rest else [[s[0]] + rest[0]] + rest[1..]
  }

  /** `pieces.join(c)`. */
  function Join(pieces: seq<string>, c: char): string
    requires |pieces| >= 1
  {
    if |pieces| == 1 then pieces[0] else pieces[0] + [c] + Join(pieces[1..], c)
  }

  /** Splitting and joining again on the same character gives the string back. */
  lemma {:induction false} JoinSplit(s: string, c: char)
    ensures Join(Split(s, c), c) == s
  {
    if s != [] {
      JoinSplit(s[1..], c);
      var rest := Split(s[1..], c);
      if s[0] != c && |rest| > 1 {
        assert Split(s, c)[1..] == rest[1..];
      }
    }
  }

  /** Joining pieces free of `c` and splitting on `c` again gives the pieces back. */
  lemma {:induction false} SplitJoin(pieces: seq<string>, c: char)
    requires |pieces| >= 1
    requires forall i :: 0 <= i < |pieces| ==> c !in pieces[i]
    ensures Split(Join(pieces, c), c) == pieces
  {
    if |pieces| == 1 {
      SplitFree(pieces[0], c);
    } else {
      SplitJoin(pieces[1..], c);
      SplitPrefix(pieces[0], Join(pieces[1..], c), c);
      assert [pieces[0]] + pieces[1..] == pieces;
    }
  }

  /** A string without `c` splits into itself alone. */
  lemma {:induction false} SplitFree(s: string, c: char)
    requires c !in s
    ensures Split(s, c) == [s]
  {
    if s != [] {
      SplitFree(s[1..], c);
      assert [s[0]] + s[1..] == s;
    }
  }

  /** A piece free of `c`, followed by `c`, splits off as its own first piece. */
  lemma {:induction false} SplitPrefix(p: string, rest: string, c: char)
    requires c !in p
    ensures Split(p + [c] + rest, c) == [p] + Split(rest, c)
  {
    if p == [] {
      assert p + [c] + rest == [c] + rest;
      assert ([c] + rest)[1..] == rest;
    } else {
      assert (p + [c] + rest)[1..] == p[1..] + [c] + rest;
      SplitPrefix(p[1..], rest, c);
      assert [p[0]] + p[1..] == p;
    }
  }

  /** `haystack.includes(needle)`. */
  function Contains(haystack: string, needle: string): bool
  {
    needle <= haystack || (haystack != [] && Contains(haystack[1..], needle))
  }

  /** `includes` holds exactly when `needle` starts at some position of `haystack`. */
  lemma {:induction false} ContainsAt(haystack: string, needle: string)
    ensures Contains(haystack, needle) <==> exists i :: 0 <= i <= |haystack| && needle <= haystack[i..]
  {
    if needle <= haystack {
      assert haystack[0..] == haystack;
    } else if haystack == [] {
      forall i | 0 <= i <= |haystack| ensures !(needle <= haystack[i..]) {
        assert haystack[i..] == haystack;
      }
    } else {
      var tail := haystack[1..];
      ContainsAt(tail, needle);
      if Contains(tail, needle) {
        var i :| 0 <= i <= |tail| && needle <= tail[i..];
        assert tail[i..] == haystack[i + 1..];
      } else {
        forall i | 0 <= i <= |haystack| ensures !(needle <= haystack[i..]) {
          if i == 0 {
            assert haystack[0..] == haystack;
          } else {
            assert haystack[i..] == tail[i - 1..];
          }
        }
      }
    }
  }

  predicate IsUpper(c: char) { 'A' <= c <= 'Z' }

  function LowerChar(c: char): (l: char)
    ensures !IsUpper(l)
    ensures IsUpper(c) ==> l as int == c as int + 32
    ensures !IsUpper(c) ==> l == c
  {
    if IsUpper(c) then (c as int + 32) as char else c
  }

  /** `s.toLowerCase()` restricted to ASCII letters. */
  function Lower(s: string): (r: string)
    ensures |r| == |s| && forall i :: 0 <= i < |s| ==> r[i] == LowerChar(s[i])
  {
    if s == [] then [] else [LowerChar(s[0])] + Lower(s[1..])
  }

  predicate IsSpace(c: char)
  {
    c == ' ' || c == '\t' || c == '\n' || c == '\r' || c == '\U{000B}' || c == '\U{000C}'
  }

  function TrimStart(s: string): (r: string)
    ensures r == [] || !IsSpace(r[0])
  {
    if s != [] && IsSpace(s[0]) then TrimStart(s[1..]) else s
  }

  /** The longest prefix of `s` made of decimal digits. */
  function DigitPrefix(s: string): (p: string)
    ensures p <= s && AllDigits(p)
    ensures |p| < |s| ==> !IsDigit(s[|p|])
  {
    if s != [] && IsDigit(s[0]) then [s[0]] + DigitPrefix(s[1..]) else []
  }

  /** The longest run of digits at the front of `t`, read as a number; None if there is none. */
  function LeadingDigits(t: string): Option<int>
  {
    var digits := DigitPrefix(t);
    if digits == [] then None else Some(DigitsValue(digits))
  }

  function Negate(v: Option<int>): Option<int>
  {
    match v
    case None => None
    case Some(x) => Some(-x)
  }

  /** `parseInt(s, 10)`, with None for NaN: leading white space is skipped, one sign is
      accepted, then the longest run of digits is read; no digit at all gives NaN. */
  function ParseInt(s: string): (r: Option<int>)
    ensures r.None? <==> DigitPrefix(Unsigned(TrimStart(s))) == []
    ensures r.Some? && !(TrimStart(s) != [] && TrimStart(s)[0] == '-') ==> r.value >= 0
  {
    ParseSigned(TrimStart(s))
  }

  function ParseSigned(t: string): Option<int>
  {
    if t != [] && t[0] == '-' then Negate(LeadingDigits(t[1..]))
    else if t != [] && t[0] == '+' then LeadingDigits(t[1..])
    else LeadingDigits(t)
  }

  lemma {:induction false} DigitPrefixOfDigits(s: string)
    requires AllDigits(s)
    ensures DigitPrefix(s) == s
  {
    if s != [] {
      DigitPrefixOfDigits(s[1..]);
    }
  }

  lemma ParseIntOfDigits(d: string)
    requires |d| >= 1 && AllDigits(d)
    ensures ParseInt(d) == Some(DigitsValue(d) as int)
  {
    assert IsDigit(d[0]);
    assert TrimStart(d) == d;
    DigitPrefixOfDigits(d);
  }

  lemma ParseIntOfNegatedDigits(s: string)
    requires |s| >= 2 && s[0] == '-' && AllDigits(s[1..])
    ensures ParseInt(s) == Some(0 - DigitsValue(s[1..]) as int)
  {
    assert TrimStart(s) == s;
    DigitPrefixOfDigits(s[1..]);
  }

  /** `parseInt(String(i), 10) == i` for every integer. */
  lemma ParseIntOfIntToString(i: int)
    ensures ParseInt(IntToString(i)) == Some(i)
  {
    if i < 0 {
      var n: nat := -i;
      var s := IntToString(i);
      assert s[1..] == Decimal(n);
      ParseIntOfNegatedDigits(s);
      DigitsValueOfDecimal(n);
    } else {
      ParseIntOfDigits(Decimal(i));
      DigitsValueOfDecimal(i);
    }
  }

  /** A hexadecimal digit, in either case. */
  predicate IsHexDigit(c: char) { IsDigit(c) || 'a' <= c <= 'f' || 'A' <= c <= 'F' }

  predicate AllHexDigits(s: string) { forall i :: 0 <= i < |s| ==> IsHexDigit(s[i]) }

  function HexDigitValue(c: char): (v: nat)
    requires IsHexDigit(c)
    ensures v < 16
    ensures IsDigit(c) ==> v == DigitValue(c)
  {
    if IsDigit(c) then DigitValue(c)
    else if 'a' <= c <= 'f' then c as int - 'a' as int + 10
    else c as int - 'A' as int + 10
  }

  /** The longest prefix of `s` made of hexadecimal digits. */
  function HexPrefix(s: string): (p: string)
    ensures p <= s && AllHexDigits(p)
    ensures |p| < |s| ==> !IsHexDigit(s[|p|])
  {
    if s != [] && IsHexDigit(s[0]) then [s[0]] + HexPrefix(s[1..]) else []
  }

  /** The value of a string of hexadecimal digits. */
  function HexValue(s: string): nat
    requires AllHexDigits(s)
  {
    if s == [] then 0 else HexValue(s[..|s| - 1]) * 16 + HexDigitValue(s[|s| - 1])
  }

  /** The text after the sign starts with `0x` or `0X`. */
  predicate HexMarked(t: string) { |t| >= 2 && t[0] == '0' && (t[1] == 'x' || t[1] == 'X') }

  /** What follows at most one sign. */
  function Unsigned(t: string): (u: string)
    ensures u == t || (t != [] && (t[0] == '-' || t[0] == '+') && u == t[1..])
  {
    if t != [] && (t[0] == '-' || t[0] == '+') then t[1..] else t
  }

  /** The numeral after the sign: hexadecimal digits after `0x` or `0X`, decimal digits
      otherwise; None when there is no digit. */
  function LeadingNumeral(t: string): Option<int>
  {
    if HexMarked(t) then
      var digits := HexPrefix(t[2..]);
      if digits == [] then None else Some(HexValue(digits))
    else LeadingDigits(t)
  }

  /** `parseInt(s)` with no radix, with None for NaN: as `parseInt(s, 10)`, except that
      `0x` or `0X` after the sign selects base 16. */
  function ParseIntAnyRadix(s: string): (r: Option<int>)
    ensures !HexMarked(Unsigned(TrimStart(s))) ==> r == ParseInt(s)
  {
    var t := TrimStart(s);
    if t != [] && t[0] == '-' then Negate(LeadingNumeral(t[1..]))
    else if t != [] && t[0] == '+' then LeadingNumeral(t[1..])
    else LeadingNumeral(t)
  }

  lemma {:induction false} HexPrefixOfHexDigits(h: string)
    requires AllHexDigits(h)
    ensures HexPrefix(h) == h
  {
    if h != [] {
      HexPrefixOfHexDigits(h[1..]);
    }
  }

  /** `parseInt("0x" + h)` reads the hexadecimal digits `h`. */
  lemma ParseIntAnyRadixOfHex(h: string)
    requires |h| >= 1 && AllHexDigits(h)
    ensures ParseIntAnyRadix("0x" + h) == Some(HexValue(h) as int)
  {
    var t := "0x" + h;
    assert TrimStart(t) == t;
    assert t[2..] == h;
    HexPrefixOfHexDigits(h);
  }

  /** The written form of an integer carries no `0x` mark, so `parseInt` without a radix
      reads it back too. */
  lemma ParseIntAnyRadixOfIntToString(i: int)
    ensures ParseIntAnyRadix(IntToString(i)) == Some(i)
  {
    var s := IntToString(i);
    var n: nat := if i < 0 then -i else i;
    assert s == Decimal(n) || (s[0] == '-' && s[1..] == Decimal(n));
    assert TrimStart(s) == s;
    assert Unsigned(s) == Decimal(n);
    assert !HexMarked(Decimal(n)) by {
      if |Decimal(n)| >= 2 {
        assert IsDigit(Decimal(n)[1]);
      }
    }
    ParseIntOfIntToString(i);
  }
}
