/** The handful of PHP built-ins the profile parser leans on, stated over
    strings of characters: trim(), explode(' ', ...), empty() on a string,
    the truthiness array_filter() applies, and the (int) / (float) casts. */
module PhpBuiltins {

  // ---------------------------------------------------------------------
  // trim()
  // ---------------------------------------------------------------------

  /** The characters PHP's trim() strips by default:
      space, tab, line feed, carriage return, NUL and vertical tab. */
  predicate IsTrimmable(c: char)
  {
    c == ' ' || c == '\t' || c == '\n' || c == '\r' || c == '\0' || c as int == 11
  }

  /** Drops the longest prefix of trimmable characters. */
  function TrimLeft(s: string): (r: string)
    ensures |r| <= |s|
    ensures r != [] ==> !IsTrimmable(r[0])
  {
    if s != [] && IsTrimmable(s[0]) then TrimLeft(s[1..]) else s
  }

  /** Drops the longest suffix of trimmable characters. */
  function TrimRight(s: string): (r: string)
    ensures |r| <= |s|
    ensures r != [] ==> r[0] == s[0] && !IsTrimmable(r[|r| - 1])
  {
    if s != [] && IsTrimmable(s[|s| - 1]) then TrimRight(s[..|s| - 1]) else s
  }

  /** TrimLeft removes a prefix, and only trimmable characters. */
  lemma {:induction false} TrimLeftDrops(s: string)
    ensures TrimLeft(s) == s[|s| - |TrimLeft(s)|..]
    ensures forall k :: 0 <= k < |s| - |TrimLeft(s)| ==> IsTrimmable(s[k])
  {
    if s != [] && IsTrimmable(s[0]) {
      TrimLeftDrops(s[1..]);
      assert s[1..][|s| - 1 - |TrimLeft(s)|..] == s[|s| - |TrimLeft(s)|..];
      forall k | 0 < k < |s| - |TrimLeft(s)| ensures IsTrimmable(s[k]) {
        assert s[k] == s[1..][k - 1];
      }
    }
  }

  /** TrimRight removes a suffix, and only trimmable characters. */
  lemma {:induction false} TrimRightDrops(s: string)
    ensures TrimRight(s) == s[..|TrimRight(s)|]
    ensures forall k :: |TrimRight(s)| <= k < |s| ==> IsTrimmable(s[k])
  {
    if s != [] && IsTrimmable(s[|s| - 1]) {
      var front := s[..|s| - 1];
      TrimRightDrops(front);
      assert front[..|TrimRight(s)|] == s[..|TrimRight(s)|];
      forall k | |TrimRight(s)| <= k < |s| - 1 ensures IsTrimmable(s[k]) {
        assert s[k] == front[k];
      }
    }
  }

  /** PHP trim(): the slice of s left after removing trimmable characters
      at both ends. */
  function Trim(s: string): (r: string)
    ensures r != [] ==> !IsTrimmable(r[0]) && !IsTrimmable(r[|r| - 1])
    ensures |r| <= |s|
  {
    TrimRight(TrimLeft(s))
  }

  /** Trim only removes characters at the ends: a string that neither starts
      nor ends with a trimmable character is left as it is, and trimming
      twice is the same as trimming once. */
  lemma TrimKeepsTrimmed(s: string)
    requires s != [] ==> !IsTrimmable(s[0]) && !IsTrimmable(s[|s| - 1])
    ensures Trim(s) == s
    ensures Trim(Trim(s)) == Trim(s)
  {
  }

  // ---------------------------------------------------------------------
  // empty() on a string, and truthiness
  // ---------------------------------------------------------------------

  /** PHP's empty() on a string: true exactly for "" and "0". */
  predicate IsEmptyString(s: string)
  {
    s == "" || s == "0"
  }

  /** A scalar value as it may appear in decoded JSON metadata. */
  datatype Flag =
    | BoolFlag(b: bool)
    | IntFlag(i: int)
    | FloatFlag(x: real)
    | StringFlag(s: string)
    | NullFlag

  /** PHP's conversion to bool, which array_filter() without a callback
      uses to decide what to keep. */
  predicate Truthy(f: Flag)
  {
    match f
    case BoolFlag(b) => b
    case IntFlag(i) => i != 0
    case FloatFlag(x) => x != 0.0
    case StringFlag(s) => !IsEmptyString(s)
    case NullFlag => false
  }

  // ---------------------------------------------------------------------
  // explode(' ', s)
  // ---------------------------------------------------------------------

  /** explode(' ', s): the pieces between single spaces. Two adjacent spaces
      give an empty piece, and there is always at least one piece. */
  function Explode(s: string): (parts: seq<string>)
    ensures |parts| >= 1
  {
    if s == [] then [""]
    else
      var rest := Explode(s[1..]);
      if s[0] == ' ' then [""] + rest
      else [[s[0]] + rest[0]] + rest[1..]
  }

  /** No piece contains the separator. */
  lemma {:induction false} ExplodePieces(s: string)
    ensures forall p :: p in Explode(s) ==> ' ' !in p
  {
    if s != [] {
      ExplodePieces(s[1..]);
      var rest := Explode(s[1..]);
      if s[0] != ' ' {
        assert rest[0] in rest;
        forall p | p in Explode(s) ensures ' ' !in p {
          if p != [s[0]] + rest[0] {
            assert p in rest[1..];
          }
        }
      }
    }
  }

  /** implode(' ', parts), the inverse of Explode. */
  function Implode(parts: seq<string>): string
    requires |parts| >= 1
  {
    if |parts| == 1 then parts[0] else parts[0] + " " + Implode(parts[1..])
  }

  /** Joining the pieces of a string with single spaces gives the string back. */
  lemma {:induction false} ImplodeExplode(s: string)
    ensures Implode(Explode(s)) == s
  {
    if s != [] {
      ImplodeExplode(s[1..]);
      var rest := Explode(s[1..]);
      if s[0] == ' ' {
        assert Explode(s) == [""] + rest;
        assert ([""] + rest)[1..] == rest;
      } else {
        assert Explode(s) == [[s[0]] + rest[0]] + rest[1..];
        if |rest| == 1 {
          assert Implode(Explode(s)) == [s[0]] + rest[0];
        } else {
          assert ([[s[0]] + rest[0]] + rest[1..])[1..] == rest[1..];
          assert Implode(rest) == rest[0] + " " + Implode(rest[1..]);
        }
      }
    }
  }

  /** A space-free string followed by a space splits off as one piece. */
  lemma {:induction false} ExplodeSpaceFree(a: string, b: string)
    requires ' ' !in a
    ensures Explode(a) == [a]
    ensures Explode(a + " " + b) == [a] + Explode(b)
  {
    if a != [] {
      assert (a + " " + b)[1..] == a[1..] + " " + b;
      ExplodeSpaceFree(a[1..], b);
      assert [a[0]] + a[1..] == a;
    } else {
      assert a + " " + b == [' '] + b;
    }
  }

  /** Splitting the space-joined pieces gives the pieces back, as long as
      no piece contains a space. */
  lemma {:induction false} ExplodeImplode(parts: seq<string>)
    requires |parts| >= 1
    requires forall p :: p in parts ==> ' ' !in p
    ensures Explode(Implode(parts)) == parts
  {
    assert parts[0] in parts;
    if |parts| == 1 {
      ExplodeSpaceFree(parts[0], "");
    } else {
      assert forall p :: p in parts[1..] ==> p in parts;
      ExplodeImplode(parts[1..]);
      ExplodeSpaceFree(parts[0], Implode(parts[1..]));
      assert [parts[0]] + parts[1..] == parts;
    }
  }

  // ---------------------------------------------------------------------
  // (int) and (float) casts of a string
  // ---------------------------------------------------------------------

  predicate IsDigit(c: char)
  {
    '0' <= c <= '9'
  }

  predicate AllDigits(s: string)
  {
    forall k :: 0 <= k < |s| ==> IsDigit(s[k])
  }

  /** The whitespace PHP skips in front of a numeric string. */
  predicate IsNumericLead(c: char)
  {
    c == ' ' || c == '\t' || c == '\n' || c == '\r' || c as int == 11 || c as int == 12
  }

  function SkipNumericLead(s: string): (r: string)
    ensures r != [] ==> !IsNumericLead(r[0])
  {
    if s != [] && IsNumericLead(s[0]) then SkipNumericLead(s[1..]) else s
  }

  /** Only leading whitespace is skipped: the rest is a suffix of s and
      every character dropped is whitespace. */
  lemma {:induction false} SkipDropsLead(s: string)
    ensures |SkipNumericLead(s)| <= |s|
    ensures SkipNumericLead(s) == s[|s| - |SkipNumericLead(s)|..]
    ensures forall k :: 0 <= k < |s| - |SkipNumericLead(s)| ==> IsNumericLead(s[k])
  {
    if s != [] && IsNumericLead(s[0]) {
      SkipDropsLead(s[1..]);
      assert s[1..][|s| - 1 - |SkipNumericLead(s)|..] == s[|s| - |SkipNumericLead(s)|..];
      forall k | 0 < k < |s| - |SkipNumericLead(s)| ensures IsNumericLead(s[k]) {
        assert s[k] == s[1..][k - 1];
      }
    }
  }

  /** Length of the run of decimal digits s starts with. */
  function DigitRun(s: string): (n: nat)
    ensures n <= |s|
    ensures AllDigits(s[..n])
    ensures n < |s| ==> !IsDigit(s[n])
  {
    if s != [] && IsDigit(s[0]) then
      var n := 1 + DigitRun(s[1..]);
      assert forall k :: 1 <= k < n ==> s[..n][k] == s[1..][..n - 1][k - 1];
      n
    else 0
  }

  /** The value of one decimal digit (0 for any other character). */
  function Digit(c: char): nat
  {
    if IsDigit(c) then c as int - '0' as int else 0
  }

  /** The number a string of decimal digits denotes. */
  function DigitsValue(ds: string): nat
  {
    if ds == [] then 0
    else 10 * DigitsValue(ds[..|ds| - 1]) + Digit(ds[|ds| - 1])
  }

  /** The pieces of a numeric string in plain decimal notation, as PHP reads
      them: a sign, the digits before the point and the digits after it. */
  datatype Numeral = Numeral(sign: int, whole: string, fraction: string)

  /** The digits after an optional leading sign. */
  function Unsigned(t: string): string
  {
    if t != [] && (t[0] == '-' || t[0] == '+') then t[1..] else t
  }

  function SignOf(t: string): int
  {
    if t != [] && t[0] == '-' then -1 else 1
  }

  /** The fraction digits after a decimal point, if `rest` starts with one. */
  function FractionOf(rest: string): (f: string)
    ensures AllDigits(f)
  {
    if rest != [] && rest[0] == '.' then rest[1..][..DigitRun(rest[1..])] else ""
  }

  /** Reads a numeral off the front of s: leading whitespace, an optional
      sign, the longest run of digits, and an optional '.' followed by
      fraction digits. Whatever follows is ignored. */
  function ReadNumeral(s: string): (n: Numeral)
    ensures n.sign == 1 || n.sign == -1
    ensures AllDigits(n.whole) && AllDigits(n.fraction)
  {
    var t := SkipNumericLead(s);
    var digits := Unsigned(t);
    var whole := DigitRun(digits);
    Numeral(SignOf(t), digits[..whole], FractionOf(digits[whole..]))
  }

  /** PHP's (int) cast of a string: the sign and whole digits of the numeral
      it starts with; a string that starts with no digits casts to 0. */
  function IntCast(s: string): int
  {
    var n := ReadNumeral(s);
    if n.sign < 0 then -(DigitsValue(n.whole) as int) else DigitsValue(n.whole)
  }

  /** PHP's (float) cast of a string in plain decimal notation. */
  function FloatCast(s: string): real
  {
    var n := ReadNumeral(s);
    var magnitude := DigitsValue(n.whole) as real + FractionValue(n.fraction);
    if n.sign < 0 then -magnitude else magnitude
  }

  /** The value of the digits after a decimal point: 0.d1d2... */
  function FractionValue(ds: string): real
  {
    if ds == [] then 0.0
    else (Digit(ds[0]) as real + FractionValue(ds[1..])) / 10.0
  }

  /** The decimal rendering of a natural number, the partner of the casts. */
  function Show(n: nat): (s: string)
    ensures s != [] && AllDigits(s)
  {
    if n < 10 then ['0' + n as char]
    else Show(n / 10) + ['0' + (n % 10) as char]
  }

  lemma {:induction false} ShowValue(n: nat)
    ensures DigitsValue(Show(n)) == n
    ensures DigitRun(Show(n)) == |Show(n)|
  {
    var s := Show(n);
    DigitRunAllDigits(s);
    if n >= 10 {
      ShowValue(n / 10);
      assert s[..|s| - 1] == Show(n / 10);
    }
  }

  lemma {:induction false} DigitRunAllDigits(s: string)
    requires AllDigits(s)
    ensures DigitRun(s) == |s|
  {
    if s != [] {
      DigitRunAllDigits(s[1..]);
    }
  }

  /** Casting the rendering of a number gives the number back, with or
      without a minus sign in front. */
  lemma CastShow(n: nat)
    ensures IntCast(Show(n)) == n
    ensures IntCast("-" + Show(n)) == -(n as int)
    ensures FloatCast(Show(n)) == n as real
    ensures FloatCast("-" + Show(n)) == -(n as real)
  {
    var s := Show(n);
    ShowValue(n);
    ReadDigits(s);
    ReadNegativeDigits(s);
  }

  /** The numeral read from a run of digits. */
  lemma ReadDigits(s: string)
    requires s != [] && AllDigits(s) && DigitRun(s) == |s|
    ensures ReadNumeral(s) == Numeral(1, s, "")
  {
    UnsignedDigits(s);
    assert s[..|s|] == s;
    assert s[|s|..] == [];
  }

  /** A run of digits has no leading whitespace and no sign to skip. */
  lemma UnsignedDigits(s: string)
    requires s != [] && IsDigit(s[0])
    ensures SkipNumericLead(s) == s && SignOf(s) == 1 && Unsigned(s) == s
  {
  }

  /** The numeral read from a minus sign and a run of digits. */
  lemma ReadNegativeDigits(s: string)
    requires s != [] && AllDigits(s) && DigitRun(s) == |s|
    ensures ReadNumeral("-" + s) == Numeral(-1, s, "")
  {
    var t := "-" + s;
    assert t[0] == '-';
    assert SkipNumericLead(t) == t;
    assert Unsigned(t) == s;
    assert s[..|s|] == s;
    assert s[|s|..] == [];
  }
}
