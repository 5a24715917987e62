// String operations of the Python 2 runtime that the modelled code relies on:
// `repr` of a byte string, `str.join`, `str.split` on one character,
// `str.lower`/`upper`/`title` (ASCII), `str.strip`, decimal conversion in both
// directions, and the ordering `sorted` uses on strings.
module PyText {
  import opened PyErrors

  /** `sep.join(parts)`. */
  function Join(sep: string, parts: seq<string>): string
  {
    if |parts| == 0 then ""
    else if |parts| == 1 then parts[0]
    else parts[0] + sep + Join(sep, parts[1..])
  }

  /** `s.split(c)`: the pieces between occurrences of `c`, empty pieces kept. */
  function SplitOn(s: string, c: char): (r: seq<string>)
    ensures |r| >= 1
    ensures forall i :: 0 <= i < |r| ==> c !in r[i]
  {
    if |s| == 0 then [""]
    else
      var rest := SplitOn(s[1..], c);
      if s[0] == c then [""] + rest
      else [[s[0]] + rest[0]] + rest[1..]
  }

  /** Splitting on `c` and joining the pieces with `c` gives back the string. */
  lemma {:induction false} JoinSplitOn(s: string, c: char)
    ensures Join([c], SplitOn(s, c)) == s
  {
    if |s| > 0 {
      var rest := SplitOn(s[1..], c);
      JoinSplitOn(s[1..], c);
      if s[0] == c {
        assert SplitOn(s, c) == [""] + rest;
        assert ([""] + rest)[1..] == rest;
      } else {
        var r := [[s[0]] + rest[0]] + rest[1..];
        assert SplitOn(s, c) == r;
        if |rest| == 1 {
          assert Join([c], r) == [s[0]] + rest[0];
        } else {
          assert r[1..] == rest[1..];
          assert Join([c], rest) == rest[0] + [c] + Join([c], rest[1..]);
        }
      }
    }
  }

  /** Pieces that contain no `c` are recovered by splitting their join. */
  lemma {:induction false} SplitOnJoin(parts: seq<string>, c: char)
    requires |parts| >= 1
    requires forall i :: 0 <= i < |parts| ==> c !in parts[i]
    ensures SplitOn(Join([c], parts), c) == parts
  {
    if |parts| == 1 {
      SplitOnNoSep(parts[0], c);
    } else {
      SplitOnJoin(parts[1..], c);
      SplitOnPrefix(parts[0], c, Join([c], parts[1..]));
      assert [c] + Join([c], parts[1..]) == [c] + Join([c], parts[1..]);
      assert parts[0] + [c] + Join([c], parts[1..]) == parts[0] + ([c] + Join([c], parts[1..]));
      assert ([c] + Join([c], parts[1..]))[1..] == Join([c], parts[1..]);
      assert [parts[0]] + parts[1..] == parts;
    }
  }

  lemma {:induction false} SplitOnNoSep(s: string, c: char)
    requires c !in s
    ensures SplitOn(s, c) == [s]
  {
    if |s| > 0 {
      SplitOnNoSep(s[1..], c);
      assert [s[0]] + s[1..] == s;
    }
  }

  lemma {:induction false} SplitOnPrefix(p: string, c: char, t: string)
    requires c !in p
    ensures SplitOn(p + [c] + t, c) == [p] + SplitOn(t, c)
  {
    if |p| == 0 {
      assert p + [c] + t == [c] + t;
      assert ([c] + t)[1..] == t;
    } else {
      assert (p + [c] + t)[1..] == p[1..] + [c] + t;
      SplitOnPrefix(p[1..], c, t);
      assert [p[0]] + p[1..] == p;
    }
  }

  predicate IsDigit(c: char) { '0' <= c <= '9' }

  predicate IsUpperAscii(c: char) { 'A' <= c <= 'Z' }

  predicate IsLowerAscii(c: char) { 'a' <= c <= 'z' }

  /** `string.whitespace` of Python 2. */
  predicate IsSpace(c: char)
  {
    c == ' ' || c == '\t' || c == '\n' || c == '\r' || c as int == 11 || c as int == 12
  }

  function LowerChar(c: char): char
  {
    if IsUpperAscii(c) then (c as int + 32) as char else c
  }

  function UpperChar(c: char): char
  {
    if IsLowerAscii(c) then (c as int - 32) as char else c
  }

  /** `s.lower()` on ASCII letters. */
  function Lower(s: string): (r: string)
    ensures |r| == |s|
    ensures forall i :: 0 <= i < |s| ==> r[i] == LowerChar(s[i])
  {
    if |s| == 0 then "" else [LowerChar(s[0])] + Lower(s[1..])
  }

  /** `s.upper()` on ASCII letters. */
  function Upper(s: string): (r: string)
    ensures |r| == |s|
    ensures forall i :: 0 <= i < |s| ==> r[i] == UpperChar(s[i])
  {
    if |s| == 0 then "" else [UpperChar(s[0])] + Upper(s[1..])
  }

  /** `s.title()`: a letter is upper-cased when it follows a non-letter (or
      starts the string) and lower-cased when it follows a letter. */
  function Title(s: string): string
  {
    TitleFrom(s, false)
  }

  function TitleFrom(s: string, previousIsCased: bool): string
  {
    if |s| == 0 then ""
    else
      var c := s[0];
      var cased := IsUpperAscii(c) || IsLowerAscii(c);
      var d := if !cased then c else if previousIsCased then LowerChar(c) else UpperChar(c);
      [d] + TitleFrom(s[1..], cased)
  }

  predicate IsCased(c: char) { IsUpperAscii(c) || IsLowerAscii(c) }

  /** `title()` keeps the length of its input and each character up to
      case, and never leaves a capital straight after a letter. */
  lemma {:induction false} TitleFromShape(s: string, previousIsCased: bool)
    ensures |TitleFrom(s, previousIsCased)| == |s|
    ensures forall i :: 0 <= i < |s| ==> LowerChar(TitleFrom(s, previousIsCased)[i]) == LowerChar(s[i])
    ensures forall i :: 0 <= i < |s| ==> (IsCased(TitleFrom(s, previousIsCased)[i]) <==> IsCased(s[i]))
    ensures forall i :: 0 < i < |s| && IsCased(s[i - 1]) ==> !IsUpperAscii(TitleFrom(s, previousIsCased)[i])
    ensures |s| > 0 && previousIsCased ==> !IsUpperAscii(TitleFrom(s, previousIsCased)[0])
    decreases |s|
  {
    if |s| > 0 {
      var t := TitleFrom(s[1..], IsCased(s[0]));
      TitleFromShape(s[1..], IsCased(s[0]));
      var r := TitleFrom(s, previousIsCased);
      assert r[1..] == t;
      forall i | 0 < i < |s| && IsCased(s[i - 1])
        ensures !IsUpperAscii(r[i])
      {
        assert r[i] == t[i - 1];
        if i > 1 {
          assert s[1..][i - 2] == s[i - 1];
        }
      }
    }
  }

  /** `s.strip()`. */
  function Strip(s: string): (r: string)
    ensures |r| <= |s|
  {
    RStrip(LStrip(s))
  }

  function LStrip(s: string): (r: string)
    ensures |r| <= |s|
    ensures |r| > 0 ==> !IsSpace(r[0])
    ensures r == s[|s| - |r|..]
  {
    if |s| > 0 && IsSpace(s[0]) then LStrip(s[1..]) else s
  }

  function RStrip(s: string): (r: string)
    ensures |r| <= |s|
    ensures |r| > 0 ==> !IsSpace(r[|r| - 1])
    ensures r == s[..|r|]
  {
    if |s| > 0 && IsSpace(s[|s| - 1]) then RStrip(s[..|s| - 1]) else s
  }

  function DigitValue(c: char): nat
    requires IsDigit(c)
  {
    c as int - '0' as int
  }

  predicate AllDigits(s: string)
  {
    forall i :: 0 <= i < |s| ==> IsDigit(s[i])
  }

  /** The value of a string of decimal digits. */
  function DigitsValue(s: string): nat
    requires AllDigits(s)
  {
    if |s| == 0 then 0 else DigitsValue(s[..|s| - 1]) * 10 + DigitValue(s[|s| - 1])
  }

  /** `"%i" % n` for a natural number. */
  function NatToString(n: nat): (r: string)
    ensures |r| >= 1 && AllDigits(r)
    ensures |r| > 1 ==> r[0] != '0'
  {
    if n < 10 then [('0' as int + n) as char]
    else NatToString(n / 10) + [('0' as int + n % 10) as char]
  }

  /** `"%i" % n`. */
  function IntToString(n: int): string
  {
    if n < 0 then "-" + NatToString(-n) else NatToString(n)
  }

  lemma {:induction false} DigitsValueOfNatToString(n: nat)
    ensures DigitsValue(NatToString(n)) == n
  {
    if n >= 10 {
      var s := NatToString(n);
      DigitsValueOfNatToString(n / 10);
      assert s[..|s| - 1] == NatToString(n / 10);
    }
  }

  /** `int(s)` for a string: surrounding whitespace, an optional sign, then
      one or more digits; anything else is a ValueError (`None`). */
  function ParseInt(s: string): (r: Option<int>)
  {
    var t := Strip(s);
    if |t| > 0 && (t[0] == '-' || t[0] == '+') then
      var d := t[1..];
      if |d| > 0 && AllDigits(d) then
        var v: int := DigitsValue(d);
        Some(if t[0] == '-' then -v else v)
      else None
    else if |t| > 0 && AllDigits(t) then Some(DigitsValue(t))
    else None
  }

  /** Formatting an integer with `%i` and reading it back with `int` is the
      identity. */
  lemma ParseIntOfIntToString(n: int)
    ensures ParseInt(IntToString(n)) == Some(n)
  {
    var s := IntToString(n);
    NoSpaceInDigits(NatToString(if n < 0 then -n else n));
    StripNoSpace(s);
    if n < 0 {
      DigitsValueOfNatToString(-n);
      assert s[1..] == NatToString(-n);
    } else {
      DigitsValueOfNatToString(n);
    }
  }

  lemma NoSpaceInDigits(s: string)
    requires AllDigits(s)
    ensures forall i :: 0 <= i < |s| ==> !IsSpace(s[i])
  {
  }

  lemma StripNoSpace(s: string)
    requires |s| > 0 && !IsSpace(s[0]) && !IsSpace(s[|s| - 1])
    ensures Strip(s) == s
  {
  }

  // ---------------------------------------------------------------------
  // `repr` of a Python 2 byte string

  function HexDigit(n: nat): char
    requires n < 16
  {
    if n < 10 then ('0' as int + n) as char else ('a' as int + n - 10) as char
  }

  /** The quote `repr` chooses: a single quote, unless the string holds a
      single quote and no double quote. */
  function ReprQuote(s: string): char
  {
    if '\'' in s && '"' !in s then '"' else '\''
  }

  /** The escaped form of one character inside a quoted literal using `q`. */
  function EscapeChar(c: char, q: char): string
  {
    if c == q || c == '\\' then ['\\', c]
    else if c == '\t' then "\\t"
    else if c == '\n' then "\\n"
    else if c == '\r' then "\\r"
    else if c < ' ' || c as int >= 0x7f then
      var b := c as int % 256;
      ['\\', 'x', HexDigit(b / 16), HexDigit(b % 16)]
    else [c]
  }

  function Escape(s: string, q: char): string
  {
    if |s| == 0 then "" else EscapeChar(s[0], q) + Escape(s[1..], q)
  }

  /** `repr(s)` for a Python 2 `str`. */
  function Repr(s: string): (r: string)
    ensures |r| >= 2
  {
    var q := ReprQuote(s);
    [q] + Escape(s, q) + [q]
  }

  function HexValue(c: char): nat
  {
    if '0' <= c <= '9' then c as int - '0' as int
    else if 'a' <= c <= 'f' then c as int - 'a' as int + 10
    else 0
  }

  /** Reading an escaped literal body back (the inverse of `Escape` on
      byte-valued characters). */
  function Unescape(e: string): string
  {
    if |e| == 0 then ""
    else if e[0] == '\\' && |e| >= 2 then
      if e[1] == 't' then "\t" + Unescape(e[2..])
      else if e[1] == 'n' then "\n" + Unescape(e[2..])
      else if e[1] == 'r' then "\r" + Unescape(e[2..])
      else if e[1] == 'x' && |e| >= 4 then
        [(HexValue(e[2]) * 16 + HexValue(e[3])) as char] + Unescape(e[4..])
      else [e[1]] + Unescape(e[2..])
    else [e[0]] + Unescape(e[1..])
  }

  /** Characters a Python 2 byte string can hold. */
  predicate IsByteString(s: string)
  {
    forall i :: 0 <= i < |s| ==> s[i] as int < 256
  }

  predicate IsQuote(q: char) { q == '\'' || q == '"' }

  lemma EscapeCharUnescape(c: char, q: char, rest: string)
    requires c as int < 256 && IsQuote(q)
    ensures Unescape(EscapeChar(c, q) + rest) == [c] + Unescape(rest)
  {
    if c == q || c == '\\' {
      EscapeQuotedUnescape(c, q, rest);
    } else if c == '\t' || c == '\n' || c == '\r' {
      EscapeControlUnescape(c, q, rest);
    } else if c < ' ' || c as int >= 0x7f {
      EscapeHexUnescape(c, q, rest);
    } else {
      var e := [c] + rest;
      assert e[1..] == rest;
    }
  }

  lemma EscapeQuotedUnescape(c: char, q: char, rest: string)
    requires IsQuote(q) && (c == q || c == '\\')
    ensures Unescape(EscapeChar(c, q) + rest) == [c] + Unescape(rest)
  {
    var e := ['\\', c] + rest;
    assert e[2..] == rest;
  }

  lemma EscapeControlUnescape(c: char, q: char, rest: string)
    requires c != q && c != '\\' && (c == '\t' || c == '\n' || c == '\r')
    ensures Unescape(EscapeChar(c, q) + rest) == [c] + Unescape(rest)
  {
    var e := EscapeChar(c, q) + rest;
    assert e[2..] == rest;
  }

  lemma EscapeHexUnescape(c: char, q: char, rest: string)
    requires c as int < 256 && c != q && c != '\\' && c != '\t' && c != '\n' && c != '\r'
    requires c < ' ' || c as int >= 0x7f
    ensures Unescape(EscapeChar(c, q) + rest) == [c] + Unescape(rest)
  {
    var b := c as int;
    var hi, lo := b / 16, b % 16;
    HexValueOfDigit(hi);
    HexValueOfDigit(lo);
    EscapeCharHex(c, q);
    var e := ['\\', 'x', HexDigit(hi), HexDigit(lo)] + rest;
    assert e[2] == HexDigit(hi) && e[3] == HexDigit(lo) && e[4..] == rest;
    assert (HexValue(e[2]) * 16 + HexValue(e[3])) as char == c by {
      assert hi * 16 + lo == b;
    }
  }

  lemma EscapeCharHex(c: char, q: char)
    requires c as int < 256 && c != q && c != '\\' && c != '\t' && c != '\n' && c != '\r'
    requires c < ' ' || c as int >= 0x7f
    ensures EscapeChar(c, q) == ['\\', 'x', HexDigit(c as int / 16), HexDigit(c as int % 16)]
  {
    var b := c as int % 256;
    assert b == c as int;
  }

  lemma HexValueOfDigit(n: nat)
    requires n < 16
    ensures HexValue(HexDigit(n)) == n
  {
  }

  /** `Unescape` undoes `Escape`, so `repr` loses no information. */
  lemma {:induction false} UnescapeEscape(s: string, q: char)
    requires IsByteString(s) && IsQuote(q)
    ensures Unescape(Escape(s, q)) == s
  {
    if |s| > 0 {
      UnescapeEscape(s[1..], q);
      EscapeCharUnescape(s[0], q, Escape(s[1..], q));
    }
  }

  /** The body of `repr(s)` between its quotes decodes back to `s`. */
  lemma ReprRoundTrip(s: string)
    requires IsByteString(s)
    ensures var r := Repr(s); r[0] == r[|r| - 1] && Unescape(r[1..|r| - 1]) == s
  {
    var r := Repr(s);
    var q := ReprQuote(s);
    assert r[1..|r| - 1] == Escape(s, q);
    UnescapeEscape(s, q);
  }

  // ---------------------------------------------------------------------
  // Ordering of strings, as `sorted` and `<` use it

  /** Lexicographic `<` on strings. */
  predicate StrLess(a: string, b: string)
  {
    if |a| == 0 then |b| > 0
    else if |b| == 0 then false
    else if a[0] != b[0] then a[0] < b[0]
    else StrLess(a[1..], b[1..])
  }

  lemma {:induction false} StrLessIrreflexive(a: string)
    ensures !StrLess(a, a)
  {
    if |a| > 0 { StrLessIrreflexive(a[1..]); }
  }

  lemma {:induction false} StrLessTotal(a: string, b: string)
    requires a != b
    ensures StrLess(a, b) || StrLess(b, a)
  {
    if |a| > 0 && |b| > 0 && a[0] == b[0] {
      assert a == [a[0]] + a[1..];
      assert b == [b[0]] + b[1..];
      StrLessTotal(a[1..], b[1..]);
    }
  }

  lemma {:induction false} StrLessTransitive(a: string, b: string, c: string)
    requires StrLess(a, b) && StrLess(b, c)
    ensures StrLess(a, c)
  {
    if |a| > 0 && |b| > 0 && |c| > 0 && a[0] == b[0] && b[0] == c[0] {
      StrLessTransitive(a[1..], b[1..], c[1..]);
    }
  }

  lemma StrLessAsymmetric(a: string, b: string)
    requires StrLess(a, b)
    ensures !StrLess(b, a)
  {
    if StrLess(b, a) {
      StrLessTransitive(a, b, a);
      StrLessIrreflexive(a);
    }
  }

  predicate SortedStrings(s: seq<string>)
  {
    forall i, j {:trigger StrLess(s[i], s[j])} :: 0 <= i < j < |s| ==> StrLess(s[i], s[j])
  }

  /** A smallest string of a non-empty finite set exists. */
  lemma MinStringExists(xs: set<string>)
    requires xs != {}
    ensures exists m :: m in xs && forall x :: x in xs ==> !StrLess(x, m)
  {
    var m := MinStringWitness(xs);
  }

  lemma {:induction false} MinStringWitness(xs: set<string>) returns (m: string)
    requires xs != {}
    ensures m in xs && forall y :: y in xs ==> !StrLess(y, m)
    decreases |xs|
  {
    var x :| x in xs;
    var others := xs - {x};
    if others == {} {
      m := x;
      StrLessIrreflexive(x);
      forall y | y in xs ensures y == x {
        assert y !in others;
      }
    } else {
      var m' := MinStringWitness(others);
      if StrLess(x, m') {
        m := x;
        forall y | y in xs ensures !StrLess(y, x) {
          if y == x {
            StrLessIrreflexive(x);
          } else if StrLess(y, x) {
            StrLessTransitive(y, x, m');
          }
        }
      } else {
        m := m';
      }
    }
  }

  lemma StrLessTotalAll()
    ensures forall a: string, b: string :: a != b ==> StrLess(a, b) || StrLess(b, a)
  {
    forall a: string, b: string | a != b ensures StrLess(a, b) || StrLess(b, a) {
      StrLessTotal(a, b);
    }
  }

  /** The smallest string of a non-empty finite set. */
  function MinString(xs: set<string>): (m: string)
    requires xs != {}
    ensures m in xs
    ensures forall x :: x in xs && x != m ==> StrLess(m, x)
  {
    MinStringExists(xs);
    StrLessTotalAll();
    var m :| m in xs && forall x :: x in xs ==> !StrLess(x, m);
    m
  }

  /** `sorted(xs)` for a set of strings. */
  function SortedSet(xs: set<string>): (r: seq<string>)
    ensures |r| == |xs|
    ensures forall x :: x in xs <==> x in r
    ensures SortedStrings(r)
    decreases |xs|
  {
    if xs == {} then []
    else
      var m := MinString(xs);
      var rest := SortedSet(xs - {m});
      assert forall j :: 0 <= j < |rest| ==> rest[j] in xs - {m} by {
        forall j | 0 <= j < |rest| ensures rest[j] in xs - {m} {
          assert rest[j] in rest;
        }
      }
      SortedCons(m, rest);
      [m] + rest
  }

  lemma SortedCons(m: string, rest: seq<string>)
    requires SortedStrings(rest)
    requires forall j :: 0 <= j < |rest| ==> StrLess(m, rest[j])
    ensures SortedStrings([m] + rest)
  {
    var r := [m] + rest;
    forall i, j | 0 <= i < j < |r|
      ensures StrLess(r[i], r[j])
    {
      assert r[j] == rest[j - 1];
      if i > 0 {
        assert r[i] == rest[i - 1];
        assert StrLess(rest[i - 1], rest[j - 1]);
      }
    }
  }

  lemma SortedStringsDistinct(s: seq<string>)
    requires SortedStrings(s)
    ensures forall i, j :: 0 <= i < j < |s| ==> s[i] != s[j]
  {
    forall i, j | 0 <= i < j < |s| ensures s[i] != s[j] {
      assert StrLess(s[i], s[j]);
      if s[i] == s[j] { StrLessIrreflexive(s[i]); }
    }
  }
}
