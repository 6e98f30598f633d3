/** The parts of Python's string built-ins the news application relies on:
    `str()` of an integer, `int()` of a decimal string, `startswith`, `find`
    and `split`. Strings are sequences of characters. */
module PyStr {
  import opened Wrappers

  predicate IsDigit(c: char) {
    '0' <= c <= '9'
  }

  predicate AllDigits(s: string) {
    forall i | 0 <= i < |s| :: IsDigit(s[i])
  }

  function DigitChar(d: nat): (c: char)
    requires d < 10
    ensures IsDigit(c)
  {
    ('0' as int + d) as char
  }

  function DigitValue(c: char): (d: nat)
    requires IsDigit(c)
    ensures d < 10 && DigitChar(d) == c
  {
    (c as int - '0' as int) as nat
  }

  /** `str(n)` for a non-negative integer: its decimal digits, most significant first. */
  function NatToString(n: nat): (r: string)
    ensures |r| >= 1 && AllDigits(r)
    ensures n < 10 <==> |r| == 1
  {
    if n < 10 then [DigitChar(n)] else NatToString(n / 10) + [DigitChar(n % 10)]
  }

  /** `str(i)` for any integer: a minus sign in front of a negative value. */
  function IntToString(i: int): (r: string)
    ensures |r| >= 1
    ensures i < 0 <==> r[0] == '-'
  {
    if i < 0 then "-" + NatToString(-i) else NatToString(i)
  }

  /** The value of a string of decimal digits (the empty string has value 0). */
  function DigitsValue(s: string): nat
    requires AllDigits(s)
  {
    if s == [] then 0 else DigitsValue(s[..|s| - 1]) * 10 + DigitValue(s[|s| - 1])
  }

  /** `int(s)` restricted to what a primary key in a URL can be: one or more
      decimal digits. Anything else is a `ValueError`, here `None`. */
  function ParseNat(s: string): (r: Option<nat>)
    ensures r.Some? <==> |s| >= 1 && AllDigits(s)
  {
    if |s| >= 1 && AllDigits(s) then Some(DigitsValue(s)) else None
  }

  /** Reading back what `str()` wrote gives the original number. */
  lemma {:induction false} ParseNatToString(n: nat)
    ensures ParseNat(NatToString(n)) == Some(n)
  {
    var r := NatToString(n);
    if n < 10 {
      assert r[..|r| - 1] == [];
      assert DigitsValue(r) == DigitsValue([]) * 10 + DigitValue(r[0]);
    } else {
      ParseNatToString(n / 10);
      assert r[..|r| - 1] == NatToString(n / 10);
      assert DigitValue(r[|r| - 1]) == n % 10;
    }
  }

  /** Distinct numbers are written differently, so comparing `str()`s compares numbers. */
  lemma NatToStringInjective(m: nat, n: nat)
    ensures NatToString(m) == NatToString(n) <==> m == n
  {
    if NatToString(m) == NatToString(n) {
      ParseNatToString(m);
      ParseNatToString(n);
    }
  }

  /** `s.startswith(prefix)`. */
  predicate StartsWith(s: string, prefix: string) {
    |prefix| <= |s| && s[..|prefix|] == prefix
  }

  /** `s.find(c)`: the index of the first occurrence of `c`, if any. */
  function IndexOf(s: string, c: char): (r: Option<nat>)
    ensures r.None? <==> c !in s
    ensures r.Some? ==> r.value < |s| && s[r.value] == c && c !in s[..r.value]
  {
    if s == [] then None
    else if s[0] == c then Some(0)
    else match IndexOf(s[1..], c)
      case None => None
      case Some(i) => assert s[..i + 1] == [s[0]] + s[1..][..i]; Some(i + 1)
  }

  /** Past a first character that differs, the index moves up by one. */
  lemma IndexOfPastHead(x: string, c: char)
    requires x != [] && x[0] != c
    ensures IndexOf(x, c) == match IndexOf(x[1..], c) case None => None case Some(i) => Some(i + 1)
  {
  }

  /** The first occurrence of a character in `p + s` lies in `s` when `p` does not contain it. */
  lemma {:induction false} IndexOfAfterPrefix(p: string, s: string, c: char)
    requires c !in p
    ensures IndexOf(p + s, c) == match IndexOf(s, c) case None => None case Some(i) => Some(|p| + i)
  {
    if p != [] {
      assert (p + s)[0] == p[0] != c;
      assert (p + s)[1..] == p[1..] + s;
      IndexOfAfterPrefix(p[1..], s, c);
      IndexOfPastHead(p + s, c);
      match IndexOf(s, c)
      case None =>
      case Some(i) => assert IndexOf(p[1..] + s, c) == Some(|p| - 1 + i);
    } else {
      assert p + s == s;
    }
  }

  /** `s.split(sep)`: the pieces between occurrences of `sep`; always at least one. */
  function Split(s: string, sep: char): (r: seq<string>)
    ensures |r| >= 1
    decreases |s|
  {
    if s == [] then [""]
    else
      var rest := Split(s[1..], sep);
      if s[0] == sep then [""] + rest else [[s[0]] + rest[0]] + rest[1..]
  }

  /** `sep.join(parts)`. */
  function Join(parts: seq<string>, sep: char): string
    requires |parts| >= 1
  {
    if |parts| == 1 then parts[0] else parts[0] + [sep] + Join(parts[1..], sep)
  }

  /** Splitting loses nothing: joining the pieces again gives back the string. */
  lemma {:induction false} JoinSplit(s: string, sep: char)
    ensures Join(Split(s, sep), sep) == s
  {
    if s != [] {
      var rest := Split(s[1..], sep);
      JoinSplit(s[1..], sep);
      if s[0] != sep {
        if |rest| > 1 {
          assert rest == [rest[0]] + rest[1..];
          assert Join(rest, sep) == rest[0] + [sep] + Join(rest[1..], sep);
        }
      }
    }
  }

  predicate AllNonEmpty(parts: seq<string>) {
    forall i | 0 <= i < |parts| :: |parts[i]| > 0
  }

  /** No piece of `s.split(sep)` is empty: `s` is not empty, does not begin
      or end with `sep`, and never has `sep` twice in a row. */
  predicate NoEmptyPiece(s: string, sep: char) {
    && |s| >= 1
    && s[0] != sep
    && s[|s| - 1] != sep
    && forall i | 0 <= i < |s| - 1 :: !(s[i] == sep && s[i + 1] == sep)
  }

  /** `ab..` with `b` the separator: the pieces are `a` and those of the rest after `b`. */
  lemma SplitAfterSeparator(s: string, sep: char)
    requires |s| >= 2 && s[0] != sep && s[1] == sep
    ensures AllNonEmpty(Split(s, sep)) <==> AllNonEmpty(Split(s[2..], sep))
  {
    var t, u := s[1..], s[2..];
    assert t[1..] == u;
    var rest := Split(t, sep);
    assert rest == [""] + Split(u, sep);
    assert rest[0] == "" && rest[1..] == Split(u, sep);
    assert [s[0]] + rest[0] == [s[0]];
    assert Split(s, sep) == [[s[0]]] + Split(u, sep);
    assert forall i | 0 <= i < |Split(u, sep)| :: Split(s, sep)[i + 1] == Split(u, sep)[i];
    if AllNonEmpty(Split(u, sep)) {
      forall i | 0 <= i < |Split(s, sep)| ensures |Split(s, sep)[i]| > 0 {
        if i > 0 { assert Split(s, sep)[i] == Split(u, sep)[i - 1]; }
      }
    }
  }

  /** `ab..` with `b` the separator: no piece is empty exactly when the rest
      after `b` is not empty and has no empty piece either. */
  lemma SeparatorSecond(s: string, sep: char)
    requires |s| >= 2 && s[0] != sep && s[1] == sep
    ensures NoEmptyPiece(s, sep) <==> |s| > 2 && NoEmptyPiece(s[2..], sep)
  {
    var u := s[2..];
    if |s| > 2 && NoEmptyPiece(u, sep) {
      forall i | 0 <= i < |s| - 1 ensures !(s[i] == sep && s[i + 1] == sep) {
        if i >= 2 { assert s[i] == u[i - 2] && s[i + 1] == u[i - 1]; }
      }
    }
    if NoEmptyPiece(s, sep) {
      forall i | 0 <= i < |u| - 1 ensures !(u[i] == sep && u[i + 1] == sep) {
        assert u[i] == s[i + 2] && u[i + 1] == s[i + 3];
      }
    }
  }

  /** `ab..` with neither `a` nor `b` the separator: `a` joins the first piece of the rest. */
  lemma SplitWithinPiece(s: string, sep: char)
    requires |s| >= 2 && s[0] != sep && s[1] != sep
    ensures AllNonEmpty(Split(s, sep)) <==> AllNonEmpty(Split(s[1..], sep))
    ensures NoEmptyPiece(s, sep) <==> NoEmptyPiece(s[1..], sep)
  {
    var t := s[1..];
    var rest' := Split(t[1..], sep);
    assert Split(t, sep) == [[t[0]] + rest'[0]] + rest'[1..];
    assert Split(s, sep) == [[s[0]] + Split(t, sep)[0]] + rest'[1..];
    assert forall i | 0 < i < |Split(s, sep)| :: Split(s, sep)[i] == Split(t, sep)[i];
    if NoEmptyPiece(t, sep) {
      forall i | 0 <= i < |s| - 1 ensures !(s[i] == sep && s[i + 1] == sep) {
        if i >= 1 { assert s[i] == t[i - 1] && s[i + 1] == t[i]; }
      }
    }
    if NoEmptyPiece(s, sep) {
      forall i | 0 <= i < |t| - 1 ensures !(t[i] == sep && t[i + 1] == sep) {
        assert t[i] == s[i + 1] && t[i + 1] == s[i + 2];
      }
    }
  }

  lemma {:induction false} SplitPiecesNonEmpty(s: string, sep: char)
    ensures AllNonEmpty(Split(s, sep)) <==> NoEmptyPiece(s, sep)
    decreases |s|
  {
    if s == [] || s[0] == sep {
      assert Split(s, sep)[0] == "";
    } else if |s| == 1 {
      assert s[1..] == [];
      assert Split(s[1..], sep) == [""];
      assert Split(s, sep) == [[s[0]] + ""] + [""][1..];
    } else if s[1] == sep {
      SplitAfterSeparator(s, sep);
      SeparatorSecond(s, sep);
      SplitPiecesNonEmpty(s[2..], sep);
      assert Split(s[2..], sep)[0] == "" ==> !AllNonEmpty(Split(s[2..], sep));
    } else {
      SplitWithinPiece(s, sep);
      SplitPiecesNonEmpty(s[1..], sep);
    }
  }

  /** The characters `str.strip()` removes: space, tab, line feed, carriage
      return, vertical tab and form feed. */
  predicate IsSpace(c: char) {
    c == ' ' || c == '\t' || c == '\n' || c == '\r' || c as int == 11 || c as int == 12
  }

  function StripLeft(s: string): (r: string)
    ensures |r| <= |s|
    ensures r != [] ==> !IsSpace(r[0])
  {
    if s != [] && IsSpace(s[0]) then StripLeft(s[1..]) else s
  }

  /** `lstrip` keeps a suffix and removes only white space in front of it. */
  lemma {:induction false} StripLeftSuffix(s: string)
    ensures StripLeft(s) == s[|s| - |StripLeft(s)|..]
    ensures forall k | 0 <= k < |s| - |StripLeft(s)| :: IsSpace(s[k])
    decreases |s|
  {
    if s != [] && IsSpace(s[0]) {
      StripLeftSuffix(s[1..]);
    }
  }

  function StripRight(s: string): (r: string)
    ensures |r| <= |s|
    ensures r != [] ==> !IsSpace(r[|r| - 1])
  {
    if s != [] && IsSpace(s[|s| - 1]) then StripRight(s[..|s| - 1]) else s
  }

  /** `rstrip` keeps a prefix and removes only white space after it. */
  lemma {:induction false} StripRightPrefix(s: string)
    ensures StripRight(s) == s[..|StripRight(s)|]
    ensures forall k | |StripRight(s)| <= k < |s| :: IsSpace(s[k])
    decreases |s|
  {
    if s != [] && IsSpace(s[|s| - 1]) {
      StripRightPrefix(s[..|s| - 1]);
    }
  }

  /** `s.strip()`. */
  function Strip(s: string): string {
    StripRight(StripLeft(s))
  }

  /** `int(s)` for a string, as Python 2 reads it: surrounding white space is
      ignored, then an optional sign, then more white space (the digits are
      read by `PyOS_strtoul`, which skips it), then one or more decimal digits.
      Anything else is a `ValueError`, here `None`. */
  function ParseInt(s: string): (r: Option<int>)
    ensures r.Some? ==> Strip(s) != []
    ensures r.Some? && r.value < 0 ==> Strip(s)[0] == '-'
  {
    ParseStripped(Strip(s))
  }

  /** `int()` once the surrounding white space is gone. */
  function ParseStripped(t: string): (r: Option<int>)
    ensures r.Some? ==> t != []
    ensures r.Some? && r.value < 0 ==> t[0] == '-'
  {
    if |t| >= 1 && (t[0] == '-' || t[0] == '+') then
      match ParseNat(StripLeft(t[1..]))
      case None => None
      case Some(n) =>
        var v: int := if t[0] == '-' then -(n as int) else n;
        Some(v)
    else
      match ParseNat(t)
      case None => None
      case Some(n) => Some(n)
  }

  lemma StripNoSpace(s: string)
    requires s == [] || (!IsSpace(s[0]) && !IsSpace(s[|s| - 1]))
    ensures Strip(s) == s
  {
    assert StripLeft(s) == s;
  }

  /** Leading white space before a non-space character is all `lstrip` removes. */
  lemma {:induction false} StripLeftSpaces(ws: string, d: string)
    requires forall k | 0 <= k < |ws| :: IsSpace(ws[k])
    requires d == [] || !IsSpace(d[0])
    ensures StripLeft(ws + d) == d
    decreases |ws|
  {
    if ws == [] {
      assert ws + d == d;
    } else {
      assert (ws + d)[0] == ws[0];
      assert (ws + d)[1..] == ws[1..] + d;
      StripLeftSpaces(ws[1..], d);
    }
  }

  /** A signed number: the sign, then whatever `lstrip` reduces to the digits
      of `n`; `v` is `n` with that sign. */
  lemma SignedParse(x: string, n: nat, v: int)
    requires |x| >= 2 && (x[0] == '+' || x[0] == '-') && !IsSpace(x[|x| - 1])
    requires ParseNat(StripLeft(x[1..])) == Some(n)
    requires v == if x[0] == '-' then -(n as int) else n as int
    ensures ParseInt(x) == Some(v)
  {
    StripNoSpace(x);
    assert ParseStripped(x) == Some(v);
  }

  /** A sign, white space and the digits of `n` read as `n` with that sign. */
  lemma SignSpaceDigits(x: string, ws: string, d: string, n: nat, v: int)
    requires |x| >= 1 && (x[0] == '+' || x[0] == '-') && x[1..] == ws + d
    requires forall k | 0 <= k < |ws| :: IsSpace(ws[k])
    requires ParseNat(d) == Some(n)
    requires v == if x[0] == '-' then -(n as int) else n as int
    ensures ParseInt(x) == Some(v)
  {
    assert IsDigit(d[0]) && IsDigit(d[|d| - 1]);
    StripLeftSpaces(ws, d);
    assert StripLeft(x[1..]) == d;
    assert x[|x| - 1] == (ws + d)[|ws + d| - 1] == d[|d| - 1];
    SignedParse(x, n, v);
  }

  /** A final newline after the digits is stripped: `int('5\n') == int('5')`. */
  lemma ParseIntFinalNewline(d: string)
    requires |d| >= 1 && AllDigits(d)
    ensures ParseInt(d + "\n") == ParseInt(d)
  {
    var x := d + "\n";
    assert IsDigit(x[0]) && x[..|x| - 1] == d;
    assert StripLeft(x) == x;
    assert IsDigit(d[|d| - 1]);
    assert StripRight(x) == d;
    StripNoSpace(d);
  }

  /** White space between the sign and the digits is accepted: `int('+ 5') == 5`
      and `int('- 5') == -5`. */
  lemma ParseIntSpaceAfterSign(sign: char, ws: string, n: nat)
    requires sign == '+' || sign == '-'
    requires forall k | 0 <= k < |ws| :: IsSpace(ws[k])
    ensures ParseInt([sign] + ws + NatToString(n)) == Some(if sign == '-' then -(n as int) else n as int)
  {
    var d := NatToString(n);
    ParseNatToString(n);
    DropFirst(sign, ws, d);
    SignSpaceDigits([sign] + ws + d, ws, d, n, if sign == '-' then -(n as int) else n as int);
  }

  lemma DropFirst(c: char, a: string, b: string)
    ensures ([c] + a + b)[1..] == a + b
  {
  }

  /** Digits with no sign read back as the value they were printed from. */
  lemma ParseIntOfNat(n: nat)
    ensures ParseInt(NatToString(n)) == Some(n)
  {
    var d := NatToString(n);
    assert IsDigit(d[0]) && IsDigit(d[|d| - 1]);
    StripNoSpace(d);
    ParseNatToString(n);
    assert !(d[0] == '-' || d[0] == '+');
  }

  /** A minus sign and digits read back as the negative value. */
  lemma ParseIntOfNegative(i: int)
    requires i < 0
    ensures ParseInt("-" + NatToString(-i)) == Some(i)
  {
    var d := NatToString(-i);
    ParseNatToString(-i);
    assert ("-" + d)[1..] == [] + d;
    SignSpaceDigits("-" + d, [], d, -i, i);
  }

  /** `int(str(i)) == i` for every integer. */
  lemma ParseIntToString(i: int)
    ensures ParseInt(IntToString(i)) == Some(i)
  {
    if i < 0 {
      ParseIntOfNegative(i);
    } else {
      ParseIntOfNat(i);
    }
  }
}
