/**
 * The few pieces of Python's string and integer behaviour the tracker relies on:
 * the ordering of `str` values (used by `sorted`), `str(int)`, `int(str)` and
 * `str.split('_')[1]`.
 */
module Text {
  import opened Wrappers

  /** Python compares strings code point by code point; a proper prefix is smaller. */
  predicate StrLe(a: string, b: string)
  {
    if a == [] then true
    else if b == [] then false
    else if a[0] != b[0] then a[0] < b[0]
    else StrLe(a[1..], b[1..])
  }

  lemma {:induction false} StrLeTotal(a: string, b: string)
    ensures StrLe(a, b) || StrLe(b, a)
  {
    if a != [] && b != [] && a[0] == b[0] {
      StrLeTotal(a[1..], b[1..]);
    }
  }

  lemma {:induction false} StrLeTransitive(a: string, b: string, c: string)
    requires StrLe(a, b) && StrLe(b, c)
    ensures StrLe(a, c)
  {
    if a != [] && b != [] && c != [] && a[0] == b[0] && b[0] == c[0] {
      StrLeTransitive(a[1..], b[1..], c[1..]);
    }
  }

  lemma {:induction false} StrLeAntisymmetric(a: string, b: string)
    requires StrLe(a, b) && StrLe(b, a)
    ensures a == b
  {
    if a != [] && b != [] {
      StrLeAntisymmetric(a[1..], b[1..]);
      assert a == [a[0]] + a[1..] && b == [b[0]] + b[1..];
    }
  }

  predicate IsDigit(c: char) { '0' <= c <= '9' }

  predicate AllDigits(s: string) { forall i :: 0 <= i < |s| ==> IsDigit(s[i]) }

  function DigitChar(d: nat): (c: char)
    requires d < 10
    ensures IsDigit(c) && (c as int) - ('0' as int) == d
  {
    (('0' as int) + d) as char
  }

  /** `str(n)` for a non-negative integer: decimal, no leading zeros. */
  function NatToString(n: nat): (s: string)
    ensures |s| >= 1 && AllDigits(s)
    ensures n >= 10 <==> |s| >= 2
  {
    if n < 10 then [DigitChar(n)] else NatToString(n / 10) + [DigitChar(n % 10)]
  }

  /** `str(i)` for any integer: a minus sign before the digits of a negative value. */
  function IntToString(i: int): string
  {
    if i < 0 then "-" + NatToString(-i) else NatToString(i)
  }

  /** Value of a run of decimal digits, most significant first. */
  function DigitsValue(s: string): nat
    requires AllDigits(s)
  {
    if s == [] then 0
    else DigitsValue(s[..|s| - 1]) * 10 + ((s[|s| - 1] as int) - ('0' as int))
  }

  lemma {:induction false} DigitsValueOfNatToString(n: nat)
    ensures DigitsValue(NatToString(n)) == n
  {
    if n >= 10 {
      var s := NatToString(n);
      assert s[..|s| - 1] == NatToString(n / 10);
      DigitsValueOfNatToString(n / 10);
    }
  }

  /**
   * The characters `int()` strips from both ends: the ASCII whitespace `\t`
   * to `\r` and the space, and the non-ASCII characters for which `str.isspace`
   * holds. The separators U+001C to U+001F, which `str.isspace` accepts, are
   * not stripped.
   */
  predicate IsSpace(c: char)
  {
    || ('\t' <= c <= '\r') || c == ' ' || c == '\U{85}' || c == '\U{A0}'
    || c == '\U{1680}' || ('\U{2000}' <= c <= '\U{200A}') || c == '\U{2028}' || c == '\U{2029}'
    || c == '\U{202F}' || c == '\U{205F}' || c == '\U{3000}'
  }

  function Strip(s: string): (t: string)
    ensures |t| <= |s|
    ensures t != [] ==> !IsSpace(t[0]) && !IsSpace(t[|t| - 1])
    ensures s != [] && !IsSpace(s[0]) && !IsSpace(s[|s| - 1]) ==> t == s
  {
    if s == [] then []
    else if IsSpace(s[0]) then Strip(s[1..])
    else if IsSpace(s[|s| - 1]) then Strip(s[..|s| - 1])
    else s
  }

  /**
   * Python's `int(s)` on a string: surrounding whitespace, an optional sign and
   * at least one decimal digit; anything else raises, which is `None` here.
   */
  function ParseInt(s: string): (r: Option<int>)
    ensures r.Some? ==> exists i :: 0 <= i < |s| && IsDigit(s[i])
  {
    var t := Strip(s);
    if t != [] && (t[0] == '-' || t[0] == '+') then
      var d := t[1..];
      if d != [] && AllDigits(d) then
        assert IsDigit(Strip(s)[1]);
        StripInside(s);
        Some(if t[0] == '-' then -(DigitsValue(d) as int) else DigitsValue(d))
      else None
    else if t != [] && AllDigits(t) then
      assert IsDigit(Strip(s)[0]);
      StripInside(s);
      Some(DigitsValue(t))
    else None
  }

  /** A tab around the digits is stripped; the separator U+001C is not, and the text is no integer. */
  lemma ParseIntWhitespace()
    ensures ParseInt("\t5") == Some(5)
    ensures ParseInt("\U{1C}5") == None
  {
    var tab: string := "\t5";
    assert Strip(tab) == "5" by {
      assert tab[1..] == "5";
    }
    assert DigitsValue("5") == 5;
  }

  lemma {:induction false} StripInside(s: string)
    ensures forall j :: 0 <= j < |Strip(s)| ==> Strip(s)[j] in s
  {
    if s == [] {
    } else if IsSpace(s[0]) {
      StripInside(s[1..]);
    } else if IsSpace(s[|s| - 1]) {
      StripInside(s[..|s| - 1]);
    }
  }

  /** `int(str(i)) == i`. */
  lemma ParseIntOfIntToString(i: int)
    ensures ParseInt(IntToString(i)) == Some(i)
  {
    var n: nat := if i < 0 then -i else i;
    var digits := NatToString(n);
    DigitsValueOfNatToString(n);
    var s := IntToString(i);
    IntToStringStripped(i);
    if i < 0 {
      assert s[0] == '-' && s[1..] == digits;
    } else {
      assert s == digits && !(s[0] == '-' || s[0] == '+');
    }
  }

  /** `str(i)` has no surrounding whitespace. */
  lemma IntToStringStripped(i: int)
    ensures Strip(IntToString(i)) == IntToString(i)
  {
    var s := IntToString(i);
    assert IsDigit(s[|s| - 1]);
    assert s[0] == '-' || IsDigit(s[0]);
  }

  /** Index of the first `c` in `s`, or `|s|` when there is none. */
  function IndexOf(s: string, c: char): (k: nat)
    ensures k <= |s|
    ensures k < |s| ==> s[k] == c
    ensures forall j :: 0 <= j < k ==> s[j] != c
  {
    if s == [] then 0 else if s[0] == c then 0 else 1 + IndexOf(s[1..], c)
  }

  /**
   * `s.split('_')[1]`: the text between the first and the second underscore
   * (or the end); `None` where the list has no second element (IndexError).
   */
  function SecondField(s: string): (r: Option<string>)
    ensures r.Some? ==> '_' !in r.value
  {
    var i := IndexOf(s, '_');
    if i == |s| then None
    else
      var rest := s[i + 1..];
      var f := rest[..IndexOf(rest, '_')];
      assert forall j :: 0 <= j < |f| ==> f[j] != '_';
      Some(f)
  }

  predicate StartsWith(s: string, prefix: string)
  {
    |prefix| <= |s| && s[..|prefix|] == prefix
  }

  lemma NoUnderscoreInIntToString(i: int)
    ensures '_' !in IntToString(i)
  {
    var n: nat := if i < 0 then -i else i;
    var digits := NatToString(n);
    assert forall j :: 0 <= j < |digits| ==> digits[j] != '_';
  }

  /** Splitting `a + "_" + b` on underscores yields `b` second when `a` and `b` hold none. */
  lemma SecondFieldOfJoin(a: string, b: string)
    requires '_' !in a && '_' !in b
    ensures SecondField(a + "_" + b) == Some(b)
  {
    var s := a + "_" + b;
    IndexOfAbsent(a);
    assert s[|a|] == '_';
    assert forall j :: 0 <= j < |a| ==> s[j] == a[j];
    assert IndexOf(s, '_') == |a| by { IndexOfFirst(s, '_', |a|); }
    assert s[|a| + 1..] == b;
    IndexOfAbsent(b);
    assert b[..|b|] == b;
  }

  lemma IndexOfAbsent(s: string)
    requires '_' !in s
    ensures IndexOf(s, '_') == |s|
  {
  }

  lemma IndexOfFirst(s: string, c: char, k: nat)
    requires k < |s| && s[k] == c
    requires forall j :: 0 <= j < k ==> s[j] != c
    ensures IndexOf(s, c) == k
  {
  }
}
