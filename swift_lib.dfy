/**
  The few pieces of the Swift standard library that the Bluetooth demo relies on,
  stated over strings as sequences of characters:
  - `Optional` (the result of `Collection.first`),
  - `String.contains(_:)` as plain substring search,
  - `String.split(separator:)` with its default of omitting empty pieces,
  - the decimal description of an integer `NSNumber`.
 */
module SwiftLib {

  datatype Option<+T> = None | Some(value: T)

  // ---------------------------------------------------------------------------
  // Substring search: `s.contains(sub)`
  // ---------------------------------------------------------------------------

  /** True when `sub` occurs in `s` at some position. */
  predicate Contains(s: string, sub: string)
    decreases |s|
  {
    sub <= s || (s != [] && Contains(s[1..], sub))
  }

  /** `Contains` agrees with the textbook definition: an occurrence at an index. */
  lemma {:induction false} ContainsIffOccurrence(s: string, sub: string)
    ensures Contains(s, sub) <==> exists i | 0 <= i <= |s| :: sub <= s[i..]
  {
    if sub <= s {
      assert s[0..] == s;
    } else if s == [] {
      assert forall i | 0 <= i <= |s| :: s[i..] == s;
    } else {
      ContainsIffOccurrence(s[1..], sub);
      if Contains(s[1..], sub) {
        var i :| 0 <= i <= |s[1..]| && sub <= s[1..][i..];
        assert s[1..][i..] == s[i + 1..];
      }
      if exists i | 0 <= i <= |s| :: sub <= s[i..] {
        var i :| 0 <= i <= |s| && sub <= s[i..];
        assert i != 0 by { assert s[0..] == s; }
        assert s[1..][i - 1..] == s[i..];
      }
    }
  }

  /** Every character of an occurring substring is a character of the string. */
  lemma {:induction false} ContainsKeepsCharacters(s: string, sub: string, c: char)
    requires Contains(s, sub) && c in sub
    ensures c in s
  {
    if sub <= s {
      var k :| 0 <= k < |sub| && sub[k] == c;
      assert s[k] == c;
    } else {
      ContainsKeepsCharacters(s[1..], sub, c);
      var k :| 0 <= k < |s[1..]| && s[1..][k] == c;
      assert s[k + 1] == c;
    }
  }

  /** A string always contains each of its prefixes, in particular a head of a concatenation. */
  lemma ContainsPrefix(p: string, q: string)
    ensures Contains(p + q, p)
  {
    assert p <= p + q;
  }

  // ---------------------------------------------------------------------------
  // `s.split(separator: sep)`, omitting empty pieces
  // ---------------------------------------------------------------------------

  /** Splitting the rest `s` of a string, with `piece` the characters already read
      since the last separator. */
  function SplitFrom(s: string, sep: char, piece: string): (parts: seq<string>)
    requires sep !in piece
    ensures forall k | 0 <= k < |parts| :: parts[k] != [] && sep !in parts[k]
    decreases |s|
  {
    if s == [] then
      (if piece == [] then [] else [piece])
    else if s[0] == sep then
      (if piece == [] then SplitFrom(s[1..], sep, []) else [piece] + SplitFrom(s[1..], sep, []))
    else
      SplitFrom(s[1..], sep, piece + [s[0]])
  }

  /** The pieces of `s` between occurrences of `sep`; empty pieces are omitted, so
      every piece is non-empty and free of the separator. */
  function Split(s: string, sep: char): (parts: seq<string>)
    ensures forall k | 0 <= k < |parts| :: parts[k] != [] && sep !in parts[k]
  {
    SplitFrom(s, sep, [])
  }

  /** `s` without its leading run of `c`. */
  function DropLeading(s: string, c: char): (r: string)
    ensures |r| <= |s| && r == s[|s| - |r|..]
    ensures forall k | 0 <= k < |s| - |r| :: s[k] == c
    ensures r != [] ==> r[0] != c
  {
    if s != [] && s[0] == c then DropLeading(s[1..], c) else s
  }

  /** The longest prefix of `s` that does not contain `c`. */
  function TakeUntil(s: string, c: char): (r: string)
    ensures r <= s && c !in r
    ensures |r| < |s| ==> s[|r|] == c
  {
    if s == [] || s[0] == c then [] else [s[0]] + TakeUntil(s[1..], c)
  }

  /** While a piece is being read, the first part produced is that piece extended up
      to the next separator. */
  lemma {:induction false} SplitFromHead(s: string, sep: char, piece: string)
    requires piece != [] && sep !in piece
    ensures SplitFrom(s, sep, piece) != []
    ensures SplitFrom(s, sep, piece)[0] == piece + TakeUntil(s, sep)
  {
    if s != [] && s[0] != sep {
      SplitFromHead(s[1..], sep, piece + [s[0]]);
      assert piece + [s[0]] + TakeUntil(s[1..], sep) == piece + TakeUntil(s, sep);
    }
  }

  /** `split(separator:).first` is the first run of non-separator characters: it is
      absent exactly when `s` holds nothing but separators. */
  lemma {:induction false} SplitFirst(s: string, sep: char)
    ensures Split(s, sep) == [] <==> DropLeading(s, sep) == []
    ensures Split(s, sep) != [] ==> Split(s, sep)[0] == TakeUntil(DropLeading(s, sep), sep)
  {
    if s != [] {
      if s[0] == sep {
        SplitFirst(s[1..], sep);
      } else {
        assert [] + [s[0]] == [s[0]];
        SplitFromHead(s[1..], sep, [s[0]]);
        assert [s[0]] + TakeUntil(s[1..], sep) == TakeUntil(s, sep);
      }
    }
  }

  /** Reading up to the separator stops exactly at the end of a separator-free word. */
  lemma {:induction false} TakeUntilWord(w: string, sep: char, rest: string)
    requires sep !in w
    ensures TakeUntil(w + [sep] + rest, sep) == w
  {
    if w != [] {
      assert (w + [sep] + rest)[1..] == w[1..] + [sep] + rest;
      TakeUntilWord(w[1..], sep, rest);
    }
  }

  /** Reading up to a separator never looks past the first separator. */
  lemma {:induction false} TakeUntilAppend(s: string, sep: char, rest: string)
    ensures TakeUntil(s + [sep] + rest, sep) == TakeUntil(s, sep)
  {
    if s != [] {
      assert (s + [sep] + rest)[1..] == s[1..] + [sep] + rest;
      TakeUntilAppend(s[1..], sep, rest);
    }
  }

  /** Appending text changes the leading run only when `s` is nothing but that run. */
  lemma {:induction false} DropLeadingAppend(s: string, c: char, rest: string)
    ensures DropLeading(s + rest, c) ==
      if DropLeading(s, c) == [] then DropLeading(rest, c) else DropLeading(s, c) + rest
  {
    if s != [] {
      assert (s + rest)[1..] == s[1..] + rest;
      DropLeadingAppend(s[1..], c, rest);
    } else {
      assert s + rest == rest;
    }
  }

  /** Skipping the leading separators of `s`, a separator and `t`. */
  lemma DropLeadingJoin(s: string, sep: char, t: string)
    ensures DropLeading(s + [sep] + t, sep) ==
      if DropLeading(s, sep) == [] then DropLeading(t, sep) else DropLeading(s, sep) + [sep] + t
  {
    assert s + [sep] + t == s + ([sep] + t);
    DropLeadingAppend(s, sep, [sep] + t);
    assert ([sep] + t)[1..] == t;
    assert DropLeading(s, sep) + ([sep] + t) == DropLeading(s, sep) + [sep] + t;
  }

  /** The first piece of `s`, a separator and `t` is the first piece of `s`, or of
      `t` when `s` has none. */
  lemma FirstPieceOfJoin(s: string, sep: char, t: string)
    ensures Split(s + [sep] + t, sep) == [] <==> Split(s, sep) == [] && Split(t, sep) == []
    ensures Split(s, sep) != [] ==> Split(s + [sep] + t, sep)[0] == Split(s, sep)[0]
    ensures Split(s, sep) == [] && Split(t, sep) != [] ==>
      Split(s + [sep] + t, sep)[0] == Split(t, sep)[0]
  {
    SplitFirst(s + [sep] + t, sep);
    SplitFirst(s, sep);
    SplitFirst(t, sep);
    DropLeadingJoin(s, sep, t);
    if DropLeading(s, sep) != [] {
      TakeUntilAppend(DropLeading(s, sep), sep, t);
    }
  }

  /** Splitting a string that begins with a separator-free word followed by the
      separator yields that word first, whatever follows. */
  lemma WordThenSeparator(w: string, sep: char, rest: string)
    requires w != [] && sep !in w
    ensures Split(w + [sep] + rest, sep) != []
    ensures Split(w + [sep] + rest, sep)[0] == w
  {
    var s := w + [sep] + rest;
    SplitFirst(s, sep);
    assert DropLeading(s, sep) == s;
    TakeUntilWord(w, sep, rest);
  }

  // ---------------------------------------------------------------------------
  // Decimal description of an integer (`"\(n)"` for an integer NSNumber)
  // ---------------------------------------------------------------------------

  predicate IsDigit(c: char)
  {
    '0' <= c <= '9'
  }

  function DigitChar(d: nat): (c: char)
    requires d < 10
    ensures IsDigit(c) && c as int - '0' as int == d
  {
    ['0', '1', '2', '3', '4', '5', '6', '7', '8', '9'][d]
  }

  /** The decimal digits of `n`, most significant first, without leading zeros. */
  function NatToString(n: nat): (r: string)
    ensures r != [] && forall k | 0 <= k < |r| :: IsDigit(r[k])
    ensures |r| > 1 ==> r[0] != '0'
    decreases n
  {
    if n < 10 then [DigitChar(n)] else NatToString(n / 10) + [DigitChar(n % 10)]
  }

  /** The value of a string of decimal digits. */
  function DigitsValue(s: string): (value: int)
    requires forall k | 0 <= k < |s| :: IsDigit(s[k])
  {
    if s == [] then 0
    else DigitsValue(s[..|s| - 1]) * 10 + (s[|s| - 1] as int - '0' as int)
  }

  /** Reading the digits back gives the number: the description is faithful. */
  lemma {:induction false} NatToStringValue(n: nat)
    ensures DigitsValue(NatToString(n)) == n
  {
    if n >= 10 {
      NatToStringValue(n / 10);
      var r := NatToString(n);
      assert r[..|r| - 1] == NatToString(n / 10);
    }
  }

  /** `"\(n)"`: a minus sign for negative numbers, then the digits of the magnitude. */
  function IntToString(n: int): (r: string)
  {
    if n < 0 then "-" + NatToString(-n) else NatToString(n)
  }

  /** The description is a non-empty run of digits after an optional minus sign
      (so it never holds a space), the sign marks exactly the negative numbers,
      and the digits read back to the magnitude. */
  lemma IntToStringShape(n: int)
    ensures var r := IntToString(n);
      r != [] && ' ' !in r &&
      (r[0] == '-' <==> n < 0) &&
      var digits := if n < 0 then r[1..] else r;
      digits != [] && (forall k | 0 <= k < |digits| :: IsDigit(digits[k])) &&
      DigitsValue(digits) == if n < 0 then -n else n
  {
    var r := IntToString(n);
    var digits := if n < 0 then r[1..] else r;
    assert digits == NatToString(if n < 0 then -n else n);
    NatToStringValue(if n < 0 then -n else n);
  }

  /** Distinct numbers have distinct descriptions. */
  lemma IntToStringInjective(m: int, n: int)
    requires IntToString(m) == IntToString(n)
    ensures m == n
  {
    IntToStringShape(m);
    IntToStringShape(n);
  }
}
