/** The JavaScript string operations the pages rely on: `trim`, ASCII case mapping,
    `includes`, `split` on one character, and the test `isNaN(Number(s))`. */
module Text {

  /** JavaScript `WhiteSpace` and `LineTerminator` characters: what `trim()` and `Number()` strip. */
  predicate IsSpace(c: char) {
    || c == ' ' || c == '\t' || c == '\n' || c == '\r' || c == '\U{000B}' || c == '\U{000C}'
    || c == '\U{00A0}' || c == '\U{1680}' || ('\U{2000}' <= c <= '\U{200A}')
    || c == '\U{2028}' || c == '\U{2029}' || c == '\U{202F}' || c == '\U{205F}'
    || c == '\U{3000}' || c == '\U{FEFF}'
  }

  predicate AllSpace(s: string) {
    forall i :: 0 <= i < |s| ==> IsSpace(s[i])
  }

  /** Drops the leading white space. */
  function TrimStart(s: string): (r: string)
    ensures |r| <= |s|
    ensures r == [] || !IsSpace(r[0])
  {
    if s != [] && IsSpace(s[0]) then TrimStart(s[1..]) else s
  }

  /** What `TrimStart` keeps is what follows the first `|s| - |r|` characters of `s`, and those
      were all white space. */
  lemma {:induction false} TrimStartDropsSpace(s: string)
    ensures var r := TrimStart(s);
      && (forall i :: 0 <= i < |r| ==> r[i] == s[|s| - |r| + i])
      && (forall i :: 0 <= i < |s| - |r| ==> IsSpace(s[i]))
  {
    if s != [] && IsSpace(s[0]) {
      var t := s[1..];
      TrimStartDropsSpace(t);
      var r := TrimStart(s);
      assert r == TrimStart(t);
      forall i | 0 <= i < |r| ensures r[i] == s[|s| - |r| + i] {
        assert r[i] == t[|t| - |r| + i];
      }
      forall i | 0 <= i < |s| - |r| ensures IsSpace(s[i]) {
        if i > 0 {
          assert s[i] == t[i - 1];
        }
      }
    }
  }

  /** Drops the trailing white space. */
  function TrimEnd(s: string): (r: string)
    ensures |r| <= |s|
    ensures r == [] || !IsSpace(r[|r| - 1])
  {
    if s != [] && IsSpace(s[|s| - 1]) then TrimEnd(s[..|s| - 1]) else s
  }

  /** What `TrimEnd` keeps is the first `|r|` characters of `s`, and the rest were all white space. */
  lemma {:induction false} TrimEndDropsSpace(s: string)
    ensures var r := TrimEnd(s);
      && (forall i :: 0 <= i < |r| ==> r[i] == s[i])
      && (forall i :: |r| <= i < |s| ==> IsSpace(s[i]))
  {
    if s != [] && IsSpace(s[|s| - 1]) {
      TrimEndDropsSpace(s[..|s| - 1]);
    }
  }

  /** `String.prototype.trim`: drops the white space at both ends. */
  function Trim(s: string): (r: string)
    ensures |r| <= |s|
    ensures r == [] || (!IsSpace(r[0]) && !IsSpace(r[|r| - 1]))
  {
    var t := TrimStart(s);
    TrimEndDropsSpace(t);
    TrimEnd(t)
  }

  /** A string trims to nothing exactly when it is all white space. */
  lemma {:induction false} TrimEmptyIffBlank(s: string)
    ensures Trim(s) == [] <==> AllSpace(s)
  {
    if AllSpace(s) {
      BlankTrimsAway(s);
    }
    if Trim(s) == [] {
      // Nothing survives `TrimEnd`, so `TrimStart` kept nothing either: its first character would
      // not be white space.
      TrimStartDropsSpace(s);
      TrimEndDropsSpace(TrimStart(s));
      assert TrimStart(s) == [];
    }
  }

  lemma {:induction false} BlankTrimsAway(s: string)
    requires AllSpace(s)
    ensures TrimStart(s) == []
  {
    if s != [] {
      BlankTrimsAway(s[1..]);
    }
  }

  /** A string with no white space at either end is left as it is. */
  lemma {:induction false} TrimKeepsUnpadded(s: string)
    requires s == [] || (!IsSpace(s[0]) && !IsSpace(s[|s| - 1]))
    ensures Trim(s) == s
  {
    assert TrimStart(s) == s;
    assert TrimEnd(s) == s;
  }

  lemma TrimIdempotent(s: string)
    ensures Trim(Trim(s)) == Trim(s)
  {
    TrimKeepsUnpadded(Trim(s));
  }

  function LowerChar(c: char): char {
    if 'A' <= c <= 'Z' then (c as int + 32) as char else c
  }

  function UpperChar(c: char): char {
    if 'a' <= c <= 'z' then (c as int - 32) as char else c
  }

  /** `toLowerCase`, restricted to the ASCII letters. */
  function ToLower(s: string): (r: string)
    ensures |r| == |s|
    ensures forall i :: 0 <= i < |r| ==> !('A' <= r[i] <= 'Z') && UpperChar(r[i]) == UpperChar(s[i])
  {
    seq(|s|, i requires 0 <= i < |s| => LowerChar(s[i]))
  }

  /** `toUpperCase`, restricted to the ASCII letters. */
  function ToUpper(s: string): (r: string)
    ensures |r| == |s|
    ensures forall i :: 0 <= i < |r| ==> !('a' <= r[i] <= 'z') && LowerChar(r[i]) == LowerChar(s[i])
  {
    seq(|s|, i requires 0 <= i < |s| => UpperChar(s[i]))
  }

  lemma ToUpperIdempotent(s: string)
    ensures ToUpper(ToUpper(s)) == ToUpper(s)
  {
  }

  predicate StartsWith(s: string, t: string) {
    |t| <= |s| && s[..|t|] == t
  }

  /** `t` occurs in `s` at position `i`. */
  predicate OccursAt(s: string, t: string, i: int) {
    0 <= i && i + |t| <= |s| && s[i..i + |t|] == t
  }

  /** `String.prototype.includes`. */
  predicate Contains(s: string, t: string) {
    StartsWith(s, t) || (s != [] && Contains(s[1..], t))
  }

  /** `Contains` holds exactly when `t` occurs at some position of `s`. */
  lemma {:induction false} ContainsIffOccurs(s: string, t: string)
    ensures Contains(s, t) <==> exists i :: OccursAt(s, t, i)
  {
    if StartsWith(s, t) {
      assert OccursAt(s, t, 0);
    }
    if s != [] {
      ContainsIffOccurs(s[1..], t);
      if Contains(s[1..], t) {
        var i :| OccursAt(s[1..], t, i);
        assert s[i + 1..i + 1 + |t|] == s[1..][i..i + |t|];
        assert OccursAt(s, t, i + 1);
      }
      if exists i :: OccursAt(s, t, i) {
        var i :| OccursAt(s, t, i);
        if i > 0 {
          assert s[1..][i - 1..i - 1 + |t|] == s[i..i + |t|];
          assert OccursAt(s[1..], t, i - 1);
        }
      }
    }
  }

  /** `s.split(sep)` for a one-character separator: the pieces between the separators, never fewer than one. */
  function Split(s: string, sep: char): (r: seq<string>)
    ensures |r| >= 1
  {
    if s == [] then [[]]
    else
      var rest := Split(s[1..], sep);
      if s[0] == sep then [[]] + rest
      else [[s[0]] + rest[0]] + rest[1..]
  }

  /** No piece of a split holds the separator. */
  lemma {:induction false} SplitPiecesLackSeparator(s: string, sep: char)
    ensures forall k :: 0 <= k < |Split(s, sep)| ==> sep !in Split(s, sep)[k]
  {
    if s != [] {
      SplitPiecesLackSeparator(s[1..], sep);
    }
  }

  /** `parts.join(sep)`: the inverse of `Split`. */
  function Join(parts: seq<string>, sep: char): string
    requires |parts| >= 1
  {
    if |parts| == 1 then parts[0] else parts[0] + [sep] + Join(parts[1..], sep)
  }

  /** Joining the pieces back together gives the original text. */
  lemma {:induction false} JoinSplit(s: string, sep: char)
    ensures Join(Split(s, sep), sep) == s
  {
    if s != [] {
      var rest := Split(s[1..], sep);
      JoinSplit(s[1..], sep);
      if s[0] == sep {
        assert Split(s, sep)[1..] == rest;
      } else {
        var r := Split(s, sep);
        if |rest| > 1 {
          assert r[1..] == rest[1..];
          assert Join(rest, sep) == rest[0] + [sep] + Join(rest[1..], sep);
        }
      }
    }
  }

  /** Splitting text that starts with a separator-free prefix `a` glues `a` to the first piece. */
  lemma {:induction false} SplitAfterPrefix(a: string, t: string, sep: char)
    requires sep !in a
    ensures Split(a + t, sep) == [a + Split(t, sep)[0]] + Split(t, sep)[1..]
  {
    if a == [] {
      assert a + t == t;
      assert a + Split(t, sep)[0] == Split(t, sep)[0];
      assert Split(t, sep) == [Split(t, sep)[0]] + Split(t, sep)[1..];
    } else {
      SplitAfterPrefix(a[1..], t, sep);
      assert (a + t)[1..] == a[1..] + t;
      var rest := Split(a[1..] + t, sep);
      assert rest[0] == a[1..] + Split(t, sep)[0] && rest[1..] == Split(t, sep)[1..];
      assert [a[0]] + (a[1..] + Split(t, sep)[0]) == a + Split(t, sep)[0];
    }
  }

  /** Splitting joined separator-free pieces gives the pieces back. */
  lemma {:induction false} SplitJoin(parts: seq<string>, sep: char)
    requires |parts| >= 1
    requires forall k :: 0 <= k < |parts| ==> sep !in parts[k]
    ensures Split(Join(parts, sep), sep) == parts
  {
    if |parts| == 1 {
      SplitAfterPrefix(parts[0], [], sep);
      assert parts[0] + [] == parts[0];
    } else {
      SplitJoin(parts[1..], sep);
      var u := Join(parts[1..], sep);
      assert parts[0] + [sep] + u == parts[0] + ([sep] + u);
      SplitAfterPrefix(parts[0], [sep] + u, sep);
      assert ([sep] + u)[1..] == u;
      assert parts[0] + [] == parts[0];
      assert parts == [parts[0]] + parts[1..];
    }
  }

  /** The first index of `s` holding a character of `cs`, or `|s|` when there is none. */
  function IndexOfAny(s: string, cs: set<char>): (i: nat)
    ensures i <= |s|
    ensures i < |s| ==> s[i] in cs
    ensures forall j :: 0 <= j < i ==> s[j] !in cs
  {
    if s == [] then 0
    else if s[0] in cs then 0
    else 1 + IndexOfAny(s[1..], cs)
  }

  predicate IsDigit(c: char) { '0' <= c <= '9' }

  predicate AllDigits(s: string) {
    forall i :: 0 <= i < |s| ==> IsDigit(s[i])
  }

  predicate IsHexDigit(c: char) { IsDigit(c) || 'a' <= c <= 'f' || 'A' <= c <= 'F' }

  predicate IsOctalDigit(c: char) { '0' <= c <= '7' }

  predicate IsBinaryDigit(c: char) { c == '0' || c == '1' }

  /** `0x…`, `0o…` or `0b…` with at least one digit of that base (no sign allowed). */
  predicate IsNonDecimalInteger(t: string) {
    && |t| > 2 && t[0] == '0'
    && var digits := t[2..];
    || ((t[1] == 'x' || t[1] == 'X') && forall i :: 0 <= i < |digits| ==> IsHexDigit(digits[i]))
    || ((t[1] == 'o' || t[1] == 'O') && forall i :: 0 <= i < |digits| ==> IsOctalDigit(digits[i]))
    || ((t[1] == 'b' || t[1] == 'B') && forall i :: 0 <= i < |digits| ==> IsBinaryDigit(digits[i]))
  }

  /** `digits`, `digits.`, `digits.digits` or `.digits`. */
  predicate IsMantissa(m: string) {
    var dot := IndexOfAny(m, {'.'});
    if dot == |m| then |m| > 0 && AllDigits(m)
    else |m| > 1 && AllDigits(m[..dot]) && AllDigits(m[dot + 1..])
  }

  /** An optionally signed, non-empty run of digits. */
  predicate IsExponent(e: string) {
    var d := if e != [] && (e[0] == '+' || e[0] == '-') then e[1..] else e;
    d != [] && AllDigits(d)
  }

  predicate IsUnsignedDecimal(t: string) {
    || t == "Infinity"
    || var mark := IndexOfAny(t, {'e', 'E'});
       if mark == |t| then IsMantissa(t)
       else IsMantissa(t[..mark]) && IsExponent(t[mark + 1..])
  }

  predicate IsDecimal(t: string) {
    if t != [] && (t[0] == '+' || t[0] == '-') then IsUnsignedDecimal(t[1..]) else IsUnsignedDecimal(t)
  }

  /** `!isNaN(Number(s))`: after trimming, `s` is empty or a JavaScript `StringNumericLiteral`. */
  predicate IsNumericText(s: string) {
    var t := Trim(s);
    t == [] || IsNonDecimalInteger(t) || IsDecimal(t)
  }

  /** Every non-empty run of decimal digits reads as a number. */
  lemma DigitsAreNumeric(s: string)
    requires s != [] && AllDigits(s)
    ensures IsNumericText(s)
  {
    TrimKeepsUnpadded(s);
    NoneOfAny(s, {'e', 'E'});
    NoneOfAny(s, {'.'});
    assert IsMantissa(s);
    assert IsUnsignedDecimal(s);
    assert IsDigit(s[0]);
    assert IsDecimal(Trim(s));
  }

  /** A string with none of the characters in `cs` has no index of any of them. */
  lemma NoneOfAny(s: string, cs: set<char>)
    requires forall i :: 0 <= i < |s| ==> s[i] !in cs
    ensures IndexOfAny(s, cs) == |s|
  {
  }

  /** Text without the separator splits into itself. */
  lemma SplitWithoutSeparator(s: string, sep: char)
    requires sep !in s
    ensures Split(s, sep) == [s]
  {
    SplitJoin([s], sep);
  }

  /** A text shorter than `t` cannot contain it. */
  lemma ShorterLacks(s: string, t: string)
    requires |s| < |t|
    ensures !Contains(s, t)
  {
    ContainsIffOccurs(s, t);
  }

  /** A mantissa starts with a digit or with its point. */
  lemma MantissaStart(m: string)
    requires IsMantissa(m)
    ensures m != [] && (IsDigit(m[0]) || m[0] == '.')
  {
    var dot := IndexOfAny(m, {'.'});
    if dot != |m| && dot > 0 {
      assert m[..dot][0] == m[0];
    }
  }

  /** Text that reads as a number starts, once trimmed, with a digit, a sign, a decimal point, or
      the `I` of `Infinity`: text starting with any other letter is never a number. */
  lemma NumericTextStart(s: string)
    requires IsNumericText(s) && Trim(s) != []
    ensures IsDigit(Trim(s)[0]) || Trim(s)[0] in "+-.I"
  {
    var t := Trim(s);
    if !IsNonDecimalInteger(t) && !(t[0] == '+' || t[0] == '-') && t != "Infinity" {
      assert IsUnsignedDecimal(t);
      var mark := IndexOfAny(t, {'e', 'E'});
      if mark == |t| {
        MantissaStart(t);
      } else {
        MantissaStart(t[..mark]);
        assert t[..mark][0] == t[0];
      }
    }
  }
}
