/**
 * The Python string operations the modelled code relies on: `isspace`,
 * `isdigit`, `strip`/`rstrip`, `startswith`, `in` on strings, `replace`,
 * `split`/`join` with an explicit separator, `int(...)` and `str(int)`.
 * Strings are sequences of characters; there is no Unicode normalisation.
 */
module Text {
  import opened Wrappers

  /** The characters for which Python's `str.isspace()` is true. */
  predicate IsSpace(c: char)
  {
    c == ' ' || c == '\t' || c == '\n' || c == '\r' || c == '\U{000B}' || c == '\U{000C}'
    || ('\U{001C}' <= c <= '\U{001F}') || c == '\U{0085}' || c == '\U{00A0}' || c == '\U{1680}'
    || ('\U{2000}' <= c <= '\U{200A}') || c == '\U{2028}' || c == '\U{2029}'
    || c == '\U{202F}' || c == '\U{205F}' || c == '\U{3000}'
  }

  /** `c.isdigit()`, restricted to the ASCII digits. */
  predicate IsDigit(c: char)
  {
    '0' <= c <= '9'
  }

  /** `t.lstrip()`: drops the leading whitespace and nothing else
      (LStripDropsLeadingSpace). */
  function LStrip(t: string): (r: string)
    ensures |r| <= |t|
  {
    if t != [] && IsSpace(t[0]) then LStrip(t[1..]) else t
  }

  /** `t.rstrip()`: drops the trailing whitespace and nothing else
      (RStripDropsTrailingSpace). */
  function RStrip(t: string): (r: string)
    ensures |r| <= |t|
  {
    if t != [] && IsSpace(t[|t| - 1]) then RStrip(t[..|t| - 1]) else t
  }

  lemma {:induction false} LStripDropsLeadingSpace(t: string)
    ensures LStrip(t) == t[|t| - |LStrip(t)|..]
    ensures LStrip(t) == [] || !IsSpace(LStrip(t)[0])
    ensures forall k :: 0 <= k < |t| - |LStrip(t)| ==> IsSpace(t[k])
  {
    if t != [] && IsSpace(t[0]) {
      LStripDropsLeadingSpace(t[1..]);
      forall k | 0 <= k < |t| - |LStrip(t)| ensures IsSpace(t[k]) {
        if k > 0 {
          assert t[k] == t[1..][k - 1];
        }
      }
    }
  }

  lemma {:induction false} RStripDropsTrailingSpace(t: string)
    ensures RStrip(t) == t[..|RStrip(t)|]
    ensures RStrip(t) == [] || !IsSpace(RStrip(t)[|RStrip(t)| - 1])
    ensures forall k :: |RStrip(t)| <= k < |t| ==> IsSpace(t[k])
  {
    if t != [] && IsSpace(t[|t| - 1]) {
      RStripDropsTrailingSpace(t[..|t| - 1]);
      forall k | |RStrip(t)| <= k < |t| ensures IsSpace(t[k]) {
        if k < |t| - 1 {
          assert t[k] == t[..|t| - 1][k];
        }
      }
    }
  }

  /** `t.strip()`. */
  function Strip(t: string): string
  {
    RStrip(LStrip(t))
  }

  /** A string is stripped when it neither starts nor ends with whitespace. */
  predicate IsStripped(t: string)
  {
    t == [] || (!IsSpace(t[0]) && !IsSpace(t[|t| - 1]))
  }

  /** How many whitespace characters `strip` drops from the front. */
  function LeadingSpace(t: string): nat
  {
    |t| - |LStrip(t)|
  }

  /** `Strip` removes whitespace, and only whitespace, from both ends and
      leaves a contiguous infix that is itself stripped. */
  lemma StripIsStrippedInfix(t: string)
    ensures IsStripped(Strip(t))
    ensures LeadingSpace(t) + |Strip(t)| <= |t|
    ensures Strip(t) == t[LeadingSpace(t)..LeadingSpace(t) + |Strip(t)|]
    ensures forall k :: 0 <= k < LeadingSpace(t) ==> IsSpace(t[k])
    ensures forall k :: LeadingSpace(t) + |Strip(t)| <= k < |t| ==> IsSpace(t[k])
  {
    var l := LStrip(t);
    LStripDropsLeadingSpace(t);
    RStripDropsTrailingSpace(l);
    var n := LeadingSpace(t);
    var r := Strip(t);
    if r != [] {
      assert r[0] == l[0];
    }
    forall k | n + |r| <= k < |t| ensures IsSpace(t[k]) {
      assert t[k] == l[k - n];
    }
  }

  /** `s.startswith(prefix)`. */
  predicate StartsWith(s: string, prefix: string)
  {
    |prefix| <= |s| && s[..|prefix|] == prefix
  }

  /** `t.rstrip(chars)` for a one-character `chars`. */
  function RStripChar(t: string, c: char): (r: string)
    ensures |r| <= |t| && r == t[..|r|]
    ensures r == [] || r[|r| - 1] != c
    ensures forall k :: |r| <= k < |t| ==> t[k] == c
    decreases |t|
  {
    if t != [] && t[|t| - 1] == c then RStripChar(t[..|t| - 1], c) else t
  }

  /** `needle` occurs in `hay` at index `i`. */
  predicate OccursAt(needle: string, hay: string, i: int)
  {
    0 <= i <= |hay| - |needle| && hay[i..i + |needle|] == needle
  }

  /** Python's `needle in hay` on two strings: a left-to-right scan. */
  predicate IsSubstring(needle: string, hay: string)
    decreases |hay|
  {
    StartsWith(hay, needle) || (|hay| > 0 && IsSubstring(needle, hay[1..]))
  }

  lemma {:induction false} IsSubstringIffOccurs(needle: string, hay: string)
    ensures IsSubstring(needle, hay) <==> exists i :: OccursAt(needle, hay, i)
    decreases |hay|
  {
    if StartsWith(hay, needle) {
      assert OccursAt(needle, hay, 0);
    } else if |hay| > 0 {
      IsSubstringIffOccurs(needle, hay[1..]);
      if IsSubstring(needle, hay[1..]) {
        var i :| OccursAt(needle, hay[1..], i);
        assert hay[1..][i..i + |needle|] == hay[i + 1..i + 1 + |needle|];
        assert OccursAt(needle, hay, i + 1);
      } else {
        forall i | OccursAt(needle, hay, i) ensures false {
          assert i != 0;
          assert hay[1..][i - 1..i - 1 + |needle|] == hay[i..i + |needle|];
          assert OccursAt(needle, hay[1..], i - 1);
        }
      }
    } else {
      assert |needle| > 0;
    }
  }

  /** A needle whose first character is nowhere in `hay` does not occur in it. */
  lemma {:induction false} MissingFirstCharNotSubstring(needle: string, hay: string)
    requires |needle| > 0 && needle[0] !in hay
    ensures !IsSubstring(needle, hay)
    decreases |hay|
  {
    if |hay| > 0 {
      assert hay[1..] <= hay[1..];
      assert forall c :: c in hay[1..] ==> c in hay;
      MissingFirstCharNotSubstring(needle, hay[1..]);
      assert hay[0] in hay;
      if |needle| <= |hay| {
        assert hay[..|needle|][0] == hay[0];
      }
    }
  }

  /** `s.replace(pat, repl)`: every non-overlapping occurrence of `pat`, scanning
      from the left, becomes `repl`; an empty `pat` inserts `repl` around every character. */
  function Replace(s: string, pat: string, repl: string): string
    decreases |s|
  {
    if |pat| == 0 then repl + (if s == [] then [] else [s[0]] + Replace(s[1..], pat, repl))
    else if |s| < |pat| then s
    else if s[..|pat|] == pat then repl + Replace(s[|pat|..], pat, repl)
    else [s[0]] + Replace(s[1..], pat, repl)
  }

  /** Replacing never invents a character: each comes from `s` or from `repl`. */
  lemma {:induction false} ReplaceChars(s: string, pat: string, repl: string, c: char)
    requires c in Replace(s, pat, repl)
    ensures c in s || c in repl
    decreases |s|
  {
    if |pat| == 0 {
      if s != [] && c !in repl && c != s[0] {
        ReplaceChars(s[1..], pat, repl, c);
      }
    } else if |s| < |pat| {
    } else if s[..|pat|] == pat {
      if c !in repl {
        ReplaceChars(s[|pat|..], pat, repl, c);
      }
    } else if c != s[0] {
      ReplaceChars(s[1..], pat, repl, c);
    }
  }

  /** Replacing a single character by text without it removes every occurrence. */
  lemma {:induction false} ReplaceRemovesChar(s: string, c: char, repl: string)
    requires c !in repl
    ensures c !in Replace(s, [c], repl)
    decreases |s|
  {
    if |s| >= 1 {
      ReplaceRemovesChar(s[1..], c, repl);
      if s[..1] != [c] {
        assert s[0] != c;
      }
    }
  }

  /** A string without any occurrence of `pat` is left as it is. */
  lemma {:induction false} ReplaceAbsent(s: string, pat: string, repl: string)
    requires |pat| > 0 && !IsSubstring(pat, s)
    ensures Replace(s, pat, repl) == s
    decreases |s|
  {
    if |s| >= |pat| {
      ReplaceAbsent(s[1..], pat, repl);
    }
  }

  /** `s.split(sep)` for a non-empty separator. */
  function Split(s: string, sep: string): (parts: seq<string>)
    requires |sep| > 0
    ensures |parts| >= 1
    decreases |s|
  {
    if |s| < |sep| then [s]
    else if s[..|sep|] == sep then [[]] + Split(s[|sep|..], sep)
    else
      var rest := Split(s[1..], sep);
      [[s[0]] + rest[0]] + rest[1..]
  }

  /** `sep.join(parts)`. */
  function Join(parts: seq<string>, sep: string): string
    decreases |parts|
  {
    if |parts| == 0 then []
    else if |parts| == 1 then parts[0]
    else parts[0] + sep + Join(parts[1..], sep)
  }

  lemma JoinFirst(x: string, parts: seq<string>, sep: string)
    requires |parts| >= 1
    ensures Join([x + parts[0]] + parts[1..], sep) == x + Join(parts, sep)
  {
    var q := [x + parts[0]] + parts[1..];
    if |parts| > 1 {
      assert q[1..] == parts[1..];
    }
  }

  /** Splitting on a separator and joining with it again gives the input back. */
  lemma {:induction false} JoinSplit(s: string, sep: string)
    requires |sep| > 0
    ensures Join(Split(s, sep), sep) == s
    decreases |s|
  {
    if |s| < |sep| {
    } else if s[..|sep|] == sep {
      JoinSplit(s[|sep|..], sep);
      var rest := Split(s[|sep|..], sep);
      assert ([[]] + rest)[1..] == rest;
      assert s == sep + s[|sep|..];
    } else {
      var rest := Split(s[1..], sep);
      JoinSplit(s[1..], sep);
      JoinFirst([s[0]], rest, sep);
      assert s == [s[0]] + s[1..];
    }
  }

  /** A string that does not contain the separator splits into itself. */
  lemma {:induction false} SplitAbsent(s: string, sep: string)
    requires |sep| > 0 && !IsSubstring(sep, s)
    ensures Split(s, sep) == [s]
    decreases |s|
  {
    if |s| >= |sep| {
      SplitAbsent(s[1..], sep);
      assert [s[0]] + s[1..] == s;
    }
  }

  /** Text that starts with the separator splits off an empty first part. */
  lemma SplitLeading(rest: string, sep: string)
    requires |sep| > 0
    ensures Split(sep + rest, sep) == [[]] + Split(rest, sep)
  {
    var s := sep + rest;
    assert s[..|sep|] == sep && s[|sep|..] == rest;
  }

  /** A one-character separator that does not occur in `a` splits `a` off first. */
  lemma {:induction false} SplitAtChar(a: string, c: char, b: string)
    requires c !in a
    ensures Split(a + [c] + b, [c]) == [a] + Split(b, [c])
    decreases |a|
  {
    var s := a + [c] + b;
    if a == [] {
      assert s == [c] + b;
      SplitLeading(b, [c]);
    } else {
      assert s[0] == a[0] && a[0] != c;
      assert s[..1] != [c];
      assert s[1..] == a[1..] + [c] + b;
      SplitAtChar(a[1..], c, b);
      assert [a[0]] + a[1..] == a;
    }
  }

  /** No part of a split on one character holds that character. */
  lemma {:induction false} SplitPartsAvoid(s: string, c: char)
    ensures forall k :: 0 <= k < |Split(s, [c])| ==> c !in Split(s, [c])[k]
    decreases |s|
  {
    if |s| >= 1 {
      SplitPartsAvoid(s[1..], c);
      var rest := Split(s[1..], [c]);
      if s[..1] != [c] {
        assert s[0] != c;
        assert c !in [s[0]] + rest[0];
        var parts := [[s[0]] + rest[0]] + rest[1..];
        forall k | 0 <= k < |parts| ensures c !in parts[k] {
          if k > 0 {
            assert parts[k] == rest[k];
          }
        }
      }
    }
  }

  /** Every character of a part comes from the split text. */
  lemma {:induction false} SplitPartChars(s: string, sep: string, k: nat, ch: char)
    requires |sep| > 0 && k < |Split(s, sep)| && ch in Split(s, sep)[k]
    ensures ch in s
    decreases |s|
  {
    if |s| < |sep| {
    } else if s[..|sep|] == sep {
      assert k > 0;
      SplitPartChars(s[|sep|..], sep, k - 1, ch);
    } else {
      var rest := Split(s[1..], sep);
      if k == 0 {
        if ch != s[0] {
          assert ch in rest[0];
          SplitPartChars(s[1..], sep, 0, ch);
        }
      } else {
        assert Split(s, sep)[k] == rest[k];
        SplitPartChars(s[1..], sep, k, ch);
      }
    }
  }

  /** Every character of a join comes from the separator or from a part. */
  lemma {:induction false} JoinChars(parts: seq<string>, sep: string, ch: char)
    requires ch in Join(parts, sep)
    ensures ch in sep || exists k :: 0 <= k < |parts| && ch in parts[k]
    decreases |parts|
  {
    if |parts| > 1 && ch !in parts[0] && ch !in sep {
      JoinChars(parts[1..], sep, ch);
      var k :| 0 <= k < |parts[1..]| && ch in parts[1..][k];
      assert ch in parts[k + 1];
    }
  }

  /** Joining parts free of a character with it and splitting on it again
      gives the parts back. */
  lemma {:induction false} SplitJoin(parts: seq<string>, c: char)
    requires |parts| >= 1 && forall k :: 0 <= k < |parts| ==> c !in parts[k]
    ensures Split(Join(parts, [c]), [c]) == parts
    decreases |parts|
  {
    if |parts| == 1 {
      MissingFirstCharNotSubstring([c], parts[0]);
      SplitAbsent(parts[0], [c]);
    } else {
      assert forall k :: 0 <= k < |parts[1..]| ==> parts[1..][k] == parts[k + 1];
      SplitJoin(parts[1..], c);
      SplitAtChar(parts[0], c, Join(parts[1..], [c]));
      assert [parts[0]] + parts[1..] == parts;
    }
  }

  /** A text whose first character does not start the pattern keeps it in front. */
  lemma ReplaceKeepsHead(s: string, pat: string, repl: string)
    requires |pat| > 0 && s != [] && s[0] != pat[0]
    ensures Replace(s, pat, repl) != [] && Replace(s, pat, repl)[0] == s[0]
  {
    if |s| >= |pat| {
      assert s[..|pat|][0] == s[0];
    }
  }

  /** The first part of a split starts with the text's first character,
      unless that character starts the separator. */
  lemma SplitKeepsHead(s: string, sep: string)
    requires |sep| > 0 && s != [] && s[0] != sep[0]
    ensures Split(s, sep)[0] != [] && Split(s, sep)[0][0] == s[0]
  {
    if |s| >= |sep| {
      assert s[..|sep|][0] == s[0];
    }
  }

  lemma JoinKeepsHead(parts: seq<string>, sep: string)
    requires |parts| > 0 && parts[0] != []
    ensures Join(parts, sep) != [] && Join(parts, sep)[0] == parts[0][0]
  {
  }

  function DigitChar(d: nat): char
    requires d < 10
  {
    ['0', '1', '2', '3', '4', '5', '6', '7', '8', '9'][d]
  }

  function DigitValue(c: char): nat
    requires IsDigit(c)
  {
    (c as int - '0' as int) as nat
  }

  lemma DigitRoundTrip(d: nat)
    requires d < 10
    ensures IsDigit(DigitChar(d)) && DigitValue(DigitChar(d)) == d
  {
  }

  /** `str(n)` for a natural number, most significant digit first. */
  function NatToString(n: nat): (r: string)
    decreases n
  {
    if n < 10 then [DigitChar(n)] else NatToString(n / 10) + [DigitChar(n % 10)]
  }

  /** `str(n)` for any integer. */
  function IntToString(n: int): string
  {
    if n < 0 then "-" + NatToString(-n) else NatToString(n)
  }

  /** The digit groups Python's `int()` accepts: digits, with single
      underscores allowed between two digits. */
  predicate IsDigitGroups(u: string)
  {
    |u| > 0 && IsDigit(u[0]) && IsDigit(u[|u| - 1])
    && (forall k :: 0 <= k < |u| ==> IsDigit(u[k]) || u[k] == '_')
    && (forall k :: 0 <= k < |u| - 1 ==> u[k] == '_' ==> u[k + 1] != '_')
  }

  /** The value of a digit string, underscores ignored. */
  function DigitsValue(u: string): nat
    requires forall k :: 0 <= k < |u| ==> IsDigit(u[k]) || u[k] == '_'
    decreases |u|
  {
    if u == [] then 0
    else if u[|u| - 1] == '_' then DigitsValue(u[..|u| - 1])
    else DigitsValue(u[..|u| - 1]) * 10 + DigitValue(u[|u| - 1])
  }

  /** `int(t)` on a string: surrounding whitespace and one sign are allowed;
      `None` stands for the `ValueError` Python raises. */
  function ParseInt(t: string): Option<int>
  {
    var u := Strip(t);
    var negative := u != [] && u[0] == '-';
    var digits := if u != [] && (u[0] == '+' || u[0] == '-') then u[1..] else u;
    if IsDigitGroups(digits) then
      Some(if negative then -(DigitsValue(digits) as int) else DigitsValue(digits) as int)
    else None
  }

  lemma {:induction false} NatToStringDigits(n: nat)
    ensures |NatToString(n)| > 0
    ensures forall k :: 0 <= k < |NatToString(n)| ==> IsDigit(NatToString(n)[k])
    ensures DigitsValue(NatToString(n)) == n
    decreases n
  {
    if n < 10 {
      DigitRoundTrip(n);
      assert NatToString(n)[..0] == [];
    } else {
      NatToStringDigits(n / 10);
      DigitRoundTrip(n % 10);
      var r := NatToString(n);
      assert r[..|r| - 1] == NatToString(n / 10);
    }
  }

  lemma DigitNotSpaceOrSign(c: char)
    requires IsDigit(c)
    ensures !IsSpace(c) && c != '+' && c != '-'
  {
  }

  lemma NatToStringGroups(m: nat)
    ensures IsDigitGroups(NatToString(m)) && DigitsValue(NatToString(m)) == m
  {
    NatToStringDigits(m);
  }

  /** `int(str(n)) == n`: the decimal text an integer is written as parses back to it. */
  lemma ParseIntToString(n: int)
    ensures ParseInt(IntToString(n)) == Some(n)
  {
    var m: nat := if n < 0 then -n else n;
    var d := NatToString(m);
    NatToStringGroups(m);
    DigitNotSpaceOrSign(d[0]);
    DigitNotSpaceOrSign(d[|d| - 1]);
    var t := IntToString(n);
    if n < 0 {
      assert t == "-" + d && t[1..] == d;
      assert t[0] == '-' && t[|t| - 1] == d[|d| - 1];
    } else {
      assert t == d;
    }
    StripOfStripped(t);
    ParseIntOfStripped(t, n < 0, d);
  }

  lemma ParseIntOfStripped(t: string, negative: bool, d: string)
    requires Strip(t) == t && IsDigitGroups(d)
    requires t == (if negative then "-" + d else d)
    ensures ParseInt(t) == Some(if negative then -(DigitsValue(d) as int) else DigitsValue(d) as int)
  {
    DigitNotSpaceOrSign(d[0]);
    if negative {
      assert t[0] == '-' && t[1..] == d;
    } else {
      assert t[0] == d[0];
    }
  }

  lemma StripOfStripped(t: string)
    requires IsStripped(t)
    ensures Strip(t) == t
  {
    assert LStrip(t) == t;
  }
}
