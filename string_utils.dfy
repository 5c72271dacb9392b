/**
 * The string helpers of app/utils/string_utils.py: the sentence splitter
 * `split_string_by_punctuations`, `str_contains_punctuation`, and the
 * value sanitiser `serialize` inside `to_json`. The punctuation set
 * `const.PUNCTUATIONS` is a parameter `punct` here: a list of strings, as
 * the source tests a character with `in` against it and tests a word by
 * looking for each of its entries as a substring.
 */
module StringUtils {
  import opened Wrappers
  import opened Text

  // ---------------------------------------------------------------------
  // split_string_by_punctuations

  /** A '.' between two digits, as in "2.5", does not end a sentence. */
  predicate IsDecimalPoint(s: string, i: nat)
  {
    0 < i && i + 1 < |s| && s[i] == '.' && IsDigit(s[i - 1]) && IsDigit(s[i + 1])
  }

  /** The positions where the splitter ends a piece: newlines, and
      punctuation characters other than decimal points. */
  predicate IsBreak(s: string, punct: seq<string>, i: nat)
    requires i < |s|
  {
    s[i] == '\n' || ([s[i]] in punct && !IsDecimalPoint(s, i))
  }

  /** The half-open range s[lo..hi]. */
  datatype Span = Span(lo: nat, hi: nat)

  predicate WellSpans(s: string, spans: seq<Span>)
  {
    forall j :: 0 <= j < |spans| ==> spans[j].lo <= spans[j].hi <= |s|
  }

  /** Each span ends before the next one begins. */
  predicate Ordered(spans: seq<Span>)
  {
    forall j :: 0 <= j < |spans| - 1 ==> spans[j].hi < spans[j + 1].lo
  }

  predicate BreakFree(s: string, punct: seq<string>, spans: seq<Span>)
    requires WellSpans(s, spans)
  {
    forall j, k :: 0 <= j < |spans| && spans[j].lo <= k < spans[j].hi ==> !IsBreak(s, punct, k)
  }

  function SpanText(s: string, sp: Span): string
    requires sp.lo <= sp.hi <= |s|
  {
    s[sp.lo..sp.hi]
  }

  /** `r` cuts s[start..] into pieces: they start at `start`, end at |s|,
      contain no break, and consecutive pieces are separated by exactly one
      break character. */
  predicate Partition(s: string, punct: seq<string>, start: nat, r: seq<Span>)
  {
    && |r| >= 1 && WellSpans(s, r) && BreakFree(s, punct, r)
    && r[0].lo == start && r[|r| - 1].hi == |s|
    && forall j :: 0 <= j < |r| - 1 ==>
         r[j].hi < |s| && IsBreak(s, punct, r[j].hi) && r[j + 1].lo == r[j].hi + 1
  }

  /** The pieces between breaks, from the piece that began at `start`
      with s[start..i] already scanned. */
  function SpansFrom(s: string, punct: seq<string>, start: nat, i: nat): (r: seq<Span>)
    requires start <= i <= |s|
    ensures |r| >= 1
    decreases |s| - i
  {
    if i == |s| then [Span(start, |s|)]
    else if IsBreak(s, punct, i) then [Span(start, i)] + SpansFrom(s, punct, i + 1, i + 1)
    else SpansFrom(s, punct, start, i + 1)
  }

  /** A piece ended by the break at i, followed by a partition of s[i + 1..]. */
  lemma PartitionCons(s: string, punct: seq<string>, start: nat, i: nat, rest: seq<Span>)
    requires start <= i < |s| && IsBreak(s, punct, i)
    requires forall k :: start <= k < i ==> !IsBreak(s, punct, k)
    requires Partition(s, punct, i + 1, rest)
    ensures Partition(s, punct, start, [Span(start, i)] + rest)
  {
    var r := [Span(start, i)] + rest;
    assert forall j :: 1 <= j < |r| ==> r[j] == rest[j - 1];
    assert WellSpans(s, r);
    assert BreakFree(s, punct, r) by {
      forall j, k | 0 <= j < |r| && r[j].lo <= k < r[j].hi ensures !IsBreak(s, punct, k) {
        if j > 0 {
          assert r[j] == rest[j - 1];
        }
      }
    }
    forall j | 0 <= j < |r| - 1
      ensures r[j].hi < |s| && IsBreak(s, punct, r[j].hi) && r[j + 1].lo == r[j].hi + 1
    {
      assert r[j + 1] == rest[j];
    }
  }

  lemma {:induction false} SpansFromWell(s: string, punct: seq<string>, start: nat, i: nat)
    requires start <= i <= |s|
    requires forall k :: start <= k < i ==> !IsBreak(s, punct, k)
    ensures Partition(s, punct, start, SpansFrom(s, punct, start, i))
    decreases |s| - i
  {
    if i == |s| {
      assert SpansFrom(s, punct, start, i) == [Span(start, |s|)];
    } else if IsBreak(s, punct, i) {
      SpansFromWell(s, punct, i + 1, i + 1);
      PartitionCons(s, punct, start, i, SpansFrom(s, punct, i + 1, i + 1));
    } else {
      SpansFromWell(s, punct, start, i + 1);
    }
  }

  /** The pieces of s between breaks. */
  function Spans(s: string, punct: seq<string>): (r: seq<Span>)
    ensures WellSpans(s, r)
  {
    SpansFromWell(s, punct, 0, 0);
    SpansFrom(s, punct, 0, 0)
  }

  /** The pieces partition s, in order. */
  lemma SpansPartition(s: string, punct: seq<string>)
    ensures Partition(s, punct, 0, Spans(s, punct)) && Ordered(Spans(s, punct))
  {
    SpansFromWell(s, punct, 0, 0);
  }

  /** The stripped text of every piece, empty ones included. */
  function Fragments(s: string, spans: seq<Span>): (r: seq<string>)
    requires WellSpans(s, spans)
    ensures |r| == |spans|
  {
    seq(|spans|, j requires 0 <= j < |spans| => Strip(SpanText(s, spans[j])))
  }

  /** `filter(None, ...)`: drop the empty strings. */
  function NonEmpty(xs: seq<string>): (r: seq<string>)
    ensures forall j :: 0 <= j < |r| ==> r[j] != [] && r[j] in xs
  {
    if xs == [] then []
    else (if xs[0] == [] then [] else [xs[0]]) + NonEmpty(xs[1..])
  }

  /** What `split_string_by_punctuations` returns: the pieces between
      breaks, stripped, without the empty ones. */
  function SplitSpec(s: string, punct: seq<string>): seq<string>
  {
    NonEmpty(Fragments(s, Spans(s, punct)))
  }

  /** Where the stripped text of a piece lies in s. */
  function StrippedSpan(s: string, sp: Span): (r: Span)
    requires sp.lo <= sp.hi <= |s|
    ensures sp.lo <= r.lo <= r.hi <= sp.hi
  {
    var t := SpanText(s, sp);
    StripIsStrippedInfix(t);
    Span(sp.lo + LeadingSpace(t), sp.lo + LeadingSpace(t) + |Strip(t)|)
  }

  lemma StrippedSpanText(s: string, sp: Span)
    requires sp.lo <= sp.hi <= |s|
    ensures SpanText(s, StrippedSpan(s, sp)) == Strip(SpanText(s, sp))
    ensures IsStripped(SpanText(s, StrippedSpan(s, sp)))
  {
    var t := SpanText(s, sp);
    StripIsStrippedInfix(t);
    var c := StrippedSpan(s, sp);
    var l := LeadingSpace(t);
    assert c.lo == sp.lo + l && c.hi == sp.lo + l + |Strip(t)|;
    forall k | 0 <= k < |Strip(t)| ensures Strip(t)[k] == s[c.lo + k] {
      assert Strip(t)[k] == t[l + k];
    }
    assert Strip(t) == s[c.lo..c.hi];
  }

  lemma PiecesAppend(s: string, a: seq<Span>, b: seq<Span>)
    requires WellSpans(s, a) && WellSpans(s, b)
    ensures WellSpans(s, a + b) && Pieces(s, a + b) == Pieces(s, a) + Pieces(s, b)
  {
    assert forall j :: 0 <= j < |a + b| ==> (a + b)[j] == (if j < |a| then a[j] else b[j - |a|]);
  }

  lemma FragmentsCons(s: string, spans: seq<Span>)
    requires WellSpans(s, spans) && spans != []
    ensures WellSpans(s, spans[1..])
    ensures Fragments(s, spans) == [Strip(SpanText(s, spans[0]))] + Fragments(s, spans[1..])
  {
    assert WellSpans(s, spans[1..]);
    assert Fragments(s, spans)[1..] == Fragments(s, spans[1..]);
  }

  lemma ConcatIndex(a: seq<Span>, b: seq<Span>)
    ensures forall j :: 0 <= j < |a + b| ==> (a + b)[j] == (if j < |a| then a[j] else b[j - |a|])
  {
  }

  /** The spans of the stripped, non-empty pieces. */
  function CleanSpans(s: string, spans: seq<Span>): (r: seq<Span>)
    requires WellSpans(s, spans)
    ensures WellSpans(s, r)
    ensures forall j :: 0 <= j < |r| ==> r[j].lo < r[j].hi
    decreases |spans|
  {
    if spans == [] then []
    else
      var c := StrippedSpan(s, spans[0]);
      var rest := CleanSpans(s, spans[1..]);
      var head := if c.lo < c.hi then [c] else [];
      ConcatIndex(head, rest);
      head + rest
  }

  function Pieces(s: string, spans: seq<Span>): (r: seq<string>)
    requires WellSpans(s, spans)
    ensures |r| == |spans|
  {
    seq(|spans|, j requires 0 <= j < |spans| => SpanText(s, spans[j]))
  }

  lemma OrderedCons(head: seq<Span>, rest: seq<Span>)
    requires |head| <= 1 && Ordered(rest)
    requires head != [] && rest != [] ==> head[0].hi < rest[0].lo
    ensures Ordered(head + rest)
  {
    ConcatIndex(head, rest);
  }

  /** The stripped spans keep the order of the pieces and start no
      earlier than the first piece. */
  lemma {:induction false} CleanSpansOrdered(s: string, spans: seq<Span>)
    requires WellSpans(s, spans) && Ordered(spans)
    ensures Ordered(CleanSpans(s, spans))
    ensures |spans| > 0 ==> forall j :: 0 <= j < |CleanSpans(s, spans)| ==> spans[0].lo <= CleanSpans(s, spans)[j].lo
    decreases |spans|
  {
    if spans != [] {
      var tail := spans[1..];
      assert WellSpans(s, tail) && Ordered(tail);
      CleanSpansOrdered(s, tail);
      var c := StrippedSpan(s, spans[0]);
      var rest := CleanSpans(s, tail);
      var head := if c.lo < c.hi then [c] else [];
      if tail != [] {
        assert spans[0].hi < tail[0].lo;
      }
      OrderedCons(head, rest);
      ConcatIndex(head, rest);
    }
  }

  /** A sub-span of a break-free piece is break-free. */
  lemma {:induction false} CleanSpansBreakFree(s: string, punct: seq<string>, spans: seq<Span>)
    requires WellSpans(s, spans) && BreakFree(s, punct, spans)
    ensures BreakFree(s, punct, CleanSpans(s, spans))
    decreases |spans|
  {
    if spans != [] {
      var tail := spans[1..];
      assert BreakFree(s, punct, tail) by {
        forall j, k | 0 <= j < |tail| && tail[j].lo <= k < tail[j].hi ensures !IsBreak(s, punct, k) {
          assert tail[j] == spans[j + 1];
        }
      }
      CleanSpansBreakFree(s, punct, tail);
      var c := StrippedSpan(s, spans[0]);
      var r := CleanSpans(s, spans);
      var rest := CleanSpans(s, tail);
      var head := if c.lo < c.hi then [c] else [];
      assert r == head + rest;
      forall j, k | 0 <= j < |r| && r[j].lo <= k < r[j].hi ensures !IsBreak(s, punct, k) {
        if j < |head| {
          assert spans[0].lo <= k < spans[0].hi;
        } else {
          assert r[j] == rest[j - |head|];
        }
      }
    }
  }

  /** Every stripped span holds a stripped string. */
  lemma {:induction false} CleanSpansStripped(s: string, spans: seq<Span>)
    requires WellSpans(s, spans)
    ensures forall j :: 0 <= j < |CleanSpans(s, spans)| ==> IsStripped(SpanText(s, CleanSpans(s, spans)[j]))
    decreases |spans|
  {
    if spans != [] {
      var tail := spans[1..];
      CleanSpansStripped(s, tail);
      var c := StrippedSpan(s, spans[0]);
      StrippedSpanText(s, spans[0]);
      var rest := CleanSpans(s, tail);
      var head := if c.lo < c.hi then [c] else [];
      ConcatIndex(head, rest);
    }
  }

  /** Stripping every piece and dropping the empty ones gives the strings
      cut out by the stripped spans. */
  lemma {:induction false} CleanSpansPieces(s: string, spans: seq<Span>)
    requires WellSpans(s, spans)
    ensures NonEmpty(Fragments(s, spans)) == Pieces(s, CleanSpans(s, spans))
    decreases |spans|
  {
    if spans != [] {
      var tail := spans[1..];
      FragmentsCons(s, spans);
      CleanSpansPieces(s, tail);
      var c := StrippedSpan(s, spans[0]);
      StrippedSpanText(s, spans[0]);
      var t := Strip(SpanText(s, spans[0]));
      var rest := CleanSpans(s, tail);
      var head := if c.lo < c.hi then [c] else [];
      PiecesAppend(s, head, rest);
      assert Pieces(s, head) == (if t == [] then [] else [t]);
    }
  }

  /** The properties `split_string_by_punctuations` promises, stated on the
      positions in s of the pieces it returns: they are the stripped,
      non-empty pieces between breaks, in order, and none holds a break. */
  lemma SplitSpecLocated(s: string, punct: seq<string>)
    ensures SplitSpec(s, punct) == Pieces(s, CleanSpans(s, Spans(s, punct)))
    ensures Ordered(CleanSpans(s, Spans(s, punct)))
    ensures BreakFree(s, punct, CleanSpans(s, Spans(s, punct)))
    ensures forall j :: 0 <= j < |CleanSpans(s, Spans(s, punct))| ==>
      IsStripped(SpanText(s, CleanSpans(s, Spans(s, punct))[j]))
  {
    var spans := Spans(s, punct);
    SpansPartition(s, punct);
    CleanSpansPieces(s, spans);
    CleanSpansOrdered(s, spans);
    CleanSpansBreakFree(s, punct, spans);
    CleanSpansStripped(s, spans);
  }

  /** A string cut out of s by a break-free span holds no newline, and no
      punctuation character other than '.'. */
  lemma BreakFreeText(s: string, punct: seq<string>, sp: Span)
    requires sp.lo <= sp.hi <= |s|
    requires forall k :: sp.lo <= k < sp.hi ==> !IsBreak(s, punct, k)
    ensures '\n' !in SpanText(s, sp)
    ensures forall k :: 0 <= k < |SpanText(s, sp)| ==> ([SpanText(s, sp)[k]] in punct ==> SpanText(s, sp)[k] == '.')
  {
    var t := SpanText(s, sp);
    forall k | 0 <= k < |t| ensures t[k] != '\n' && ([t[k]] in punct ==> t[k] == '.') {
      assert t[k] == s[sp.lo + k];
      assert !IsBreak(s, punct, sp.lo + k);
    }
  }

  /** The same properties on the strings returned: no piece is empty or has
      surrounding whitespace or a newline, and the only punctuation
      character a piece can hold is a '.' (one between two digits of s). */
  lemma SplitSpecPieces(s: string, punct: seq<string>)
    ensures forall j :: 0 <= j < |SplitSpec(s, punct)| ==>
      (SplitSpec(s, punct)[j] != [] && IsStripped(SplitSpec(s, punct)[j]) && '\n' !in SplitSpec(s, punct)[j])
    ensures forall j, k :: 0 <= j < |SplitSpec(s, punct)| && 0 <= k < |SplitSpec(s, punct)[j]| ==>
      ([SplitSpec(s, punct)[j][k]] in punct ==> SplitSpec(s, punct)[j][k] == '.')
  {
    SplitSpecLocated(s, punct);
    var cs := CleanSpans(s, Spans(s, punct));
    var r := SplitSpec(s, punct);
    forall j | 0 <= j < |r|
      ensures r[j] != [] && IsStripped(r[j]) && '\n' !in r[j]
      ensures forall k :: 0 <= k < |r[j]| ==> ([r[j][k]] in punct ==> r[j][k] == '.')
    {
      assert r[j] == SpanText(s, cs[j]);
      BreakFreeText(s, punct, cs[j]);
    }
  }

  /** Python's `isdigit` on `previous_char` / `next_char`, which hold one
      character or none. */
  predicate IsDigitText(t: string)
  {
    |t| > 0 && forall k :: 0 <= k < |t| ==> IsDigit(t[k])
  }

  /** Scanning one more character: a break closes the current piece. */
  lemma ScanStep(s: string, punct: seq<string>, done: seq<Span>, start: nat, i: nat)
    requires start <= i < |s| && WellSpans(s, done)
    requires Spans(s, punct) == done + SpansFrom(s, punct, start, i)
    ensures IsBreak(s, punct, i) ==>
      Spans(s, punct) == (done + [Span(start, i)]) + SpansFrom(s, punct, i + 1, i + 1)
    ensures !IsBreak(s, punct, i) ==> Spans(s, punct) == done + SpansFrom(s, punct, start, i + 1)
    ensures WellSpans(s, done + [Span(start, i)])
    ensures Fragments(s, done + [Span(start, i)]) == Fragments(s, done) + [Strip(s[start..i])]
  {
    assert Fragments(s, done + [Span(start, i)]) == Fragments(s, done) + [Strip(s[start..i])];
  }

  lemma ScanEnd(s: string, punct: seq<string>, done: seq<Span>, start: nat)
    requires start <= |s| && WellSpans(s, done)
    requires Spans(s, punct) == done + SpansFrom(s, punct, start, |s|)
    ensures Spans(s, punct) == done + [Span(start, |s|)]
    ensures Fragments(s, Spans(s, punct)) == Fragments(s, done) + [Strip(s[start..])]
  {
    var f := Fragments(s, done + [Span(start, |s|)]);
    assert (done + [Span(start, |s|)])[|done|] == Span(start, |s|);
    assert SpanText(s, Span(start, |s|)) == s[start..];
    assert f[|done|] == Strip(s[start..]);
    assert forall j :: 0 <= j < |done| ==> f[j] == Fragments(s, done)[j];
    assert f == Fragments(s, done) + [Strip(s[start..])];
  }

  /** The decimal test of the loop, with `previous_char` and `next_char` as
      the loop leaves them, is the test for a '.' between two digits. */
  lemma DecimalTest(s: string, i: nat, previousChar: string, nextChar: string)
    requires i < |s|
    requires i == 0 ==> previousChar == ""
    requires i > 0 ==> previousChar == [s[i - 1]]
    requires i + 1 < |s| ==> nextChar == [s[i + 1]]
    requires IsDigitText(nextChar) ==> nextChar == [s[i]] || i + 1 < |s|
    ensures (s[i] == '.' && IsDigitText(previousChar) && IsDigitText(nextChar)) == IsDecimalPoint(s, i)
  {
    if i > 0 {
      assert previousChar[0] == s[i - 1];
    }
    if i + 1 < |s| {
      assert nextChar[0] == s[i + 1];
    } else if IsDigitText(nextChar) {
      assert nextChar[0] == s[i];
    }
  }

  /** `split_string_by_punctuations(s)`. `previous_char` and `next_char` keep
      their values between iterations, as in the source; at the last index
      `next_char` still holds a character seen earlier, which is never a
      digit there, so the decimal test only passes between two digits. */
  method SplitStringByPunctuations(s: string, punct: seq<string>) returns (result: seq<string>)
    ensures result == SplitSpec(s, punct)
  {
    var raw: seq<string> := [];
    var txt := "";
    var previousChar := "";
    var nextChar := "";
    ghost var start: nat := 0;
    ghost var done: seq<Span> := [];
    ghost var spans := Spans(s, punct);
    for i := 0 to |s|
      invariant start <= i
      invariant txt == s[start..i]
      invariant WellSpans(s, done)
      invariant raw == Fragments(s, done)
      invariant spans == done + SpansFrom(s, punct, start, i)
      invariant i == 0 ==> previousChar == ""
      invariant IsDigitText(nextChar) && i < |s| ==> nextChar == [s[i]]
    {
      var c := s[i];
      ScanStep(s, punct, done, start, i);
      if c == '\n' {
        raw := raw + [Strip(txt)];
        done := done + [Span(start, i)];
        txt := "";
        start := i + 1;
        continue;
      }
      if i > 0 {
        previousChar := [s[i - 1]];
      }
      if i < |s| - 1 {
        nextChar := [s[i + 1]];
      }
      DecimalTest(s, i, previousChar, nextChar);
      if c == '.' && IsDigitText(previousChar) && IsDigitText(nextChar) {
        assert s[start..i + 1] == s[start..i] + [c];
        txt := txt + [c];
        continue;
      }
      if [c] !in punct {
        assert s[start..i + 1] == s[start..i] + [c];
        txt := txt + [c];
      } else {
        raw := raw + [Strip(txt)];
        done := done + [Span(start, i)];
        txt := "";
        start := i + 1;
      }
    }
    ScanEnd(s, punct, done, start);
    assert txt == s[start..];
    raw := raw + [Strip(txt)];
    result := NonEmpty(raw);
  }

  // ---------------------------------------------------------------------
  // str_contains_punctuation

  /** True as soon as some entry of the punctuation list occurs in `word`. */
  method StrContainsPunctuation(word: string, punct: seq<string>) returns (found: bool)
    ensures found <==> exists k :: 0 <= k < |punct| && IsSubstring(punct[k], word)
  {
    for k := 0 to |punct|
      invariant forall j :: 0 <= j < k ==> !IsSubstring(punct[j], word)
    {
      if IsSubstring(punct[k], word) {
        return true;
      }
    }
    return false;
  }

  // ---------------------------------------------------------------------
  // serialize and to_json

  /** The Python values `serialize` tells apart. `PyObject` is any other
      object with a `__dict__` (its attributes by name); `PyOther` is one
      without. Floats are carried as they are. */
  datatype PyValue =
    | PyNone
    | PyBool(b: bool)
    | PyInt(i: int)
    | PyFloat(x: real)
    | PyStr(s: string)
    | PyBytes(data: seq<bv8>)
    | PyList(items: seq<PyValue>)
    | PyTuple(items: seq<PyValue>)
    | PyDict(entries: seq<(PyValue, PyValue)>)
    | PyObject(attrs: seq<(string, PyValue)>)
    | PyOther

  predicate IsScalar(v: PyValue)
  {
    v.PyNone? || v.PyBool? || v.PyInt? || v.PyFloat? || v.PyStr?
  }

  /** What `serialize` can return: scalars, lists and dicts all the way
      down. The keys of a dict are left as they came. */
  predicate Shaped(v: PyValue)
  {
    match v
    case PyList(items) => forall k :: 0 <= k < |items| ==> Shaped(items[k])
    case PyDict(entries) => forall k :: 0 <= k < |entries| ==> Shaped(entries[k].1)
    case _ => IsScalar(v)
  }

  /** `serialize(o)`. */
  function Serialize(v: PyValue): (r: PyValue)
    ensures Shaped(r)
    ensures IsScalar(v) ==> r == v
    ensures v.PyBytes? ==> r == PyStr("*** binary data ***")
    ensures v.PyOther? ==> r == PyNone
    ensures (v.PyList? || v.PyTuple?) ==> r.PyList? && |r.items| == |v.items|
    ensures v.PyDict? ==>
      (r.PyDict? && |r.entries| == |v.entries|
       && forall k :: 0 <= k < |v.entries| ==> r.entries[k].0 == v.entries[k].0)
    ensures v.PyObject? ==>
      (r.PyDict? && |r.entries| == |v.attrs|
       && forall k :: 0 <= k < |v.attrs| ==> r.entries[k].0 == PyStr(v.attrs[k].0))
    decreases v
  {
    match v
    case PyNone => v
    case PyBool(_) => v
    case PyInt(_) => v
    case PyFloat(_) => v
    case PyStr(_) => v
    case PyBytes(_) => PyStr("*** binary data ***")
    case PyDict(entries) =>
      PyDict(seq(|entries|, k requires 0 <= k < |entries| => (entries[k].0, Serialize(entries[k].1))))
    case PyList(items) =>
      PyList(seq(|items|, k requires 0 <= k < |items| => Serialize(items[k])))
    case PyTuple(items) =>
      PyList(seq(|items|, k requires 0 <= k < |items| => Serialize(items[k])))
    case PyObject(attrs) =>
      PyDict(seq(|attrs|, k requires 0 <= k < |attrs| => (PyStr(attrs[k].0), Serialize(attrs[k].1))))
    case PyOther => PyNone
  }

  /** A value that is already shaped comes back unchanged. */
  lemma {:induction false} SerializeFixesShaped(v: PyValue)
    requires Shaped(v)
    ensures Serialize(v) == v
    decreases v
  {
    match v
    case PyList(items) =>
      forall k | 0 <= k < |items| ensures Serialize(items[k]) == items[k] {
        SerializeFixesShaped(items[k]);
      }
      assert Serialize(v).items == items;
    case PyDict(entries) =>
      forall k | 0 <= k < |entries| ensures Serialize(entries[k].1) == entries[k].1 {
        SerializeFixesShaped(entries[k].1);
      }
      assert Serialize(v).entries == entries;
    case _ =>
  }

  /** Serialising twice is serialising once. */
  lemma SerializeIdempotent(v: PyValue)
    ensures Serialize(Serialize(v)) == Serialize(v)
  {
    SerializeFixesShaped(Serialize(v));
  }

  /** A tuple is serialised as the list of the same items. */
  lemma TupleSerializesAsList(items: seq<PyValue>)
    ensures Serialize(PyTuple(items)) == Serialize(PyList(items))
    ensures forall k :: 0 <= k < |items| ==> Serialize(PyTuple(items)).items[k] == Serialize(items[k])
  {
  }

  /** The keys `json.dumps` accepts in a dict. */
  predicate KeysDumpable(v: PyValue)
  {
    match v
    case PyList(items) => forall k :: 0 <= k < |items| ==> KeysDumpable(items[k])
    case PyDict(entries) => forall k :: 0 <= k < |entries| ==> IsScalar(entries[k].0) && KeysDumpable(entries[k].1)
    case _ => true
  }

  /** Every dict reachable from `v` through list and tuple items, dict
      values and object attributes has only scalar keys. Bytes and values
      without a `__dict__` hold no dict; an object's own keys are its
      attribute names, which are strings. */
  predicate DumpableKeys(v: PyValue)
  {
    match v
    case PyList(items) => forall k :: 0 <= k < |items| ==> DumpableKeys(items[k])
    case PyTuple(items) => forall k :: 0 <= k < |items| ==> DumpableKeys(items[k])
    case PyDict(entries) => forall k :: 0 <= k < |entries| ==> IsScalar(entries[k].0) && DumpableKeys(entries[k].1)
    case PyObject(attrs) => forall k :: 0 <= k < |attrs| ==> DumpableKeys(attrs[k].1)
    case _ => true
  }

  /** `json.dumps` accepts the keys of `serialize(v)` exactly when `v`
      itself has only scalar dict keys all the way down. */
  lemma {:induction false} DumpableKeysSerialized(v: PyValue)
    ensures KeysDumpable(Serialize(v)) <==> DumpableKeys(v)
    decreases v
  {
    var r := Serialize(v);
    match v
    case PyList(items) =>
      forall k | 0 <= k < |items| ensures KeysDumpable(r.items[k]) <==> DumpableKeys(items[k]) {
        DumpableKeysSerialized(items[k]);
      }
    case PyTuple(items) =>
      forall k | 0 <= k < |items| ensures KeysDumpable(r.items[k]) <==> DumpableKeys(items[k]) {
        DumpableKeysSerialized(items[k]);
      }
    case PyDict(entries) =>
      forall k | 0 <= k < |entries|
        ensures (IsScalar(r.entries[k].0) && KeysDumpable(r.entries[k].1)) <==> (IsScalar(entries[k].0) && DumpableKeys(entries[k].1))
      {
        DumpableKeysSerialized(entries[k].1);
      }
    case PyObject(attrs) =>
      forall k | 0 <= k < |attrs|
        ensures (IsScalar(r.entries[k].0) && KeysDumpable(r.entries[k].1)) <==> DumpableKeys(attrs[k].1)
      {
        DumpableKeysSerialized(attrs[k].1);
      }
    case _ =>
  }

  /** `to_json(obj)`, up to the text `json.dumps` prints: the serialised
      value, or None when `json.dumps` would raise on a dict key. */
  function ToJson(obj: PyValue): (r: Option<PyValue>)
    ensures r.Some? <==> DumpableKeys(obj)
    ensures r.Some? ==> r.value == Serialize(obj) && Shaped(r.value)
  {
    DumpableKeysSerialized(obj);
    if KeysDumpable(Serialize(obj)) then Some(Serialize(obj)) else None
  }

  /** A non-scalar key anywhere inside makes `to_json` fail: here, a list
      whose only item is a dict keyed by a tuple. */
  lemma TupleKeyFails(x: PyValue)
    ensures ToJson(PyList([PyDict([(PyTuple([]), x)])])) == None
  {
    var d := PyDict([(PyTuple([]), x)]);
    assert !IsScalar(d.entries[0].0);
    assert !DumpableKeys(PyList([d]).items[0]);
  }

  /** Objects are dumped as the dict of their attributes. */
  lemma ObjectIsItsAttributes(attrs: seq<(string, PyValue)>)
    ensures Serialize(PyObject(attrs))
         == Serialize(PyDict(seq(|attrs|, k requires 0 <= k < |attrs| => (PyStr(attrs[k].0), attrs[k].1))))
    ensures ToJson(PyObject(attrs)).Some? <==> forall k :: 0 <= k < |attrs| ==> DumpableKeys(attrs[k].1)
  {
  }
}
