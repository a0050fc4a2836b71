/**
 * The string operations the generators and their forms rely on: the ASCII
 * identifier grammar of the validation patterns (`[a-zA-Z_]` and `\w`, which
 * in java.util.regex without UNICODE_CHARACTER_CLASS is `[a-zA-Z0-9_]`),
 * String.startsWith, indexOf and lastIndexOf, String.compareTo,
 * Integer.parseInt and Integer.toString.
 */
module JavaText {
  import opened Maybe

  predicate IsAsciiLetter(c: char) { 'a' <= c <= 'z' || 'A' <= c <= 'Z' }

  /** `\d`: an ASCII digit. */
  predicate IsDigit(c: char) { '0' <= c <= '9' }

  /** `[a-zA-Z_]`: a character that may start a name. */
  predicate IsNameStart(c: char) { IsAsciiLetter(c) || c == '_' }

  /** `\w`: an ASCII letter, digit or underscore. */
  predicate IsWordChar(c: char) { IsNameStart(c) || IsDigit(c) }

  /** The pattern `^[a-zA-Z_]\w*?$`; unlike a Java identifier it admits neither `$` nor non-ASCII letters. */
  predicate IsName(s: string) {
    |s| > 0 && IsNameStart(s[0]) && forall i :: 1 <= i < |s| ==> IsWordChar(s[i])
  }

  /** The pattern `^[a-zA-Z_]\w*?(\.[a-zA-Z_]\w*?)*?$`: names separated by single dots. */
  predicate IsDottedName(s: string) {
    && |s| > 0
    && IsNameStart(s[0])
    && s[|s| - 1] != '.'
    && forall i :: 0 <= i < |s| ==> WellPlaced(s, i)
  }

  /** In a dotted name, a character is a word character or a dot followed by a name start. */
  predicate WellPlaced(s: string, i: int)
    requires 0 <= i < |s|
  {
    IsWordChar(s[i]) || (s[i] == '.' && i + 1 < |s| && IsNameStart(s[i + 1]))
  }

  /** String.startsWith. */
  predicate StartsWith(s: string, prefix: string) {
    |prefix| <= |s| && s[..|prefix|] == prefix
  }

  /** String.indexOf(c): the first position of `c`, or -1. */
  function IndexOf(s: string, c: char): (r: int)
    ensures -1 <= r < |s|
    ensures r >= 0 ==> s[r] == c && forall j :: 0 <= j < r ==> s[j] != c
    ensures r == -1 ==> forall j :: 0 <= j < |s| ==> s[j] != c
  {
    if |s| == 0 then -1
    else if s[0] == c then 0
    else
      var r' := IndexOf(s[1..], c);
      if r' == -1 then -1 else r' + 1
  }

  /** String.lastIndexOf(c): the last position of `c`, or -1. */
  function LastIndexOf(s: string, c: char): (r: int)
    ensures -1 <= r < |s|
    ensures r >= 0 ==> s[r] == c && forall j :: r < j < |s| ==> s[j] != c
    ensures r == -1 ==> forall j :: 0 <= j < |s| ==> s[j] != c
  {
    if |s| == 0 then -1
    else if s[|s| - 1] == c then |s| - 1
    else LastIndexOf(s[..|s| - 1], c)
  }

  /** Names joined by dots, as in a qualified type name. */
  function Join(segments: seq<string>): string
    requires |segments| > 0
  {
    if |segments| == 1 then segments[0]
    else Join(segments[..|segments| - 1]) + "." + segments[|segments| - 1]
  }

  /** The dot-separated parts of a string, split at every dot. */
  function Segments(s: string): (parts: seq<string>)
    ensures |parts| > 0
  {
    var p := LastIndexOf(s, '.');
    if p == -1 then [s] else Segments(s[..p]) + [s[p + 1..]]
  }

  lemma {:induction false} DottedNameAppend(a: string, b: string)
    requires IsDottedName(a) && IsName(b)
    ensures IsDottedName(a + "." + b)
  {
    var s := a + "." + b;
    forall i | 0 <= i < |s|
      ensures WellPlaced(s, i)
    {
      if i < |a| {
        assert s[i] == a[i];
        assert WellPlaced(a, i);
        if i + 1 < |a| { assert s[i + 1] == a[i + 1]; }
      } else if i == |a| {
        assert s[i + 1] == b[0];
      } else {
        var j := i - |a| - 1;
        assert s[i] == b[j];
        assert j == 0 || IsWordChar(b[j]);
      }
    }
  }

  lemma NameIsDottedName(s: string)
    requires IsName(s)
    ensures IsDottedName(s)
  {
    assert forall i :: 0 <= i < |s| ==> IsWordChar(s[i]) by {
      forall i | 0 <= i < |s| ensures IsWordChar(s[i]) {
        if i > 0 { assert IsWordChar(s[i]); }
      }
    }
  }

  /** Joining names with dots always yields a dotted name. */
  lemma {:induction false} JoinedNamesAreDotted(segments: seq<string>)
    requires |segments| > 0 && forall k :: 0 <= k < |segments| ==> IsName(segments[k])
    ensures IsDottedName(Join(segments))
  {
    if |segments| == 1 {
      NameIsDottedName(segments[0]);
    } else {
      JoinedNamesAreDotted(segments[..|segments| - 1]);
      DottedNameAppend(Join(segments[..|segments| - 1]), segments[|segments| - 1]);
    }
  }

  /** The part of a dotted name before its last dot is a dotted name. */
  lemma DottedBeforeLastDot(s: string, p: int)
    requires IsDottedName(s) && 0 <= p < |s| && s[p] == '.'
    requires forall j :: p < j < |s| ==> s[j] != '.'
    ensures IsDottedName(s[..p])
  {
    var a := s[..p];
    assert 0 < p by { assert !IsNameStart('.'); }
    assert s[p - 1] != '.' by { assert WellPlaced(s, p - 1); assert !IsNameStart(s[p]); }
    forall i | 0 <= i < |a|
      ensures WellPlaced(a, i)
    {
      assert a[i] == s[i];
      assert WellPlaced(s, i);
      if a[i] == '.' {
        assert i + 1 != p by { assert !IsNameStart(s[p]); }
        assert a[i + 1] == s[i + 1];
      }
    }
  }

  /** The part of a dotted name after its last dot is a name. */
  lemma NameAfterLastDot(s: string, p: int)
    requires IsDottedName(s) && 0 <= p < |s| && s[p] == '.'
    requires forall j :: p < j < |s| ==> s[j] != '.'
    ensures IsName(s[p + 1..])
  {
    var b := s[p + 1..];
    assert p + 1 < |s| && IsNameStart(s[p + 1]) by { assert WellPlaced(s, p); }
    forall i | 1 <= i < |b| ensures IsWordChar(b[i]) {
      assert b[i] == s[p + 1 + i];
      assert WellPlaced(s, p + 1 + i);
    }
  }

  /** A dotted name without dots is a name. */
  lemma DotFreeDottedName(s: string)
    requires IsDottedName(s) && forall j :: 0 <= j < |s| ==> s[j] != '.'
    ensures IsName(s)
  {
    forall i | 1 <= i < |s| ensures IsWordChar(s[i]) {
      assert WellPlaced(s, i);
    }
  }

  /** Joining one more name appends it after a dot. */
  lemma JoinSnoc(init: seq<string>, last: string)
    requires |init| > 0
    ensures Join(init + [last]) == Join(init) + "." + last
  {
    var parts := init + [last];
    assert parts[..|parts| - 1] == init;
  }

  /** Splitting a dotted name at its dots gives names that join back to it. */
  lemma {:induction false} DottedNameSplits(s: string)
    requires IsDottedName(s)
    ensures forall k :: 0 <= k < |Segments(s)| ==> IsName(Segments(s)[k])
    ensures Join(Segments(s)) == s
    decreases |s|, 1
  {
    var p := LastIndexOf(s, '.');
    if p == -1 {
      DotFreeDottedName(s);
    } else {
      DottedNameSplitsAtLastDot(s, p);
    }
  }

  /** The step of `DottedNameSplits` for a name with a dot: split off the last segment. */
  lemma {:induction false} DottedNameSplitsAtLastDot(s: string, p: int)
    requires IsDottedName(s) && p == LastIndexOf(s, '.') && p != -1
    ensures forall k :: 0 <= k < |Segments(s)| ==> IsName(Segments(s)[k])
    ensures Join(Segments(s)) == s
    decreases |s|, 0
  {
    DottedBeforeLastDot(s, p);
    DottedNameSplits(s[..p]);
    NameAfterLastDot(s, p);
    SegmentsAtLastDot(s, p);
    SnocSegment(s, p, Segments(s[..p]), s[p + 1..]);
  }

  /** Splitting at the last dot: the segments before it, then the text after it. */
  lemma SegmentsAtLastDot(s: string, p: int)
    requires p == LastIndexOf(s, '.') && p != -1
    ensures Segments(s) == Segments(s[..p]) + [s[p + 1..]]
  {
  }

  /** Names joining to the text before a dot, and a name after it, give names joining to the whole text. */
  lemma SnocSegment(s: string, p: int, init: seq<string>, b: string)
    requires 0 <= p < |s| && s[p] == '.' && b == s[p + 1..] && |init| > 0
    requires Join(init) == s[..p] && forall k :: 0 <= k < |init| ==> IsName(init[k])
    requires IsName(b)
    ensures Join(init + [b]) == s
    ensures forall k :: 0 <= k < |init + [b]| ==> IsName((init + [b])[k])
  {
    NamesSnoc(init, b);
    JoinSnoc(init, b);
    SplitAtIndex(s, p);
  }

  /** A string is the part before position `p`, the character there, and the part after. */
  lemma SplitAtIndex(s: string, p: int)
    requires 0 <= p < |s|
    ensures s == s[..p] + [s[p]] + s[p + 1..]
  {
  }

  /** Appending a name to a sequence of names gives a sequence of names. */
  lemma NamesSnoc(init: seq<string>, last: string)
    requires forall k :: 0 <= k < |init| ==> IsName(init[k])
    requires IsName(last)
    ensures forall k :: 0 <= k < |init + [last]| ==> IsName((init + [last])[k])
  {
  }

  lemma {:induction false} LastDotOfJoin(a: string, b: string)
    requires IsName(b)
    ensures LastIndexOf(a + "." + b, '.') == |a|
  {
    var s := a + "." + b;
    var r := LastIndexOf(s, '.');
    assert s[|a|] == '.';
    forall j | |a| < j < |s| ensures s[j] != '.' {
      var k := j - |a| - 1;
      assert s[j] == b[k];
      assert k == 0 || IsWordChar(b[k]);
    }
  }

  /** A name after the last dot is split off as the last segment. */
  lemma SegmentsOfDotName(a: string, last: string)
    requires IsName(last)
    ensures Segments(a + "." + last) == Segments(a) + [last]
  {
    var s := a + "." + last;
    LastDotOfJoin(a, last);
    assert s[..|a|] == a && s[|a| + 1..] == last;
  }

  /** Splitting names joined by dots gives back the same names. */
  lemma {:induction false} SegmentsOfJoin(segments: seq<string>)
    requires |segments| > 0 && forall k :: 0 <= k < |segments| ==> IsName(segments[k])
    ensures Segments(Join(segments)) == segments
  {
    var n := |segments|;
    if n == 1 {
      var last := segments[0];
      assert LastIndexOf(last, '.') == -1 by {
        assert forall i :: 0 <= i < |last| ==> last[i] != '.';
      }
    } else {
      var init, last := segments[..n - 1], segments[n - 1];
      assert Join(segments) == Join(init) + "." + last;
      SegmentsOfJoin(init);
      SegmentsOfDotName(Join(init), last);
      assert segments == init + [last];
    }
  }

  /** Lower-cases an ASCII upper-case letter; every other character is kept. */
  function ToLowerAscii(c: char): char {
    if 'A' <= c <= 'Z' then (c as int - 'A' as int + 'a' as int) as char else c
  }

  /** `name.substring(0, 1).toLowerCase() + name.substring(1)`, the lowering taken as ASCII. */
  function LowerFirst(s: string): (r: string)
    requires |s| > 0
    ensures |r| == |s| && r[1..] == s[1..]
  {
    [ToLowerAscii(s[0])] + s[1..]
  }

  // ---- String.compareTo ----

  /**
   * `a.compareTo(b) < 0`: the first differing character decides; when one is
   * a prefix of the other, the shorter one is smaller.
   */
  predicate LexLess(a: string, b: string)
    decreases |a|
  {
    if |a| == 0 then |b| > 0
    else if |b| == 0 then false
    else if a[0] != b[0] then a[0] < b[0]
    else LexLess(a[1..], b[1..])
  }

  lemma {:induction false} LexLessIrreflexive(a: string)
    ensures !LexLess(a, a)
    decreases |a|
  {
    if |a| > 0 { LexLessIrreflexive(a[1..]); }
  }

  lemma {:induction false} LexLessTransitive(a: string, b: string, c: string)
    requires LexLess(a, b) && LexLess(b, c)
    ensures LexLess(a, c)
    decreases |a|
  {
    if |a| > 0 && |b| > 0 && |c| > 0 && a[0] == b[0] && b[0] == c[0] {
      LexLessTransitive(a[1..], b[1..], c[1..]);
    }
  }

  lemma {:induction false} LexLessTotal(a: string, b: string)
    requires a != b
    ensures LexLess(a, b) || LexLess(b, a)
    decreases |a|
  {
    if |a| > 0 && |b| > 0 && a[0] == b[0] {
      assert a == [a[0]] + a[1..] && b == [b[0]] + b[1..];
      LexLessTotal(a[1..], b[1..]);
    }
  }

  /** A common prefix does not change the comparison. */
  lemma {:induction false} LexLessCommonPrefix(p: string, a: string, b: string)
    ensures LexLess(p + a, p + b) == LexLess(a, b)
    decreases |p|
  {
    if |p| > 0 {
      var pa, pb := p + a, p + b;
      assert pa[0] == p[0] == pb[0];
      assert pa[1..] == p[1..] + a && pb[1..] == p[1..] + b;
      calc {
        LexLess(pa, pb);
        LexLess(pa[1..], pb[1..]);
        { LexLessCommonPrefix(p[1..], a, b); }
        LexLess(a, b);
      }
    } else {
      assert p + a == a && p + b == b;
    }
  }

  // ---- decimal numbers ----

  const INT_MAX: int := 0x7fff_ffff
  const INT_MIN: int := -0x8000_0000

  predicate AllDigits(s: string) { forall i :: 0 <= i < |s| ==> IsDigit(s[i]) }

  function DigitValue(c: char): nat
    requires IsDigit(c)
  {
    c as int - '0' as int
  }

  function DigitChar(d: nat): (c: char)
    requires d < 10
    ensures IsDigit(c) && DigitValue(c) == d
  {
    ('0' as int + d) as char
  }

  /** The value of a string of decimal digits (leading zeros allowed). */
  function DecimalValue(s: string): nat
    requires AllDigits(s)
  {
    if |s| == 0 then 0 else 10 * DecimalValue(s[..|s| - 1]) + DigitValue(s[|s| - 1])
  }

  /** Integer.parseInt on a non-empty string of digits: NumberFormatException past Integer.MAX_VALUE. */
  function ParseInt(s: string): (r: Option<int>)
    requires |s| > 0 && AllDigits(s)
    ensures r.Some? <==> DecimalValue(s) <= INT_MAX
    ensures r.Some? ==> r.value == DecimalValue(s)
  {
    var v := DecimalValue(s);
    if v <= INT_MAX then Some(v) else None
  }

  /** `serialNumber++` on a java.lang.Integer: wraps from Integer.MAX_VALUE to Integer.MIN_VALUE. */
  function IncrementInt(v: int): (r: int)
    requires INT_MIN <= v <= INT_MAX
    ensures INT_MIN <= r <= INT_MAX
    ensures v < INT_MAX ==> r == v + 1
    ensures v == INT_MAX ==> r == INT_MIN
  {
    if v == INT_MAX then INT_MIN else v + 1
  }

  /** The decimal digits of a natural number, without leading zeros. */
  function NaturalToString(n: nat): (s: string)
    ensures |s| > 0 && AllDigits(s)
  {
    if n < 10 then [DigitChar(n)] else NaturalToString(n / 10) + [DigitChar(n % 10)]
  }

  /** Integer.toString: a minus sign before the digits of a negative number. */
  function IntToString(n: int): string {
    if n < 0 then "-" + NaturalToString(-n) else NaturalToString(n)
  }

  /** Parsing the printed digits of a number gives the number back. */
  lemma {:induction false} DecimalRoundTrip(n: nat)
    ensures DecimalValue(NaturalToString(n)) == n
  {
    if n >= 10 {
      DecimalRoundTrip(n / 10);
      var s := NaturalToString(n);
      assert s[..|s| - 1] == NaturalToString(n / 10);
    }
  }
}
