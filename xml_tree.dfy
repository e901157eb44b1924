/**
 * An abstract `XElement` tree and the few `System.Xml.Linq` and `System.String`
 * operations the two cascade loaders use: `Value`, `Element(name)`,
 * `Elements(name)`, `Elements()`, `Trim()`, `Split(' ', RemoveEmptyEntries)`,
 * `int.Parse`/`int.TryParse` and `double.Parse` with the invariant culture.
 */
module XmlTree {
  import opened Wrappers

  /** An element: its (local) name and its content in document order. */
  datatype Element = Element(name: string, content: seq<Content>)

  /** A content node: a run of text or a child element. */
  datatype Content = Text(text: string) | Child(element: Element)

  /** `XElement.Value`: the text of all descendants, concatenated in document order. */
  function Value(e: Element): string
    decreases e
  {
    ContentValue(e.content, 0)
  }

  /** The text of the content nodes from the `k`-th on. */
  function ContentValue(cs: seq<Content>, k: nat): string
    requires k <= |cs|
    decreases cs, |cs| - k, 1
  {
    if k == |cs| then "" else ContentValueFrom(cs, k)
  }

  function ContentValueFrom(cs: seq<Content>, k: nat): string
    requires k < |cs|
    decreases cs, |cs| - k, 0
  {
    NodeValue(cs[k]) + ContentValue(cs, k + 1)
  }

  /** The text of one content node. */
  function NodeValue(c: Content): string
    decreases c
  {
    match c
    case Text(t) => t
    case Child(e) => Value(e)
  }

  /** `Elements()`: the child elements in document order. */
  function Children(e: Element): seq<Element>
  {
    ChildElements(e.content, 0)
  }

  /** The child elements among the content nodes from the `k`-th on. */
  function ChildElements(cs: seq<Content>, k: nat): seq<Element>
    requires k <= |cs|
    decreases |cs| - k
  {
    if k == |cs| then []
    else (if cs[k].Child? then [cs[k].element] else []) + ChildElements(cs, k + 1)
  }

  /** The elements of `es` from the `k`-th on that are named `name`, in order. */
  function Named(es: seq<Element>, name: string, k: nat): (r: seq<Element>)
    requires k <= |es|
    ensures |r| <= |es| - k
    ensures |r| > 0 ==> r[0].name == name
    decreases |es| - k
  {
    if k == |es| then []
    else (if es[k].name == name then [es[k]] else []) + Named(es, name, k + 1)
  }

  /** `Elements(name)`. */
  function ChildrenNamed(e: Element, name: string): seq<Element>
  {
    Named(Children(e), name, 0)
  }

  /** `Element(name)`: the first child element with that name, or `null`. */
  function FirstChild(e: Element, name: string): (r: Option<Element>)
    ensures r.Some? <==> |ChildrenNamed(e, name)| > 0
    ensures r.Some? ==> r.value == ChildrenNamed(e, name)[0] && r.value.name == name
  {
    var cs := ChildrenNamed(e, name);
    if |cs| > 0 then Some(cs[0]) else None
  }

  // ----- String operations -----

  /** `char.IsWhiteSpace`. */
  predicate IsWhiteSpace(c: char)
  {
    ('\U{0009}' <= c <= '\U{000D}') || c == ' ' || c == '\U{0085}' || c == '\U{00A0}' ||
    c == '\U{1680}' || ('\U{2000}' <= c <= '\U{200A}') || c == '\U{2028}' || c == '\U{2029}' ||
    c == '\U{202F}' || c == '\U{205F}' || c == '\U{3000}'
  }

  // Like the number parsers below, the string operations work on index
  // ranges of their input and take a slice only for the pieces they return.

  /** The first index at or after `i` whose character is not white space. */
  function TrimStartIndex(s: string, i: nat): (r: nat)
    requires i <= |s|
    ensures i <= r <= |s|
    decreases |s| - i
  {
    if i < |s| && IsWhiteSpace(s[i]) then TrimStartIndex(s, i + 1) else i
  }

  /** The end of `s[lo..hi]` once its trailing white space is removed. */
  function TrimEndIndex(s: string, lo: nat, hi: nat): (r: nat)
    requires lo <= hi <= |s|
    ensures lo <= r <= hi
    decreases hi - lo
  {
    if lo < hi && IsWhiteSpace(s[hi - 1]) then TrimEndIndex(s, lo, hi - 1) else hi
  }

  /** `String.Trim()`: white space removed at both ends. */
  function Trim(s: string): (t: string)
    ensures |t| <= |s|
  {
    var lo := TrimStartIndex(s, 0);
    s[lo..TrimEndIndex(s, lo, |s|)]
  }

  /** `Trim` removes only white space, and all of it at both ends. */
  lemma TrimRemovesWhiteSpace(s: string)
    ensures exists lo, hi :: (0 <= lo <= hi <= |s| && Trim(s) == s[lo..hi] &&
      (forall k :: 0 <= k < lo ==> IsWhiteSpace(s[k])) &&
      (forall k :: hi <= k < |s| ==> IsWhiteSpace(s[k])) &&
      (lo < hi ==> !IsWhiteSpace(s[lo]) && !IsWhiteSpace(s[hi - 1])) &&
      (lo == hi ==> forall k :: 0 <= k < |s| ==> IsWhiteSpace(s[k])))
  {
    var lo := TrimStartIndex(s, 0);
    var hi := TrimEndIndex(s, lo, |s|);
    TrimStartIndexSkips(s, 0);
    TrimEndIndexSkips(s, lo, |s|);
    assert Trim(s) == s[lo..hi];
    assert lo == hi ==> forall k :: 0 <= k < |s| ==> IsWhiteSpace(s[k]);
  }

  lemma {:induction false} TrimStartIndexSkips(s: string, i: nat)
    requires i <= |s|
    ensures forall k :: i <= k < TrimStartIndex(s, i) ==> IsWhiteSpace(s[k])
    ensures TrimStartIndex(s, i) == |s| || !IsWhiteSpace(s[TrimStartIndex(s, i)])
    decreases |s| - i
  {
    if i < |s| && IsWhiteSpace(s[i]) {
      TrimStartIndexSkips(s, i + 1);
    }
  }

  lemma {:induction false} TrimEndIndexSkips(s: string, lo: nat, hi: nat)
    requires lo <= hi <= |s|
    ensures forall k :: TrimEndIndex(s, lo, hi) <= k < hi ==> IsWhiteSpace(s[k])
    ensures TrimEndIndex(s, lo, hi) == lo || !IsWhiteSpace(s[TrimEndIndex(s, lo, hi) - 1])
    decreases hi - lo
  {
    if lo < hi && IsWhiteSpace(s[hi - 1]) {
      TrimEndIndexSkips(s, lo, hi - 1);
    }
  }

  /** The end of the word starting at `i`: the next space, or the end of `s`. */
  function WordEnd(s: string, i: nat): (j: nat)
    requires i <= |s|
    ensures i <= j <= |s|
    ensures i < |s| && s[i] != ' ' ==> i < j
    decreases |s| - i
  {
    if i < |s| && s[i] != ' ' then WordEnd(s, i + 1) else i
  }

  /** The words of `s` from index `i` on. */
  function SplitFrom(s: string, i: nat): seq<string>
    requires i <= |s|
    decreases |s| - i
  {
    if i == |s| then []
    else if s[i] == ' ' then SplitFrom(s, i + 1)
    else
      var j := WordEnd(s, i);
      [s[i..j]] + SplitFrom(s, j)
  }

  /** `Split(new[] { ' ' }, StringSplitOptions.RemoveEmptyEntries)`. */
  function Split(s: string): seq<string>
  {
    SplitFrom(s, 0)
  }

  /** Tokens separated by single spaces. */
  function Join(ts: seq<string>): string
  {
    if ts == [] then "" else if |ts| == 1 then ts[0] else ts[0] + " " + Join(ts[1..])
  }

  /** A word runs up to the first space after it. */
  lemma {:induction false} WordEndAt(s: string, i: nat, j: nat)
    requires i <= j <= |s|
    requires forall k :: i <= k < j ==> s[k] != ' '
    requires j == |s| || s[j] == ' '
    ensures WordEnd(s, i) == j
    decreases j - i
  {
    if i < j {
      WordEndAt(s, i + 1, j);
    }
  }

  lemma {:induction false} SplitFromJoin(p: string, ts: seq<string>)
    requires forall k :: 0 <= k < |ts| ==> ts[k] != [] && ' ' !in ts[k]
    ensures SplitFrom(p + Join(ts), |p|) == ts
    decreases |ts|
  {
    var s := p + Join(ts);
    if ts == [] {
      assert s == p + "";
    } else {
      var w := ts[0];
      var j := |p| + |w|;
      assert forall k :: |p| <= k < j ==> s[k] == w[k - |p|];
      assert s[|p|] == w[0];
      if |ts| == 1 {
        assert s == p + w;
        WordEndAt(s, |p|, j);
        assert s[|p|..j] == w;
      } else {
        var p' := p + w + " ";
        assert s == p' + Join(ts[1..]);
        assert s[j] == ' ';
        WordEndAt(s, |p|, j);
        assert s[|p|..j] == w;
        SplitFromJoin(p', ts[1..]);
      }
    }
  }

  /** Splitting space-joined tokens that are non-empty and space-free gives them back. */
  lemma SplitJoin(ts: seq<string>)
    requires forall k :: 0 <= k < |ts| ==> ts[k] != [] && ' ' !in ts[k]
    ensures Split(Join(ts)) == ts
  {
    SplitFromJoin("", ts);
    assert "" + Join(ts) == Join(ts);
  }

  // ----- Number parsing (invariant culture) -----
  // The parsers work on index ranges of the input rather than on slices of it.

  /** The white space `NumberStyles.AllowLeadingWhite`/`AllowTrailingWhite` admit. */
  predicate IsNumberWhite(c: char)
  {
    ('\U{0009}' <= c <= '\U{000D}') || c == ' '
  }

  /** The first index at or after `i` that does not hold number white space. */
  function SkipWhite(s: string, i: nat): (r: nat)
    requires i <= |s|
    ensures i <= r <= |s|
    decreases |s| - i
  {
    if i < |s| && IsNumberWhite(s[i]) then SkipWhite(s, i + 1) else i
  }

  /** The end of `s[lo..hi]` once its trailing number white space is removed. */
  function SkipWhiteBack(s: string, lo: nat, hi: nat): (r: nat)
    requires lo <= hi <= |s|
    ensures lo <= r <= hi
    decreases hi - lo
  {
    if lo < hi && IsNumberWhite(s[hi - 1]) then SkipWhiteBack(s, lo, hi - 1) else hi
  }

  predicate IsDigit(c: char) { '0' <= c <= '9' }

  /** Every character of `s[lo..hi]` is a decimal digit. */
  predicate DigitsBetween(s: string, lo: nat, hi: nat)
    requires lo <= hi <= |s|
  {
    forall k :: lo <= k < hi ==> IsDigit(s[k])
  }

  /** The value of the decimal digits of `s[lo..hi]` (commas, if any, are skipped). */
  function DigitsValue(s: string, lo: nat, hi: nat): nat
    requires lo <= hi <= |s|
    decreases hi - lo
  {
    if hi == lo then 0
    else if IsDigit(s[hi - 1]) then DigitsValue(s, lo, hi - 1) * 10 + (s[hi - 1] as int - '0' as int)
    else DigitsValue(s, lo, hi - 1)
  }

  /** The number of consecutive digits of `s` from index `i`, up to `hi`. */
  function DigitRun(s: string, i: nat, hi: nat): (n: nat)
    requires i <= hi <= |s|
    ensures i + n <= hi
    decreases hi - i
  {
    if i < hi && IsDigit(s[i]) then 1 + DigitRun(s, i + 1, hi) else 0
  }

  /**
   * The integer part `double.Parse` accepts: a digit followed by digits and
   * group separators (`,`), from index `i` up to `hi`.
   */
  function GroupedRun(s: string, i: nat, hi: nat): (n: nat)
    requires i <= hi <= |s|
    ensures i + n <= hi && (n > 0 ==> IsDigit(s[i]))
  {
    if i < hi && IsDigit(s[i]) then 1 + GroupedTail(s, i + 1, hi) else 0
  }

  function GroupedTail(s: string, i: nat, hi: nat): (n: nat)
    requires i <= hi <= |s|
    ensures i + n <= hi
    decreases hi - i
  {
    if i < hi && (IsDigit(s[i]) || s[i] == ',') then 1 + GroupedTail(s, i + 1, hi) else 0
  }

  const Int32Min: int := -0x8000_0000
  const Int32Max: int := 0x7FFF_FFFF

  /** A `-` or `+` at `lo`: whether it is `-`, and where the digits start. */
  function Sign(s: string, lo: nat, hi: nat): (r: (bool, nat))
    requires lo <= hi <= |s|
    ensures lo <= r.1 <= hi && r.1 <= lo + 1
  {
    if lo < hi && (s[lo] == '-' || s[lo] == '+') then (s[lo] == '-', lo + 1) else (false, lo)
  }

  /**
   * `int.Parse`/`int.TryParse` (`NumberStyles.Integer`): white space, an
   * optional sign, one or more digits, white space, in the range of `int`.
   */
  function ParseInt32(s: string): (r: Option<int>)
    ensures r.Some? ==> Int32Min <= r.value <= Int32Max
  {
    var lo := SkipWhite(s, 0);
    var hi := SkipWhiteBack(s, lo, |s|);
    var (negative, start) := Sign(s, lo, hi);
    if start == hi || !DigitsBetween(s, start, hi) then None
    else
      var m := DigitsValue(s, start, hi);
      var v := if negative then -(m as int) else m;
      if Int32Min <= v <= Int32Max then Some(v) else None
  }

  /** `m * 10^e`, one decimal place at a time. */
  function Scale(m: real, e: int): real
    decreases if e < 0 then -e else e
  {
    if e == 0 then m else if e > 0 then Scale(m, e - 1) * 10.0 else Scale(m, e + 1) / 10.0
  }

  /** The exponent part `e[sign]digits`, if one starts at `i` before `hi`: its value and its length. */
  function Exponent(s: string, i: nat, hi: nat): (r: (int, nat))
    requires i <= hi <= |s|
    ensures i + r.1 <= hi
  {
    if i < hi && (s[i] == 'e' || s[i] == 'E') then
      var signed := i + 1 < hi && (s[i + 1] == '-' || s[i + 1] == '+');
      var j := if signed then i + 2 else i + 1;
      var n := DigitRun(s, j, hi);
      if n == 0 then (0, 0)
      else
        var v := DigitsValue(s, j, j + n);
        (if signed && s[i + 1] == '-' then -(v as int) else v, j + n - i)
    else (0, 0)
  }

  /**
   * `double.Parse` with the invariant culture (`NumberStyles.Float |
   * AllowThousands`): white space, an optional sign, an integer part with
   * optional group separators, an optional fraction, an optional exponent,
   * white space; at least one digit before the exponent.  The value is exact.
   */
  function ParseDouble(s: string): (r: Option<real>)
  {
    var lo := SkipWhite(s, 0);
    var hi := SkipWhiteBack(s, lo, |s|);
    var (negative, i0) := Sign(s, lo, hi);
    var n1 := GroupedRun(s, i0, hi);
    var i1 := i0 + n1;
    var hasPoint := i1 < hi && s[i1] == '.';
    var n2 := if hasPoint then DigitRun(s, i1 + 1, hi) else 0;
    var i2 := if hasPoint then i1 + 1 + n2 else i1;
    var (e, n3) := Exponent(s, i2, hi);
    if n1 + n2 == 0 || i2 + n3 != hi then None
    else
      var whole := DigitsValue(s, i0, i1) as real;
      var fraction := if hasPoint then Scale(DigitsValue(s, i1 + 1, i2) as real, -n2) else 0.0;
      var magnitude := Scale(whole + fraction, e);
      Some(if negative then -magnitude else magnitude)
  }

  /** `Select(double.Parse).ToArray()` over tokens: the first failing token fails the whole list. */
  function ParseDoubles(ts: seq<string>): (r: Option<seq<real>>)
    ensures r.Some? ==> |r.value| == |ts|
    ensures r.Some? ==> forall k :: 0 <= k < |ts| ==> ParseDouble(ts[k]) == Some(r.value[k])
    ensures r.None? ==> exists k :: 0 <= k < |ts| && ParseDouble(ts[k]).None?
  {
    if ts == [] then Some([])
    else
      match ParseDouble(ts[0])
      case None => None
      case Some(v) =>
        match ParseDoubles(ts[1..])
        case None => None
        case Some(vs) => Some([v] + vs)
  }

  // ----- Formatting, to state round trips -----

  function DigitChar(d: nat): (c: char)
    requires d < 10
    ensures IsDigit(c) && c as int - '0' as int == d
  {
    ('0' as int + d) as char
  }

  /** The decimal digits of `n`, without leading zeros. */
  function NatToString(n: nat): (s: string)
    ensures s != [] && DigitsBetween(s, 0, |s|)
  {
    if n < 10 then [DigitChar(n)] else NatToString(n / 10) + [DigitChar(n % 10)]
  }

  /** `n.ToString()` in the invariant culture. */
  function FormatInt(n: int): string
  {
    if n < 0 then "-" + NatToString(-n) else NatToString(n)
  }

  /** The value of a digit range depends only on the characters in it. */
  lemma {:induction false} DigitsValueShift(s: string, t: string, lo: nat, hi: nat, d: nat)
    requires lo <= hi <= |s| && hi + d <= |t|
    requires forall k :: lo <= k < hi ==> s[k] == t[k + d]
    ensures DigitsValue(s, lo, hi) == DigitsValue(t, lo + d, hi + d)
    decreases hi - lo
  {
    if hi > lo {
      DigitsValueShift(s, t, lo, hi - 1, d);
    }
  }

  lemma {:induction false} DigitsValueOfNatToString(n: nat)
    ensures DigitsValue(NatToString(n), 0, |NatToString(n)|) == n
  {
    if n >= 10 {
      DigitsValueOfNatToString(n / 10);
      var p := NatToString(n / 10);
      var s := p + [DigitChar(n % 10)];
      DigitsValueShift(p, s, 0, |p|, 0);
    }
  }

  lemma ParseInt32OfDigits(s: string)
    requires s != [] && DigitsBetween(s, 0, |s|) && DigitsValue(s, 0, |s|) <= Int32Max
    ensures ParseInt32(s) == Some(DigitsValue(s, 0, |s|) as int)
  {
    assert SkipWhite(s, 0) == 0;
    assert SkipWhiteBack(s, 0, |s|) == |s|;
  }

  lemma ParseInt32OfNegatedDigits(s: string)
    requires s != [] && DigitsBetween(s, 0, |s|) && -(DigitsValue(s, 0, |s|) as int) >= Int32Min
    ensures ParseInt32("-" + s) == Some(-(DigitsValue(s, 0, |s|) as int))
  {
    var t := "-" + s;
    assert SkipWhite(t, 0) == 0;
    assert t[|t| - 1] == s[|s| - 1];
    assert SkipWhiteBack(t, 0, |t|) == |t|;
    assert Sign(t, 0, |t|) == (true, 1);
    DigitsValueShift(s, t, 0, |s|, 1);
  }

  /** `int.Parse` reads back every `int` printed in decimal. */
  lemma ParseInt32OfFormatInt(n: int)
    requires Int32Min <= n <= Int32Max
    ensures ParseInt32(FormatInt(n)) == Some(n)
  {
    if n < 0 {
      var s := NatToString(-n);
      assert FormatInt(n) == "-" + s;
      DigitsValueOfNatToString(-n);
      ParseInt32OfNegatedDigits(s);
    } else {
      var s := NatToString(n);
      assert FormatInt(n) == s;
      DigitsValueOfNatToString(n);
      ParseInt32OfDigits(s);
    }
  }

  lemma {:induction false} GroupedTailOfDigits(s: string, i: nat, hi: nat)
    requires i <= hi <= |s| && DigitsBetween(s, i, hi)
    ensures GroupedTail(s, i, hi) == hi - i
    decreases hi - i
  {
    if i < hi {
      GroupedTailOfDigits(s, i + 1, hi);
    }
  }

  /** Every string `int.Parse` accepts, `double.Parse` accepts with the same value. */
  lemma ParseDoubleOfInteger(s: string)
    requires ParseInt32(s).Some?
    ensures ParseDouble(s) == Some(ParseInt32(s).value as real)
  {
    var lo := SkipWhite(s, 0);
    var hi := SkipWhiteBack(s, lo, |s|);
    var (negative, i0) := Sign(s, lo, hi);
    assert i0 < hi && DigitsBetween(s, i0, hi);
    GroupedTailOfDigits(s, i0 + 1, hi);
    assert GroupedRun(s, i0, hi) == hi - i0;
  }
}
