/** The pieces of Python's string and path behaviour the model relies on:
    decimal rendering (`str(n)`, `'{:06d}'`), code-point ordering of `str`
    (`<`, `list.sort`), `str.rsplit(sep, 1)` and joining with `pathlib`'s `/`. */
module Text {
  import opened Wrappers

  // ---------------------------------------------------------------------------
  // Decimal digits
  // ---------------------------------------------------------------------------

  predicate IsDigit(c: char) { '0' <= c <= '9' }

  predicate AllDigits(s: string) { forall i :: 0 <= i < |s| ==> IsDigit(s[i]) }

  function DigitValue(c: char): nat
    requires IsDigit(c)
  {
    (c as int) - ('0' as int)
  }

  function DigitChar(d: nat): (c: char)
    requires d < 10
    ensures IsDigit(c) && DigitValue(c) == d
  {
    (('0' as int) + d) as char
  }

  function Pow10(k: nat): (p: nat)
    ensures p >= 1
  {
    if k == 0 then 1 else 10 * Pow10(k - 1)
  }

  /** `str(n)` for a non-negative integer: no sign, no leading zero. */
  function Decimal(n: nat): (s: string)
    ensures 1 <= |s| && AllDigits(s)
    ensures |s| > 1 ==> s[0] != '0'
    decreases n
  {
    if n < 10 then [DigitChar(n)] else Decimal(n / 10) + [DigitChar(n % 10)]
  }

  function Zeros(k: nat): (s: string)
    ensures |s| == k && forall i :: 0 <= i < k ==> s[i] == '0'
  {
    if k == 0 then [] else Zeros(k - 1) + ['0']
  }

  /** `'{:0<width>d}'.format(n)`: `str(n)` padded on the left with zeros up to
      `width` characters; a longer rendering is kept whole. */
  function ZeroPad(n: nat, width: nat): (s: string)
    ensures AllDigits(s)
    ensures |s| >= width && |s| >= |Decimal(n)|
    ensures |Decimal(n)| <= width ==> |s| == width
  {
    var d := Decimal(n);
    if |d| < width then Zeros(width - |d|) + d else d
  }

  /** The number a digit string denotes, read from the most significant digit. */
  function Value(s: string): nat
    requires AllDigits(s)
  {
    if s == [] then 0 else DigitValue(s[0]) * Pow10(|s| - 1) + Value(s[1..])
  }

  lemma {:induction false} ValueBound(s: string)
    requires AllDigits(s)
    ensures Value(s) < Pow10(|s|)
  {
    if s != [] {
      ValueBound(s[1..]);
      var d, p := DigitValue(s[0]), Pow10(|s| - 1);
      assert d * p <= 9 * p by { MulMonotone(d, 9, p); }
    }
  }

  lemma MulMonotone(a: nat, b: nat, c: nat)
    requires a <= b
    ensures a * c <= b * c
  {
  }

  lemma {:induction false} ValueAppend(s: string, c: char)
    requires AllDigits(s) && IsDigit(c)
    ensures AllDigits(s + [c])
    ensures Value(s + [c]) == 10 * Value(s) + DigitValue(c)
  {
    var t := s + [c];
    if s == [] {
      assert t == [c] && t[1..] == [];
    } else {
      assert t[0] == s[0] && t[1..] == s[1..] + [c];
      ValueAppend(s[1..], c);
      var d, p := DigitValue(s[0]), Pow10(|s| - 1);
      assert Value(t) == d * Pow10(|s|) + Value(t[1..]);
      assert Pow10(|s|) == 10 * p;
      ShiftDigit(d, p);
    }
  }

  lemma ShiftDigit(d: int, p: int)
    ensures d * (10 * p) == 10 * (d * p)
  {
  }

  /** Reading back `str(n)` gives `n`. */
  lemma {:induction false} ValueDecimal(n: nat)
    ensures Value(Decimal(n)) == n
    decreases n
  {
    if n < 10 {
      assert Decimal(n)[1..] == [];
    } else {
      ValueDecimal(n / 10);
      ValueAppend(Decimal(n / 10), DigitChar(n % 10));
    }
  }

  lemma {:induction false} ValueLeadingZeros(k: nat, s: string)
    requires AllDigits(s)
    ensures AllDigits(Zeros(k) + s) && Value(Zeros(k) + s) == Value(s)
  {
    if k == 0 {
      assert Zeros(k) + s == s;
    } else {
      var t := Zeros(k) + s;
      assert Zeros(k) == ['0'] + Zeros(k - 1) by { ZerosCons(k); }
      assert t[0] == '0' && t[1..] == Zeros(k - 1) + s;
      ValueLeadingZeros(k - 1, s);
      assert Value(t) == DigitValue(t[0]) * Pow10(|t| - 1) + Value(t[1..]);
    }
  }

  lemma {:induction false} ZerosCons(k: nat)
    requires k > 0
    ensures Zeros(k) == ['0'] + Zeros(k - 1)
  {
    assert forall i :: 0 <= i < k ==> Zeros(k)[i] == (['0'] + Zeros(k - 1))[i];
  }

  /** Zero padding loses nothing: the padded string reads back as the number. */
  lemma ValueZeroPad(n: nat, width: nat)
    ensures Value(ZeroPad(n, width)) == n
  {
    ValueDecimal(n);
    var d := Decimal(n);
    if |d| < width {
      ValueLeadingZeros(width - |d|, d);
    }
  }

  /** Distinct numbers get distinct padded renderings, for every width. */
  lemma ZeroPadInjective(a: nat, b: nat, width: nat)
    requires a != b
    ensures ZeroPad(a, width) != ZeroPad(b, width)
  {
    ValueZeroPad(a, width);
    ValueZeroPad(b, width);
  }

  /** Numbers below `10^k` need at most `k` digits. */
  lemma {:induction false} DecimalLength(n: nat, k: nat)
    requires 1 <= k && n < Pow10(k)
    ensures |Decimal(n)| <= k
    decreases n
  {
    if n >= 10 {
      assert k >= 2;
      assert n / 10 < Pow10(k - 1);
      DecimalLength(n / 10, k - 1);
    }
  }

  // ---------------------------------------------------------------------------
  // Code-point order of Python strings
  // ---------------------------------------------------------------------------

  /** Python's `a < b` on `str`: the first differing character decides, and a
      proper prefix comes first. */
  predicate LexLess(a: string, b: string)
  {
    if a == [] then b != []
    else if b == [] then false
    else if a[0] == b[0] then LexLess(a[1..], b[1..])
    else a[0] < b[0]
  }

  predicate LexLe(a: string, b: string) { a == b || LexLess(a, b) }

  lemma {:induction false} LexLessIrreflexive(a: string)
    ensures !LexLess(a, a)
  {
    if a != [] { LexLessIrreflexive(a[1..]); }
  }

  lemma {:induction false} LexLessAsymmetric(a: string, b: string)
    requires LexLess(a, b)
    ensures !LexLess(b, a)
  {
    if a != [] && b != [] && a[0] == b[0] { LexLessAsymmetric(a[1..], b[1..]); }
  }

  lemma {:induction false} LexLessTransitive(a: string, b: string, c: string)
    requires LexLess(a, b) && LexLess(b, c)
    ensures LexLess(a, c)
  {
    if a != [] && a[0] == b[0] && b[0] == c[0] {
      LexLessTransitive(a[1..], b[1..], c[1..]);
    }
  }

  lemma {:induction false} LexLessTotal(a: string, b: string)
    requires a != b
    ensures LexLess(a, b) || LexLess(b, a)
  {
    if a != [] && b != [] && a[0] == b[0] {
      assert a == [a[0]] + a[1..] && b == [b[0]] + b[1..];
      LexLessTotal(a[1..], b[1..]);
    }
  }

  lemma LexLeAntisymmetric(a: string, b: string)
    requires LexLe(a, b) && LexLe(b, a)
    ensures a == b
  {
    if a != b { LexLessAsymmetric(a, b); }
  }

  lemma LexLeTransitive(a: string, b: string, c: string)
    requires LexLe(a, b) && LexLe(b, c)
    ensures LexLe(a, c)
  {
    if a != b && b != c { LexLessTransitive(a, b, c); }
  }

  /** Any two strings are ordered one way or the other. */
  lemma LexLeTotal(a: string, b: string)
    ensures LexLe(a, b) || LexLess(b, a)
  {
    if a != b { LexLessTotal(a, b); }
  }

  /** A common prefix does not change the order. */
  lemma {:induction false} LexLessCommonPrefix(p: string, a: string, b: string)
    ensures LexLess(p + a, p + b) <==> LexLess(a, b)
  {
    if p == [] {
      assert p + a == a && p + b == b;
    } else {
      assert (p + a)[0] == p[0] == (p + b)[0];
      assert (p + a)[1..] == p[1..] + a && (p + b)[1..] == p[1..] + b;
      assert LexLess(p + a, p + b) == LexLess(p[1..] + a, p[1..] + b);
      LexLessCommonPrefix(p[1..], a, b);
    }
  }

  /** Between strings of equal length, a suffix does not change the order. */
  lemma {:induction false} LexLessEqualLengthSuffix(a: string, b: string, u: string, v: string)
    requires |a| == |b| && LexLess(a, b)
    ensures LexLess(a + u, b + v)
  {
    if a[0] == b[0] {
      assert (a + u)[1..] == a[1..] + u && (b + v)[1..] == b[1..] + v;
      LexLessEqualLengthSuffix(a[1..], b[1..], u, v);
    }
  }

  /** Between digit strings of equal length, the smaller number sorts first. */
  lemma {:induction false} LexLessDigits(s: string, t: string)
    requires |s| == |t| && AllDigits(s) && AllDigits(t)
    requires Value(s) < Value(t)
    ensures LexLess(s, t)
  {
    assert s != [];
    var p := Pow10(|s| - 1);
    assert Value(s) == DigitValue(s[0]) * p + Value(s[1..]);
    assert Value(t) == DigitValue(t[0]) * p + Value(t[1..]);
    if s[0] == t[0] {
      LexLessDigits(s[1..], t[1..]);
    } else if s[0] > t[0] {
      LeadingDigitDominates(s, t);
      assert false;
    }
  }

  lemma LeadingDigitDominates(s: string, t: string)
    requires |s| == |t| && s != [] && AllDigits(s) && AllDigits(t)
    requires DigitValue(t[0]) < DigitValue(s[0])
    ensures Value(t) < Value(s)
  {
    var ds, dt, p := DigitValue(s[0]), DigitValue(t[0]), Pow10(|s| - 1);
    ValueBound(t[1..]);
    assert (dt + 1) * p <= ds * p by { MulMonotone(dt + 1, ds, p); }
    assert (dt + 1) * p == dt * p + p;
    assert Value(t) == dt * p + Value(t[1..]) < dt * p + p;
    assert Value(s) == ds * p + Value(s[1..]) >= ds * p;
  }

  // ---------------------------------------------------------------------------
  // Splitting at the last separator
  // ---------------------------------------------------------------------------

  /** Position of the last occurrence of `c` in `s`, if any. */
  function LastIndexOf(s: string, c: char): (r: Option<nat>)
    ensures r.Some? ==> r.value < |s| && s[r.value] == c
    ensures r.Some? ==> forall j :: r.value < j < |s| ==> s[j] != c
    ensures r.None? <==> c !in s
  {
    if s == [] then None
    else if s[|s| - 1] == c then Some(|s| - 1)
    else LastIndexOf(s[..|s| - 1], c)
  }

  /** `s.rsplit(sep, 1)` when it yields two parts; `None` when `sep` does not
      occur (Python then yields a single part). */
  function RSplitOnce(s: string, sep: char): (r: Option<(string, string)>)
    ensures r.None? <==> sep !in s
    ensures r.Some? ==> s == r.value.0 + [sep] + r.value.1 && sep !in r.value.1
  {
    match LastIndexOf(s, sep)
    case None => None
    case Some(k) =>
      assert s == s[..k] + [sep] + s[k + 1..];
      Some((s[..k], s[k + 1..]))
  }

  /** Splitting the joined string at the last separator gives the parts back,
      when the right part holds no separator. */
  lemma RSplitJoin(left: string, sep: char, right: string)
    requires sep !in right
    ensures RSplitOnce(left + [sep] + right, sep) == Some((left, right))
  {
    var s := left + [sep] + right;
    var k := LastIndexOf(s, sep).value;
    assert s[|left|] == sep;
    assert k == |left|;
    assert s[..k] == left && s[k + 1..] == right;
  }

  // ---------------------------------------------------------------------------
  // Paths
  // ---------------------------------------------------------------------------

  /** `str(Path(dir) / name)` for an already resolved `dir`: an absolute `name`
      replaces the directory, an empty one leaves it, otherwise one `/` joins. */
  function JoinPath(dir: string, name: string): (p: string)
    ensures name != [] && name[0] == '/' ==> p == name
    ensures name != [] && name[0] != '/' ==>
      |p| > |dir| && p[..|dir|] == dir && |p| >= |name| && p[|p| - |name|..] == name
    ensures name != [] && name[0] != '/' ==>
      && |p| > |name| && p[|p| - |name| - 1] == '/'
      && (p[..|p| - |name|] == dir || p[..|p| - |name|] == dir + "/")
  {
    if name == [] then dir
    else if name[0] == '/' then name
    else if dir != [] && dir[|dir| - 1] == '/' then dir + name
    else dir + "/" + name
  }

  /** Joining relative names onto one directory keeps their order. */
  lemma JoinPathOrder(dir: string, a: string, b: string)
    requires a != [] && a[0] != '/' && b != [] && b[0] != '/'
    requires LexLess(a, b)
    ensures LexLess(JoinPath(dir, a), JoinPath(dir, b))
  {
    var p := if dir != [] && dir[|dir| - 1] == '/' then dir else dir + "/";
    assert JoinPath(dir, a) == p + a && JoinPath(dir, b) == p + b;
    LexLessCommonPrefix(p, a, b);
  }
}
