/**
 * File names of persisted feature volumes and virtual scans. A map cell is
 * named by its two metric coordinates, each written with an explicit sign and
 * two decimals and zero-padded to width 10, joined by '_' ("+000012.40_-000003.00");
 * a query frame is named by its index zero-padded to width 6 ("000042").
 * Coordinates are integer hundredths of a metre, so naming and parsing back
 * are exact inverses.
 */
module Names {
  import opened Wrappers
  import opened Grid
  import opened Interning

  predicate IsDigit(c: char) { '0' <= c <= '9' }

  predicate AllDigits(s: string) { forall i :: 0 <= i < |s| ==> IsDigit(s[i]) }

  function Digit(d: nat): (c: char)
    requires d < 10
    ensures IsDigit(c) && DigitValue(c) == d
  {
    ('0' as int + d) as char
  }

  function DigitValue(c: char): (d: nat)
    requires IsDigit(c)
    ensures d < 10
  {
    c as int - '0' as int
  }

  function Pow10(k: nat): (p: nat)
    ensures p >= 1
  {
    if k == 0 then 1 else 10 * Pow10(k - 1)
  }

  /** Python's str() of a non-negative integer. */
  function Decimal(n: nat): (s: string)
    ensures |s| >= 1 && AllDigits(s)
    decreases n
  {
    if n < 10 then [Digit(n)] else Decimal(n / 10) + [Digit(n % 10)]
  }

  /** The number a string of decimal digits denotes, most significant digit first. */
  function DigitsValue(s: string): nat
    requires AllDigits(s)
    decreases |s|
  {
    if s == [] then 0 else DigitsValue(s[..|s| - 1]) * 10 + DigitValue(s[|s| - 1])
  }

  lemma {:induction false} DecimalValue(n: nat)
    ensures DigitsValue(Decimal(n)) == n
    decreases n
  {
    if n >= 10 {
      var s := Decimal(n);
      assert s[..|s| - 1] == Decimal(n / 10);
      DecimalValue(n / 10);
    }
  }

  /** A number below 10^k has at most k digits. */
  lemma {:induction false} DecimalLength(n: nat, k: nat)
    requires 1 <= k && n < Pow10(k)
    ensures |Decimal(n)| <= k
    decreases k
  {
    if n >= 10 {
      DecimalLength(n / 10, k - 1);
    }
  }

  function Zeros(k: nat): (z: string)
    ensures |z| == k && AllDigits(z)
    ensures forall i :: 0 <= i < k ==> z[i] == '0'
  {
    seq(k, i => '0')
  }

  lemma {:induction false} LeadingZeros(k: nat, t: string)
    requires AllDigits(t)
    ensures DigitsValue(Zeros(k) + t) == DigitsValue(t)
    decreases |t|, k
  {
    if t == [] {
      assert Zeros(k) + t == Zeros(k);
      if k > 0 {
        assert Zeros(k)[..k - 1] == Zeros(k - 1);
        LeadingZeros(k - 1, []);
        assert Zeros(k - 1) + [] == Zeros(k - 1);
      }
    } else {
      var u := t[..|t| - 1];
      assert (Zeros(k) + t)[..|Zeros(k) + t| - 1] == Zeros(k) + u;
      LeadingZeros(k, u);
    }
  }

  /** '{:+.2f}'.format(h / 100): an explicit sign, the integer part, a point and two decimals. */
  function Fixed2(h: int): string
  {
    var a := if h < 0 then -h else h;
    [if h < 0 then '-' else '+'] + Decimal(a / 100) + "." + [Digit(a % 100 / 10), Digit(a % 100 % 10)]
  }

  /** Python's str.zfill(width): left-pad with '0' to the width, keeping a leading sign in front. */
  function ZFill(s: string, width: nat): (r: string)
    ensures |r| == if |s| >= width then |s| else width
  {
    if |s| >= width then s
    else if |s| > 0 && (s[0] == '+' || s[0] == '-') then [s[0]] + Zeros(width - |s|) + s[1..]
    else Zeros(width - |s|) + s
  }

  /** One coordinate of a cell name: '{:+.2f}'.format(v).zfill(10). */
  function CoordPart(h: int): string
  {
    ZFill(Fixed2(h), 10)
  }

  /** coord2filename: both coordinates (in hundredths) joined by '_'. */
  function CoordName(x: int, y: int): string
  {
    CoordPart(x) + "_" + CoordPart(y)
  }

  /** The name of a query frame's volume: str(i).zfill(6). */
  function IndexName(i: nat): string
  {
    ZFill(Decimal(i), 6)
  }

  /**
   * The name of a map cell at a grid resolution: the cell's centre in metres,
   * taken to hundredths and named as coord2filename names a coordinate pair.
   */
  function CellName(c: Cell, res: real): string
  {
    CoordName(Hundredths(c.x as real * res), Hundredths(c.y as real * res))
  }

  /** What coord_or_idx2filename accepts: a coordinate pair or a frame index. */
  datatype Key = CoordKey(x: int, y: int) | IndexKey(index: nat)

  /** coord_or_idx2filename. */
  function FileName(k: Key): string
  {
    match k
    case CoordKey(x, y) => CoordName(x, y)
    case IndexKey(i) => IndexName(i)
  }

  /** '{:+.2f}' rounds a metric value to hundredths (ties to even on the exact value). */
  function Hundredths(v: real): (h: int)
    ensures -0.5 <= h as real - v * 100.0 <= 0.5
  {
    Round(v * 100.0)
  }

  /** The padded magnitude of a coordinate part: zeros, the integer digits, a point and two decimals. */
  function Padded(k: nat, q: nat, r: nat): string
    requires r < 100
  {
    (Zeros(k) + Decimal(q)) + "." + [Digit(r / 10), Digit(r % 10)]
  }

  /** zfill on a signed string puts the zeros between the sign and the rest. */
  lemma {:induction false} ZFillSigned(c: char, body: string, w: nat) returns (k: nat)
    requires c == '+' || c == '-'
    ensures ZFill([c] + body, w) == [c] + (Zeros(k) + body)
    ensures k == if |body| + 1 >= w then 0 else w - 1 - |body|
  {
    if |body| + 1 >= w {
      k := 0;
      assert Zeros(0) + body == body;
    } else {
      k := w - 1 - |body|;
      assert ([c] + body)[1..] == body;
    }
  }

  /** A coordinate part is its sign followed by the padded magnitude; for |v| < 10^6 m it is 10 characters wide. */
  lemma {:induction false} CoordPartForm(h: int) returns (k: nat)
    ensures var a := if h < 0 then -h else h;
      CoordPart(h) == [if h < 0 then '-' else '+'] + Padded(k, a / 100, a % 100)
    ensures -100000000 < h < 100000000 ==> |CoordPart(h)| == 10
  {
    var a := if h < 0 then -h else h;
    var c := if h < 0 then '-' else '+';
    var d := Decimal(a / 100);
    var t := [Digit(a % 100 / 10), Digit(a % 100 % 10)];
    assert Fixed2(h) == [c] + (d + "." + t);
    k := ZFillSigned(c, d + "." + t, 10);
    assert Zeros(k) + (d + "." + t) == (Zeros(k) + d) + "." + t;
    if -100000000 < h < 100000000 {
      DecimalLength(a / 100, 6);
    }
  }

  /** The padded magnitude holds digits and one point, three characters from the end. */
  lemma {:induction false} PaddedShape(k: nat, q: nat, r: nat)
    requires r < 100
    ensures var p := Padded(k, q, r);
      && |p| >= 4 && p[|p| - 3] == '.'
      && (forall i :: 0 <= i < |p| && i != |p| - 3 ==> IsDigit(p[i]))
      && '_' !in p
  {
    var w := Zeros(k) + Decimal(q);
    var p := Padded(k, q, r);
    assert p == w + ['.', Digit(r / 10), Digit(r % 10)];
    NoDotInDigits(w);
  }

  /** Python's str.split(sep). */
  function Split(s: string, sep: char): (fields: seq<string>)
    ensures |fields| >= 1
    decreases |s|
  {
    if sep !in s then [s]
    else
      var i := IndexOf(s, sep);
      [s[..i]] + Split(s[i + 1..], sep)
  }

  /** Splitting on a separator that occurs exactly once, between a and b. */
  lemma {:induction false} SplitOnce(a: string, sep: char, b: string)
    requires sep !in a && sep !in b
    ensures Split(a + [sep] + b, sep) == [a, b]
  {
    var s := a + [sep] + b;
    assert s[|a|] == sep;
    assert IndexOf(s, sep) == |a|;
    assert s[..|a|] == a && s[|a| + 1..] == b;
  }

  /**
   * Python's float() on the strings this code produces: an optional sign, then
   * digits with at most one decimal point and at least one digit. Other spellings
   * that float() also accepts (exponents, inf, nan, blanks) are reported as None.
   */
  function ParseNumber(s: string): Option<real>
  {
    if |s| > 0 && (s[0] == '+' || s[0] == '-') then
      match ParseUnsigned(s[1..])
      case None => None
      case Some(v) => Some(if s[0] == '-' then -v else v)
    else ParseUnsigned(s)
  }

  function ParseUnsigned(s: string): Option<real>
  {
    var parts := Split(s, '.');
    if |parts| == 1 && |s| > 0 && AllDigits(s) then Some(DigitsValue(s) as real)
    else if |parts| == 2 && AllDigits(parts[0]) && AllDigits(parts[1]) && |parts[0]| + |parts[1]| > 0 then
      Some(DigitsValue(parts[0]) as real + DigitsValue(parts[1]) as real / Pow10(|parts[1]|) as real)
    else None
  }

  /** np.array(fields, dtype=float) on one row: every field must parse. */
  function ParseFields(fields: seq<string>): (r: Option<seq<real>>)
    ensures r.Some? ==> |r.value| == |fields|
  {
    if fields == [] then Some([])
    else
      match (ParseNumber(fields[0]), ParseFields(fields[1..]))
      case (Some(v), Some(rest)) => Some([v] + rest)
      case _ => None
  }

  /** Parsing digits, a point and digits. */
  lemma {:induction false} ParseDotted(whole: string, frac: string)
    requires AllDigits(whole) && AllDigits(frac) && |whole| > 0
    ensures ParseUnsigned(whole + "." + frac)
         == Some(DigitsValue(whole) as real + DigitsValue(frac) as real / Pow10(|frac|) as real)
  {
    DottedSplit(whole, frac);
    var parts := Split(whole + "." + frac, '.');
    assert parts[0] == whole && parts[1] == frac;
  }

  lemma {:induction false} DottedSplit(whole: string, frac: string)
    requires AllDigits(whole) && AllDigits(frac)
    ensures Split(whole + "." + frac, '.') == [whole, frac]
  {
    NoDotInDigits(whole);
    NoDotInDigits(frac);
    SplitOnce(whole, '.', frac);
    assert whole + "." + frac == whole + ['.'] + frac;
  }

  lemma {:induction false} NoDotInDigits(s: string)
    requires AllDigits(s)
    ensures '.' !in s && '_' !in s
  {
  }

  lemma {:induction false} TwoDigits(q: nat)
    requires q < 100
    ensures DigitsValue([Digit(q / 10), Digit(q % 10)]) == q
  {
    var t := [Digit(q / 10), Digit(q % 10)];
    var hi := [Digit(q / 10)];
    assert t[..1] == hi;
    assert hi[..0] == [];
    assert DigitsValue(hi) == q / 10;
    assert DigitsValue(t) == DigitsValue(hi) * 10 + q % 10;
  }

  /** The integer part and the two decimals of |h| / 100, with h's sign, make h / 100. */
  lemma {:induction false} Hundreds(h: int)
    ensures var a := if h < 0 then -h else h;
      var m := (a / 100) as real + (a % 100) as real / 100.0;
      (if h < 0 then -m else m) == h as real / 100.0
  {
    var a := if h < 0 then -h else h;
    assert a == a / 100 * 100 + a % 100;
    assert (a / 100) as real + (a % 100) as real / 100.0 == a as real / 100.0;
  }

  /** Zero-padded integer digits, a point and two decimals parse to the integer plus the hundredths. */
  lemma {:induction false} PaddedValue(k: nat, q: nat, r: nat)
    requires r < 100
    ensures ParseUnsigned(Padded(k, q, r)) == Some(q as real + r as real / 100.0)
  {
    var t := [Digit(r / 10), Digit(r % 10)];
    ParseDotted(Zeros(k) + Decimal(q), t);
    LeadingZeros(k, Decimal(q));
    DecimalValue(q);
    TwoDigits(r);
    assert Pow10(|t|) == 100;
  }

  /** Parsing a coordinate part recovers the coordinate, and the part has no '_' in it. */
  lemma {:induction false} CoordPartRoundTrip(h: int)
    ensures ParseNumber(CoordPart(h)) == Some(h as real / 100.0)
    ensures '_' !in CoordPart(h)
  {
    var a := if h < 0 then -h else h;
    var c := if h < 0 then '-' else '+';
    var k := CoordPartForm(h);
    var body := Padded(k, a / 100, a % 100);
    var m := (a / 100) as real + (a % 100) as real / 100.0;
    PaddedValue(k, a / 100, a % 100);
    PaddedShape(k, a / 100, a % 100);
    SignedValue(c, body, m);
    Hundreds(h);
    SameValue(CoordPart(h), [c] + body, if c == '-' then -m else m, h as real / 100.0);
  }

  /** Equal strings parse alike. */
  lemma SameValue(s: string, t: string, u: real, v: real)
    requires s == t && ParseNumber(t) == Some(u) && u == v
    ensures ParseNumber(s) == Some(v)
  {
  }

  /** A sign in front of an unsigned number negates it or keeps it. */
  lemma {:induction false} SignedValue(c: char, body: string, m: real)
    requires c == '+' || c == '-'
    requires ParseUnsigned(body) == Some(m)
    ensures ParseNumber([c] + body) == Some(if c == '-' then -m else m)
  {
    assert ([c] + body)[1..] == body;
  }

  /** A coordinate name splits on '_' into exactly two fields, which parse back to the two coordinates. */
  lemma {:induction false} CoordNameRoundTrip(x: int, y: int)
    ensures Split(CoordName(x, y), '_') == [CoordPart(x), CoordPart(y)]
    ensures ParseFields(Split(CoordName(x, y), '_')) == Some([x as real / 100.0, y as real / 100.0])
  {
    CoordPartRoundTrip(x);
    CoordPartRoundTrip(y);
    TwoFields(CoordPart(x), CoordPart(y), x as real / 100.0, y as real / 100.0);
  }

  /** Two fields without '_' joined by '_' split back into themselves and parse field by field. */
  lemma {:induction false} TwoFields(a: string, b: string, u: real, v: real)
    requires '_' !in a && '_' !in b
    requires ParseNumber(a) == Some(u) && ParseNumber(b) == Some(v)
    ensures Split(a + "_" + b, '_') == [a, b]
    ensures ParseFields([a, b]) == Some([u, v])
  {
    SplitOnce(a, '_', b);
    assert a + "_" + b == a + ['_'] + b;
    assert [b][1..] == [];
    assert ParseFields([]) == Some([]);
    assert [v] + [] == [v];
    assert ParseFields([b]) == Some([v]);
    assert [a, b][1..] == [b];
    assert [a, b][0] == a;
    assert [u] + [v] == [u, v];
  }

  /** An index name is all digits and denotes the index. */
  lemma {:induction false} IndexNameRoundTrip(i: nat)
    ensures AllDigits(IndexName(i)) && DigitsValue(IndexName(i)) == i
    ensures |IndexName(i)| == if |Decimal(i)| >= 6 then |Decimal(i)| else 6
  {
    var d := Decimal(i);
    if |d| < 6 {
      assert IndexName(i) == Zeros(6 - |d|) + d;
      LeadingZeros(6 - |d|, d);
    }
    DecimalValue(i);
  }

  /** Distinct keys get distinct file names, so one file never stands for two cells or frames. */
  lemma {:induction false} FileNameInjective(k1: Key, k2: Key)
    requires FileName(k1) == FileName(k2)
    ensures k1 == k2
  {
    match k1 {
      case CoordKey(x1, y1) =>
        CoordNameRoundTrip(x1, y1);
        match k2 {
          case CoordKey(x2, y2) =>
            CoordNameRoundTrip(x2, y2);
          case IndexKey(j) =>
            IndexNameRoundTrip(j);
        }
      case IndexKey(i) =>
        IndexNameRoundTrip(i);
        match k2 {
          case CoordKey(x2, y2) =>
            CoordNameRoundTrip(x2, y2);
          case IndexKey(j) =>
            IndexNameRoundTrip(j);
        }
    }
  }

  /**
   * The name of a point in metres, each coordinate taken to hundredths as
   * '{:+.2f}' does (a map cell's name is that of its centre), splits into two
   * fields that parse back to the point to within half a hundredth.
   */
  lemma {:induction false} MetricNameRoundTrip(x: real, y: real)
    ensures var fields := ParseFields(Split(CoordName(Hundredths(x), Hundredths(y)), '_'));
      && fields.Some? && |fields.value| == 2
      && -0.005 <= fields.value[0] - x <= 0.005
      && -0.005 <= fields.value[1] - y <= 0.005
  {
    var hx, hy := Hundredths(x), Hundredths(y);
    CoordNameRoundTrip(hx, hy);
    HundredthsNear(x);
    HundredthsNear(y);
  }

  /** A value taken to hundredths and read back lies within half a hundredth of it. */
  lemma {:induction false} HundredthsNear(v: real)
    ensures -0.005 <= Hundredths(v) as real / 100.0 - v <= 0.005
  {
    var h := Hundredths(v) as real;
    assert h / 100.0 - v == (h - v * 100.0) / 100.0;
  }
}
