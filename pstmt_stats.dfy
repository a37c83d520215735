/**
 * The statistics side of the prepared statement cache: the hit ratio and the
 * one-line description "size[..] max[..] hits[..] miss[..] hitRatio[..] removes[..]".
 */
module PstmtStats {

  import opened Optional

  /**
   * Percentage of lookups that hit, truncated: 0 when there was no hit,
   * otherwise hits * 100 / (hits + misses). Counters are non-negative, so
   * Java's truncating division and Dafny's agree.
   */
  function HitRatio(hits: nat, misses: nat): (r: nat)
    ensures hits == 0 ==> r == 0
    ensures hits > 0 ==> r * (hits + misses) <= hits * 100 < (r + 1) * (hits + misses)
    ensures r <= 100
    ensures hits > 0 && misses == 0 ==> r == 100
  {
    if hits == 0 then 0
    else
      var total := hits + misses;
      var r := hits * 100 / total;
      RatioBounds(hits, total);
      r
  }

  lemma RatioBounds(hits: nat, total: nat)
    requires 0 < hits <= total
    ensures (hits * 100 / total) * total <= hits * 100 < (hits * 100 / total + 1) * total
    ensures hits * 100 / total <= 100
    ensures hits == total ==> hits * 100 / total == 100
  {
    var a := hits * 100;
    var q, m := a / total, a % total;
    assert a == q * total + m && 0 <= m < total;
    assert (q + 1) * total == q * total + total;
    assert a <= 100 * total;
    CancelFactor(q, 100, total);
    if hits == total {
      CancelStrict(100, q + 1, total);
    }
  }

  /** A positive factor can be cancelled from both sides of `<=`. */
  lemma CancelFactor(x: int, y: int, t: int)
    requires t > 0 && x * t <= y * t
    ensures x <= y
  {
    assert (y - x) * t == y * t - x * t;
  }

  /** A positive factor can be cancelled from both sides of `<`. */
  lemma CancelStrict(x: int, y: int, t: int)
    requires t > 0 && x * t < y * t
    ensures x < y
  {
    assert (y - x) * t == y * t - x * t;
  }

  // ---------------------------------------------------------------------------
  // Decimal rendering of the counters, as Java's string concatenation does for
  // non-negative ints.

  function Digit(d: nat): char
    requires d < 10
  {
    ('0' as int + d) as char
  }

  predicate IsDigit(c: char)
  {
    '0' <= c <= '9'
  }

  /** Java's decimal form of a non-negative int: digits only, no leading zero except in "0" itself. */
  function DigitsOf(n: nat): (s: string)
    ensures |s| >= 1
    ensures forall c :: c in s ==> IsDigit(c)
    ensures n == 0 ==> s == "0"
    ensures n > 0 ==> s[0] != '0'
  {
    if n < 10 then [Digit(n)] else DigitsOf(n / 10) + [Digit(n % 10)]
  }

  /** The number a non-empty run of decimal digits denotes. */
  function ValueOf(ds: string): Option<nat>
  {
    if |ds| == 0 || !IsDigit(ds[|ds| - 1]) then None
    else
      var last := (ds[|ds| - 1] as int - '0' as int) as nat;
      if |ds| == 1 then Some(last)
      else match ValueOf(ds[..|ds| - 1])
        case None => None
        case Some(h) => Some(h * 10 + last)
  }

  /** Splits `t` at its first ']': the text before it and the text after it. */
  function UntilClose(t: string): Option<(string, string)>
  {
    if t == [] then None
    else if t[0] == ']' then Some(([], t[1..]))
    else match UntilClose(t[1..])
      case None => None
      case Some(p) => Some(([t[0]] + p.0, p.1))
  }

  function StripPrefix(p: string, t: string): Option<string>
  {
    if |p| <= |t| && t[..|p|] == p then Some(t[|p|..]) else None
  }

  /** One field of the description: `name[n]`. */
  function Field(name: string, n: nat): string
  {
    name + "[" + DigitsOf(n) + "]"
  }

  /** Reads a field `name[n]` off the front of `t`; gives `n` and the rest. */
  function ReadField(name: string, t: string): Option<(nat, string)>
  {
    match StripPrefix(name + "[", t)
    case None => None
    case Some(t1) =>
      match UntilClose(t1)
      case None => None
      case Some(p) =>
        match ValueOf(p.0)
        case None => None
        case Some(n) => Some((n, p.1))
  }

  /** Fields joined by single spaces, in the order of `labels`. */
  function Join(labels: seq<string>, values: seq<nat>): string
    requires |labels| == |values|
  {
    if |labels| == 0 then ""
    else if |labels| == 1 then Field(labels[0], values[0])
    else Field(labels[0], values[0]) + " " + Join(labels[1..], values[1..])
  }

  /** Reads back the values of a text of space-separated fields with the given labels. */
  function Split(labels: seq<string>, t: string): Option<seq<nat>>
  {
    if |labels| == 0 then (if t == [] then Some([]) else None)
    else match ReadField(labels[0], t)
      case None => None
      case Some(p) =>
        if |labels| == 1 then (if p.1 == [] then Some([p.0]) else None)
        else match StripPrefix(" ", p.1)
          case None => None
          case Some(rest) =>
            match Split(labels[1..], rest)
            case None => None
            case Some(ns) => Some([p.0] + ns)
  }

  /** The labels of getDescription, in order. */
  const DescriptionLabels: seq<string> := ["size", "max", "hits", "miss", "hitRatio", "removes"]

  /** getDescription's text for the given size, maximum, counters and ratio. */
  function Describe(size: nat, max: nat, hits: nat, misses: nat, ratio: nat, removes: nat): (d: string)
    ensures Split(DescriptionLabels, d) == Some([size, max, hits, misses, ratio, removes])
  {
    var values := [size, max, hits, misses, ratio, removes];
    SplitJoin(DescriptionLabels, values);
    Join(DescriptionLabels, values)
  }

  // ---------------------------------------------------------------------------
  // Lemmas

  lemma {:induction false} ValueOfDigits(n: nat)
    ensures ValueOf(DigitsOf(n)) == Some(n)
  {
    if n >= 10 {
      var hs := DigitsOf(n / 10);
      var ds := hs + [Digit(n % 10)];
      assert ds == DigitsOf(n);
      assert ds[..|ds| - 1] == hs;
      ValueOfDigits(n / 10);
      assert ValueOf(ds) == Some((n / 10) * 10 + n % 10);
    }
  }

  lemma {:induction false} UntilCloseDigits(ds: string, rest: string)
    requires forall c :: c in ds ==> IsDigit(c)
    ensures UntilClose(ds + "]" + rest) == Some((ds, rest))
  {
    if ds == [] {
      assert ds + "]" + rest == "]" + rest;
    } else {
      assert (ds + "]" + rest)[1..] == ds[1..] + "]" + rest;
      assert ds[0] in ds;
      UntilCloseDigits(ds[1..], rest);
      assert [ds[0]] + ds[1..] == ds;
    }
  }

  lemma ReadFieldRender(name: string, n: nat, rest: string)
    ensures ReadField(name, Field(name, n) + rest) == Some((n, rest))
  {
    var ds := DigitsOf(n);
    var t := Field(name, n) + rest;
    assert t == (name + "[") + (ds + "]" + rest);
    assert StripPrefix(name + "[", t) == Some(ds + "]" + rest);
    UntilCloseDigits(ds, rest);
    ValueOfDigits(n);
  }

  /** Rendering the fields and reading them back gives the values unchanged. */
  lemma {:induction false} SplitJoin(labels: seq<string>, values: seq<nat>)
    requires |labels| == |values|
    ensures Split(labels, Join(labels, values)) == Some(values)
  {
    if |labels| == 1 {
      ReadFieldRender(labels[0], values[0], "");
      assert Field(labels[0], values[0]) + "" == Field(labels[0], values[0]);
      assert [values[0]] == values;
    } else if |labels| > 1 {
      var tail := Join(labels[1..], values[1..]);
      ReadFieldRender(labels[0], values[0], " " + tail);
      assert Join(labels, values) == Field(labels[0], values[0]) + (" " + tail);
      assert StripPrefix(" ", " " + tail) == Some(tail);
      SplitJoin(labels[1..], values[1..]);
      assert [values[0]] + values[1..] == values;
    }
  }
}
