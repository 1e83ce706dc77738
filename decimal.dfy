/** Decimal text of integers, as Go's strconv.Itoa and strconv.ParseInt(s, 10, 64)
    produce and read it; the encoders and decoders of every core file rely on these. */
module Decimal {
  import opened Wire

  /** The value of a digit string, most significant digit first. */
  function ValueOf(ds: seq<byte>): nat
    requires AllDigits(ds)
  {
    if ds == [] then 0 else ValueOf(ds[..|ds| - 1]) * 10 + (ds[|ds| - 1] - ZERO)
  }

  /** Appending a digit shifts the value one decimal place. */
  lemma ValueOfSnoc(ds: seq<byte>, d: byte)
    requires AllDigits(ds) && IsDigit(d)
    ensures AllDigits(ds + [d]) && ValueOf(ds + [d]) == ValueOf(ds) * 10 + (d - ZERO)
  {
    assert (ds + [d])[..|ds|] == ds;
  }

  /** The decimal digits of a natural number, without leading zeros. */
  function DigitsOf(n: nat): (ds: seq<byte>)
    ensures 1 <= |ds| && AllDigits(ds)
    ensures ds[0] == ZERO ==> n == 0
    decreases n
  {
    if n < 10 then [ZERO + n] else DigitsOf(n / 10) + [ZERO + n % 10]
  }

  lemma {:induction false} ValueOfDigitsOf(n: nat)
    ensures ValueOf(DigitsOf(n)) == n
    decreases n
  {
    if n >= 10 {
      ValueOfDigitsOf(n / 10);
      ValueOfSnoc(DigitsOf(n / 10), ZERO + n % 10);
    }
  }

  /** strconv.Itoa: a leading '-' for negative numbers, then the digits of the magnitude. */
  function Itoa(n: int): (s: seq<byte>)
  {
    if n < 0 then [MINUS] + DigitsOf(-n) else DigitsOf(n)
  }

  /** The length of the run of digits at the front of s. */
  function DigitRun(s: seq<byte>): (k: nat)
    ensures k <= |s| && AllDigits(s[..k])
    ensures k < |s| ==> !IsDigit(s[k])
  {
    if s == [] || !IsDigit(s[0]) then 0
    else
      var k := 1 + DigitRun(s[1..]);
      assert s[..k] == [s[0]] + s[1..][..k - 1];
      k
  }

  /** A digit run is determined by where the first non-digit stands. */
  lemma {:induction false} DigitRunIs(s: seq<byte>, k: nat)
    requires k <= |s| && AllDigits(s[..k])
    requires k < |s| ==> !IsDigit(s[k])
    ensures DigitRun(s) == k
  {
    if k > 0 {
      assert s[1..][..k - 1] == s[1..k];
      DigitRunIs(s[1..], k - 1);
    }
  }

  lemma DigitRunOfDigitsThen(ds: seq<byte>, rest: seq<byte>)
    requires AllDigits(ds)
    requires rest != [] ==> !IsDigit(rest[0])
    ensures DigitRun(ds + rest) == |ds| && (ds + rest)[..|ds|] == ds
  {
    assert (ds + rest)[..|ds|] == ds;
    DigitRunIs(ds + rest, |ds|);
  }

  datatype Parsed = Parsed(value: int) | SyntaxError | RangeError {
    /** The error strconv reports, if any. */
    function Err(): Option<Error> {
      match this
      case Parsed(_) => None
      case SyntaxError => Some(NumSyntax)
      case RangeError => Some(NumRange)
    }
  }

  const MaxUint64: int := 0xFFFF_FFFF_FFFF_FFFF

  /** strconv.ParseInt(s, 10, 64): an optional '+' or '-', then one or more digits whose value fits
      in an int64. An overflow of the digits read so far is reported before a later bad character. */
  function ParseInt(s: seq<byte>): (r: Parsed)
  {
    var neg := |s| > 0 && s[0] == MINUS;
    var body := if |s| > 0 && (s[0] == MINUS || s[0] == PLUS) then s[1..] else s;
    var k := DigitRun(body);
    if body == [] then SyntaxError
    else if ValueOf(body[..k]) > MaxUint64 then RangeError
    else if k < |body| then SyntaxError
    else
      assert body[..k] == body;
      var v: int := if neg then -(ValueOf(body) as int) else ValueOf(body);
      if Int64(v) then Parsed(v) else RangeError
  }

  /** strconv.ParseInt reads back what strconv.Itoa writes. */
  lemma ParseIntItoa(n: int)
    requires Int64(n)
    ensures ParseInt(Itoa(n)) == Parsed(n)
  {
    var m := if n < 0 then -n else n;
    ValueOfDigitsOf(m);
    var ds := DigitsOf(m);
    DigitRunOfDigitsThen(ds, []);
    assert ds + [] == ds;
    if n < 0 {
      assert Itoa(n)[1..] == ds;
    }
  }

  /** Only an optional sign followed by digits parses. */
  lemma ParseIntShape(s: seq<byte>)
    requires ParseInt(s).Parsed?
    ensures var body := if s[0] == MINUS || s[0] == PLUS then s[1..] else s;
            |s| > 0 && body != [] && AllDigits(body)
            && ParseInt(s).value == (if s[0] == MINUS then -(ValueOf(body) as int) else ValueOf(body) as int)
  {
    var body := if |s| > 0 && (s[0] == MINUS || s[0] == PLUS) then s[1..] else s;
    assert body[..DigitRun(body)] == body;
  }
}
