/** What reader.go's decoder does with well-formed and malformed replies, proved about the reference
    functions its methods are verified against. Each lemma describes the bytes from position i of a
    stream d on. */
module ReplyProperties {
  import opened Wire
  import opened Decimal
  import opened Stream
  import opened Frames
  import opened ReplyReader

  /** d[i..] starts with a: the bytes after a start at i + |a|. */
  lemma Skip(d: seq<byte>, i: nat, a: seq<byte>, b: seq<byte>)
    requires i <= |d| && d[i..] == a + b
    ensures i + |a| <= |d| && d[i + |a|..] == b && d[i..i + |a|] == a
  {
    assert d[i + |a|..] == d[i..][|a|..];
    assert d[i..i + |a|] == d[i..][..|a|];
  }

  // ---------------------------------------------------------------------------------------------
  // readNumber

  /** After the sign: a run of digits then CR LF is their value. */
  lemma BodyOfDigitsCrLf(ds: seq<byte>, rest: seq<byte>, negative: bool)
    requires AllDigits(ds)
    ensures var v: int := if negative then -(ValueOf(ds) as int) else ValueOf(ds);
            BodyNumber(ds + CRLF + rest, negative) == Number(v, None, |ds| + 2)
  {
    var body := ds + CRLF + rest;
    assert body == ds + (CRLF + rest);
    DigitRunOfDigitsThen(ds, CRLF + rest);
    assert DigitRun(body) == |ds| && body[..|ds|] == ds;
    assert body[|ds|] == CR && body[|ds| + 1] == LF;
  }

  /** After the sign: a run of digits that ends the stream is their value. */
  lemma BodyOfDigitsEnd(ds: seq<byte>, negative: bool)
    requires AllDigits(ds)
    ensures var v: int := if negative then -(ValueOf(ds) as int) else ValueOf(ds);
            BodyNumber(ds, negative) == Number(v, None, |ds|)
  {
    DigitRunOfDigitsThen(ds, []);
    assert ds + [] == ds;
  }

  /** A number followed by CR LF: the digits of its magnitude after an optional '-'. */
  lemma SpecOfSignedDigits(negative: bool, ds: seq<byte>, rest: seq<byte>)
    requires AllDigits(ds) && |ds| >= 1
    ensures var s := (if negative then [MINUS] else []) + ds + CRLF + rest;
            var v: int := if negative then -(ValueOf(ds) as int) else ValueOf(ds);
            NumberSpec(s) == Number(v, None, |s| - |rest|)
  {
    var s := (if negative then [MINUS] else []) + ds + CRLF + rest;
    BodyOfDigitsCrLf(ds, rest, negative);
    if negative {
      assert s[0] == MINUS && s[1..] == ds + CRLF + rest;
    } else {
      assert s == ds + CRLF + rest && s[0] == ds[0];
    }
  }

  lemma SpecOfItoaCrLf(n: int, rest: seq<byte>)
    ensures NumberSpec(Itoa(n) + CRLF + rest) == Number(n, None, |Itoa(n)| + 2)
  {
    var m := if n < 0 then -n else n;
    ValueOfDigitsOf(m);
    SpecOfSignedDigits(n < 0, DigitsOf(m), rest);
    assert Itoa(n) == (if n < 0 then [MINUS] else []) + DigitsOf(m);
  }

  lemma SpecOfItoaEnd(n: int)
    ensures NumberSpec(Itoa(n)) == Number(n, None, |Itoa(n)|)
  {
    var m := if n < 0 then -n else n;
    var ds := DigitsOf(m);
    ValueOfDigitsOf(m);
    var s := Itoa(n);
    if n < 0 {
      assert s[0] == MINUS && s[1..] == ds;
      BodyOfDigitsEnd(ds, true);
    } else {
      assert s[0] == ds[0];
      BodyOfDigitsEnd(ds, false);
    }
  }

  /** readNumber reads back what strconv.Itoa writes, sign included, up to and including CR LF. */
  lemma NumberOfItoa(d: seq<byte>, i: nat, n: int, rest: seq<byte>)
    requires i <= |d| && d[i..] == Itoa(n) + CRLF + rest
    ensures NumberAt(d, i) == Number(n, None, |Itoa(n)| + 2)
  {
    NumberAtMeetsSpec(d, i);
    SpecOfItoaCrLf(n, rest);
  }

  /** The end of the stream right after the digits ends the number without an error. */
  lemma NumberAtEnd(d: seq<byte>, i: nat, n: int)
    requires i <= |d| && d[i..] == Itoa(n)
    ensures NumberAt(d, i) == Number(n, None, |Itoa(n)|)
  {
    NumberAtMeetsSpec(d, i);
    SpecOfItoaEnd(n);
  }

  /** A byte that is neither a digit nor CR (nor a leading '-') fails with that byte, and the
      value is 0. */
  lemma NumberBadByte(d: seq<byte>, i: nat, ds: seq<byte>, c: byte, rest: seq<byte>)
    requires i <= |d| && d[i..] == ds + [c] + rest
    requires AllDigits(ds) && !IsDigit(c) && c != CR && (ds == [] ==> c != MINUS)
    ensures NumberAt(d, i) == Number(0, Some(InvalidCharacter(c)), |ds| + 1)
  {
    NumberAtMeetsSpec(d, i);
    var s := d[i..];
    DigitRunOfDigitsThen(ds, [c] + rest);
    assert s == ds + ([c] + rest);
  }

  /** A CR that is not followed by LF fails with the byte after it (a second CR at the end of the
      stream). */
  lemma NumberCrWithoutLf(d: seq<byte>, i: nat, ds: seq<byte>, tail: seq<byte>)
    requires i <= |d| && d[i..] == ds + [CR] + tail
    requires AllDigits(ds) && (tail == [] || tail[0] != LF)
    ensures NumberAt(d, i).err == Some(InvalidAfterCr(if tail == [] then CR else tail[0]))
    ensures NumberAt(d, i).n == 0
  {
    NumberAtMeetsSpec(d, i);
    var s := d[i..];
    DigitRunOfDigitsThen(ds, [CR] + tail);
    assert s == ds + ([CR] + tail);
  }

  /** "abc\r\n" is rejected at the 'a'. */
  lemma NumberRejectsLetters()
    ensures NumberAt([0x61, 0x62, 0x63, CR, LF], 0) == Number(0, Some(InvalidCharacter(0x61)), 1)
  {
    var d: seq<byte> := [0x61, 0x62, 0x63, CR, LF];
    NumberBadByte(d, 0, [], 0x61, d[1..]);
  }

  /** "12ab34\r\n" is rejected at the 'a', after the digits before it. */
  lemma NumberRejectsMixed()
    ensures NumberAt([0x31, 0x32, 0x61, 0x62, 0x33, 0x34, CR, LF], 0).err == Some(InvalidCharacter(0x61))
  {
    var d: seq<byte> := [0x31, 0x32, 0x61, 0x62, 0x33, 0x34, CR, LF];
    assert d == [0x31, 0x32] + [0x61] + d[3..];
    NumberBadByte(d, 0, [0x31, 0x32], 0x61, d[3..]);
  }

  /** "1234\r\n" is 1234 and "-1234\r\n" is -1234. */
  lemma NumberExamples()
    ensures NumberAt([0x31, 0x32, 0x33, 0x34, CR, LF], 0) == Number(1234, None, 6)
    ensures NumberAt([MINUS, 0x31, 0x32, 0x33, 0x34, CR, LF], 0) == Number(-1234, None, 7)
  {
    var pos: seq<byte> := [0x31, 0x32, 0x33, 0x34, CR, LF];
    assert Itoa(1234) == pos[..4];
    NumberOfItoa(pos, 0, 1234, []);
    var neg: seq<byte> := [MINUS, 0x31, 0x32, 0x33, 0x34, CR, LF];
    assert Itoa(-1234) == neg[..5];
    NumberOfItoa(neg, 0, -1234, []);
  }

  // ---------------------------------------------------------------------------------------------
  // readLine

  /** The lines readLine returns whole when CR LF follows them: every CR in them is followed by a
      byte other than LF, and that byte is taken as content without being looked at. */
  predicate Literal(l: seq<byte>)
    decreases |l|
  {
    if l == [] then true
    else if l[0] != CR then Literal(l[1..])
    else |l| >= 2 && l[1] != LF && Literal(l[2..])
  }

  lemma {:induction false} NoCrIsLiteral(l: seq<byte>)
    requires NoCr(l)
    ensures Literal(l)
    decreases |l|
  {
    if l != [] {
      NoCrIsLiteral(l[1..]);
    }
  }

  /** The stretch of d at i that equals l, seen from k bytes further on. */
  lemma SliceFrom(d: seq<byte>, i: nat, l: seq<byte>, k: nat)
    requires i + |l| <= |d| && d[i..i + |l|] == l && k <= |l|
    ensures d[i + k..i + |l|] == l[k..] && (k < |l| ==> d[i + k] == l[k])
  {
    assert d[i + k..i + |l|] == d[i..i + |l|][k..];
  }

  /** readLine stores a literal stretch of the stream as it is and goes on after it. */
  lemma {:induction false} ScanLiteral(d: seq<byte>, i: nat, l: seq<byte>)
    requires i + |l| <= |d| && d[i..i + |l|] == l && Literal(l)
    ensures ScanLine(d, i).stored == l + ScanLine(d, i + |l|).stored
    ensures ScanLine(d, i).err == ScanLine(d, i + |l|).err
    ensures ScanLine(d, i).used == |l| + ScanLine(d, i + |l|).used
    decreases |l|
  {
    if l != [] {
      var t := ScanLine(d, i + |l|);
      var k := if l[0] == CR then 2 else 1;
      SliceFrom(d, i, l, 0);
      SliceFrom(d, i, l, k);
      if k == 2 {
        SliceFrom(d, i, l, 1);
      }
      ScanLiteral(d, i + k, l[k..]);
      ScanStep(d, i, l[..k]);
      Regroup(l, k, t.stored);
    }
  }

  /** One step of readLine's scan: a byte other than CR, or a CR and the byte after it when that
      is not LF, is stored as it is. */
  lemma ScanStep(d: seq<byte>, i: nat, s: seq<byte>)
    requires i + |s| <= |d| && d[i..i + |s|] == s
    requires (|s| == 1 && s[0] != CR) || (|s| == 2 && s[0] == CR && s[1] != LF)
    ensures ScanLine(d, i)
         == Line(s + ScanLine(d, i + |s|).stored, ScanLine(d, i + |s|).err, |s| + ScanLine(d, i + |s|).used)
  {
    assert d[i] == s[0];
    if |s| == 2 {
      assert d[i + 1] == s[1] && s == [CR, d[i + 1]];
    } else {
      assert s == [d[i]];
    }
  }

  lemma Regroup(l: seq<byte>, k: nat, s: seq<byte>)
    requires k <= |l|
    ensures l + s == l[..k] + (l[k..] + s)
  {
    assert l == l[..k] + l[k..];
  }

  /** d[i..] starts with l and then CR LF. */
  lemma SplitAtCrLf(d: seq<byte>, i: nat, l: seq<byte>, rest: seq<byte>)
    requires i <= |d| && d[i..] == l + CRLF + rest
    ensures i + |l| + 2 <= |d| && d[i..i + |l|] == l && d[i + |l|] == CR && d[i + |l| + 1] == LF
  {
    Skip(d, i, l, CRLF + rest);
  }

  /** A literal stretch followed by CR LF is one whole line. */
  lemma ScanLineOfLiteral(d: seq<byte>, i: nat, l: seq<byte>)
    requires i + |l| + 2 <= |d| && d[i..i + |l|] == l && Literal(l)
    requires d[i + |l|] == CR && d[i + |l| + 1] == LF
    ensures ScanLine(d, i) == Line(l, None, |l| + 2)
  {
    ScanLiteral(d, i, l);
    assert l + [] == l;
  }

  /** readLine returns the line before CR LF and consumes exactly through the LF. */
  lemma LineOfLiteral(d: seq<byte>, i: nat, l: seq<byte>, rest: seq<byte>)
    requires i <= |d| && d[i..] == l + CRLF + rest
    requires Literal(l) && |l| <= LineBuffer
    ensures LineAt(d, i) == Line(l, None, |l| + 2)
  {
    SplitAtCrLf(d, i, l, rest);
    ScanLineOfLiteral(d, i, l);
  }

  /** "Lorem ipsum\r\ndolor" gives "Lorem ipsum", and a CR followed by another byte is content:
      "Lorem\ripsum\r\n" gives "Lorem\ripsum". */
  lemma LineKeepsLoneCr(d: seq<byte>, i: nat, a: seq<byte>, x: byte, b: seq<byte>, rest: seq<byte>)
    requires i <= |d| && d[i..] == a + [CR, x] + b + CRLF + rest
    requires NoCr(a) && NoCr(b) && x != LF && x != CR && |a| + 2 + |b| <= LineBuffer
    ensures LineAt(d, i) == Line(a + [CR, x] + b, None, |a| + 4 + |b|)
  {
    var l := a + [CR, x] + b;
    NoCrIsLiteral(a);
    NoCrIsLiteral(b);
    LiteralConcat(a, [CR, x] + b);
    assert ([CR, x] + b)[2..] == b;
    assert l == a + ([CR, x] + b);
    LineOfLiteral(d, i, l, rest);
  }

  lemma {:induction false} LiteralConcat(a: seq<byte>, b: seq<byte>)
    requires NoCr(a) && Literal(b)
    ensures Literal(a + b)
    decreases |a|
  {
    if a != [] {
      LiteralConcat(a[1..], b);
      assert (a + b)[0] == a[0] != CR;
      assert (a + b)[1..] == a[1..] + b;
    } else {
      assert a + b == b;
    }
  }

  /** The end of the stream ends the line without an error. */
  lemma LineAtEnd(d: seq<byte>, i: nat, l: seq<byte>)
    requires i <= |d| && d[i..] == l
    requires Literal(l) && |l| <= LineBuffer
    ensures LineAt(d, i) == Line(l, None, |l|)
  {
    Skip(d, i, l, []);
    ScanLiteral(d, i, l);
    assert l + [] == l;
  }

  /** A CR as the last byte of the stream: reading the byte after it fails with io.EOF. */
  lemma LineCrAtEnd(d: seq<byte>, i: nat, l: seq<byte>)
    requires i <= |d| && d[i..] == l + [CR]
    requires Literal(l) && |l| <= LineBuffer
    ensures LineAt(d, i) == Line([], Some(Eof), |l| + 1)
  {
    Skip(d, i, l, [CR]);
    ScanLiteral(d, i, l);
    assert l + [] == l;
  }

  /** More than 1024 bytes before the end of the line overrun readLine's buffer. */
  lemma LineTooLong(d: seq<byte>, i: nat, l: seq<byte>)
    requires i + |l| <= |d| && d[i..i + |l|] == l
    requires Literal(l) && |l| > LineBuffer
    ensures LineAt(d, i).err == Some(Panic(IndexOutOfRange))
  {
    ScanLiteral(d, i, l);
  }

  /** A CR right before CR LF swallows the CR of the pair, so that CR LF does not end the line. */
  lemma CrBeforeCrLf(d: seq<byte>, i: nat)
    requires i + 3 <= |d| && d[i..i + 3] == [CR, CR, LF]
    ensures var sc := ScanLine(d, i); |sc.stored| >= 3 && sc.stored[..3] == [CR, CR, LF]
  {
    assert d[i] == CR && d[i + 1] == CR && d[i + 2] == LF;
  }

  // ---------------------------------------------------------------------------------------------
  // readBulk

  /** d[i..] is h, then b, then the rest of the stream. */
  lemma FrameParts(d: seq<byte>, i: nat, h: seq<byte>, b: seq<byte>, tail: seq<byte>)
    requires i <= |d| && d[i..] == h + b + tail
    ensures i + |h| + |b| + |tail| == |d|
    ensures d[i..] == h + (b + tail)
    ensures d[i + |h|..i + |h| + |b|] == b
  {
    assert d[i + |h|..i + |h| + |b|] == d[i..][|h|..|h| + |b|];
  }

  /** readBulk returns the payload of a length-prefixed frame verbatim, CR and LF included, and
      consumes up to two bytes after it. */
  lemma BulkOfFrame(d: seq<byte>, i: nat, b: seq<byte>, tail: seq<byte>)
    requires i <= |d| && d[i..] == Itoa(|b|) + CRLF + b + tail
    ensures BulkAt(d, i) == Decoded(Str(b), None, |Itoa(|b|)| + 2 + |b| + Min(2, |tail|))
  {
    FrameParts(d, i, Itoa(|b|) + CRLF, b, tail);
    NumberOfItoa(d, i, |b|, b + tail);
  }

  /** Length -1 is the null bulk, without an error. */
  lemma BulkNull(d: seq<byte>, i: nat, rest: seq<byte>)
    requires i <= |d| && d[i..] == [MINUS, ZERO + 1] + CRLF + rest
    ensures BulkAt(d, i) == Decoded(Nil, None, 4)
  {
    assert Itoa(-1) == [MINUS, ZERO + 1];
    NumberOfItoa(d, i, -1, rest);
  }

  /** A stream that ends before the announced number of bytes fails with io.EOF. */
  lemma BulkTruncated(d: seq<byte>, i: nat, n: nat, b: seq<byte>)
    requires i <= |d| && d[i..] == Itoa(n) + CRLF + b && |b| < n
    ensures BulkAt(d, i) == Decoded(Nil, Some(Eof), |d| - i)
  {
    FrameParts(d, i, Itoa(n) + CRLF, b, []);
    NumberOfItoa(d, i, n, b);
  }

  /** A length below -1 makes readBulk's `make` panic. */
  lemma BulkNegativeLength(d: seq<byte>, i: nat, n: int, rest: seq<byte>)
    requires i <= |d| && d[i..] == Itoa(n) + CRLF + rest && n < -1
    ensures BulkAt(d, i).err == Some(Panic(NegativeMakeLength))
  {
    NumberOfItoa(d, i, n, rest);
  }

  // ---------------------------------------------------------------------------------------------
  // Read

  /** d[i] is the indicator byte c and the reply after it starts at i + 1. */
  lemma Indicator(d: seq<byte>, i: nat, c: byte, body: seq<byte>)
    requires i <= |d| && d[i..] == [c] + body
    ensures i < |d| && d[i] == c && d[i + 1..] == body
  {
    Skip(d, i, [c], body);
  }

  /** '+': the status line. */
  lemma ReadStatus(d: seq<byte>, i: nat, l: seq<byte>, rest: seq<byte>)
    requires i <= |d| && d[i..] == [PLUS] + l + CRLF + rest
    requires Literal(l) && |l| <= LineBuffer
    ensures ReadAt(d, i) == Decoded(Str(l), None, |l| + 3)
  {
    Indicator(d, i, PLUS, l + CRLF + rest);
    LineOfLiteral(d, i + 1, l, rest);
  }

  /** '-': the line is read, and the type assertion to []byte on a string fails, so the reply is
      nil with an error. */
  lemma ReadErrorReply(d: seq<byte>, i: nat, l: seq<byte>, rest: seq<byte>)
    requires i <= |d| && d[i..] == [MINUS] + l + CRLF + rest
    requires Literal(l) && |l| <= LineBuffer
    ensures ReadAt(d, i) == Decoded(Nil, Some(CannotConvert(l)), |l| + 3)
  {
    Indicator(d, i, MINUS, l + CRLF + rest);
    LineOfLiteral(d, i + 1, l, rest);
  }

  /** '-' never decodes without an error, whatever follows it. */
  lemma ErrorReplyAlwaysFails(d: seq<byte>, i: nat)
    requires i < |d| && d[i] == MINUS
    ensures ReadAt(d, i).err.Some?
  {
    var l := LineAt(d, i + 1);
    assert l.err.None? ==> ReadAt(d, i).err == Some(CannotConvert(l.stored));
  }

  /** ':': the number. */
  lemma ReadInteger(d: seq<byte>, i: nat, n: int, rest: seq<byte>)
    requires i <= |d| && d[i..] == [COLON] + Itoa(n) + CRLF + rest
    ensures ReadAt(d, i) == Decoded(Int(n), None, |Itoa(n)| + 3)
  {
    Indicator(d, i, COLON, Itoa(n) + CRLF + rest);
    NumberOfItoa(d, i + 1, n, rest);
  }

  /** At the end of the stream the first read fails, and its io.EOF is what readNumber and Read
      return, with nothing consumed. */
  lemma ReadAtEndOfStream(d: seq<byte>)
    ensures NumberAt(d, |d|) == Number(0, Some(Eof), 0)
    ensures ReadAt(d, |d|) == Decoded(Nil, Some(Eof), 0)
  {
  }

  /** An indicator byte that is not one of "+-:$*" is consumed alone and gives nil without an error. */
  lemma ReadUnknownIndicator(d: seq<byte>, i: nat)
    requires i < |d| && d[i] !in {PLUS, MINUS, COLON, DOLLAR, STAR}
    ensures ReadAt(d, i) == Decoded(Nil, None, 1)
  {
  }

  /** "$-1\r\n" and "*-1\r\n" are nil without an error. */
  lemma ReadNull(d: seq<byte>, i: nat, c: byte, rest: seq<byte>)
    requires c == DOLLAR || c == STAR
    requires i <= |d| && d[i..] == [c] + [MINUS, ZERO + 1] + CRLF + rest
    ensures ReadAt(d, i) == Decoded(Nil, None, 5)
  {
    assert Itoa(-1) == [MINUS, ZERO + 1];
    Indicator(d, i, c, Itoa(-1) + CRLF + rest);
    NumberOfItoa(d, i + 1, -1, rest);
  }

  /** A bulk frame decodes to its payload and is consumed whole. */
  lemma ReadBulkFrame(d: seq<byte>, i: nat, b: seq<byte>, rest: seq<byte>)
    requires i <= |d| && d[i..] == BulkFrame(b) + rest
    ensures ReadAt(d, i) == Decoded(Str(b), None, |BulkFrame(b)|)
  {
    Indicator(d, i, DOLLAR, Itoa(|b|) + CRLF + b + (CRLF + rest));
    BulkOfFrame(d, i + 1, b, CRLF + rest);
  }

  /** The byte strings of args as decoded values. */
  function Strs(args: seq<seq<byte>>): (vs: seq<Value>)
    ensures |vs| == |args|
    ensures forall j :: 0 <= j < |args| ==> vs[j] == Str(args[j])
  {
    if args == [] then [] else [Str(args[0])] + Strs(args[1..])
  }

  /** The array loop's first turn: an element read without a panic, then the others after it. */
  lemma ElemsCons(d: seq<byte>, j: nat, k: nat, v: Value, err: Option<Error>, u: nat, next: nat, m: Many)
    requires next == j + u && next <= |d| && k > 0 && !IsPanic(err)
    requires ReadAt(d, j) == Decoded(v, err, u) && ElemsAt(d, next, k - 1) == m
    ensures ElemsAt(d, j, k) == Many([Element(v, err)] + m.items, m.panic, u + m.used)
  {
  }

  /** '*' with a count n that reads without an error, followed by n elements. */
  lemma ReadArrayOf(d: seq<byte>, i: nat, n: nat, u: nat, j: nat, m: Many)
    requires j == i + 1 + u && i < |d| && d[i] == STAR && j <= |d|
    requires NumberAt(d, i + 1) == Number(n, None, u) && ElemsAt(d, j, n) == m && m.panic.None?
    ensures ReadAt(d, i) == Decoded(Array(m.items), None, 1 + u + m.used)
  {
  }

  /** Consecutive bulk frames decode, in order, to their payloads. */
  lemma {:induction false} ElemsOfBulks(d: seq<byte>, j: nat, args: seq<seq<byte>>, rest: seq<byte>)
    requires j <= |d| && d[j..] == Bulks(args) + rest
    ensures ElemsAt(d, j, |args|) == Many(Strs(args), None, |Bulks(args)|)
    decreases |args|
  {
    if args != [] {
      var f := BulkFrame(args[0]);
      var more := Bulks(args[1..]) + rest;
      assert d[j..] == f + more && j + |f| <= |d| && d[j + |f|..] == Bulks(args[1..]) + rest by {
        Skip(d, j, f, more);
      }
      ReadBulkFrame(d, j, args[0], more);
      ElemsOfBulks(d, j + |f|, args[1..], rest);
      ElemsCons(d, j, |args|, Str(args[0]), None, |f|, j + |f|, ElemsAt(d, j + |f|, |args| - 1));
    }
  }

  /** The positions inside "*<count>\r\n" followed by the elements. */
  lemma ArrayHeader(d: seq<byte>, i: nat, n: int, elems: seq<byte>)
    requires i <= |d| && d[i..] == [STAR] + Itoa(n) + CRLF + elems
    ensures var u := |Itoa(n)| + 2;
            i + 1 + u <= |d| && d[i] == STAR && d[i + 1..] == Itoa(n) + CRLF + elems && d[i + 1 + u..] == elems
  {
    Indicator(d, i, STAR, Itoa(n) + CRLF + elems);
    Skip(d, i + 1, Itoa(n) + CRLF, elems);
  }

  /** Read decodes a multi-bulk frame to the array of its byte strings and consumes it whole. */
  lemma ReadsMultiBulkFrame(d: seq<byte>, i: nat, args: seq<seq<byte>>, rest: seq<byte>)
    requires i <= |d| && d[i..] == MultiBulkFrame(args) + rest
    ensures ReadAt(d, i) == Decoded(Array(Strs(args)), None, |MultiBulkFrame(args)|)
  {
    var u := |Itoa(|args|)| + 2;
    var j := i + 1 + u;
    ArrayHeader(d, i, |args|, Bulks(args) + rest);
    NumberOfItoa(d, i + 1, |args|, Bulks(args) + rest);
    ElemsOfBulks(d, j, args, rest);
    ReadArrayOf(d, i, |args|, u, j, Many(Strs(args), None, |Bulks(args)|));
  }

  /** A two-element array whose first element fails: the failure is stored in its place and the
      second element, at position j, is still read. */
  lemma ArrayOfTwo(d: seq<byte>, i: nat, e: Error, u1: nat, v: Value, j: nat, u2: nat)
    requires j == i + 4 + u1 && j + u2 <= |d| && d[i] == STAR && NumberAt(d, i + 1) == Number(2, None, 3)
    requires !e.Panic? && ReadAt(d, i + 4) == Decoded(Nil, Some(e), u1)
    requires ReadAt(d, j) == Decoded(v, None, u2)
    ensures ReadAt(d, i) == Decoded(Array([Fail(e), v]), None, 4 + u1 + u2)
  {
    var none := ElemsAt(d, j + u2, 0);
    assert none == Many([], None, 0);
    ElemsCons(d, j, 1, v, None, u2, j + u2, none);
    assert [Element(v, None)] + [] == [v];
    var second := Many([v], None, u2);
    ElemsCons(d, i + 4, 2, Nil, Some(e), u1, j, second);
    assert [Element(Nil, Some(e))] + [v] == [Fail(e), v];
    ReadArrayOf(d, i, 2, 3, i + 4, Many([Fail(e), v], None, u1 + u2));
  }

  /** The positions of "*2\r\n", then an error reply, then the rest. */
  lemma FailedElementLayout(d: seq<byte>, i: nat, l: seq<byte>, more: seq<byte>)
    requires i <= |d| && d[i..] == [STAR, ZERO + 2] + CRLF + ([MINUS] + l + CRLF + more)
    ensures i + 4 + |l| + 3 <= |d|
    ensures d[i] == STAR && d[i + 1..] == Itoa(2) + CRLF + ([MINUS] + l + CRLF + more)
    ensures d[i + 4..] == [MINUS] + l + CRLF + more
    ensures d[i + 4 + |l| + 3..] == more
  {
    assert Itoa(2) == [ZERO + 2];
    ArrayHeader(d, i, 2, [MINUS] + l + CRLF + more);
    Skip(d, i + 4, [MINUS] + l + CRLF, more);
  }

  /** The count of "*2\r\n". */
  lemma CountOfTwo(d: seq<byte>, j: nat, rest: seq<byte>)
    requires j <= |d| && d[j..] == Itoa(2) + CRLF + rest
    ensures NumberAt(d, j) == Number(2, None, 3)
  {
    NumberOfItoa(d, j, 2, rest);
    assert Itoa(2) == [ZERO + 2];
  }

  /** An element that fails is stored in its place, and the elements after it are still read:
      "*2\r\n-<l>\r\n:<n>\r\n" is [error, n]. */
  lemma ArrayKeepsFailedElement(d: seq<byte>, i: nat, l: seq<byte>, n: int, rest: seq<byte>)
    requires Literal(l) && |l| <= LineBuffer
    requires i <= |d| && d[i..] == [STAR, ZERO + 2] + CRLF + ([MINUS] + l + CRLF + ([COLON] + Itoa(n) + CRLF + rest))
    ensures ReadAt(d, i) == Decoded(Array([Fail(CannotConvert(l)), Int(n)]), None, |l| + |Itoa(n)| + 10)
  {
    var more := [COLON] + Itoa(n) + CRLF + rest;
    FailedElementLayout(d, i, l, more);
    CountOfTwo(d, i + 1, [MINUS] + l + CRLF + more);
    ReadErrorReply(d, i + 4, l, more);
    var j := i + 4 + (|l| + 3);
    ReadInteger(d, j, n, rest);
    ArrayOfTwo(d, i, CannotConvert(l), |l| + 3, Int(n), j, |Itoa(n)| + 3);
  }
}
