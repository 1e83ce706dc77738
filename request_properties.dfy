/** What server/reader.go's request decoder does with well-formed and malformed requests, proved
    about the reference functions its methods are verified against. Each lemma describes the bytes
    from position i (or j) of a stream d on. Positions inside a frame are passed as parameters tied
    to i by a requires, so that one lemma's conclusion is literally the next one's premise. */
module RequestProperties {
  import opened Wire
  import opened Decimal
  import opened Stream
  import opened Frames
  import ReplyReader
  import ReplyProperties
  import opened RequestReader

  // ---------------------------------------------------------------------------------------------
  // readBulk

  /** A bulk read without an error started with '$' and ended with CR LF, and what it returns is
      exactly the bytes before that CR LF. */
  lemma ArgPayload(d: seq<byte>, i: nat)
    requires i <= |d|
    ensures var a := ArgAt(d, i);
            a.err.None? ==> i < |d| && d[i] == DOLLAR && |a.bs| + 2 <= a.used
                            && d[i + a.used - 2..i + a.used] == CRLF
                            && d[i + a.used - 2 - |a.bs|..i + a.used - 2] == a.bs
  {
    var a := ArgAt(d, i);
    if a.err.None? {
      var num := ReplyReader.NumberAt(d, i + 1);
      var j := i + 1 + num.used;
      assert a.bs == d[j..j + num.n] && a.used == j + num.n + 2 - i;
    }
  }

  /** The positions of '$', a length n taking u bytes with its CR LF, and what follows from j on. */
  lemma BulkHeaderAt(d: seq<byte>, i: nat, n: int, tail: seq<byte>, u: nat, j: nat)
    requires u == |Itoa(n)| + 2 && j == i + 1 + u
    requires i <= |d| && d[i..] == [DOLLAR] + Itoa(n) + CRLF + tail
    ensures i < |d| && j <= |d| && d[i] == DOLLAR && d[j..] == tail
    ensures ReplyReader.NumberAt(d, i + 1) == ReplyReader.Number(n, None, u)
  {
    ReplyProperties.Indicator(d, i, DOLLAR, Itoa(n) + CRLF + tail);
    ReplyProperties.NumberOfItoa(d, i + 1, n, tail);
    ReplyProperties.Skip(d, i + 1, Itoa(n) + CRLF, tail);
  }

  /** '$', a length n read without an error, n payload bytes b from j on, then two bytes x and y:
      b comes back, and the error is "Invalid EOL" unless x y is CR LF. */
  lemma ArgOfParts(d: seq<byte>, i: nat, n: nat, u: nat, j: nat, b: seq<byte>, x: byte, y: byte)
    requires i < |d| && d[i] == DOLLAR && ReplyReader.NumberAt(d, i + 1) == ReplyReader.Number(n, None, u)
    requires j == i + 1 + u && j + n + 2 <= |d| && d[j..j + n] == b && d[j + n] == x && d[j + n + 1] == y
    ensures ArgAt(d, i) == Arg(b, if [x, y] == CRLF then None else Some(ParseError(EndOfLine)), 1 + u + n + 2)
  {
  }

  /** The payload b and the two bytes after it, from j on. */
  lemma PayloadAt(d: seq<byte>, j: nat, b: seq<byte>, x: byte, y: byte, rest: seq<byte>)
    requires j <= |d| && d[j..] == b + [x, y] + rest
    ensures j + |b| + 2 <= |d| && d[j..j + |b|] == b && d[j + |b|] == x && d[j + |b| + 1] == y
  {
    ReplyProperties.Skip(d, j, b, [x, y] + rest);
    assert d[j + |b|..] == [x, y] + rest;
  }

  /** A bulk frame reads back as its payload, whatever bytes (CR and LF included) the payload holds,
      and exactly the frame is consumed. */
  lemma ArgOfFrame(d: seq<byte>, i: nat, b: seq<byte>, rest: seq<byte>)
    requires i <= |d| && d[i..] == BulkFrame(b) + rest
    ensures ArgAt(d, i) == Arg(b, None, |BulkFrame(b)|)
  {
    var u := |Itoa(|b|)| + 2;
    var j := i + 1 + u;
    BulkHeaderAt(d, i, |b|, b + CRLF + rest, u, j);
    PayloadAt(d, j, b, CR, LF, rest);
    ArgOfParts(d, i, |b|, u, j, b, CR, LF);
  }

  /** Two bytes after the payload that are not CR LF are the parse error "Invalid EOL"; the payload
      is still returned. */
  lemma ArgBadTerminator(d: seq<byte>, i: nat, b: seq<byte>, x: byte, y: byte, rest: seq<byte>)
    requires [x, y] != CRLF
    requires i <= |d| && d[i..] == [DOLLAR] + Itoa(|b|) + CRLF + (b + [x, y] + rest)
    ensures ArgAt(d, i) == Arg(b, Some(ParseError(EndOfLine)), 1 + |Itoa(|b|)| + 2 + |b| + 2)
  {
    var u := |Itoa(|b|)| + 2;
    var j := i + 1 + u;
    BulkHeaderAt(d, i, |b|, b + [x, y] + rest, u, j);
    PayloadAt(d, j, b, x, y, rest);
    ArgOfParts(d, i, |b|, u, j, b, x, y);
  }

  /** readNumber fails only with io.EOF or one of its own two errors. */
  lemma NumberFailures(d: seq<byte>, i: nat)
    requires i <= |d|
    ensures var e := ReplyReader.NumberAt(d, i).err;
            e.Some? ==> e.value.Eof? || e.value.InvalidCharacter? || e.value.InvalidAfterCr?
  {
    ReplyReader.NumberAtMeetsSpec(d, i);
  }

  /** Anything but '$' first is the parse error "Invalid first character", after one byte; no other
      failure of readBulk produces that error. */
  lemma ArgFirstCharacter(d: seq<byte>, i: nat)
    requires i <= |d|
    ensures ArgAt(d, i).err == Some(ParseError(FirstCharacter)) <==> i < |d| && d[i] != DOLLAR
    ensures i < |d| && d[i] != DOLLAR ==> ArgAt(d, i) == Arg([], Some(ParseError(FirstCharacter)), 1)
  {
    if i < |d| && d[i] == DOLLAR {
      NumberFailures(d, i + 1);
    }
  }

  /** A byte other than '$' where a bulk should start. */
  lemma ArgNotBulk(d: seq<byte>, f: nat, c: byte, tail: seq<byte>)
    requires c != DOLLAR && f <= |d| && d[f..] == [c] + tail
    ensures ArgAt(d, f) == Arg([], Some(ParseError(FirstCharacter)), 1)
  {
    assert d[f] == c;
  }

  /** '$' and a length n read without an error, with no more than n bytes after it: io.EOF, and the
      buffer holds what was left, padded with zeros. */
  lemma ArgShortParts(d: seq<byte>, i: nat, n: nat, u: nat, j: nat)
    requires i < |d| && d[i] == DOLLAR && ReplyReader.NumberAt(d, i + 1) == ReplyReader.Number(n, None, u)
    requires j == i + 1 + u && j <= |d| && |d| - j <= n
    ensures ArgAt(d, i) == Arg(Padded(d[j..], n), Some(Eof), |d| - i)
  {
  }

  /** A stream that ends within the payload or right after it ("$5\r\nlorem"): the buffer comes back
      holding what was left, padded with zeros, with io.EOF. */
  lemma ArgTruncated(d: seq<byte>, i: nat, n: nat, part: seq<byte>)
    requires |part| <= n
    requires i <= |d| && d[i..] == [DOLLAR] + Itoa(n) + CRLF + part
    ensures ArgAt(d, i) == Arg(Padded(part, n), Some(Eof), |d| - i)
  {
    var u := |Itoa(n)| + 2;
    var j := i + 1 + u;
    BulkHeaderAt(d, i, n, part, u, j);
    ArgShortParts(d, i, n, u, j);
  }

  /** A length that is not a number ("$5lorem", "$b\r\n"): readNumber's error for the first byte
      that is neither a digit nor CR LF. */
  lemma ArgBadLength(d: seq<byte>, i: nat, ds: seq<byte>, c: byte, rest: seq<byte>)
    requires AllDigits(ds) && !IsDigit(c) && c != CR && (ds == [] ==> c != MINUS)
    requires i <= |d| && d[i..] == [DOLLAR] + ds + [c] + rest
    ensures ArgAt(d, i) == Arg([], Some(InvalidCharacter(c)), 1 + |ds| + 1)
  {
    ReplyProperties.Indicator(d, i, DOLLAR, ds + [c] + rest);
    ReplyProperties.NumberBadByte(d, i + 1, ds, c, rest);
  }

  // ---------------------------------------------------------------------------------------------
  // Read's loop

  /** A first turn of the loop that succeeds, then the turns after it. */
  lemma ArgsCons(d: seq<byte>, j: nat, k: nat, a: Arg, m: Args)
    requires j <= |d| && k > 0 && ArgAt(d, j) == a && a.err.None? && j + a.used <= |d|
    requires ArgsFrom(d, j + a.used, k - 1) == m
    ensures ArgsFrom(d, j, k) == Args([a.bs] + m.values, m.err, a.used + m.used)
  {
    assert ArgsFrom(d, j, k) == ArgsTurn(d, j, k) == ArgsStep(d, j, k);
  }

  /** A first turn of the loop that fails without a panic ends the loop; its buffer is kept. */
  lemma ArgsFail(d: seq<byte>, j: nat, k: nat, a: Arg)
    requires j <= |d| && k > 0 && ArgAt(d, j) == a && a.err.Some? && !IsPanic(a.err)
    ensures ArgsFrom(d, j, k) == Args([a.bs], a.err, a.used)
  {
    assert ArgsFrom(d, j, k) == ArgsTurn(d, j, k) == ArgsStep(d, j, k);
  }

  /** A bulk frame first: the loop's first turn reads it, and the turns after it go on behind it. */
  lemma FirstFrame(d: seq<byte>, j: nat, b: seq<byte>, more: seq<byte>, k: nat, m: Args)
    requires j <= |d| && d[j..] == BulkFrame(b) + more && k > 0
    requires j + |BulkFrame(b)| <= |d| && m == ArgsFrom(d, j + |BulkFrame(b)|, k - 1)
    ensures ArgsFrom(d, j, k) == Args([b] + m.values, m.err, |BulkFrame(b)| + m.used)
  {
    ArgOfFrame(d, j, b, more);
    ArgsCons(d, j, k, Arg(b, None, |BulkFrame(b)|), m);
  }

  /** Two turns of the loop joined into one. */
  lemma Chain(whole: Args, good: seq<seq<byte>>, u: nat, m1: Args, v: nat, m: Args)
    requires good != []
    requires whole == Args([good[0]] + m1.values, m1.err, u + m1.used)
    requires m1 == Args(good[1..] + m.values, m.err, v + m.used)
    ensures whole == Args(good + m.values, m.err, u + v + m.used)
  {
    assert [good[0]] + (good[1..] + m.values) == good + m.values;
  }

  /** Bulk frames at the front of the loop's input are read back in order, and the loop goes on
      after them as it would from there. */
  lemma {:induction false} ArgsPrefix(d: seq<byte>, j: nat, good: seq<seq<byte>>, k: nat, rest: seq<byte>)
    requires j <= |d| && d[j..] == Bulks(good) + rest
    ensures j + |Bulks(good)| <= |d|
    ensures var m := ArgsFrom(d, j + |Bulks(good)|, k);
            ArgsFrom(d, j, |good| + k) == Args(good + m.values, m.err, |Bulks(good)| + m.used)
    decreases |good|
  {
    if good == [] {
      var m := ArgsFrom(d, j, k);
      assert [] + m.values == m.values;
    } else {
      var f := BulkFrame(good[0]);
      var tail := good[1..];
      var more := Bulks(tail) + rest;
      assert d[j..] == f + more && |Bulks(good)| == |f| + |Bulks(tail)|;
      ReplyProperties.Skip(d, j, f, more);
      var m := ArgsFrom(d, j + |Bulks(good)|, k);
      var m1 := ArgsFrom(d, j + |f|, |tail| + k);
      FirstFrame(d, j, good[0], more, |good| + k, m1);
      ArgsPrefix(d, j + |f|, tail, k, rest);
      Chain(ArgsFrom(d, j, |good| + k), good, |f|, m1, |Bulks(tail)|, m);
    }
  }

  /** Consecutive bulk frames are read back, in order, as their payloads. */
  lemma ArgsOfBulks(d: seq<byte>, j: nat, args: seq<seq<byte>>, rest: seq<byte>)
    requires j <= |d| && d[j..] == Bulks(args) + rest
    ensures ArgsFrom(d, j, |args|) == Args(args, None, |Bulks(args)|)
  {
    ArgsPrefix(d, j, args, 0, rest);
    assert args + [] == args;
  }

  /** The loop after bulk frames `good`, at a bulk that fails without a panic: the loop returns
      `good`, then that bulk's buffer, and its error. */
  lemma ArgsFailAfter(d: seq<byte>, j: nat, good: seq<seq<byte>>, n: nat, rest: seq<byte>, f: nat, a: Arg)
    requires |good| < n && a.err.Some? && !IsPanic(a.err)
    requires j <= |d| && d[j..] == Bulks(good) + rest
    requires f == j + |Bulks(good)| && f <= |d| && ArgAt(d, f) == a
    ensures ArgsFrom(d, j, n) == Args(good + [a.bs], a.err, |Bulks(good)| + a.used)
  {
    var k := n - |good|;
    ArgsPrefix(d, j, good, k, rest);
    ArgsFail(d, f, k, a);
  }

  // ---------------------------------------------------------------------------------------------
  // Read

  /** The positions of '*', a count n taking u bytes with its CR LF, and the elements from j on. */
  lemma RequestHeaderAt(d: seq<byte>, i: nat, n: int, elems: seq<byte>, u: nat, j: nat)
    requires u == |Itoa(n)| + 2 && j == i + 1 + u
    requires i <= |d| && d[i..] == [STAR] + Itoa(n) + CRLF + elems
    ensures i < |d| && j <= |d| && d[i] == STAR && d[j..] == elems
    ensures ReplyReader.NumberAt(d, i + 1) == ReplyReader.Number(n, None, u)
  {
    ReplyProperties.ArrayHeader(d, i, n, elems);
    ReplyProperties.NumberOfItoa(d, i + 1, n, elems);
  }

  /** The header, the bulk frames `good` from j on, then the rest from f on. */
  lemma RequestLayout(d: seq<byte>, i: nat, n: nat, good: seq<seq<byte>>, rest: seq<byte>, u: nat, j: nat, f: nat)
    requires u == |Itoa(n)| + 2 && j == i + 1 + u && f == j + |Bulks(good)|
    requires i <= |d| && d[i..] == [STAR] + Itoa(n) + CRLF + (Bulks(good) + rest)
    ensures i < |d| && f <= |d| && d[i] == STAR
    ensures ReplyReader.NumberAt(d, i + 1) == ReplyReader.Number(n, None, u)
    ensures d[j..] == Bulks(good) + rest && d[f..] == rest
  {
    RequestHeaderAt(d, i, n, Bulks(good) + rest, u, j);
    ReplyProperties.Skip(d, j, Bulks(good), rest);
  }

  /** A multi-bulk frame reads back as its byte strings, and nothing after the frame is consumed:
      Read inverts writer.go's writeMultiBulk. */
  lemma RequestOfFrame(d: seq<byte>, i: nat, args: seq<seq<byte>>, rest: seq<byte>)
    requires i <= |d| && d[i..] == MultiBulkFrame(args) + rest
    ensures RequestAt(d, i) == Request(args, None, |MultiBulkFrame(args)|)
  {
    var u := |Itoa(|args|)| + 2;
    var j := i + 1 + u;
    RequestHeaderAt(d, i, |args|, Bulks(args) + rest, u, j);
    ArgsOfBulks(d, j, args, rest);
    assert args + Blank(0) == args;
    RequestOfArgs(d, i, |args|, u, j, Args(args, None, |Bulks(args)|));
  }

  /** Anything but '*' first ("+OK", "-ERR", ":123", "lorem ipsum") is the parse error "Invalid
      first character", after one byte and with no byte strings; a bulk that fails the same way
      comes with its slot in the result, so the two cannot be confused. */
  lemma RequestFirstCharacter(d: seq<byte>, i: nat)
    requires i <= |d|
    ensures RequestAt(d, i) == Request([], Some(ParseError(FirstCharacter)), 1) <==> i < |d| && d[i] != STAR
  {
    if i < |d| && d[i] == STAR {
      NumberFailures(d, i + 1);
      var num := ReplyReader.NumberAt(d, i + 1);
      if num.err.None? && num.n >= 0 {
        var m := ArgsFrom(d, i + 1 + num.used, num.n);
        assert num.n == 0 ==> m.err.None?;
      }
    }
  }

  /** The slot of the failed bulk holds an empty buffer, like the nil slots after it. */
  lemma Settle(good: seq<seq<byte>>, n: nat)
    requires |good| < n
    ensures (good + [[]]) + Blank(n - (|good| + 1)) == good + Blank(n - |good|)
  {
  }

  /** A loop that fails without a panic after the bulks `good`: Read returns them in their slots,
      then the failed bulk's buffer, nil in the slots after it, and that error. */
  lemma RequestKeepsEarlierBulks(d: seq<byte>, i: nat, n: nat, u: nat, j: nat, good: seq<seq<byte>>, a: Arg, used: nat)
    requires |good| < n && a.err.Some? && !IsPanic(a.err)
    requires i < |d| && d[i] == STAR && j == i + 1 + u && j <= |d|
    requires ReplyReader.NumberAt(d, i + 1) == ReplyReader.Number(n, None, u)
    requires ArgsFrom(d, j, n) == Args(good + [a.bs], a.err, used)
    ensures RequestAt(d, i) == Request((good + [a.bs]) + Blank(n - (|good| + 1)), a.err, 1 + u + used)
  {
    RequestOfArgs(d, i, n, u, j, Args(good + [a.bs], a.err, used));
  }

  /** Read stops at the first element that is not a bulk ("*2\r\n$5\r\nlorem\r\n:1234\r\n"): the
      bulks before it are returned in their slots, its own slot and the ones after it are nil. */
  lemma RequestStopsAtNonBulk(d: seq<byte>, i: nat, n: nat, good: seq<seq<byte>>, c: byte, tail: seq<byte>)
    requires |good| < n && c != DOLLAR
    requires i <= |d| && d[i..] == [STAR] + Itoa(n) + CRLF + (Bulks(good) + ([c] + tail))
    ensures RequestAt(d, i) == Request(good + Blank(n - |good|), Some(ParseError(FirstCharacter)),
                                       |Itoa(n)| + 3 + |Bulks(good)| + 1)
  {
    var u := |Itoa(n)| + 2;
    var j := i + 1 + u;
    var f := j + |Bulks(good)|;
    var a := Arg([], Some(ParseError(FirstCharacter)), 1);
    RequestLayout(d, i, n, good, [c] + tail, u, j, f);
    ArgNotBulk(d, f, c, tail);
    ArgsFailAfter(d, j, good, n, [c] + tail, f, a);
    RequestKeepsEarlierBulks(d, i, n, u, j, good, a, |Bulks(good)| + 1);
    Settle(good, n);
  }

  /** A stream that ends where a bulk should start ("*1\r\n", "*2\r\n$5\r\nlorem\r\n"): io.EOF,
      the bulks before it in their slots, nil in the others. */
  lemma RequestEndsEarly(d: seq<byte>, i: nat, n: nat, good: seq<seq<byte>>)
    requires |good| < n
    requires i <= |d| && d[i..] == [STAR] + Itoa(n) + CRLF + (Bulks(good) + [])
    ensures RequestAt(d, i) == Request(good + Blank(n - |good|), Some(Eof), |d| - i)
  {
    var u := |Itoa(n)| + 2;
    var j := i + 1 + u;
    var f := j + |Bulks(good)|;
    var a := Arg([], Some(Eof), 0);
    RequestLayout(d, i, n, good, [], u, j, f);
    ArgsFailAfter(d, j, good, n, [], f, a);
    RequestKeepsEarlierBulks(d, i, n, u, j, good, a, |Bulks(good)|);
    Settle(good, n);
  }

  /** A stream that ends right after the count, before its CR LF ("*1"): readNumber accepts the
      digits, then the first bulk hits io.EOF; all slots are nil. */
  lemma RequestCountAtEnd(d: seq<byte>, i: nat, n: nat)
    requires n > 0 && i <= |d| && d[i..] == [STAR] + Itoa(n)
    ensures RequestAt(d, i) == Request(Blank(n), Some(Eof), |d| - i)
  {
    var u := |Itoa(n)|;
    var j := i + 1 + u;
    var a := Arg([], Some(Eof), 0);
    ReplyProperties.Indicator(d, i, STAR, Itoa(n));
    ReplyProperties.NumberAtEnd(d, i + 1, n);
    ArgsFail(d, j, n, a);
    RequestKeepsEarlierBulks(d, i, n, u, j, [], a, 0);
    Settle([], n);
  }

  /** A count that is not a number ("*a\r\n..."): readNumber's error, and no byte strings. */
  lemma RequestBadCount(d: seq<byte>, i: nat, ds: seq<byte>, c: byte, rest: seq<byte>)
    requires AllDigits(ds) && !IsDigit(c) && c != CR && (ds == [] ==> c != MINUS)
    requires i <= |d| && d[i..] == [STAR] + ds + [c] + rest
    ensures RequestAt(d, i) == Request([], Some(InvalidCharacter(c)), 1 + |ds| + 1)
  {
    ReplyProperties.Indicator(d, i, STAR, ds + [c] + rest);
    ReplyProperties.NumberBadByte(d, i + 1, ds, c, rest);
  }

  /** A first bulk whose length is not a number ("*1\r\n$5lorem", "*1\r\n$b\r\nlorem\r\n"):
      readNumber's error, all slots nil. */
  lemma RequestBadBulkLength(d: seq<byte>, i: nat, n: nat, ds: seq<byte>, c: byte, rest: seq<byte>)
    requires n > 0 && AllDigits(ds) && !IsDigit(c) && c != CR && (ds == [] ==> c != MINUS)
    requires i <= |d| && d[i..] == [STAR] + Itoa(n) + CRLF + ([DOLLAR] + ds + [c] + rest)
    ensures RequestAt(d, i) == Request(Blank(n), Some(InvalidCharacter(c)), |Itoa(n)| + 3 + |ds| + 2)
  {
    var u := |Itoa(n)| + 2;
    var j := i + 1 + u;
    var a := Arg([], Some(InvalidCharacter(c)), 1 + |ds| + 1);
    RequestHeaderAt(d, i, n, [DOLLAR] + ds + [c] + rest, u, j);
    ArgBadLength(d, j, ds, c, rest);
    ArgsFail(d, j, n, a);
    RequestKeepsEarlierBulks(d, i, n, u, j, [], a, 1 + |ds| + 1);
    Settle([], n);
  }

  /** A first bulk cut short ("*1\r\n$5\r\nlorem"): io.EOF, what arrived of the payload in the
      first slot, zero-padded to the announced length, nil in the others. */
  lemma RequestTruncatedBulk(d: seq<byte>, i: nat, n: nat, m: nat, part: seq<byte>)
    requires n > 0 && |part| <= m
    requires i <= |d| && d[i..] == [STAR] + Itoa(n) + CRLF + ([DOLLAR] + Itoa(m) + CRLF + part)
    ensures RequestAt(d, i) == Request([Padded(part, m)] + Blank(n - 1), Some(Eof), |d| - i)
  {
    var u := |Itoa(n)| + 2;
    var j := i + 1 + u;
    var a := Arg(Padded(part, m), Some(Eof), |d| - j);
    RequestHeaderAt(d, i, n, [DOLLAR] + Itoa(m) + CRLF + part, u, j);
    ArgTruncated(d, j, m, part);
    ArgsFail(d, j, n, a);
    RequestKeepsEarlierBulks(d, i, n, u, j, [], a, |d| - j);
    assert [] + [a.bs] == [a.bs];
  }

  /** Read consumes exactly one multi-bulk frame: a second Read on what follows it, here a stray
      bulk ("*1\r\n$5\r\nlorem\r\n$5\r\nipsum\r\n"), fails at its '$'. */
  lemma NextRequestAfterFrame(d: seq<byte>, i: nat, args: seq<seq<byte>>, b: seq<byte>, rest: seq<byte>)
    requires i <= |d| && d[i..] == MultiBulkFrame(args) + (BulkFrame(b) + rest)
    ensures RequestAt(d, i) == Request(args, None, |MultiBulkFrame(args)|)
    ensures RequestAt(d, i + |MultiBulkFrame(args)|) == Request([], Some(ParseError(FirstCharacter)), 1)
  {
    RequestOfFrame(d, i, args, BulkFrame(b) + rest);
    ReplyProperties.Skip(d, i, MultiBulkFrame(args), BulkFrame(b) + rest);
    assert d[i + |MultiBulkFrame(args)|] == DOLLAR;
    RequestFirstCharacter(d, i + |MultiBulkFrame(args)|);
  }
}
