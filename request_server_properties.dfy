/** What server/server.go's request decoder does with well-formed and malformed input, proved about
    the reference functions its methods are verified against. readLength and readBulk are described
    from position i of the buffer's bytes d; Read is described on the whole input d. Positions inside
    a frame are passed as parameters tied to i by a requires. */
module RequestServerProperties {
  import opened Wire
  import opened Decimal
  import opened Stream
  import opened Frames
  import ReplyProperties
  import RequestProperties
  import opened RequestReader
  import opened RequestServer

  // ---------------------------------------------------------------------------------------------
  // readLength

  /** Where ReadString('\r') stops: no CR before it, and a CR at it unless the data ran out. */
  lemma {:induction false} CrFromScan(d: seq<byte>, i: nat)
    requires i <= |d|
    ensures var c := CrFrom(d, i); NoCr(d[i..c]) && (c < |d| ==> d[c] == CR)
    decreases |d| - i
  {
    var c := CrFrom(d, i);
    if i < |d| && d[i] != CR {
      CrFromScan(d, i + 1);
      assert d[i..c] == [d[i]] + d[i + 1..c];
    }
  }

  /** The first CR after a text without one is the one right after it. */
  lemma {:induction false} CrFromOf(d: seq<byte>, i: nat, ds: seq<byte>, rest: seq<byte>)
    requires NoCr(ds) && i <= |d| && d[i..] == ds + ([CR] + rest)
    ensures CrFrom(d, i) == i + |ds|
    decreases |ds|
  {
    if ds == [] {
      assert d[i] == CR;
    } else {
      assert d[i] == ds[0];
      ReplyProperties.Skip(d, i, [ds[0]], ds[1..] + ([CR] + rest));
      CrFromOf(d, i + 1, ds[1..], rest);
    }
  }

  /** Without a CR the scan runs to the end. */
  lemma {:induction false} CrFromNone(d: seq<byte>, i: nat)
    requires i <= |d| && NoCr(d[i..])
    ensures CrFrom(d, i) == |d|
    decreases |d| - i
  {
    if i < |d| {
      assert d[i] == d[i..][0];
      assert d[i + 1..] == d[i..][1..];
      CrFromNone(d, i + 1);
    }
  }

  /** A length read without an error is the strconv.ParseInt value of a text without CR that is
      followed by CR LF, and is consumed with that CR LF. */
  lemma LengthSound(d: seq<byte>, i: nat)
    requires i <= |d|
    ensures var r := LengthAt(d, i);
            r.err.None? ==> var c := i + r.used - 2;
                            i <= c && c + 2 <= |d| && NoCr(d[i..c]) && d[c] == CR && d[c + 1] == LF
                            && ParseInt(d[i..c]) == Parsed(r.n)
  {
    CrFromScan(d, i);
    LengthAtCr(d, i, i);
  }

  /** A text without CR followed by CR LF is read whole and handed to strconv.ParseInt. */
  lemma LengthOfText(d: seq<byte>, i: nat, ds: seq<byte>, rest: seq<byte>)
    requires NoCr(ds) && i <= |d| && d[i..] == ds + CRLF + rest
    ensures var p := ParseInt(ds);
            LengthAt(d, i) == if p.Parsed? then Length(p.value, None, |ds| + 2) else Length(0, p.Err(), |ds| + 2)
  {
    assert d[i..] == ds + ([CR] + ([LF] + rest));
    CrFromOf(d, i, ds, [LF] + rest);
    LengthAtCr(d, i, i);
    ReplyProperties.Skip(d, i, ds, CRLF + rest);
  }

  lemma ItoaNoCr(n: int)
    ensures NoCr(Itoa(n))
  {
  }

  /** readLength reads back the decimal text strconv.Itoa writes, negative numbers included: its
      `n < 0` guard never fires. */
  lemma LengthOfDecimal(d: seq<byte>, i: nat, n: int, rest: seq<byte>)
    requires Int64(n) && i <= |d| && d[i..] == Itoa(n) + CRLF + rest
    ensures LengthAt(d, i) == Length(n, None, |Itoa(n)| + 2)
  {
    ItoaNoCr(n);
    LengthOfText(d, i, Itoa(n), rest);
    ParseIntItoa(n);
  }

  /** A text that strconv.ParseInt rejects ("a", "b", "") is its error. */
  lemma LengthNotNumber(d: seq<byte>, i: nat, ds: seq<byte>, rest: seq<byte>)
    requires NoCr(ds) && !ParseInt(ds).Parsed? && i <= |d| && d[i..] == ds + CRLF + rest
    ensures LengthAt(d, i) == Length(0, ParseInt(ds).Err(), |ds| + 2) && ParseInt(ds).Err().Some?
  {
    LengthOfText(d, i, ds, rest);
  }

  /** A CR followed by anything but LF is "Invalid EOL" with those two bytes. */
  lemma LengthBadEol(d: seq<byte>, i: nat, ds: seq<byte>, c: byte, rest: seq<byte>)
    requires NoCr(ds) && c != LF && i <= |d| && d[i..] == ds + [CR, c] + rest
    ensures LengthAt(d, i) == Length(-1, Some(InvalidEol([CR, c])), |ds| + 2)
  {
    assert d[i..] == ds + ([CR] + ([c] + rest));
    CrFromOf(d, i, ds, [c] + rest);
    LengthAtCr(d, i, i);
    ReplyProperties.Skip(d, i, ds + [CR], [c] + rest);
  }

  /** No CR before the end ("1", "5lorem"), or a CR as the last byte: io.EOF. */
  lemma LengthUnterminated(d: seq<byte>, i: nat)
    requires i <= |d| && (NoCr(d[i..]) || (i < |d| && NoCr(d[i..|d| - 1]) && d[|d| - 1] == CR))
    ensures LengthAt(d, i).err == Some(Eof) && LengthAt(d, i).used == |d| - i
  {
    LengthAtCr(d, i, i);
    if NoCr(d[i..]) {
      CrFromNone(d, i);
    } else {
      assert d[i..] == d[i..|d| - 1] + ([CR] + []);
      CrFromOf(d, i, d[i..|d| - 1], []);
    }
  }

  // ---------------------------------------------------------------------------------------------
  // readBulk

  /** The positions of '$', a length n taking u bytes with its CR LF, and what follows from j on. */
  lemma BulkHeaderAt(d: seq<byte>, i: nat, n: int, tail: seq<byte>, u: nat, j: nat)
    requires Int64(n) && u == |Itoa(n)| + 2 && j == i + 1 + u
    requires i <= |d| && d[i..] == [DOLLAR] + Itoa(n) + CRLF + tail
    ensures i < |d| && j <= |d| && d[i] == DOLLAR && d[j..] == tail
    ensures LengthAt(d, i + 1) == Length(n, None, u)
  {
    ReplyProperties.Indicator(d, i, DOLLAR, Itoa(n) + CRLF + tail);
    LengthOfDecimal(d, i + 1, n, tail);
    ReplyProperties.Skip(d, i + 1, Itoa(n) + CRLF, tail);
  }

  /** '$' and a length n read without an error: what the payload and its terminator make of it. */
  lemma BulkOfLength(d: seq<byte>, i: nat, n: nat, u: nat, j: nat)
    requires i < |d| && d[i] == DOLLAR && LengthAt(d, i + 1) == Length(n, None, u)
    requires j == i + 1 + u && j <= |d|
    ensures var p := PayloadAt(d, j, n); BulkAt(d, i) == Arg(p.bs, p.err, 1 + u + p.used)
  {
  }

  /** n payload bytes b, then two bytes x and y: b comes back, with "Invalid EOL" and the two bytes
      unless they are CR LF. */
  lemma PayloadOfParts(d: seq<byte>, j: nat, b: seq<byte>, x: byte, y: byte, rest: seq<byte>)
    requires j <= |d| && d[j..] == b + [x, y] + rest
    ensures PayloadAt(d, j, |b|) == Arg(b, if [x, y] == CRLF then None else Some(InvalidEol([x, y])), |b| + 2)
  {
    ReplyProperties.Skip(d, j, b, [x, y] + rest);
    ReplyProperties.Skip(d, j + |b|, [x, y], rest);
    assert Padded(d[j + |b|..j + |b| + 2], 2) == [x, y];
  }

  /** A bulk frame reads back as its payload, CR and LF included, and exactly the frame is consumed. */
  lemma BulkOfFrame(d: seq<byte>, i: nat, b: seq<byte>, rest: seq<byte>)
    requires Int64(|b|) && i <= |d| && d[i..] == BulkFrame(b) + rest
    ensures BulkAt(d, i) == Arg(b, None, |BulkFrame(b)|)
  {
    var u := |Itoa(|b|)| + 2;
    var j := i + 1 + u;
    BulkHeaderAt(d, i, |b|, b + CRLF + rest, u, j);
    PayloadOfParts(d, j, b, CR, LF, rest);
    BulkOfLength(d, i, |b|, u, j);
  }

  /** Two bytes after the payload that are not CR LF are "Invalid EOL" with those bytes; the payload
      is still returned. */
  lemma BulkBadTerminator(d: seq<byte>, i: nat, b: seq<byte>, x: byte, y: byte, rest: seq<byte>)
    requires [x, y] != CRLF && Int64(|b|)
    requires i <= |d| && d[i..] == [DOLLAR] + Itoa(|b|) + CRLF + (b + [x, y] + rest)
    ensures BulkAt(d, i) == Arg(b, Some(InvalidEol([x, y])), 1 + |Itoa(|b|)| + 2 + |b| + 2)
  {
    var u := |Itoa(|b|)| + 2;
    var j := i + 1 + u;
    BulkHeaderAt(d, i, |b|, b + [x, y] + rest, u, j);
    PayloadOfParts(d, j, b, x, y, rest);
    BulkOfLength(d, i, |b|, u, j);
  }

  /** readLength fails only with io.EOF, "Invalid EOL" or a strconv error. */
  lemma LengthFailures(d: seq<byte>, i: nat)
    requires i <= |d|
    ensures var e := LengthAt(d, i).err;
            e.Some? ==> e.value.Eof? || e.value.InvalidEol? || e.value.NumSyntax? || e.value.NumRange?
  {
    LengthAtCr(d, i, i);
  }

  /** readBulk fails with "Invalid first character" exactly when the byte at i is not '$', and then
      the error carries that byte and one byte is consumed. */
  lemma BulkFirstCharacter(d: seq<byte>, i: nat)
    requires i <= |d|
    ensures (BulkAt(d, i).err.Some? && BulkAt(d, i).err.value.InvalidFirstCharacter?) <==> i < |d| && d[i] != DOLLAR
    ensures i < |d| && d[i] != DOLLAR ==> BulkAt(d, i) == Arg([], Some(InvalidFirstCharacter(d[i])), 1)
  {
    if i < |d| && d[i] == DOLLAR {
      LengthFailures(d, i + 1);
    }
  }

  /** A byte other than '$' where a bulk should start. */
  lemma BulkNotBulk(d: seq<byte>, f: nat, c: byte, tail: seq<byte>)
    requires c != DOLLAR && f <= |d| && d[f..] == [c] + tail
    ensures BulkAt(d, f) == Arg([], Some(InvalidFirstCharacter(c)), 1)
  {
    assert d[f] == c;
  }

  /** A negative length ("$-1\r\n") gets past readLength's guard and makes `make` panic. */
  lemma BulkNegativeLength(d: seq<byte>, i: nat, n: int, rest: seq<byte>)
    requires n < 0 && Int64(n) && i <= |d| && d[i..] == [DOLLAR] + Itoa(n) + CRLF + rest
    ensures BulkAt(d, i) == Arg([], Some(Panic(NegativeMakeLength)), 1 + |Itoa(n)| + 2)
  {
    BulkHeaderAt(d, i, n, rest, |Itoa(n)| + 2, i + 1 + |Itoa(n)| + 2);
  }

  /** A stream that ends within the payload or right after it ("$5\r\nlorem"): io.EOF, and the buffer
      holds what was left, padded with zeros. */
  lemma BulkTruncated(d: seq<byte>, i: nat, n: nat, part: seq<byte>)
    requires |part| <= n && Int64(n)
    requires i <= |d| && d[i..] == [DOLLAR] + Itoa(n) + CRLF + part
    ensures BulkAt(d, i) == Arg(Padded(part, n), Some(Eof), |d| - i)
  {
    var u := |Itoa(n)| + 2;
    var j := i + 1 + u;
    BulkHeaderAt(d, i, n, part, u, j);
    BulkOfLength(d, i, n, u, j);
  }

  /** A length that is not a number ("$b\r\n"): strconv's error. */
  lemma BulkBadLength(d: seq<byte>, i: nat, ds: seq<byte>, rest: seq<byte>)
    requires NoCr(ds) && !ParseInt(ds).Parsed?
    requires i <= |d| && d[i..] == [DOLLAR] + ds + CRLF + rest
    ensures BulkAt(d, i) == Arg([], ParseInt(ds).Err(), 1 + |ds| + 2) && ParseInt(ds).Err().Some?
  {
    ReplyProperties.Indicator(d, i, DOLLAR, ds + CRLF + rest);
    LengthNotNumber(d, i + 1, ds, rest);
  }

  /** A length with no CR after it ("$5lorem"): io.EOF, everything consumed. */
  lemma BulkLengthUnterminated(d: seq<byte>, i: nat, ds: seq<byte>)
    requires NoCr(ds) && i <= |d| && d[i..] == [DOLLAR] + ds
    ensures BulkAt(d, i) == Arg([], Some(Eof), |d| - i)
  {
    ReplyProperties.Indicator(d, i, DOLLAR, ds);
    LengthUnterminated(d, i + 1);
  }

  // ---------------------------------------------------------------------------------------------
  // Read's loop

  /** Every length and the count of `args` fit in an int64, as the lengths of Go slices do. */
  predicate Sized(args: seq<seq<byte>>)
  {
    Int64(|args|) && forall k :: 0 <= k < |args| ==> Int64(|args[k]|)
  }

  lemma BulksCons(d: seq<byte>, j: nat, k: nat, a: Arg, m: Args)
    requires j <= |d| && k > 0 && BulkAt(d, j) == a && a.err.None? && j + a.used <= |d|
    requires BulksFrom(d, j + a.used, k - 1) == m
    ensures BulksFrom(d, j, k) == Args([a.bs] + m.values, m.err, a.used + m.used)
  {
    assert BulksFrom(d, j, k) == BulksTurn(d, j, k) == BulksStep(d, j, k);
  }

  lemma BulksFail(d: seq<byte>, j: nat, k: nat, a: Arg)
    requires j <= |d| && k > 0 && BulkAt(d, j) == a && a.err.Some? && !IsPanic(a.err)
    ensures BulksFrom(d, j, k) == Args([a.bs], a.err, a.used)
  {
    assert BulksFrom(d, j, k) == BulksTurn(d, j, k) == BulksStep(d, j, k);
  }

  lemma FirstBulk(d: seq<byte>, j: nat, b: seq<byte>, more: seq<byte>, k: nat, m: Args)
    requires Int64(|b|) && j <= |d| && d[j..] == BulkFrame(b) + more && k > 0
    requires j + |BulkFrame(b)| <= |d| && m == BulksFrom(d, j + |BulkFrame(b)|, k - 1)
    ensures BulksFrom(d, j, k) == Args([b] + m.values, m.err, |BulkFrame(b)| + m.used)
  {
    BulkOfFrame(d, j, b, more);
    BulksCons(d, j, k, Arg(b, None, |BulkFrame(b)|), m);
  }

  /** The first frame of `good` and the frames after it. */
  lemma Unroll(d: seq<byte>, j: nat, good: seq<seq<byte>>, rest: seq<byte>)
    requires good != [] && j <= |d| && d[j..] == Bulks(good) + rest
    ensures var f := BulkFrame(good[0]);
            j + |f| <= |d| && d[j..] == f + (Bulks(good[1..]) + rest) && d[j + |f|..] == Bulks(good[1..]) + rest
            && |Bulks(good)| == |f| + |Bulks(good[1..])|
  {
    var f := BulkFrame(good[0]);
    var more := Bulks(good[1..]) + rest;
    assert Bulks(good) + rest == f + more;
    ReplyProperties.Skip(d, j, f, more);
  }

  lemma SizedTail(good: seq<seq<byte>>)
    requires good != [] && Sized(good)
    ensures Int64(|good[0]|) && Sized(good[1..])
  {
    assert forall k :: 0 <= k < |good| - 1 ==> good[1..][k] == good[k + 1];
  }

  /** Bulk frames at the front of the loop's input are read back in order, and the loop goes on
      after them as it would from there. */
  lemma {:induction false} BulksPrefix(d: seq<byte>, j: nat, good: seq<seq<byte>>, k: nat, rest: seq<byte>)
    requires Sized(good) && j <= |d| && d[j..] == Bulks(good) + rest
    ensures j + |Bulks(good)| <= |d|
    ensures var m := BulksFrom(d, j + |Bulks(good)|, k);
            BulksFrom(d, j, |good| + k) == Args(good + m.values, m.err, |Bulks(good)| + m.used)
    decreases |good|
  {
    if good == [] {
      var m := BulksFrom(d, j, k);
      assert [] + m.values == m.values;
    } else {
      var f := BulkFrame(good[0]);
      var tail := good[1..];
      Unroll(d, j, good, rest);
      SizedTail(good);
      var m := BulksFrom(d, j + |Bulks(good)|, k);
      var m1 := BulksFrom(d, j + |f|, |tail| + k);
      FirstBulk(d, j, good[0], Bulks(tail) + rest, |good| + k, m1);
      BulksPrefix(d, j + |f|, tail, k, rest);
      RequestProperties.Chain(BulksFrom(d, j, |good| + k), good, |f|, m1, |Bulks(tail)|, m);
    }
  }

  lemma BulksOfFrames(d: seq<byte>, j: nat, args: seq<seq<byte>>, rest: seq<byte>)
    requires Sized(args) && j <= |d| && d[j..] == Bulks(args) + rest
    ensures BulksFrom(d, j, |args|) == Args(args, None, |Bulks(args)|)
  {
    BulksPrefix(d, j, args, 0, rest);
    assert args + [] == args;
  }

  lemma BulksFailAfter(d: seq<byte>, j: nat, good: seq<seq<byte>>, n: nat, rest: seq<byte>, f: nat, a: Arg)
    requires Sized(good) && |good| < n && a.err.Some? && !IsPanic(a.err)
    requires j <= |d| && d[j..] == Bulks(good) + rest
    requires f == j + |Bulks(good)| && f <= |d| && BulkAt(d, f) == a
    ensures BulksFrom(d, j, n) == Args(good + [a.bs], a.err, |Bulks(good)| + a.used)
  {
    var k := n - |good|;
    BulksPrefix(d, j, good, k, rest);
    BulksFail(d, f, k, a);
  }

  // ---------------------------------------------------------------------------------------------
  // Read

  /** The positions of '*', a count n taking u bytes with its CR LF, and the elements from j on. */
  lemma HeaderAt(d: seq<byte>, n: int, elems: seq<byte>, u: nat, j: nat)
    requires Int64(n) && u == |Itoa(n)| + 2 && j == 1 + u
    requires d == [STAR] + Itoa(n) + CRLF + elems
    ensures 0 < |d| && j <= |d| && d[0] == STAR && d[j..] == elems
    ensures LengthAt(d, 1) == Length(n, None, u)
  {
    assert d[0..] == d;
    ReplyProperties.Indicator(d, 0, STAR, Itoa(n) + CRLF + elems);
    LengthOfDecimal(d, 1, n, elems);
    ReplyProperties.Skip(d, 1, Itoa(n) + CRLF, elems);
  }

  /** Read decodes a multi-bulk frame followed by `rest`: its byte strings, with no error when the
      input ends with the frame and "Trailing garbage" when it does not. */
  lemma ReceivedOfFrame(d: seq<byte>, args: seq<seq<byte>>, rest: seq<byte>)
    requires Sized(args) && d == MultiBulkFrame(args) + rest
    ensures ReceivedOf(d) == Received(args, if rest == [] then None else Some(TrailingGarbage))
  {
    var u := |Itoa(|args|)| + 2;
    var j := 1 + u;
    HeaderAt(d, |args|, Bulks(args) + rest, u, j);
    BulksOfFrames(d, j, args, rest);
    ReceivedOfBulks(d, |args|, u, j, Args(args, None, |Bulks(args)|));
  }

  /** Read inverts writer.go's writeMultiBulk: what a client writes is what the server reads. */
  lemma ReceivedOfWritten(args: seq<seq<byte>>)
    requires Sized(args)
    ensures ReceivedOf(MultiBulkFrame(args)) == Received(args, None)
  {
    ReceivedOfFrame(MultiBulkFrame(args) + [], args, []);
    assert MultiBulkFrame(args) + [] == MultiBulkFrame(args);
  }

  /** Anything but '*' first ("lorem ipsum", "+OK", "-ERR lorem ipsum", ":123") is "Invalid first
      character" with that byte and no byte strings; no other input gives that result. */
  lemma ReceivedFirstCharacter(d: seq<byte>, c: byte)
    ensures ReceivedOf(d) == Received([], Some(InvalidFirstCharacter(c))) <==> d != [] && d[0] != STAR && d[0] == c
  {
    if d != [] && d[0] == STAR {
      LengthFailures(d, 1);
      var len := LengthAt(d, 1);
      if len.err.None? && len.n >= 0 {
        var m := BulksFrom(d, 1 + len.used, len.n);
        assert m.err.Some? ==> len.n > 0;
      }
    }
  }

  /** When a bulk fails without a panic after the bulks `good`, Read returns them in their slots,
      then the failed bulk's buffer, nil after it, and that error. */
  lemma ReceivedKeepsEarlierBulks(d: seq<byte>, n: nat, u: nat, j: nat, good: seq<seq<byte>>, a: Arg, used: nat)
    requires |good| < n && a.err.Some? && !IsPanic(a.err)
    requires 0 < |d| && d[0] == STAR && j == 1 + u && j <= |d|
    requires LengthAt(d, 1) == Length(n, None, u)
    requires BulksFrom(d, j, n) == Args(good + [a.bs], a.err, used)
    ensures ReceivedOf(d) == Received((good + [a.bs]) + Blank(n - (|good| + 1)), a.err)
  {
    ReceivedOfBulks(d, n, u, j, Args(good + [a.bs], a.err, used));
  }

  /** Read stops at the first element that is not a bulk ("*2\r\n$5\r\nlorem\r\n:1234\r\n"): the
      bulks before it in their slots, nil in the others, and "Invalid first character". */
  lemma ReceivedStopsAtNonBulk(d: seq<byte>, n: nat, good: seq<seq<byte>>, c: byte, tail: seq<byte>)
    requires Int64(n) && Sized(good) && |good| < n && c != DOLLAR
    requires d == [STAR] + Itoa(n) + CRLF + (Bulks(good) + ([c] + tail))
    ensures ReceivedOf(d) == Received(good + Blank(n - |good|), Some(InvalidFirstCharacter(c)))
  {
    var u := |Itoa(n)| + 2;
    var j := 1 + u;
    var f := j + |Bulks(good)|;
    var a := Arg([], Some(InvalidFirstCharacter(c)), 1);
    HeaderAt(d, n, Bulks(good) + ([c] + tail), u, j);
    ReplyProperties.Skip(d, j, Bulks(good), [c] + tail);
    BulkNotBulk(d, f, c, tail);
    BulksFailAfter(d, j, good, n, [c] + tail, f, a);
    ReceivedKeepsEarlierBulks(d, n, u, j, good, a, |Bulks(good)| + 1);
    RequestProperties.Settle(good, n);
  }

  /** An input that ends where a bulk should start ("*1\r\n"): io.EOF, the bulks before it in their
      slots, nil in the others. */
  lemma ReceivedEndsEarly(d: seq<byte>, n: nat, good: seq<seq<byte>>)
    requires Int64(n) && Sized(good) && |good| < n
    requires d == [STAR] + Itoa(n) + CRLF + (Bulks(good) + [])
    ensures ReceivedOf(d) == Received(good + Blank(n - |good|), Some(Eof))
  {
    var u := |Itoa(n)| + 2;
    var j := 1 + u;
    var f := j + |Bulks(good)|;
    var a := Arg([], Some(Eof), 0);
    HeaderAt(d, n, Bulks(good) + [], u, j);
    ReplyProperties.Skip(d, j, Bulks(good), []);
    BulksFailAfter(d, j, good, n, [], f, a);
    ReceivedKeepsEarlierBulks(d, n, u, j, good, a, |Bulks(good)|);
    RequestProperties.Settle(good, n);
  }

  /** A count with no CR after it ("*1"): io.EOF and no byte strings. */
  lemma ReceivedCountUnterminated(d: seq<byte>, ds: seq<byte>)
    requires NoCr(ds) && d == [STAR] + ds
    ensures ReceivedOf(d) == Received([], Some(Eof))
  {
    assert d[0..] == d;
    ReplyProperties.Indicator(d, 0, STAR, ds);
    LengthUnterminated(d, 1);
  }

  /** A count that is not a number ("*a\r\n$5\r\nlorem\r\n"): strconv's error and no byte strings. */
  lemma ReceivedBadCount(d: seq<byte>, ds: seq<byte>, rest: seq<byte>)
    requires NoCr(ds) && !ParseInt(ds).Parsed? && d == [STAR] + ds + CRLF + rest
    ensures ReceivedOf(d) == Received([], ParseInt(ds).Err()) && ParseInt(ds).Err().Some?
  {
    assert d[0..] == d;
    ReplyProperties.Indicator(d, 0, STAR, ds + CRLF + rest);
    LengthNotNumber(d, 1, ds, rest);
  }

  /** A negative count ("*-1\r\n") gets past readLength's guard and makes `make` panic. */
  lemma ReceivedNegativeCount(d: seq<byte>, n: int, rest: seq<byte>)
    requires n < 0 && Int64(n) && d == [STAR] + Itoa(n) + CRLF + rest
    ensures ReceivedOf(d) == Received([], Some(Panic(NegativeMakeLength)))
  {
    HeaderAt(d, n, rest, |Itoa(n)| + 2, 1 + |Itoa(n)| + 2);
  }

  /** A first bulk cut short ("*1\r\n$5\r\nlorem"): io.EOF, what arrived of its payload in the first
      slot, zero-padded to the announced length, nil in the others. */
  lemma ReceivedTruncatedBulk(d: seq<byte>, n: nat, m: nat, part: seq<byte>)
    requires Int64(n) && Int64(m) && n > 0 && |part| <= m
    requires d == [STAR] + Itoa(n) + CRLF + ([DOLLAR] + Itoa(m) + CRLF + part)
    ensures ReceivedOf(d) == Received([Padded(part, m)] + Blank(n - 1), Some(Eof))
  {
    var u := |Itoa(n)| + 2;
    var j := 1 + u;
    var a := Arg(Padded(part, m), Some(Eof), |d| - j);
    HeaderAt(d, n, [DOLLAR] + Itoa(m) + CRLF + part, u, j);
    BulkTruncated(d, j, m, part);
    BulksFail(d, j, n, a);
    ReceivedKeepsEarlierBulks(d, n, u, j, [], a, |d| - j);
    assert [] + [a.bs] == [a.bs];
  }

  /** A first bulk whose length has no CR after it ("*1\r\n$5lorem"): io.EOF, all slots nil. */
  lemma ReceivedBulkLengthUnterminated(d: seq<byte>, n: nat, ds: seq<byte>)
    requires Int64(n) && n > 0 && NoCr(ds)
    requires d == [STAR] + Itoa(n) + CRLF + ([DOLLAR] + ds)
    ensures ReceivedOf(d) == Received(Blank(n), Some(Eof))
  {
    var u := |Itoa(n)| + 2;
    var j := 1 + u;
    var a := Arg([], Some(Eof), |d| - j);
    HeaderAt(d, n, [DOLLAR] + ds, u, j);
    BulkLengthUnterminated(d, j, ds);
    BulksFail(d, j, n, a);
    ReceivedKeepsEarlierBulks(d, n, u, j, [], a, |d| - j);
    RequestProperties.Settle([], n);
  }

  /** A first bulk whose length is not a number ("*1\r\n$b\r\nlorem\r\n"): strconv's error, all
      slots nil. */
  lemma ReceivedBadBulkLength(d: seq<byte>, n: nat, ds: seq<byte>, rest: seq<byte>)
    requires Int64(n) && n > 0 && NoCr(ds) && !ParseInt(ds).Parsed?
    requires d == [STAR] + Itoa(n) + CRLF + ([DOLLAR] + ds + CRLF + rest)
    ensures ReceivedOf(d) == Received(Blank(n), ParseInt(ds).Err())
  {
    var u := |Itoa(n)| + 2;
    var j := 1 + u;
    var a := Arg([], ParseInt(ds).Err(), 1 + |ds| + 2);
    HeaderAt(d, n, [DOLLAR] + ds + CRLF + rest, u, j);
    BulkBadLength(d, j, ds, rest);
    BulksFail(d, j, n, a);
    ReceivedKeepsEarlierBulks(d, n, u, j, [], a, 1 + |ds| + 2);
    RequestProperties.Settle([], n);
  }
}
