/** What protocol.go's slice-based codec does with well-formed and malformed data, proved about the
    functions its methods are verified against. Offsets index the whole byte slice. */
module ProtocolProperties {
  import opened Wire
  import opened Decimal
  import opened Frames
  import opened Writer
  import opened Protocol

  /** data[i..] starts with a: the bytes after a start at i + |a|. */
  lemma Skip(data: seq<byte>, i: nat, a: seq<byte>, b: seq<byte>)
    requires i <= |data| && data[i..] == a + b
    ensures i + |a| <= |data| && data[i + |a|..] == b && data[i..i + |a|] == a
  {
    assert data[i + |a|..] == data[i..][|a|..];
    assert data[i..i + |a|] == data[i..][..|a|];
  }

  // ---------------------------------------------------------------------------------------------
  // readLine

  /** readLine's loop stops at p when no offset before it stops it and p does (or p is the end). */
  lemma {:induction false} LineEndIs(data: seq<byte>, o: nat, p: nat)
    requires o <= p <= |data|
    requires forall q :: o <= q < p ==> !Stop(data, q)
    requires p == |data| || Stop(data, p)
    ensures LineEnd(data, o) == p
    decreases p - o
  {
    if o < p {
      assert !Stop(data, o);
      LineEndIs(data, o + 1, p);
    }
  }

  /** A line without CR LF inside it, followed by CR LF: readLine returns the line and the offset
      just past the LF. */
  lemma LineOfCrLf(data: seq<byte>, offset: nat, l: seq<byte>, rest: seq<byte>)
    requires offset <= |data| && data[offset..] == l + CRLF + rest && NoCrLf(l)
    ensures LineFrom(data, offset) == Scan(l, offset + |l| + 2)
  {
    var p := offset + |l|;
    assert data[offset..] == l + (CRLF + rest);
    Skip(data, offset, l, CRLF + rest);
    assert data[p] == CR && data[p + 1] == LF;
    forall q | offset <= q < p
      ensures !Stop(data, q)
    {
      assert data[q] == l[q - offset];
      if q + 1 < p {
        assert data[q + 1] == l[q - offset + 1];
      }
    }
    LineEndIs(data, offset, p);
  }

  /** No CR LF from offset on and no CR as the last byte: readLine returns everything after offset
      and len(data) + 2. */
  lemma LineWithoutCrLf(data: seq<byte>, offset: nat)
    requires offset <= |data| && NoCrLf(data[offset..])
    requires offset == |data| || data[|data| - 1] != CR
    ensures LineFrom(data, offset) == Scan(data[offset..], |data| + 2)
  {
    var l := data[offset..];
    forall q | offset <= q < |data|
      ensures !Stop(data, q)
    {
      if q + 1 < |data| {
        assert data[q] == l[q - offset] && data[q + 1] == l[q - offset + 1];
      }
    }
    LineEndIs(data, offset, |data|);
  }

  /** A CR as the very last byte, with no CR LF before it: readLine looks one byte past the end. */
  lemma LineCrAtEnd(data: seq<byte>, offset: nat, l: seq<byte>)
    requires offset <= |data| && data[offset..] == l + [CR] && NoCrLf(l)
    ensures LineFrom(data, offset) == Crashed(IndexOutOfRange)
  {
    var p := |data| - 1;
    assert data[offset..p] == l && data[p] == CR;
    forall q | offset <= q < p
      ensures !Stop(data, q)
    {
      assert data[q] == l[q - offset];
      if q + 1 < p {
        assert data[q + 1] == l[q - offset + 1];
      }
    }
    LineEndIs(data, offset, p);
  }

  /** An offset past the end asks for a buffer of negative length. */
  lemma LinePastEnd(data: seq<byte>, offset: nat)
    requires offset > |data|
    ensures LineFrom(data, offset) == Crashed(NegativeMakeLength)
    ensures ReadBulk(data, offset) == BulkPanic(NegativeMakeLength)
  {
  }

  // ---------------------------------------------------------------------------------------------
  // ReadBulk

  /** Decimal digits, with or without a '-', hold no CR. */
  lemma ItoaNoCrLf(n: int)
    ensures NoCrLf(Itoa(n)) && (|Itoa(n)| > 0 ==> Itoa(n)[|Itoa(n)| - 1] != CR)
  {
    var s := Itoa(n);
    var m := if n < 0 then -n else n;
    assert AllDigits(DigitsOf(m));
    if n < 0 {
      assert s == [MINUS] + DigitsOf(m);
    }
    assert forall j :: 0 <= j < |s| ==> s[j] != CR;
  }

  /** The length line of a bulk: the decimal length, CR LF. */
  lemma LengthLine(data: seq<byte>, offset: nat, n: int, rest: seq<byte>)
    requires offset < |data| && data[offset + 1..] == Itoa(n) + CRLF + rest
    ensures LineFrom(data, offset + 1) == Scan(Itoa(n), offset + 1 + |Itoa(n)| + 2)
  {
    ItoaNoCrLf(n);
    LineOfCrLf(data, offset + 1, Itoa(n), rest);
  }

  /** A bulk is read whatever the two bytes after its payload are: they are skipped unread. */
  lemma BulkIgnoresTerminator(data: seq<byte>, offset: nat, b: seq<byte>, x: byte, y: byte, rest: seq<byte>)
    requires offset < |data| && data[offset + 1..] == Itoa(|b|) + CRLF + b + [x, y] + rest
    requires Int64(|data|)
    ensures ReadBulk(data, offset) == Bulk(b, offset + 1 + |Itoa(|b|)| + 2 + |b| + 2, None)
  {
    var h := Itoa(|b|);
    var next := offset + 1 + |h| + 2;
    assert data[offset + 1..] == h + CRLF + (b + [x, y] + rest);
    LengthLine(data, offset, |b|, b + [x, y] + rest);
    ParseIntItoa(|b|);
    assert data[offset + 1..] == (h + CRLF) + (b + ([x, y] + rest));
    Skip(data, offset + 1, h + CRLF, b + ([x, y] + rest));
    Skip(data, next, b, [x, y] + rest);
  }

  /** ReadBulk reads back the frame WriteBulk writes, and goes on just after it. */
  lemma BulkOfFrame(data: seq<byte>, offset: nat, b: seq<byte>, rest: seq<byte>)
    requires offset <= |data| && data[offset..] == BulkFrame(b) + rest
    requires Int64(|data|)
    ensures ReadBulk(data, offset) == Bulk(b, offset + |BulkFrame(b)|, None)
  {
    assert data[offset..] == [DOLLAR] + (Itoa(|b|) + CRLF + b + [CR, LF] + rest);
    Skip(data, offset, [DOLLAR], Itoa(|b|) + CRLF + b + [CR, LF] + rest);
    BulkIgnoresTerminator(data, offset, b, CR, LF, rest);
  }

  /** A length of -1 is an empty value without an error. */
  lemma BulkNullLength(data: seq<byte>, offset: nat, rest: seq<byte>)
    requires offset < |data| && data[offset + 1..] == [MINUS, ZERO + 1] + CRLF + rest
    ensures ReadBulk(data, offset) == Bulk([], offset + 5, None)
  {
    assert Itoa(-1) == [MINUS, ZERO + 1];
    LengthLine(data, offset, -1, rest);
    ParseIntItoa(-1);
  }

  /** A length line that is not a number is returned as the value, with strconv's syntax error,
      and the offset is just past the line. */
  lemma BulkSyntaxError(data: seq<byte>, offset: nat, l: seq<byte>, rest: seq<byte>)
    requires offset < |data| && data[offset + 1..] == l + CRLF + rest && NoCrLf(l)
    requires ParseInt(l) == SyntaxError
    ensures ReadBulk(data, offset) == Bulk(l, offset + 1 + |l| + 2, Some(NumSyntax))
  {
    LineOfCrLf(data, offset + 1, l, rest);
  }

  /** Fewer than length + 2 bytes after the length line (a short payload, or a payload without
      its CR LF): an empty value, "not enough bytes", and the offset just past the length line. */
  lemma BulkNotEnough(data: seq<byte>, offset: nat, n: nat, b: seq<byte>)
    requires offset < |data| && data[offset + 1..] == Itoa(n) + CRLF + b && |b| < n + 2
    requires Int64(|data| + n + 2)
    ensures ReadBulk(data, offset) == Bulk([], offset + 1 + |Itoa(n)| + 2, Some(NotEnoughBytes))
  {
    LengthLine(data, offset, n, b);
    ParseIntItoa(n);
    assert |data| == offset + 1 + |Itoa(n)| + 2 + |b|;
  }

  /** A length below -1 slices backwards and panics, unless the length check already fails. */
  lemma BulkNegativeLength(data: seq<byte>, offset: nat, n: int, rest: seq<byte>)
    requires offset < |data| && data[offset + 1..] == Itoa(n) + CRLF + rest
    requires Int64(n) && n < -1
    ensures var next := offset + 1 + |Itoa(n)| + 2;
            ReadBulk(data, offset) ==
              if next + n + 2 <= |data| then BulkPanic(SliceBounds) else Bulk([], next, Some(NotEnoughBytes))
  {
    LengthLine(data, offset, n, rest);
    ParseIntItoa(n);
  }

  // ---------------------------------------------------------------------------------------------
  // NewResponse

  /** The parts of a sigil, a line and CR LF at the start of data. */
  lemma Sigil(data: seq<byte>, c: byte, line: seq<byte>, rest: seq<byte>)
    requires data == [c] + line + CRLF + rest
    ensures |line| + 3 <= |data| && data[0] == c
    ensures data[1..] == line + CRLF + rest && data[|line| + 3..] == rest
  {
    assert data[1..] == line + CRLF + rest;
    assert data[1..][|line| + 2..] == rest;
  }

  /** '+' and ':' keep the line as the response's value, without an error. */
  lemma LineReplyOf(data: seq<byte>, line: seq<byte>, next: nat)
    requires |data| > 0 && (data[0] == PLUS || data[0] == COLON) && LineFrom(data, 1) == Scan(line, next)
    ensures ResponseOf(data) == Reply(Response(data[0], line, false, []), None)
  {
  }

  /** A status reply: the line is the response's Status(), without an error. */
  lemma StatusReplyOf(l: seq<byte>, rest: seq<byte>)
    requires NoCrLf(l)
    ensures var o := ResponseOf([PLUS] + l + CRLF + rest);
            o.err == None && o.r.IsStatus() && o.r.Status() == l && !o.r.IsNull() && o.r.Values() == []
  {
    var data := [PLUS] + l + CRLF + rest;
    assert data[1..] == l + CRLF + rest;
    LineOfCrLf(data, 1, l, rest);
    LineReplyOf(data, l, |l| + 3);
  }

  /** An integer reply keeps the digits as its value. */
  lemma IntegerLineOf(n: int, rest: seq<byte>)
    ensures ResponseOf([COLON] + Itoa(n) + CRLF + rest) == Reply(Response(COLON, Itoa(n), false, []), None)
  {
    var data := [COLON] + Itoa(n) + CRLF + rest;
    Sigil(data, COLON, Itoa(n), rest);
    LengthLine(data, 0, n, rest);
    LineReplyOf(data, Itoa(n), |Itoa(n)| + 3);
  }

  /** NewResponse reads back what writeInt writes: Integer() is the number. */
  lemma IntegerReplyOf(n: int, rest: seq<byte>)
    requires Int64(n)
    ensures var o := ResponseOf(WriteInt(n) + rest);
            o.err == None && o.r.IsInteger() && o.r.Integer() == Parsed(n)
  {
    assert WriteInt(n) + rest == [COLON] + Itoa(n) + CRLF + rest;
    IntegerLineOf(n, rest);
    ParseIntItoa(n);
  }

  /** '-' turns the line into an error and leaves the value unset. */
  lemma ErrorLineOf(data: seq<byte>, line: seq<byte>, next: nat)
    requires |data| > 0 && data[0] == MINUS && LineFrom(data, 1) == Scan(line, next)
    ensures ResponseOf(data) == Reply(Response(MINUS, [], false, []), Some(Message(line)))
  {
  }

  /** An error reply becomes an error whose message is the whole line, as writeError wrote it. */
  lemma ErrorReplyOf(msg: seq<byte>, rest: seq<byte>)
    requires NoCrLf(msg)
    ensures ResponseOf(WriteError(msg) + rest) == Reply(Response(MINUS, [], false, []), Some(Message(msg)))
  {
    var data := WriteError(msg) + rest;
    assert data == [MINUS] + msg + CRLF + rest;
    assert data[1..] == msg + CRLF + rest;
    LineOfCrLf(data, 1, msg, rest);
    ErrorLineOf(data, msg, |msg| + 3);
  }

  /** '$' keeps ReadBulk's value and error, and is null exactly when the value is empty. */
  lemma BulkReplyOfBulk(data: seq<byte>, b: Bulk)
    requires |data| > 0 && data[0] == DOLLAR && ReadBulk(data, 0) == b && b.Bulk?
    ensures ResponseOf(data) == Reply(Response(DOLLAR, b.value, |b.value| == 0, []), b.err)
  {
  }

  /** A bulk reply reads back the bulk frame's payload; it is null exactly when the payload is
      empty, so an empty string and a nil bulk look the same. */
  lemma BulkReplyOf(b: seq<byte>, rest: seq<byte>)
    requires Int64(|BulkFrame(b) + rest|)
    ensures var o := ResponseOf(BulkFrame(b) + rest);
            o.err == None && o.r.IsBulk() && o.r.Value() == b && (o.r.IsNull() <==> b == [])
  {
    var data := BulkFrame(b) + rest;
    assert data[0..] == data && data[0] == DOLLAR;
    BulkOfFrame(data, 0, b, rest);
    BulkReplyOfBulk(data, Bulk(b, |BulkFrame(b)|, None));
  }

  /** "$-1\r\n" is a null bulk without an error. */
  lemma NullBulkReplyOf(rest: seq<byte>)
    ensures ResponseOf([DOLLAR, MINUS, ZERO + 1] + CRLF + rest) == Reply(Response(DOLLAR, [], true, []), None)
  {
    var data := [DOLLAR, MINUS, ZERO + 1] + CRLF + rest;
    assert data[1..] == [MINUS, ZERO + 1] + CRLF + rest;
    BulkNullLength(data, 0, rest);
    BulkReplyOfBulk(data, Bulk([], 5, None));
  }

  /** "$0\r\n\r\n", the empty string, reads as null. */
  lemma EmptyBulkIsNull()
    ensures var o := ResponseOf([DOLLAR, ZERO, CR, LF, CR, LF]);
            o.err == None && o.r.IsNull() && o.r.Value() == []
  {
    assert BulkFrame([]) + [] == [DOLLAR, ZERO, CR, LF, CR, LF];
    BulkReplyOf([], []);
  }

  /** "$-1" without its CR LF is still a null bulk without an error. */
  lemma NullBulkWithoutCrLf()
    ensures ResponseOf([DOLLAR, MINUS, ZERO + 1]) == Reply(Response(DOLLAR, [], true, []), None)
  {
    var data: seq<byte> := [DOLLAR, MINUS, ZERO + 1];
    LineWithoutCrLf(data, 1);
    assert data[1..] == Itoa(-1);
    ParseIntItoa(-1);
    BulkReplyOfBulk(data, Bulk([], 5, None));
  }

  /** The loop's first turn: a bulk read without a panic, then the other elements after it. */
  lemma ElemsCons(data: seq<byte>, offset: nat, k: nat, b: Bulk, rest: Elems)
    requires k > 0 && ReadBulk(data, offset) == b && b.Bulk? && ElemsFrom(data, b.next, k - 1) == rest
    ensures ElemsFrom(data, offset, k) == Elems([b.value] + rest.values, rest.panic)
  {
    assert ElemsFrom(data, offset, k) == ElemsTurn(data, offset, k);
  }

  /** Each bulk frame adds at least one byte for its element. */
  lemma {:induction false} BulksLength(args: seq<seq<byte>>)
    ensures |Bulks(args)| >= |args|
    decreases |args|
  {
    if args != [] {
      BulksLength(args[1..]);
    }
  }

  /** The elements of a multi-bulk frame are read back one bulk after the other. */
  lemma {:induction false} ElemsOfBulks(data: seq<byte>, offset: nat, args: seq<seq<byte>>, rest: seq<byte>)
    requires offset <= |data| && data[offset..] == Bulks(args) + rest && Int64(|data|)
    ensures ElemsFrom(data, offset, |args|) == Elems(args, None)
    decreases |args|
  {
    if args != [] {
      var f := BulkFrame(args[0]);
      var more := Bulks(args[1..]) + rest;
      assert data[offset..] == f + more && offset + |f| <= |data| && data[offset + |f|..] == Bulks(args[1..]) + rest by {
        Skip(data, offset, f, more);
      }
      BulkOfFrame(data, offset, args[0], more);
      ElemsOfBulks(data, offset + |f|, args[1..], rest);
      ElemsCons(data, offset, |args|, Bulk(args[0], offset + |f|, None), Elems(args[1..], None));
    }
  }

  /** The header of a multi-bulk: '*', the count, CR LF; the elements start after it. */
  lemma CountLine(data: seq<byte>, n: int, elems: seq<byte>)
    requires data == [STAR] + Itoa(n) + CRLF + elems
    ensures var u := |Itoa(n)| + 3;
            u <= |data| && data[u..] == elems && data[0] == STAR && LineFrom(data, 1) == Scan(Itoa(n), u)
  {
    Sigil(data, STAR, Itoa(n), elems);
    LengthLine(data, 0, n, elems);
  }

  /** '*' with a count n >= 0 whose elements are read without a panic: the response holds them. */
  lemma MultiBulkOfElems(data: seq<byte>, line: seq<byte>, next: nat, n: nat, e: Elems)
    requires |data| > 0 && data[0] == STAR && LineFrom(data, 1) == Scan(line, next)
    requires ParseInt(line) == Parsed(n) && ElemsFrom(data, next, n) == e && e.panic.None?
    ensures ResponseOf(data) == Reply(Response(STAR, [], false, e.values), None)
  {
  }

  /** NewResponse reads back the multi-bulk frame the writers build: its values are the arguments. */
  lemma MultiBulkReplyOf(args: seq<seq<byte>>, rest: seq<byte>)
    requires Int64(|MultiBulkFrame(args) + rest|)
    ensures ResponseOf(MultiBulkFrame(args) + rest) == Reply(Response(STAR, [], false, args), None)
  {
    var data := MultiBulkFrame(args) + rest;
    assert data == [STAR] + Itoa(|args|) + CRLF + (Bulks(args) + rest);
    BulksLength(args);
    CountLine(data, |args|, Bulks(args) + rest);
    ParseIntItoa(|args|);
    var u := |Itoa(|args|)| + 3;
    ElemsOfBulks(data, u, args, rest);
    MultiBulkOfElems(data, Itoa(|args|), u, |args|, Elems(args, None));
  }

  /** "*-1\r\n" is a null multi-bulk without values. */
  lemma NullMultiBulkReplyOf(rest: seq<byte>)
    ensures ResponseOf([STAR, MINUS, ZERO + 1] + CRLF + rest) == Reply(Response(STAR, [], true, []), None)
  {
    assert Itoa(-1) == [MINUS, ZERO + 1];
    CountLine([STAR, MINUS, ZERO + 1] + CRLF + rest, -1, rest);
    ParseIntItoa(-1);
  }

  /** "*0\r\n" has no values and is not null. */
  lemma EmptyMultiBulk()
    ensures ResponseOf([STAR, ZERO, CR, LF]) == Reply(Response(STAR, [], false, []), None)
  {
    assert MultiBulkFrame([]) + [] == [STAR, ZERO, CR, LF];
    MultiBulkReplyOf([], []);
  }

  /** '*' with a count n >= 0: the response holds the n values the loop reads, unless one of its
      ReadBulk calls panics. */
  lemma MultiBulkOfCount(data: seq<byte>, line: seq<byte>, next: nat, n: nat)
    requires |data| > 0 && data[0] == STAR && LineFrom(data, 1) == Scan(line, next) && ParseInt(line) == Parsed(n)
    ensures var e := ElemsFrom(data, next, n);
            ResponseOf(data) == if e.panic.Some? then Reply(Response(STAR, [], false, []), Some(Panic(e.panic.value)))
                                else Reply(Response(STAR, [], false, e.values), None)
  {
  }

  /** The reply to a multi-bulk whose loop read the values first and then e: a panic in e discards
      every value read before it. */
  function Gathered(first: seq<seq<byte>>, e: Elems): Reply
  {
    if e.panic.Some? then Reply(Response(STAR, [], false, []), Some(Panic(e.panic.value)))
    else Reply(Response(STAR, [], false, first + e.values), None)
  }

  /** NewResponse drops the error ReadBulk returns with an element of a multi-bulk: the value read
      with it leads the values and the loop goes on from where that ReadBulk stopped. Only a panic
      further on discards the values. */
  lemma MultiBulkDropsElementError(data: seq<byte>, line: seq<byte>, u: nat, n: nat, v: seq<byte>, err: Option<Error>, next: nat, m: nat)
    requires |data| > 0 && data[0] == STAR && LineFrom(data, 1) == Scan(line, u) && ParseInt(line) == Parsed(n)
    requires m + 1 == n && ReadBulk(data, u) == Bulk(v, next, err)
    ensures ResponseOf(data) == Gathered([v], ElemsFrom(data, next, m))
  {
    var rest := ElemsFrom(data, next, m);
    ElemsThen(data, u, next, v, err, n, m, rest);
    MultiBulkOfCount(data, line, u, n);
  }

  /** A bulk whose length line is not a number, or does not fit an int64: the line comes back as
      the value, with strconv's error, and the offset just past the line. */
  lemma BulkLengthError(data: seq<byte>, offset: nat, l: seq<byte>, tail: seq<byte>)
    requires offset <= |data| && data[offset..] == [DOLLAR] + l + CRLF + tail
    requires NoCrLf(l) && !ParseInt(l).Parsed?
    ensures ReadBulk(data, offset) == Bulk(l, offset + |l| + 3, ParseInt(l).Err())
  {
    assert data[offset..] == [DOLLAR] + (l + CRLF + tail);
    Skip(data, offset, [DOLLAR], l + CRLF + tail);
    LineOfCrLf(data, offset + 1, l, tail);
  }

  /** "*1\r\n$x\r\n" has the single value "x". */
  lemma MultiBulkBadElementLength()
    ensures ResponseOf([STAR, ZERO + 1, CR, LF, DOLLAR, 0x78, CR, LF]) ==
            Reply(Response(STAR, [], false, [[0x78]]), None)
  {
    var data: seq<byte> := [STAR, ZERO + 1, CR, LF, DOLLAR, 0x78, CR, LF];
    assert Itoa(1) == [ZERO + 1];
    assert DigitRun([0x78]) == 0;
    assert data == [STAR] + Itoa(1) + CRLF + ([DOLLAR] + [0x78] + CRLF + []);
    CountLine(data, 1, [DOLLAR] + [0x78] + CRLF + []);
    ParseIntItoa(1);
    BulkLengthError(data, 4, [0x78], []);
    MultiBulkDropsElementError(data, Itoa(1), 4, 1, [0x78], ParseInt([0x78]).Err(), 8, 0);
  }

  /** The data ends after the frames, but the loop wants more bulks: it reads the frames back, then
      the next ReadBulk starts past the end and panics. */
  lemma {:induction false} ElemsPastFrames(data: seq<byte>, offset: nat, args: seq<seq<byte>>, k: nat)
    requires offset <= |data| && data[offset..] == Bulks(args) && Int64(|data|) && |args| < k
    ensures ElemsFrom(data, offset, k) == Elems(args, Some(NegativeMakeLength))
    decreases |args|
  {
    if args != [] {
      var next := FirstFrame(data, offset, args, []);
      var later, m := args[1..], k - 1;
      assert data[next..] == Bulks(later) by {
        assert Bulks(later) + [] == Bulks(later);
      }
      ElemsPastFrames(data, next, later, m);
      ElemsThen(data, offset, next, args[0], None, k, m, Elems(later, Some(NegativeMakeLength)));
      HeadTail(args);
    } else {
      assert offset == |data|;
      LinePastEnd(data, offset + 1);
      assert ElemsFrom(data, offset, k) == ElemsTurn(data, offset, k);
    }
  }

  /** The first of the frames is read back as its argument, and the others follow it. */
  lemma FirstFrame(data: seq<byte>, offset: nat, args: seq<seq<byte>>, rest: seq<byte>) returns (next: nat)
    requires offset <= |data| && data[offset..] == Bulks(args) + rest && Int64(|data|) && args != []
    ensures ReadBulk(data, offset) == Bulk(args[0], next, None)
    ensures next <= |data| && data[next..] == Bulks(args[1..]) + rest
  {
    var f := BulkFrame(args[0]);
    var more := Bulks(args[1..]) + rest;
    assert data[offset..] == f + more;
    Skip(data, offset, f, more);
    BulkOfFrame(data, offset, args[0], more);
    next := offset + |f|;
  }

  /** ElemsCons, stated for the parts of the bulk read: its error, if any, is dropped. */
  lemma ElemsThen(data: seq<byte>, offset: nat, next: nat, v: seq<byte>, err: Option<Error>, k: nat, m: nat, rest: Elems)
    requires m + 1 == k && ReadBulk(data, offset) == Bulk(v, next, err) && ElemsFrom(data, next, m) == rest
    ensures ElemsFrom(data, offset, k) == Elems([v] + rest.values, rest.panic)
  {
    ElemsCons(data, offset, k, Bulk(v, next, err), rest);
  }

  /** A non-empty sequence is its head followed by its tail. */
  lemma HeadTail(a: seq<seq<byte>>)
    requires a != []
    ensures [a[0]] + a[1..] == a
  {
  }

  /** A multi-bulk whose data ends after fewer whole bulk frames than its count announces: the next
      ReadBulk starts past the end of the data and panics. */
  lemma MultiBulkTruncated(data: seq<byte>, n: int, args: seq<seq<byte>>)
    requires data == [STAR] + Itoa(n) + CRLF + Bulks(args)
    requires Int64(n) && n > |args| && Int64(|data|)
    ensures ResponseOf(data).err == Some(Panic(NegativeMakeLength))
  {
    var u := |Itoa(n)| + 3;
    CountLine(data, n, Bulks(args));
    ParseIntItoa(n);
    ElemsPastFrames(data, u, args, n);
    MultiBulkOfCount(data, Itoa(n), u, n);
  }

  /** "*1\r\n": the count announces a bulk that is not there. */
  lemma MultiBulkCountOnly()
    ensures ResponseOf([STAR, ZERO + 1, CR, LF]).err == Some(Panic(NegativeMakeLength))
  {
    assert Itoa(1) == [ZERO + 1];
    assert [STAR] + Itoa(1) + CRLF + Bulks([]) == [STAR, ZERO + 1, CR, LF];
    MultiBulkTruncated([STAR, ZERO + 1, CR, LF], 1, []);
  }

  /** A first byte that is not one of the five kinds gives a response with only its kind set. */
  lemma UnknownKind(data: seq<byte>)
    requires |data| > 0 && data[0] !in {PLUS, MINUS, COLON, DOLLAR, STAR}
    ensures ResponseOf(data) == Reply(Response(data[0], [], false, []), None)
  {
  }
}
