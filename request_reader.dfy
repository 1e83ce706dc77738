/** server/reader.go: the server's decoder of client requests. A request is a multi-bulk of bulk
    strings; its count and lengths are read with reader.go's readNumber. The reference functions
    describe what each function does to the bytes `d` of the stream when it starts at position `i`. */
module RequestReader {
  import opened Wire
  import opened Stream
  import ReplyReader

  // ---------------------------------------------------------------------------------------------
  // readByte

  /** readByte: one read into a one-byte buffer; at the end of the stream the buffer keeps its zero
      and the read's io.EOF is returned with it. */
  method ReadByte(r: Reader) returns (b: byte, err: Option<Error>)
    requires r.Valid()
    modifies r
    ensures r.Valid()
    ensures old(r.pos) < |r.data| ==> b == r.data[old(r.pos)] && err == None && r.pos == old(r.pos) + 1
    ensures old(r.pos) == |r.data| ==> b == 0 && err == Some(Eof) && r.pos == old(r.pos)
  {
    var buf := new byte[1](_ => 0);
    var _, eof := r.Fill(buf);
    b := buf[0];
    err := if eof then Some(Eof) else None;
  }

  // ---------------------------------------------------------------------------------------------
  // readBulk

  /** What readBulk returns, and how many bytes it consumed. */
  datatype Arg = Arg(bs: seq<byte>, err: Option<Error>, used: nat)

  /** readBulk: '$' (else a parse error), a length n (below 0, `make` panics), then one read into a
      buffer made with length n and one into a two-byte buffer. The payload is kept byte for byte
      whatever it holds. When fewer than n + 1 bytes are left, one of the reads hits io.EOF and the
      buffer is returned holding what was left, padded with zeros; otherwise the two bytes after the
      payload must be CR LF (else a parse error). */
  function ArgAt(d: seq<byte>, i: nat): (a: Arg)
    requires i <= |d|
    ensures i + a.used <= |d|
    ensures i < |d| ==> a.used >= 1
  {
    if i == |d| then Arg([], Some(Eof), 0)
    else if d[i] != DOLLAR then Arg([], Some(ParseError(FirstCharacter)), 1)
    else
      var num := ReplyReader.NumberAt(d, i + 1);
      if num.err.Some? then Arg([], num.err, 1 + num.used)
      else if num.n < 0 then Arg([], Some(Panic(NegativeMakeLength)), 1 + num.used)
      else
        var j, n := i + 1 + num.used, num.n;
        if |d| - j <= n then Arg(Padded(d[j..], n), Some(Eof), |d| - i)
        else if |d| - (j + n) >= 2 && d[j + n] == CR && d[j + n + 1] == LF then Arg(d[j..j + n], None, j + n + 2 - i)
        else Arg(d[j..j + n], Some(ParseError(EndOfLine)), j + n + Min(2, |d| - (j + n)) - i)
  }

  /** readBulk's two reads after the length n: bs = make([]byte, n) filled by one read, then crlf =
      make([]byte, 2) filled by another unless the first one hit io.EOF. Either read can come up short;
      one of them hits io.EOF exactly when no more than n bytes are left. */
  method ReadPayload(r: Reader, n: nat) returns (bs: seq<byte>, crlf: seq<byte>, eof: bool)
    requires r.Valid()
    modifies r
    ensures r.Valid()
    ensures var d, j := r.data, old(r.pos);
            (eof <==> |d| - j <= n)
            && (eof ==> bs == Padded(d[j..], n) && r.pos == |d|)
            && (!eof ==> bs == d[j..j + n] && r.pos == j + n + Min(2, |d| - (j + n))
                         && crlf == Padded(d[j + n..r.pos], 2))
  {
    ghost var j := r.pos;
    var buf := new byte[n](_ => 0);
    var k, eof1 := r.Fill(buf);
    bs := buf[..];
    if eof1 {
      PaddedOf(bs, r.data[j..]);
      return bs, [], true;
    }
    var two := new byte[2](_ => 0);
    var c, eof2 := r.Fill(two);
    if eof2 {
      PaddedOf(bs, r.data[j..]);
      return bs, [], true;
    }
    assert k == n && bs == buf[..k];
    crlf, eof := two[..], false;
    PaddedOf(crlf, r.data[j + n..r.pos]);
  }

  /** Two bytes read after the payload are CR LF exactly when CR LF follows it. */
  lemma Terminator(d: seq<byte>, e: nat, crlf: seq<byte>)
    requires e < |d| && crlf == Padded(d[e..e + Min(2, |d| - e)], 2)
    ensures crlf == CRLF <==> |d| - e >= 2 && d[e] == CR && d[e + 1] == LF
  {
    if |d| - e < 2 {
      assert crlf[1] == 0;
    }
  }

  method ReadBulk(r: Reader) returns (bs: seq<byte>, err: Option<Error>)
    requires r.Valid()
    modifies r
    ensures r.Valid() && old(r.pos) <= r.pos
    ensures var want := ArgAt(r.data, old(r.pos));
            bs == want.bs && err == want.err && (!IsPanic(err) ==> r.pos == old(r.pos) + want.used)
  {
    var b;
    b, err := ReadByte(r);
    if err.Some? {
      return [], err;
    }
    if b != DOLLAR {
      return [], Some(ParseError(FirstCharacter));
    }
    var n, e := ReplyReader.ReadNumber(r);
    if e.Some? {
      return [], e;
    }
    if n < 0 {
      return [], Some(Panic(NegativeMakeLength));
    }
    ghost var j := r.pos;
    var crlf, eof;
    bs, crlf, eof := ReadPayload(r, n);
    if eof {
      return bs, Some(Eof);
    }
    Terminator(r.data, j + n, crlf);
    if crlf[0] != CR || crlf[1] != LF {
      return bs, Some(ParseError(EndOfLine));
    }
    err := None;
  }

  // ---------------------------------------------------------------------------------------------
  // Read

  /** The byte strings Read's loop has stored, the error that stopped it, and the bytes consumed. */
  datatype Args = Args(values: seq<seq<byte>>, err: Option<Error>, used: nat)

  /** Read's loop over k bulks from position j: it stops at the first bulk that fails, whose buffer
      is stored before the error is returned. */
  function ArgsFrom(d: seq<byte>, j: nat, k: nat): (m: Args)
    requires j <= |d|
    ensures j + m.used <= |d| && |m.values| <= k
    ensures m.err.None? ==> |m.values| == k
    decreases k, 2
  {
    if k == 0 then Args([], None, 0) else ArgsTurn(d, j, k)
  }

  /** Turn k from the end of the loop. The loop is stated as three mutually recursive functions so
      that readBulk's reference function is only unfolded two calls down. */
  function ArgsTurn(d: seq<byte>, j: nat, k: nat): (m: Args)
    requires j <= |d| && k > 0
    ensures j + m.used <= |d| && |m.values| <= k
    ensures m.err.None? ==> |m.values| == k
    decreases k, 1
  {
    ArgsStep(d, j, k)
  }

  /** One turn of the loop, readBulk, then the turns after it. */
  function ArgsStep(d: seq<byte>, j: nat, k: nat): (m: Args)
    requires j <= |d| && k > 0
    ensures j + m.used <= |d| && |m.values| <= k
    ensures m.err.None? ==> |m.values| == k
    decreases k, 0
  {
    var a := ArgAt(d, j);
    if IsPanic(a.err) then Args([], a.err, a.used)
    else if a.err.Some? then Args([a.bs], a.err, a.used)
    else
      var m := ArgsFrom(d, j + a.used, k - 1);
      Args([a.bs] + m.values, m.err, a.used + m.used)
  }

  /** What Read returns, and how many bytes it consumed. */
  datatype Request = Request(args: seq<seq<byte>>, err: Option<Error>, used: nat)

  /** Read: '*' (else a parse error), a count (a count below 0 makes `make` panic), then the bulks in
      a slice made with that length; when a bulk fails, the slots after it stay nil. */
  function RequestAt(d: seq<byte>, i: nat): (q: Request)
    requires i <= |d|
    ensures i + q.used <= |d|
    ensures i < |d| ==> q.used >= 1
    ensures q.err.None? ==> i < |d| && d[i] == STAR && |q.args| == ReplyReader.NumberAt(d, i + 1).n
  {
    if i == |d| then Request([], Some(Eof), 0)
    else if d[i] != STAR then Request([], Some(ParseError(FirstCharacter)), 1)
    else
      var num := ReplyReader.NumberAt(d, i + 1);
      if num.err.Some? then Request([], num.err, 1 + num.used)
      else if num.n < 0 then Request([], Some(Panic(NegativeMakeLength)), 1 + num.used)
      else
        var m := ArgsFrom(d, i + 1 + num.used, num.n);
        if IsPanic(m.err) then Request([], m.err, 1 + num.used + m.used)
        else Request(m.values + Blank(num.n - |m.values|), m.err, 1 + num.used + m.used)
  }

  /** `whole` is `done` (read using `used` bytes) followed by what is still to come. */
  predicate Joined(whole: Args, done: seq<seq<byte>>, used: nat, cur: Args)
  {
    whole.values == done + cur.values && whole.err == cur.err && whole.used == used + cur.used
  }

  /** Storing the bulk of turn i in a slice whose first i slots hold `done` and whose others are nil. */
  lemma FillSlot(done: seq<seq<byte>>, bs: seq<byte>, n: nat)
    requires |done| < n
    ensures (done + Blank(n - |done|))[|done| := bs] == (done + [bs]) + Blank(n - (|done| + 1))
  {
  }

  /** One turn of Read's loop: readBulk, and where the loop stands after it. */
  method NextArg(r: Reader, ghost whole: Args, ghost done: seq<seq<byte>>, ghost p: nat, ghost n: nat, ghost i: nat)
    returns (bs: seq<byte>, err: Option<Error>)
    requires r.Valid() && i < n && p <= r.pos
    requires Joined(whole, done, r.pos - p, ArgsFrom(r.data, r.pos, n - i))
    modifies r
    ensures r.Valid()
    ensures IsPanic(err) ==> whole.err == err
    ensures !IsPanic(err) && err.Some? ==> whole.values == done + [bs] && whole.err == err
                                           && p <= r.pos && whole.used == r.pos - p
    ensures err.None? ==> p <= r.pos && Joined(whole, done + [bs], r.pos - p, ArgsFrom(r.data, r.pos, n - (i + 1)))
  {
    ghost var before := r.pos;
    assert ArgsFrom(r.data, before, n - i) == ArgsTurn(r.data, before, n - i) == ArgsStep(r.data, before, n - i);
    bs, err := ReadBulk(r);
    if err.None? {
      ghost var next := ArgsFrom(r.data, r.pos, n - (i + 1));
      assert done + ([bs] + next.values) == (done + [bs]) + next.values;
    }
  }

  /** The loop of Read: res[i], err = readBulk(r) for each i below n, into a slice made with length
      n, until a bulk fails. */
  method ReadArgs(r: Reader, n: nat) returns (res: seq<seq<byte>>, err: Option<Error>)
    requires r.Valid()
    modifies r
    ensures r.Valid()
    ensures var want := ArgsFrom(r.data, old(r.pos), n);
            err == want.err
            && (!IsPanic(err) ==> res == want.values + Blank(n - |want.values|) && r.pos == old(r.pos) + want.used)
  {
    ghost var p := r.pos;
    ghost var whole := ArgsFrom(r.data, p, n);
    res := Blank(n);
    var i := 0;
    ghost var done: seq<seq<byte>> := [];
    assert res == done + Blank(n - i);
    while i < n
      invariant r.Valid() && 0 <= i <= n && p <= r.pos && |done| == i
      invariant res == done + Blank(n - i)
      invariant Joined(whole, done, r.pos - p, ArgsFrom(r.data, r.pos, n - i))
    {
      var bs, e := NextArg(r, whole, done, p, n, i);
      if IsPanic(e) {
        return [], e;
      }
      FillSlot(done, bs, n);
      res := res[i := bs];
      if e.Some? {
        return res, e;
      }
      done := done + [bs];
      i := i + 1;
    }
    assert done + [] == done;
    err := None;
  }

  /** Read once the count n has been read: the loop decides. */
  lemma RequestOfArgs(d: seq<byte>, i: nat, n: nat, u: nat, j: nat, m: Args)
    requires i < |d| && d[i] == STAR && j == i + 1 + u && j <= |d|
    requires ReplyReader.NumberAt(d, i + 1) == ReplyReader.Number(n, None, u)
    requires ArgsFrom(d, j, n) == m
    ensures RequestAt(d, i) == if IsPanic(m.err) then Request([], m.err, 1 + u + m.used)
                               else Request(m.values + Blank(n - |m.values|), m.err, 1 + u + m.used)
  {
  }

  method Read(r: Reader) returns (res: seq<seq<byte>>, err: Option<Error>)
    requires r.Valid()
    modifies r
    ensures r.Valid()
    ensures var want := RequestAt(r.data, old(r.pos));
            err == want.err && (!IsPanic(err) ==> res == want.args && r.pos == old(r.pos) + want.used)
  {
    var b;
    b, err := ReadByte(r);
    if err.Some? {
      return [], err;
    }
    if b != STAR {
      return [], Some(ParseError(FirstCharacter));
    }
    ghost var i := r.pos - 1;
    var n, e := ReplyReader.ReadNumber(r);
    if e.Some? {
      return [], e;
    }
    if n < 0 {
      return [], Some(Panic(NegativeMakeLength));
    }
    ghost var m := ArgsFrom(r.data, r.pos, n);
    RequestOfArgs(r.data, i, n, r.pos - (i + 1), r.pos, m);
    res, err := ReadArgs(r, n);
  }
}
