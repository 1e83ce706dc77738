/** server/server.go, its request decoder: the whole input is read into a bytes.Buffer first, the
    count and lengths are read up to '\r' and parsed with strconv.ParseInt, the bulks' CR LF is
    checked, and the input must end right after the last bulk. The reference functions describe what
    each function does to the buffer's bytes `d` when it starts at position `i`. */
module RequestServer {
  import opened Wire
  import opened Decimal
  import opened Stream
  import RequestReader

  // ---------------------------------------------------------------------------------------------
  // readLength

  /** What readLength returns, and how many bytes it consumed. */
  datatype Length = Length(n: int, err: Option<Error>, used: nat)

  /** The position of the first CR at or after i, or |d| when there is none. */
  function CrFrom(d: seq<byte>, i: nat): (p: nat)
    requires i <= |d|
    ensures i <= p <= |d|
    decreases |d| - i
  {
    if i == |d| || d[i] == CR then i else CrFrom(d, i + 1)
  }

  /** CrFrom is where bytes.Buffer.ReadString('\r') stops. */
  lemma {:induction false} CrFromIndexOf(d: seq<byte>, i: nat)
    requires i <= |d|
    ensures CrFrom(d, i) == i + IndexOf(d[i..], CR)
    decreases |d| - i
  {
    if i < |d| && d[i] != CR {
      assert d[i..][1..] == d[i + 1..];
      CrFromIndexOf(d, i + 1);
    }
  }

  /** readLength: the text up to the first '\r' (io.EOF when there is none), then '\n' (io.EOF at the
      end, else "Invalid EOL" with the two bytes), then strconv.ParseInt of the text. Its `n < 0`
      guard tests the named result, still zero there, so it never fires and a negative length is
      returned as is. On a parse error ParseInt's value is not read by any caller; 0 stands for it. */
  function LengthAt(d: seq<byte>, i: nat): (r: Length)
    requires i <= |d|
    ensures i + r.used <= |d|
    ensures r.err.None? ==> Int64(r.n)
  {
    LengthFrom(d, i, i)
  }

  /** readLength once ReadString('\r') has passed the bytes from i to p, none of them a CR. */
  function LengthFrom(d: seq<byte>, i: nat, p: nat): (r: Length)
    requires i <= p <= |d|
    ensures i + r.used <= |d|
    ensures r.err.None? ==> Int64(r.n)
    decreases |d| - p
  {
    if p == |d| || d[p] == CR then LengthEnd(d, i, p) else LengthFrom(d, i, p + 1)
  }

  /** readLength once ReadString('\r') has stopped at c: at a CR, or at the end of the data. */
  function LengthEnd(d: seq<byte>, i: nat, c: nat): (r: Length)
    requires i <= c <= |d|
    ensures i + r.used <= |d|
    ensures r.err.None? ==> Int64(r.n)
  {
    if c == |d| then Length(-1, Some(Eof), |d| - i)
    else if c + 1 == |d| then Length(-1, Some(Eof), c + 1 - i)
    else if d[c + 1] != LF then Length(-1, Some(InvalidEol([CR, d[c + 1]])), c + 2 - i)
    else
      var p := ParseInt(d[i..c]);
      if p.Parsed? then Length(p.value, None, c + 2 - i) else Length(0, p.Err(), c + 2 - i)
  }

  /** readLength ends where the first CR after i stands. */
  lemma {:induction false} LengthAtCr(d: seq<byte>, i: nat, p: nat)
    requires i <= p <= |d|
    ensures LengthFrom(d, i, p) == LengthEnd(d, i, CrFrom(d, p))
    decreases |d| - p
  {
    if p < |d| && d[p] != CR {
      LengthAtCr(d, i, p + 1);
    }
  }

  method ReadLength(buf: Reader) returns (n: int, err: Option<Error>)
    requires buf.Valid()
    modifies buf
    ensures buf.Valid() && old(buf.pos) <= buf.pos
    ensures LengthAt(buf.data, old(buf.pos)) == Length(n, err, buf.pos - old(buf.pos))
  {
    ghost var i := buf.pos;
    CrFromIndexOf(buf.data, i);
    LengthAtCr(buf.data, i, i);
    var sn, eof := buf.ReadString(CR);
    if eof {
      return -1, Some(Eof);
    }
    var b := buf.ReadByte();
    if b.None? {
      return -1, Some(Eof);
    }
    if b.value != LF {
      return -1, Some(InvalidEol([CR, b.value]));
    }
    assert sn[..|sn| - 1] == buf.data[i..buf.pos - 2];
    var p := ParseInt(sn[..|sn| - 1]);
    if p.Parsed? {
      n, err := p.value, None;
    } else {
      n, err := 0, p.Err();
    }
  }

  // ---------------------------------------------------------------------------------------------
  // readBulk

  /** readBulk: '$' (else "Invalid first character" with the byte), a length (below 0, `make`
      panics), then one read into a buffer made with that length and one into a two-byte buffer,
      which must hold CR LF (else "Invalid EOL" with the two bytes). When no more than n bytes are
      left, one of the reads hits io.EOF and the buffer comes back holding what was left, padded
      with zeros. */
  function BulkAt(d: seq<byte>, i: nat): (a: RequestReader.Arg)
    requires i <= |d|
    ensures i + a.used <= |d|
    ensures i < |d| ==> a.used >= 1
  {
    if i == |d| then RequestReader.Arg([], Some(Eof), 0)
    else if d[i] != DOLLAR then RequestReader.Arg([], Some(InvalidFirstCharacter(d[i])), 1)
    else BulkAfter(d, i, LengthAt(d, i + 1))
  }

  /** readBulk once the '$' at i and the length `len` after it have been read. */
  function BulkAfter(d: seq<byte>, i: nat, len: Length): (a: RequestReader.Arg)
    requires i + 1 + len.used <= |d|
    ensures i + a.used <= |d| && a.used >= 1
  {
    if len.err.Some? then RequestReader.Arg([], len.err, 1 + len.used)
    else if len.n < 0 then RequestReader.Arg([], Some(Panic(NegativeMakeLength)), 1 + len.used)
    else
      var p := PayloadAt(d, i + 1 + len.used, len.n);
      RequestReader.Arg(p.bs, p.err, 1 + len.used + p.used)
  }

  /** readBulk's two reads from position j once the length n is known: the payload, then the two
      bytes that must be CR LF. */
  function PayloadAt(d: seq<byte>, j: nat, n: nat): (a: RequestReader.Arg)
    requires j <= |d|
    ensures j + a.used <= |d|
  {
    if |d| - j <= n then RequestReader.Arg(Padded(d[j..], n), Some(Eof), |d| - j)
    else
      var e := j + n + Min(2, |d| - (j + n));
      var crlf := Padded(d[j + n..e], 2);
      RequestReader.Arg(d[j..j + n], if crlf == CRLF then None else Some(InvalidEol(crlf)), e - j)
  }

  method ReadSized(buf: Reader, n: nat) returns (bs: seq<byte>, err: Option<Error>)
    requires buf.Valid()
    modifies buf
    ensures buf.Valid()
    ensures var want := PayloadAt(buf.data, old(buf.pos), n);
            bs == want.bs && err == want.err && buf.pos == old(buf.pos) + want.used
  {
    var crlf, eof;
    bs, crlf, eof := RequestReader.ReadPayload(buf, n);
    if eof {
      return bs, Some(Eof);
    }
    if crlf[0] != CR || crlf[1] != LF {
      assert crlf != CRLF;
      return bs, Some(InvalidEol(crlf));
    }
    assert crlf == CRLF;
    err := None;
  }

  method ReadBulk(buf: Reader) returns (bs: seq<byte>, err: Option<Error>)
    requires buf.Valid()
    modifies buf
    ensures buf.Valid() && old(buf.pos) <= buf.pos
    ensures var want := BulkAt(buf.data, old(buf.pos));
            bs == want.bs && err == want.err && (!IsPanic(err) ==> buf.pos == old(buf.pos) + want.used)
  {
    var b := buf.ReadByte();
    if b.None? {
      return [], Some(Eof);
    }
    if b.value != DOLLAR {
      return [], Some(InvalidFirstCharacter(b.value));
    }
    bs, err := ReadSizedBulk(buf);
  }

  /** readBulk after its '$': the length, then the payload and its CR LF. */
  method ReadSizedBulk(buf: Reader) returns (bs: seq<byte>, err: Option<Error>)
    requires 0 < buf.pos <= |buf.data|
    modifies buf
    ensures buf.Valid() && old(buf.pos) <= buf.pos
    ensures var want := BulkAfter(buf.data, old(buf.pos) - 1, LengthAt(buf.data, old(buf.pos)));
            bs == want.bs && err == want.err && (!IsPanic(err) ==> buf.pos == old(buf.pos) - 1 + want.used)
  {
    var n, e := ReadLength(buf);
    if e.Some? {
      return [], e;
    }
    if n < 0 {
      return [], Some(Panic(NegativeMakeLength));
    }
    bs, err := ReadSized(buf, n);
  }

  // ---------------------------------------------------------------------------------------------
  // Read

  /** Read's loop over k bulks from position j: it stops at the first bulk that fails, whose buffer
      is stored in its slot before the error is returned. */
  function BulksFrom(d: seq<byte>, j: nat, k: nat): (m: RequestReader.Args)
    requires j <= |d|
    ensures j + m.used <= |d| && |m.values| <= k
    ensures m.err.None? ==> |m.values| == k
    decreases k, 2
  {
    if k == 0 then RequestReader.Args([], None, 0) else BulksTurn(d, j, k)
  }

  /** Turn k from the end of the loop; as in server/reader.go's model, the loop is three mutually
      recursive functions so that readBulk's reference function is only unfolded two calls down. */
  function BulksTurn(d: seq<byte>, j: nat, k: nat): (m: RequestReader.Args)
    requires j <= |d| && k > 0
    ensures j + m.used <= |d| && |m.values| <= k
    ensures m.err.None? ==> |m.values| == k
    decreases k, 1
  {
    BulksStep(d, j, k)
  }

  /** One turn of the loop, readBulk, then the turns after it. */
  function BulksStep(d: seq<byte>, j: nat, k: nat): (m: RequestReader.Args)
    requires j <= |d| && k > 0
    ensures j + m.used <= |d| && |m.values| <= k
    ensures m.err.None? ==> |m.values| == k
    decreases k, 0
  {
    var a := BulkAt(d, j);
    if IsPanic(a.err) then RequestReader.Args([], a.err, a.used)
    else if a.err.Some? then RequestReader.Args([a.bs], a.err, a.used)
    else
      var m := BulksFrom(d, j + a.used, k - 1);
      RequestReader.Args([a.bs] + m.values, m.err, a.used + m.used)
  }

  /** What Read returns. The whole input is read first, so how much of it was looked at is not
      observable. */
  datatype Received = Received(args: seq<seq<byte>>, err: Option<Error>)

  /** Read over the input d: '*' (else "Invalid first character" with the byte), a count (below 0,
      `make` panics), the bulks in a slice made with that length (when a bulk fails, the slots after
      it stay nil), then the input must be exhausted (else "Trailing garbage", with the bulks). When
      it is, the error returned is the function's named result, which the last successful ReadByte
      left nil: the io.EOF of the final check lives in a shadowing variable. */
  function ReceivedOf(d: seq<byte>): (q: Received)
    ensures q.err.None? ==> d != [] && d[0] == STAR && |q.args| == LengthAt(d, 1).n
  {
    if d == [] then Received([], Some(Eof))
    else if d[0] != STAR then Received([], Some(InvalidFirstCharacter(d[0])))
    else
      var len := LengthAt(d, 1);
      if len.err.Some? then Received([], len.err)
      else if len.n < 0 then Received([], Some(Panic(NegativeMakeLength)))
      else
        var m := BulksFrom(d, 1 + len.used, len.n);
        if IsPanic(m.err) then Received([], m.err)
        else if m.err.Some? then Received(m.values + Blank(len.n - |m.values|), m.err)
        else if 1 + len.used + m.used < |d| then Received(m.values, Some(TrailingGarbage))
        else Received(m.values, None)
  }

  /** One turn of Read's loop: readBulk, and where the loop stands after it. */
  method NextBulk(buf: Reader, ghost whole: RequestReader.Args, ghost done: seq<seq<byte>>, ghost p: nat,
                  ghost n: nat, ghost i: nat)
    returns (bs: seq<byte>, err: Option<Error>)
    requires buf.Valid() && i < n && p <= buf.pos
    requires RequestReader.Joined(whole, done, buf.pos - p, BulksFrom(buf.data, buf.pos, n - i))
    modifies buf
    ensures buf.Valid()
    ensures IsPanic(err) ==> whole.err == err
    ensures !IsPanic(err) && err.Some? ==> whole.values == done + [bs] && whole.err == err
    ensures err.None? ==> p <= buf.pos
                          && RequestReader.Joined(whole, done + [bs], buf.pos - p, BulksFrom(buf.data, buf.pos, n - (i + 1)))
  {
    ghost var before := buf.pos;
    assert BulksFrom(buf.data, before, n - i) == BulksTurn(buf.data, before, n - i) == BulksStep(buf.data, before, n - i);
    bs, err := ReadBulk(buf);
    if err.None? {
      ghost var next := BulksFrom(buf.data, buf.pos, n - (i + 1));
      assert done + ([bs] + next.values) == (done + [bs]) + next.values;
    }
  }

  /** The loop of Read: res[i], err = readBulk(buf) for each i below n, into a slice made with
      length n, until a bulk fails. */
  method ReadBulks(buf: Reader, n: nat) returns (res: seq<seq<byte>>, err: Option<Error>)
    requires buf.Valid()
    modifies buf
    ensures buf.Valid()
    ensures var want := BulksFrom(buf.data, old(buf.pos), n);
            err == want.err
            && (!IsPanic(err) ==> res == want.values + Blank(n - |want.values|))
            && (err.None? ==> buf.pos == old(buf.pos) + want.used)
  {
    ghost var p := buf.pos;
    ghost var whole := BulksFrom(buf.data, p, n);
    res := Blank(n);
    var i := 0;
    ghost var done: seq<seq<byte>> := [];
    assert res == done + Blank(n - i);
    while i < n
      invariant buf.Valid() && 0 <= i <= n && p <= buf.pos && |done| == i
      invariant res == done + Blank(n - i)
      invariant RequestReader.Joined(whole, done, buf.pos - p, BulksFrom(buf.data, buf.pos, n - i))
    {
      var bs, e := NextBulk(buf, whole, done, p, n, i);
      if IsPanic(e) {
        return [], e;
      }
      RequestReader.FillSlot(done, bs, n);
      res := res[i := bs];
      if e.Some? {
        return res, e;
      }
      done := done + [bs];
      i := i + 1;
    }
    assert done + [] == done;
    err := None;
  }

  /** Read once the count n has been read: the loop and the check for trailing bytes decide. */
  lemma ReceivedOfBulks(d: seq<byte>, n: nat, u: nat, j: nat, m: RequestReader.Args)
    requires 0 < |d| && d[0] == STAR && j == 1 + u && j <= |d|
    requires LengthAt(d, 1) == Length(n, None, u)
    requires BulksFrom(d, j, n) == m
    ensures ReceivedOf(d) == if IsPanic(m.err) then Received([], m.err)
                             else if m.err.Some? then Received(m.values + Blank(n - |m.values|), m.err)
                             else if j + m.used < |d| then Received(m.values, Some(TrailingGarbage))
                             else Received(m.values, None)
  {
  }

  /** Read: ioutil.ReadAll, then the decoding of what it returned from a fresh bytes.Buffer. */
  method Read(r: Reader) returns (res: seq<seq<byte>>, err: Option<Error>)
    requires r.Valid()
    modifies r
    ensures r.Valid() && r.pos == |r.data|
    ensures var want := ReceivedOf(old(r.Rest()));
            err == want.err && (!IsPanic(err) ==> res == want.args)
  {
    var data := r.ReadAll();
    var buf := new Reader(data);
    var b := buf.ReadByte();
    if b.None? {
      return [], Some(Eof);
    }
    if b.value != STAR {
      return [], Some(InvalidFirstCharacter(b.value));
    }
    var n, e := ReadLength(buf);
    if e.Some? {
      return [], e;
    }
    if n < 0 {
      return [], Some(Panic(NegativeMakeLength));
    }
    ghost var j := buf.pos;
    ghost var m := BulksFrom(data, j, n);
    ReceivedOfBulks(data, n, j - 1, j, m);
    res, e := ReadBulks(buf, n);
    if e.Some? {
      return res, e;
    }
    assert res == m.values + Blank(0) && m.values + [] == m.values;
    var last := buf.ReadByte();
    if last.Some? {
      return res, Some(TrailingGarbage);
    }
    err := None;
  }
}
