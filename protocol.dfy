/** protocol.go: the encoders WriteBulk / WriteMultiBulk and a reply decoder that works on a whole
    byte slice with explicit offsets (readLine, ReadBulk, NewResponse) instead of a stream.
    Offsets are Go int64 values; the one place where their arithmetic can wrap (a huge bulk length)
    is written out as an explicit bound. A Go runtime panic is reported as the error Panic(reason). */
module Protocol {
  import opened Wire
  import opened Decimal
  import opened Frames
  import Writer
  import opened Stream

  /** WriteBulk is a verbatim copy of writer.go's writeBulk; the model shares that one definition. */
  method WriteBulk(bulk: seq<byte>) returns (out: seq<byte>)
    requires IsAscii(bulk)
    ensures out == BulkFrame(bulk)
  {
    out := Writer.WriteBulk(bulk);
  }

  /** WriteMultiBulk(cmd, args...): the count 1 + len(args), then cmd's bulk, then each argument's. */
  method WriteMultiBulk(cmd: seq<byte>, args: seq<seq<byte>>) returns (out: seq<byte>)
    requires IsAscii(cmd)
    requires forall i :: 0 <= i < |args| ==> IsAscii(args[i])
    ensures out == MultiBulkFrame([cmd] + args)
  {
    ghost var all := [cmd] + args;
    var buffer: seq<byte> := [STAR];
    buffer := buffer + Itoa(1 + |args|);
    buffer := buffer + CRLF;
    ghost var header := buffer;
    assert header == [STAR] + Itoa(|all|) + CRLF;
    var b := WriteBulk(cmd);
    BulksGrow(header, all, 0);
    buffer := buffer + b;
    var i := 0;
    while i < |args|
      invariant i <= |args|
      invariant buffer == header + Bulks(all[..i + 1])
    {
      b := WriteBulk(args[i]);
      BulksGrow(header, all, i + 1);
      buffer := buffer + b;
      i := i + 1;
    }
    assert all[..i + 1] == all;
    out := buffer;
  }

  // ---------------------------------------------------------------------------------------------
  // readLine(data, offset)

  /** The loop of readLine stops at offset q when data[q] is CR and data[q+1] is LF; when the CR is
      the last byte, evaluating data[q+1] is the out-of-range panic, so the loop stops there too. */
  predicate Stop(data: seq<byte>, q: nat)
    requires q < |data|
  {
    data[q] == CR && (q + 1 == |data| || data[q + 1] == LF)
  }

  /** Where readLine's loop, started at o, stops: the first stopping offset, or len(data). */
  function LineEnd(data: seq<byte>, o: nat): (p: nat)
    requires o <= |data|
    ensures o <= p <= |data|
    ensures forall q :: o <= q < p ==> !Stop(data, q)
    ensures p < |data| ==> Stop(data, p)
    decreases |data| - o
  {
    if o == |data| then o else if Stop(data, o) then o else LineEnd(data, o + 1)
  }

  /** No CR LF pair inside s. */
  predicate NoCrLf(s: seq<byte>)
  {
    forall j :: 0 <= j < |s| - 1 ==> !(s[j] == CR && s[j + 1] == LF)
  }

  /** The outcome of readLine: the line and the offset after it, or a panic. */
  datatype Scan = Scan(line: seq<byte>, next: nat) | Crashed(reason: PanicReason)

  /** readLine(data, offset): the bytes from offset up to the first CR LF, and the offset just past
      its LF (len(data) + 2 when there is no CR LF). It panics when offset is past the end (a
      negative buffer length) and when it meets a CR as the very last byte. */
  function LineFrom(data: seq<byte>, offset: nat): (s: Scan)
    ensures s.Scan? ==> offset + |s.line| <= |data| && data[offset..offset + |s.line|] == s.line
    ensures s.Scan? ==> NoCrLf(s.line) && s.next == offset + |s.line| + 2
    ensures s.Scan? && s.next - 2 < |data| ==> s.next <= |data| && data[s.next - 2..s.next] == CRLF
    ensures s.Crashed? ==> offset > |data| || (|data| > 0 && data[|data| - 1] == CR)
  {
    if offset > |data| then Crashed(NegativeMakeLength)
    else
      var p := LineEnd(data, offset);
      if p < |data| && p + 1 == |data| then Crashed(IndexOutOfRange)
      else
        var line := data[offset..p];
        assert NoCrLf(line) by {
          forall j | 0 <= j < |line| - 1
            ensures !(line[j] == CR && line[j + 1] == LF)
          {
            assert !Stop(data, offset + j);
          }
        }
        Scan(line, p + 2)
  }

  /** readLine as written: a loop copying bytes into a buffer of len(data) - offset bytes. */
  method ReadLine(data: seq<byte>, offset: nat) returns (s: Scan)
    ensures s == LineFrom(data, offset)
  {
    var n := |data|;
    if offset > n {
      return Crashed(NegativeMakeLength);
    }
    var buffer := new byte[n - offset];
    var i := 0;
    var o := offset;
    while o < n
      invariant offset <= o <= n && i == o - offset
      invariant LineEnd(data, offset) == LineEnd(data, o)
      invariant forall t :: 0 <= t < i ==> buffer[t] == data[offset + t]
    {
      if data[o] == CR {
        if o + 1 == n {
          return Crashed(IndexOutOfRange);
        }
        if data[o + 1] == LF {
          break;
        }
      }
      buffer[i] := data[o];
      i := i + 1;
      o := o + 1;
    }
    assert buffer[..i] == data[offset..o];
    return Scan(buffer[..i], o + 2);
  }

  // ---------------------------------------------------------------------------------------------
  // ReadBulk

  /** What ReadBulk returns: a value, the next offset and an error; or a panic. */
  datatype Bulk = Bulk(value: seq<byte>, next: nat, err: Option<Error>) | BulkPanic(reason: PanicReason)

  /** ReadBulk(data, offset): skips the byte at offset, reads the length line, and slices that many
      bytes after it. The two bytes after the payload are skipped without being looked at. A
      non-empty value without an error is the stretch of data that ends two bytes before the next
      offset. */
  function ReadBulk(data: seq<byte>, offset: nat): (b: Bulk)
    ensures b.Bulk? && b.err.None? && b.value != [] ==>
              |b.value| + 2 <= b.next <= |data| && data[b.next - 2 - |b.value|..b.next - 2] == b.value
    ensures b.Bulk? && b.err == Some(NotEnoughBytes) ==> b.value == []
  {
    match LineFrom(data, offset + 1)
    case Crashed(reason) => BulkPanic(reason)
    case Scan(line, next) =>
      match ParseInt(line)
      case SyntaxError => Bulk(line, next, Some(NumSyntax))
      case RangeError => Bulk(line, next, Some(NumRange))
      case Parsed(n) =>
        if n == -1 then Bulk([], next, None)
        // offset+num_bytes+2 overflows int64 and wraps to a negative number, so the length check
        // passes and the end of the slice is out of range
        else if next + n + 2 >= 0x8000_0000_0000_0000 then BulkPanic(SliceBounds)
        else if next + n + 2 > |data| then Bulk([], next, Some(NotEnoughBytes))
        // a length below -1 that passes the length check makes a slice whose end is before its start
        else if n < 0 then BulkPanic(SliceBounds)
        else Bulk(data[next..next + n], next + n + 2, None)
  }

  // ---------------------------------------------------------------------------------------------
  // Response and NewResponse

  /** The fields of a Response that NewResponse sets (the struct's `status` field is never set). */
  datatype Response = Response(kind: byte, value: seq<byte>, isNull: bool, values: seq<seq<byte>>)
  {
    predicate IsStatus() { kind == PLUS }
    predicate IsInteger() { kind == COLON }
    predicate IsBulk() { kind == DOLLAR }
    predicate IsMultiBulk() { kind == STAR }
    function Status(): seq<byte> { value }
    /** Integer(): the stored value parsed as a decimal int64. */
    function Integer(): Parsed { ParseInt(value) }
    function Value(): seq<byte> { value }
    function IsNull(): bool { isNull }
    function Values(): seq<seq<byte>> { values }
  }

  /** What NewResponse returns. */
  datatype Reply = Reply(r: Response, err: Option<Error>)

  /** The elements of a multi-bulk, read one after the other with ReadBulk; a panic ends the read. */
  datatype Elems = Elems(values: seq<seq<byte>>, panic: Option<PanicReason>)

  /** The k values that NewResponse's loop reads from offset on; each ReadBulk error is dropped and
      the value ReadBulk returned with it is kept. */
  function ElemsFrom(data: seq<byte>, offset: nat, k: nat): (e: Elems)
    ensures e.panic.None? ==> |e.values| == k
    decreases k, 1
  {
    if k == 0 then Elems([], None) else ElemsTurn(data, offset, k)
  }

  /** One turn of the loop and the turns after it. */
  function ElemsTurn(data: seq<byte>, offset: nat, k: nat): (e: Elems)
    requires k > 0
    ensures e.panic.None? ==> |e.values| == k
    decreases k, 0
  {
    var b := ReadBulk(data, offset);
    if b.BulkPanic? then Elems([], Some(b.reason))
    else
      var rest := ElemsFrom(data, b.next, k - 1);
      Elems([b.value] + rest.values, rest.panic)
  }

  /** NewResponse(data): the kind is the first byte; '+', ':' and '-' read one line, '$' one bulk,
      '*' a count and that many bulks; any other kind gives a response with only the kind set. */
  function ResponseOf(data: seq<byte>): (o: Reply)
    ensures |data| > 0 ==> o.r.kind == data[0]
    ensures |data| == 0 ==> o.err == Some(Panic(IndexOutOfRange))
  {
    if |data| == 0 then Reply(Response(0, [], false, []), Some(Panic(IndexOutOfRange)))
    else
      var r := Response(data[0], [], false, []);
      if data[0] == PLUS || data[0] == COLON || data[0] == MINUS then
        match LineFrom(data, 1)
        case Crashed(reason) => Reply(r, Some(Panic(reason)))
        case Scan(line, _) =>
          if data[0] == MINUS then Reply(r, Some(Message(line))) else Reply(r.(value := line), None)
      else if data[0] == DOLLAR then
        var b := ReadBulk(data, 0);
        if b.BulkPanic? then Reply(r, Some(Panic(b.reason)))
        else Reply(r.(value := b.value, isNull := |b.value| == 0), b.err)
      else if data[0] == STAR then
        match LineFrom(data, 1)
        case Crashed(reason) => Reply(r, Some(Panic(reason)))
        case Scan(line, offset) =>
          match ParseInt(line)
          case Parsed(n) =>
            if n == -1 then Reply(r.(isNull := true), None)
            else if n < 0 then Reply(r, Some(Panic(NegativeMakeLength)))
            else
              var e := ElemsFrom(data, offset, n);
              if e.panic.Some? then Reply(r, Some(Panic(e.panic.value)))
              else Reply(r.(values := e.values), None)
          case _ => Reply(r, ParseInt(line).Err())
      else Reply(r, None)
  }

  /** The values read so far followed by the elements still to come. */
  predicate Joined(whole: Elems, done: seq<seq<byte>>, rest: Elems)
  {
    whole.panic == rest.panic && whole.values == done + rest.values
  }

  /** One turn of NewResponse's loop: a ReadBulk that panics ends the elements with that panic;
      otherwise its value is the next element and the rest are read from its next offset. */
  lemma ElemsStep(data: seq<byte>, whole: Elems, done: seq<seq<byte>>, offset: nat, n: nat, i: nat)
    requires i < n && Joined(whole, done, ElemsFrom(data, offset, n - i))
    ensures var b := ReadBulk(data, offset);
            if b.BulkPanic? then whole.panic == Some(b.reason)
            else Joined(whole, done + [b.value], ElemsFrom(data, b.next, n - (i + 1)))
  {
    var b := ReadBulk(data, offset);
    assert ElemsFrom(data, offset, n - i) == ElemsTurn(data, offset, n - i);
    if b.Bulk? {
      var rest := ElemsFrom(data, b.next, n - (i + 1));
      assert ElemsTurn(data, offset, n - i) == Elems([b.value] + rest.values, rest.panic);
      assert done + ([b.value] + rest.values) == (done + [b.value]) + rest.values;
    }
  }

  /** After the last turn nothing is left to read and nothing panicked. */
  lemma ElemsDone(data: seq<byte>, whole: Elems, done: seq<seq<byte>>, offset: nat)
    requires Joined(whole, done, ElemsFrom(data, offset, 0))
    ensures whole == Elems(done, None)
  {
    assert done + [] == done;
  }

  /** r.values[i], offset, err = ReadBulk(data, offset): the bulk that the loop's turn i reads, with
      what it means for the elements still to come. */
  method NextValue(data: seq<byte>, ghost whole: Elems, ghost done: seq<seq<byte>>, offset: nat, ghost n: nat, ghost i: nat) returns (b: Bulk)
    requires i < n && Joined(whole, done, ElemsFrom(data, offset, n - i))
    ensures b.BulkPanic? ==> whole.panic == Some(b.reason)
    ensures b.Bulk? ==> Joined(whole, done + [b.value], ElemsFrom(data, b.next, n - (i + 1)))
  {
    b := ReadBulk(data, offset);
    ElemsStep(data, whole, done, offset, n, i);
  }

  /** The loop of NewResponse's '*' case: r.values[i], offset, err = ReadBulk(data, offset) for each
      i below n, where the inner `err` shadows the function's result and is never looked at. */
  method ReadValues(data: seq<byte>, offset: nat, n: nat) returns (values: seq<seq<byte>>, panic: Option<PanicReason>)
    ensures panic == ElemsFrom(data, offset, n).panic
    ensures panic.None? ==> values == ElemsFrom(data, offset, n).values
  {
    values := Blank(n);
    var o := offset;
    ghost var whole := ElemsFrom(data, offset, n);
    ghost var done: seq<seq<byte>> := [];
    var i := 0;
    while i < n
      invariant 0 <= i <= n && |values| == n
      invariant values[..i] == done
      invariant Joined(whole, done, ElemsFrom(data, o, n - i))
    {
      var b := NextValue(data, whole, done, o, n, i);
      if b.BulkPanic? {
        return values, Some(b.reason);
      }
      assert values[i := b.value][..i + 1] == values[..i] + [b.value];
      values := values[i := b.value];
      done := done + [b.value];
      o := b.next;
      i := i + 1;
    }
    ElemsDone(data, whole, done, o);
    assert values[..i] == values;
    panic := None;
  }

  /** NewResponse as written: it sets the fields of a zero Response and, for '*', fills the values
      in a loop that threads the offset from one ReadBulk to the next. */
  method NewResponse(data: seq<byte>) returns (r: Response, err: Option<Error>)
    ensures Reply(r, err) == ResponseOf(data)
  {
    if |data| == 0 {
      return Response(0, [], false, []), Some(Panic(IndexOutOfRange));
    }
    r := Response(data[0], [], false, []);
    err := None;
    if r.kind == PLUS || r.kind == COLON || r.kind == MINUS {
      var s := ReadLine(data, 1);
      if s.Crashed? {
        return r, Some(Panic(s.reason));
      }
      if r.kind == MINUS {
        return r, Some(Message(s.line));
      }
      r := r.(value := s.line);
    } else if r.kind == DOLLAR {
      var b := ReadBulk(data, 0);
      if b.BulkPanic? {
        return r, Some(Panic(b.reason));
      }
      r := r.(value := b.value);
      if |r.value| == 0 {
        r := r.(isNull := true);
      }
      err := b.err;
    } else if r.kind == STAR {
      var s := ReadLine(data, 1);
      if s.Crashed? {
        return r, Some(Panic(s.reason));
      }
      var count := ParseInt(s.line);
      if !count.Parsed? {
        return r, count.Err();
      }
      var n := count.value;
      if n == -1 {
        r := r.(isNull := true);
      } else if n < 0 {
        return r, Some(Panic(NegativeMakeLength));
      } else {
        var values, panic := ReadValues(data, s.next, n);
        if panic.Some? {
          return r, Some(Panic(panic.value));
        }
        r := r.(values := values);
      }
    }
  }
}
