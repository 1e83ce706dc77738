/** reader.go: the general reply decoder. Every function consumes a reader byte by byte; Read
    dispatches on the indicator byte and decodes arrays by calling itself once per element.
    The reference functions below describe what each function does to the bytes `d` of the
    stream when it starts at position `i`. */
module ReplyReader {
  import opened Wire
  import opened Decimal
  import opened Stream

  // ---------------------------------------------------------------------------------------------
  // readNumber

  /** What readNumber returns, and how many bytes it consumed. */
  datatype Number = Number(n: int, err: Option<Error>, used: nat)

  /** readNumber: the first byte (a read error there is returned), a '-' standing for a '0' digit
      and negating the result, then the loop below. The value of a failed read is 0. */
  function NumberAt(d: seq<byte>, i: nat): (r: Number)
    requires i <= |d|
    ensures i + r.used <= |d|
    ensures i < |d| ==> r.used >= 1
    ensures r.err.Some? ==> r.n == 0
  {
    if i == |d| then Number(0, Some(Eof), 0)
    else
      var negative := d[i] == MINUS;
      var loop := DigitLoop(if negative then ZERO else d[i], 0, d, i + 1);
      Number((if negative then -1 else 1) * loop.n, loop.err, loop.used + 1)
  }

  /** readNumber's loop, one byte per turn: `c` is the byte in hand, `n` the digits accumulated so
      far, and d[i..] the unread bytes; `used` counts the bytes the loop reads after `c`. */
  function DigitLoop(c: byte, n: int, d: seq<byte>, i: nat): (r: Number)
    requires i <= |d|
    ensures i + r.used <= |d|
    ensures r.err.Some? ==> r.n == 0
    decreases |d| - i
  {
    if IsDigit(c) then
      var n' := n * 10 + (c - ZERO);
      if i == |d| then Number(n', None, 0)
      else
        var t := DigitLoop(d[i], n', d, i + 1);
        Number(t.n, t.err, t.used + 1)
    else if c == CR then
      if i == |d| then Number(0, Some(InvalidAfterCr(CR)), 0)
      else if d[i] == LF then Number(n, None, 1)
      else Number(0, Some(InvalidAfterCr(d[i])), 1)
    else Number(0, Some(InvalidCharacter(c)), 0)
  }

  /** readNumber stated declaratively on the unread bytes s: an optional '-', then the longest run
      of digits, then either the end of the stream or CR LF. */
  function NumberSpec(s: seq<byte>): (r: Number)
    ensures r.used <= |s|
  {
    if s == [] then Number(0, Some(Eof), 0)
    else if s[0] == MINUS then
      var b := BodyNumber(s[1..], true);
      Number(b.n, b.err, b.used + 1)
    else BodyNumber(s, false)
  }

  /** After the sign: the digits, then the end of the stream or CR LF; any other byte after the
      digits, or a CR not followed by LF, is an error. */
  function BodyNumber(body: seq<byte>, negative: bool): (r: Number)
    ensures r.used <= |body|
  {
    var k := DigitRun(body);
    var v: int := if negative then -(ValueOf(body[..k]) as int) else ValueOf(body[..k]);
    if k == |body| then Number(v, None, |body|)
    else if body[k] != CR then Number(0, Some(InvalidCharacter(body[k])), k + 1)
    else if k + 1 == |body| then Number(0, Some(InvalidAfterCr(CR)), |body|)
    else if body[k + 1] == LF then Number(v, None, k + 2)
    else Number(0, Some(InvalidAfterCr(body[k + 1])), k + 2)
  }

  /** Digits accumulated left to right, as readNumber's `n = n*10 + digit` does. */
  function Accumulate(n: int, ds: seq<byte>): int
    requires AllDigits(ds)
    decreases |ds|
  {
    if ds == [] then n else Accumulate(n * 10 + (ds[0] - ZERO), ds[1..])
  }

  lemma {:induction false} AccumulateSnoc(n: int, ds: seq<byte>, d: byte)
    requires AllDigits(ds) && IsDigit(d)
    ensures AllDigits(ds + [d]) && Accumulate(n, ds + [d]) == Accumulate(n, ds) * 10 + (d - ZERO)
    decreases |ds|
  {
    if ds != [] {
      assert (ds + [d])[1..] == ds[1..] + [d];
      AccumulateSnoc(n * 10 + (ds[0] - ZERO), ds[1..], d);
    }
  }

  lemma {:induction false} AccumulateFromZero(ds: seq<byte>)
    requires AllDigits(ds)
    ensures Accumulate(0, ds) == ValueOf(ds)
    decreases |ds|
  {
    if ds != [] {
      var init := ds[..|ds| - 1];
      AccumulateFromZero(init);
      AccumulateSnoc(0, init, ds[|ds| - 1]);
      assert init + [ds[|ds| - 1]] == ds;
    }
  }

  /** The loop stops where the run of digits starting with the byte in hand stops. */
  lemma {:induction false} DigitLoopStops(c: byte, n: int, d: seq<byte>, i: nat)
    requires i <= |d|
    ensures var u := [c] + d[i..];
            var k := DigitRun(u);
            var v := Accumulate(n, u[..k]);
            DigitLoop(c, n, d, i) ==
              if k == |u| then Number(v, None, |d| - i)
              else if u[k] != CR then Number(0, Some(InvalidCharacter(u[k])), k)
              else if k + 1 == |u| then Number(0, Some(InvalidAfterCr(CR)), |d| - i)
              else if u[k + 1] == LF then Number(v, None, k + 1)
              else Number(0, Some(InvalidAfterCr(u[k + 1])), k + 1)
    decreases |d| - i
  {
    var u := [c] + d[i..];
    if IsDigit(c) {
      var n' := n * 10 + (c - ZERO);
      if i == |d| {
        assert u[..1] == [c];
      } else {
        DigitLoopStops(d[i], n', d, i + 1);
        var s := d[i..];
        assert [d[i]] + d[i + 1..] == s == u[1..];
        var k' := DigitRun(s);
        assert DigitRun(u) == k' + 1;
        assert u[..k' + 1] == [c] + s[..k'];
        assert ([c] + s[..k'])[1..] == s[..k'];
      }
    } else {
      assert DigitRun(u) == 0;
    }
  }

  /** A leading '0' does not change the value of a digit string. */
  lemma {:induction false} ValueOfZeroPrefix(ds: seq<byte>)
    requires AllDigits(ds)
    ensures AllDigits([ZERO] + ds) && ValueOf([ZERO] + ds) == ValueOf(ds)
    decreases |ds|
  {
    if ds != [] {
      var init := ds[..|ds| - 1];
      ValueOfZeroPrefix(init);
      assert ([ZERO] + ds)[..|ds|] == [ZERO] + init;
    }
  }

  /** readNumber's loop reads exactly the number the declarative statement describes. */
  lemma NumberAtMeetsSpec(d: seq<byte>, i: nat)
    requires i <= |d|
    ensures NumberAt(d, i) == NumberSpec(d[i..])
  {
    if i == |d| {
      return;
    }
    var s := d[i..];
    var negative := s[0] == MINUS;
    var c := if negative then ZERO else s[0];
    DigitLoopStops(c, 0, d, i + 1);
    assert s[1..] == d[i + 1..];
    var u := [c] + s[1..];
    var k := DigitRun(u);
    AccumulateFromZero(u[..k]);
    if negative {
      var body := s[1..];
      var kb := DigitRun(body);
      assert u[1..] == body;
      assert k == kb + 1;
      assert u[..k] == [ZERO] + body[..kb];
      ValueOfZeroPrefix(body[..kb]);
    } else {
      assert u == s;
    }
  }

  method ReadNumber(r: Reader) returns (n: int, err: Option<Error>)
    requires r.Valid()
    modifies r
    ensures r.Valid()
    ensures var want := NumberAt(r.data, old(r.pos));
            n == want.n && err == want.err && r.pos == old(r.pos) + want.used
  {
    var b := r.ReadByte();
    if b.None? {
      return 0, Some(Eof);
    }
    var c: byte := b.value;
    var sign := 1;
    if c == MINUS {
      sign := -1;
      c := ZERO;
    }
    ghost var p1 := r.pos;
    ghost var loop := DigitLoop(c, 0, r.data, p1);
    n, err := 0, None;
    while true
      invariant r.Valid() && p1 <= r.pos && err == None
      invariant var cur := DigitLoop(c, n, r.data, r.pos);
                cur.n == loop.n && cur.err == loop.err && loop.used == (r.pos - p1) + cur.used
      decreases |r.data| - r.pos
    {
      if IsDigit(c) {
        n := n * 10 + (c - ZERO);
      } else if c == CR {
        var next := r.ReadByte();
        if !(next.Some? && next.value == LF) {
          n, err := 0, Some(InvalidAfterCr(if next.Some? then next.value else CR));
        }
        break;
      } else {
        n, err := 0, Some(InvalidCharacter(c));
        break;
      }
      var next := r.ReadByte();
      if next.None? {
        break;
      }
      c := next.value;
    }
    assert loop == Number(n, err, r.pos - p1);
    if err.None? {
      n := sign * n;
    }
  }

  // ---------------------------------------------------------------------------------------------
  // readLine

  /** What readLine puts in its buffer, whether it fails, and how many bytes it consumed. */
  datatype Line = Line(stored: seq<byte>, err: Option<Error>, used: nat)

  /** readLine's scan with an unbounded buffer. A CR followed by LF ends the line; a CR followed by
      any other byte stores both; the end of the stream ends the line, except right after a CR,
      where the read of the byte after the CR reports io.EOF. */
  function ScanLine(d: seq<byte>, i: nat): (r: Line)
    requires i <= |d|
    ensures i + r.used <= |d|
    ensures r.err.Some? ==> r.err == Some(Eof)
    decreases |d| - i
  {
    if i == |d| then Line([], None, 0)
    else if d[i] == CR then
      if i + 1 == |d| then Line([], Some(Eof), 1)
      else if d[i + 1] == LF then Line([], None, 2)
      else
        var t := ScanLine(d, i + 2);
        Line([CR, d[i + 1]] + t.stored, t.err, t.used + 2)
    else
      var t := ScanLine(d, i + 1);
      Line([d[i]] + t.stored, t.err, t.used + 1)
  }

  /** The size of readLine's buffer. */
  const LineBuffer: nat := 1024

  /** readLine: the stored bytes, or "" with io.EOF, or a panic once a byte is stored past the end
      of the 1024-byte buffer. */
  function LineAt(d: seq<byte>, i: nat): (r: Line)
    requires i <= |d|
    ensures i + r.used <= |d|
    ensures r.err.None? ==> |r.stored| <= LineBuffer
    ensures r.err.Some? ==> r.stored == []
  {
    var sc := ScanLine(d, i);
    if |sc.stored| > LineBuffer then Line([], Some(Panic(IndexOutOfRange)), sc.used)
    else if sc.err.Some? then Line([], sc.err, sc.used)
    else sc
  }

  lemma Regroup(whole: seq<byte>, stored: seq<byte>, step: seq<byte>, rest: seq<byte>)
    requires whole == stored + (step + rest)
    ensures whole == (stored + step) + rest
  {
  }

  method ReadLine(r: Reader) returns (line: seq<byte>, err: Option<Error>)
    requires r.Valid()
    modifies r
    ensures r.Valid() && old(r.pos) <= r.pos
    ensures var want := LineAt(r.data, old(r.pos));
            line == want.stored && err == want.err
            && (!IsPanic(err) ==> r.pos == old(r.pos) + want.used)
  {
    ghost var p := r.pos;
    ghost var whole := ScanLine(r.data, p);
    var bs := new byte[LineBuffer];
    var l := 0;
    ghost var stored: seq<byte> := [];
    while true
      invariant r.Valid() && p <= r.pos && l <= LineBuffer && bs[..l] == stored
      invariant var cur := ScanLine(r.data, r.pos);
                whole.stored == stored + cur.stored && whole.err == cur.err
                && whole.used == (r.pos - p) + cur.used
      decreases |r.data| - r.pos
    {
      ghost var before := ScanLine(r.data, r.pos);
      var b := r.ReadByte();
      if b.None? {
        break;
      }
      var c := b.value;
      ghost var step: seq<byte> := [c];
      if c == CR {
        var next := r.ReadByte();
        if next.None? {
          return [], Some(Eof);
        }
        if next.value == LF {
          break;
        }
        if l == LineBuffer {
          return [], Some(Panic(IndexOutOfRange));
        }
        bs[l] := CR;
        l := l + 1;
        c := next.value;
        step := [CR, c];
      }
      if l == LineBuffer {
        return [], Some(Panic(IndexOutOfRange));
      }
      bs[l] := c;
      l := l + 1;
      assert bs[..l] == stored + step;
      ghost var cur := ScanLine(r.data, r.pos);
      assert before.stored == step + cur.stored;
      Regroup(whole.stored, stored, step, cur.stored);
      stored := stored + step;
    }
    line, err := bs[..l], None;
  }

  // ---------------------------------------------------------------------------------------------
  // Values, readBulk and Read

  /** What Read returns as an interface{}: nil, a string, an int, a slice of elements, or (only as
      an element of a slice) the error an element's read returned. */
  datatype Value = Nil | Str(bytes: seq<byte>) | Int(n: int) | Array(elems: seq<Value>) | Fail(e: Error)

  /** A decoded reply, its error, and how many bytes it consumed. */
  datatype Decoded = Decoded(ret: Value, err: Option<Error>, used: nat)

  /** readBulk: a length; -1 is nil; otherwise that many bytes verbatim, then up to two more bytes
      consumed without looking at them. A length below -1 makes `make` panic. */
  function BulkAt(d: seq<byte>, i: nat): (r: Decoded)
    requires i <= |d|
    ensures i + r.used <= |d|
  {
    var num := NumberAt(d, i);
    if num.err.Some? then Decoded(Nil, num.err, num.used)
    else if num.n == -1 then Decoded(Nil, None, num.used)
    else if num.n < 0 then Decoded(Nil, Some(Panic(NegativeMakeLength)), num.used)
    else
      var start := i + num.used;
      if |d| - start < num.n then Decoded(Nil, Some(Eof), |d| - i)
      else Decoded(Str(d[start..start + num.n]), None, num.used + num.n + Min(2, |d| - start - num.n))
  }

  method ReadBulk(r: Reader) returns (ret: Value, err: Option<Error>)
    requires r.Valid()
    modifies r
    ensures r.Valid() && old(r.pos) <= r.pos
    ensures var want := BulkAt(r.data, old(r.pos));
            ret == want.ret && err == want.err && (!IsPanic(err) ==> r.pos == old(r.pos) + want.used)
  {
    var num, e := ReadNumber(r);
    if e.Some? {
      return Nil, e;
    }
    if num == -1 {
      return Nil, None;
    }
    if num < 0 {
      return Nil, Some(Panic(NegativeMakeLength));
    }
    ghost var p := r.pos;
    var bs := new byte[num];
    var i := 0;
    while i < num
      invariant r.Valid() && 0 <= i <= num && r.pos == p + i
      invariant bs[..i] == r.data[p..r.pos]
    {
      var b := r.ReadByte();
      if b.None? {
        return Nil, Some(Eof);
      }
      bs[i] := b.value;
      i := i + 1;
    }
    assert bs[..] == bs[..i];
    var _, _ := r.ReadInto(2);
    ret, err := Str(bs[..]), None;
  }

  /** The elements of an array reply, the panic that cut it short if any, and the bytes consumed. */
  datatype Many = Many(items: seq<Value>, panic: Option<PanicReason>, used: nat)

  /** Read: the indicator byte, then the reply it announces; an unknown indicator is nil. */
  function ReadAt(d: seq<byte>, i: nat): (r: Decoded)
    requires i <= |d|
    ensures i + r.used <= |d|
    ensures i < |d| ==> r.used >= 1
    decreases |d| - i, 0
  {
    if i == |d| then Decoded(Nil, Some(Eof), 0)
    else
      var kind := d[i];
      if kind == PLUS then
        var l := LineAt(d, i + 1);
        if l.err.Some? then Decoded(Nil, l.err, 1 + l.used) else Decoded(Str(l.stored), None, 1 + l.used)
      else if kind == MINUS then
        var l := LineAt(d, i + 1);
        if l.err.Some? then Decoded(Str([]), l.err, 1 + l.used)
        else Decoded(Nil, Some(CannotConvert(l.stored)), 1 + l.used)
      else if kind == COLON then
        var num := NumberAt(d, i + 1);
        Decoded(Int(num.n), num.err, 1 + num.used)
      else if kind == DOLLAR then
        var b := BulkAt(d, i + 1);
        Decoded(b.ret, b.err, 1 + b.used)
      else if kind == STAR then
        var a := ArrayAt(d, i + 1);
        Decoded(a.ret, a.err, 1 + a.used)
      else Decoded(Nil, None, 1)
  }

  /** Read's '*' case: a count; -1 is nil; a count below -1 makes `make` panic; otherwise the
      elements. The array itself never carries an error. */
  function ArrayAt(d: seq<byte>, i: nat): (r: Decoded)
    requires i <= |d|
    ensures i + r.used <= |d|
    ensures r.ret.Array? ==> r.err.None? && |r.ret.elems| == NumberAt(d, i).n
    decreases |d| - i, 2
  {
    var num := NumberAt(d, i);
    if num.err.Some? then Decoded(Nil, num.err, num.used)
    else if num.n == -1 then Decoded(Nil, None, num.used)
    else if num.n < 0 then Decoded(Nil, Some(Panic(NegativeMakeLength)), num.used)
    else
      var m := ElemsAt(d, i + num.used, num.n);
      if m.panic.Some? then Decoded(Nil, Some(Panic(m.panic.value)), num.used + m.used)
      else Decoded(Array(m.items), None, num.used + m.used)
  }

  /** Read's array loop: k replies in a row, each failure stored as a Fail element in its place. */
  function ElemsAt(d: seq<byte>, i: nat, k: nat): (r: Many)
    requires i <= |d|
    ensures i + r.used <= |d|
    ensures r.panic.None? ==> |r.items| == k
    decreases |d| - i, 1, k
  {
    if k == 0 then Many([], None, 0)
    else
      var e := ReadAt(d, i);
      if IsPanic(e.err) then Many([], Some(e.err.value.reason), e.used)
      else
        var m := ElemsAt(d, i + e.used, k - 1);
        Many([Element(e.ret, e.err)] + m.items, m.panic, e.used + m.used)
  }

  /** Read. An array's elements are read by calling Read again once the indicator has been
      consumed, so every recursive call starts further into the stream. */
  method Read(r: Reader) returns (ret: Value, err: Option<Error>)
    requires r.Valid()
    modifies r
    ensures r.Valid() && old(r.pos) <= r.pos
    ensures var want := ReadAt(r.data, old(r.pos));
            err == want.err && (!IsPanic(err) ==> ret == want.ret && r.pos == old(r.pos) + want.used)
    decreases |r.data| - r.pos, 0
  {
    var kind := r.ReadByte();
    if kind.None? {
      return Nil, Some(Eof);
    }
    var k := kind.value;
    if k == PLUS {
      var line, e := ReadLine(r);
      if e.None? {
        ret, err := Str(line), None;
      } else {
        ret, err := Nil, e;
      }
    } else if k == MINUS {
      var line, e := ReadLine(r);
      if e.None? {
        ret, err := Nil, Some(CannotConvert(line));
      } else {
        ret, err := Str([]), e;
      }
    } else if k == COLON {
      var n, e := ReadNumber(r);
      ret, err := Int(n), e;
    } else if k == DOLLAR {
      ret, err := ReadBulk(r);
    } else if k == STAR {
      ret, err := ReadArray(r);
    } else {
      ret, err := Nil, None;
    }
  }

  /** `whole` is `items` read so far (using `done` bytes) followed by what is still to come. */
  predicate Joined(whole: Many, items: seq<Value>, done: nat, cur: Many)
  {
    whole.items == items + cur.items && whole.panic == cur.panic && whole.used == done + cur.used
  }

  /** The element Read's array loop stores for a read that returned `ret` and `err`. */
  function Element(ret: Value, err: Option<Error>): Value
  {
    if err.Some? then Fail(err.value) else ret
  }

  /** One turn of the array loop: the element read from position i, which ends at position j, is
      stored, and the remaining elements are read from j. */
  lemma ElemsStep(whole: Many, items: seq<Value>, done: nat, d: seq<byte>, i: nat, k: nat,
                     ret: Value, err: Option<Error>, j: nat)
    requires i <= |d| && k > 0 && !IsPanic(err)
    requires var e := ReadAt(d, i); err == e.err && ret == e.ret && j == i + e.used
    requires Joined(whole, items, done, ElemsAt(d, i, k))
    ensures j <= |d|
    ensures Joined(whole, items + [Element(ret, err)], done + (j - i), ElemsAt(d, j, k - 1))
  {
    var next := ElemsAt(d, j, k - 1);
    assert items + ([Element(ret, err)] + next.items) == (items + [Element(ret, err)]) + next.items;
  }

  /** Read's '*' case, from the count on: the elements go into a slice of the announced length. */
  method ReadArray(r: Reader) returns (ret: Value, err: Option<Error>)
    requires r.Valid()
    modifies r
    ensures r.Valid() && old(r.pos) <= r.pos
    ensures var want := ArrayAt(r.data, old(r.pos));
            err == want.err && (!IsPanic(err) ==> ret == want.ret && r.pos == old(r.pos) + want.used)
    decreases |r.data| - r.pos, 2
  {
    var n, e := ReadNumber(r);
    if e.Some? {
      return Nil, e;
    }
    if n == -1 {
      return Nil, None;
    }
    if n < 0 {
      return Nil, Some(Panic(NegativeMakeLength));
    }
    var items, e2 := ReadElements(r, n);
    if e2.Some? {
      return Nil, e2;
    }
    ret, err := Array(items), None;
  }

  /** The loop of Read's '*' case: n calls to Read, each result (or its error) stored in its slot
      of a slice made with length n. Only a panic stops the loop early. */
  method ReadElements(r: Reader, n: nat) returns (items: seq<Value>, panic: Option<Error>)
    requires r.Valid()
    modifies r
    ensures r.Valid() && old(r.pos) <= r.pos
    ensures var want := ElemsAt(r.data, old(r.pos), n);
            (panic.Some? <==> want.panic.Some?)
            && (panic.Some? ==> panic == Some(Panic(want.panic.value)))
            && (panic.None? ==> items == want.items && r.pos == old(r.pos) + want.used)
    decreases |r.data| - r.pos, 1
  {
    ghost var p := r.pos;
    ghost var whole := ElemsAt(r.data, p, n);
    items := seq(n, _ => Nil);
    var i := 0;
    ghost var done: seq<Value> := [];
    while i < n
      invariant r.Valid() && 0 <= i <= n && p <= r.pos && |items| == n && items[..i] == done
      invariant Joined(whole, done, r.pos - p, ElemsAt(r.data, r.pos, n - i))
    {
      ghost var before := r.pos;
      var v, e := Read(r);
      if IsPanic(e) {
        return items, e;
      }
      ElemsStep(whole, done, before - p, r.data, before, n - i, v, e, r.pos);
      var item := Element(v, e);
      items := items[i := item];
      assert items[..i + 1] == done + [item];
      done := done + [item];
      i := i + 1;
    }
    assert items == items[..i];
    panic := None;
  }
}
