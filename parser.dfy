/** parser.go: the early reply decoder. It reads the indicator byte and then, for a status or an
    error reply, the line after it with reader.go's readLine, on the same stream. */
module Parser {
  import opened Wire
  import opened Stream
  import ReplyReader

  /** What Parse returns: the bytes (None for a nil slice) and the error, with the number of
      bytes it took from the stream. */
  datatype Outcome = Outcome(bs: Option<seq<byte>>, err: Option<Error>, used: nat)

  /** Parse from position i of the stream d. A failed read of the indicator byte is returned as
      it is; '+' gives the line; '-' gives an error whose message is the line, and a one-byte
      slice holding 0; any other indicator gives a nil slice and no error, and only that byte is
      taken. An error from readLine is returned with the empty line. */
  function ParseAt(d: seq<byte>, i: nat): (o: Outcome)
    requires i <= |d|
    ensures i + o.used <= |d|
    ensures i < |d| ==> o.used >= 1
  {
    if i == |d| then Outcome(None, Some(Eof), 0)
    else if d[i] == PLUS || d[i] == MINUS then
      var l := ReplyReader.LineAt(d, i + 1);
      if d[i] == MINUS && l.err.None? then Outcome(Some([0]), Some(Message(l.stored)), 1 + l.used)
      else Outcome(Some(l.stored), l.err, 1 + l.used)
    else Outcome(None, None, 1)
  }

  method Parse(r: Reader) returns (bs: Option<seq<byte>>, err: Option<Error>)
    requires r.Valid()
    modifies r
    ensures r.Valid() && old(r.pos) <= r.pos
    ensures var want := ParseAt(r.data, old(r.pos));
            bs == want.bs && err == want.err && (!IsPanic(err) ==> r.pos == old(r.pos) + want.used)
  {
    var kind := r.ReadByte();
    if kind.None? {
      return None, Some(Eof);
    }
    bs, err := None, None;
    if kind.value == PLUS || kind.value == MINUS {
      var line, e := ReplyReader.ReadLine(r);
      bs, err := Some(line), e;
      if kind.value == MINUS && e.None? {
        bs, err := Some([0]), Some(Message(line));
      }
    }
  }
}
