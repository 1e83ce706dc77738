/** What parser.go's Parse does with status replies, error replies and everything else, proved
    about ParseAt, the reference function Parse is verified against. */
module ParserProperties {
  import opened Wire
  import opened ReplyReader
  import ReplyProperties
  import Writer
  import opened Parser

  /** '+': the line before CR LF, without an error, and the stream goes on after the LF. */
  lemma {:induction false} ParseStatus(d: seq<byte>, i: nat, l: seq<byte>, rest: seq<byte>)
    requires i <= |d| && d[i..] == [PLUS] + l + CRLF + rest
    requires ReplyProperties.Literal(l) && |l| <= LineBuffer
    ensures ParseAt(d, i) == Outcome(Some(l), None, |l| + 3)
  {
    ReplyProperties.Indicator(d, i, PLUS, l + CRLF + rest);
    ReplyProperties.LineOfLiteral(d, i + 1, l, rest);
  }

  /** '-': an error whose message is the line, and a one-byte slice holding 0 in place of the
      bytes. */
  lemma {:induction false} ParseErrorReply(d: seq<byte>, i: nat, l: seq<byte>, rest: seq<byte>)
    requires i <= |d| && d[i..] == [MINUS] + l + CRLF + rest
    requires ReplyProperties.Literal(l) && |l| <= LineBuffer
    ensures ParseAt(d, i) == Outcome(Some([0]), Some(Message(l)), |l| + 3)
  {
    ReplyProperties.Indicator(d, i, MINUS, l + CRLF + rest);
    ReplyProperties.LineOfLiteral(d, i + 1, l, rest);
  }

  /** An error reply written by writer.go's writeError parses back to an error with the same
      message. */
  lemma ParseWrittenError(msg: seq<byte>, rest: seq<byte>)
    requires ReplyProperties.Literal(msg) && |msg| <= LineBuffer
    ensures ParseAt(Writer.WriteError(msg) + rest, 0) == Outcome(Some([0]), Some(Message(msg)), |msg| + 3)
  {
    var d := Writer.WriteError(msg) + rest;
    assert d[0..] == [MINUS] + msg + CRLF + rest;
    ParseErrorReply(d, 0, msg, rest);
  }

  /** '-' never parses without an error, whatever follows it. */
  lemma ParseErrorAlwaysFails(d: seq<byte>, i: nat)
    requires i < |d| && d[i] == MINUS
    ensures ParseAt(d, i).err.Some?
  {
  }

  /** Parse returns a nil slice exactly when the indicator byte cannot be read or is neither '+'
      nor '-'; in the first case the read's io.EOF is returned as it is, in the second Parse takes
      only that byte and reports no error. */
  lemma ParseNil(d: seq<byte>, i: nat)
    requires i <= |d|
    ensures ParseAt(d, i).bs.None? <==> i == |d| || (d[i] != PLUS && d[i] != MINUS)
    ensures i == |d| ==> ParseAt(d, i).err == Some(Eof) && ParseAt(d, i).used == 0
    ensures i < |d| && d[i] != PLUS && d[i] != MINUS ==> ParseAt(d, i).err.None? && ParseAt(d, i).used == 1
  {
  }

  /** "+OK\r\n" is "OK". */
  lemma ParseOk()
    ensures ParseAt([PLUS, 0x4f, 0x4b, CR, LF], 0).bs == Some([0x4f, 0x4b])
  {
    var ok: seq<byte> := [0x4f, 0x4b];
    ReplyProperties.NoCrIsLiteral(ok);
    var d: seq<byte> := [PLUS, 0x4f, 0x4b, CR, LF];
    assert d[0..] == [PLUS] + ok + CRLF + [];
    ParseStatus(d, 0, ok, []);
  }

  /** "-ERR unknown\r\n" is the error "ERR unknown". */
  lemma ParseErrUnknown(d: seq<byte>)
    requires d == [MINUS, 0x45, 0x52, 0x52, 0x20, 0x75, 0x6e, 0x6b, 0x6e, 0x6f, 0x77, 0x6e, CR, LF]
    ensures ParseAt(d, 0).err == Some(Message(d[1..12]))
  {
    var unknown := d[1..12];
    ReplyProperties.NoCrIsLiteral(unknown);
    assert d[0..] == [MINUS] + unknown + CRLF + [];
    ParseErrorReply(d, 0, unknown, []);
  }
}
