/** The client-side encoder of writer.go: commands go out as a multi-bulk of bulk strings; integer and
    error replies have one-line encodings. Go strings are byte sequences here; the encoders copy them
    rune by rune, which is a byte-by-byte copy exactly when every byte is ASCII. */
module Writer {
  import opened Wire
  import opened Decimal
  import opened Stream
  import opened Frames

  /** writeBulk: fills a buffer of exactly the frame's length, index by index, with '$', the decimal
      length, CR LF, the payload and CR LF. */
  method WriteBulk(bulk: seq<byte>) returns (out: seq<byte>)
    requires IsAscii(bulk)
    ensures out == BulkFrame(bulk)
    ensures |out| == 1 + |Itoa(|bulk|)| + 2 + |bulk| + 2
    ensures out[1 + |Itoa(|bulk|)| + 2..|out| - 2] == bulk
  {
    var bulkLen := Itoa(|bulk|);
    var h := 1 + |bulkLen|;
    var n := h + 2 + |bulk| + 2;
    ghost var frame := BulkFrame(bulk);
    BulkFrameIndex(bulk);
    var bytes := new byte[n];
    bytes[0] := DOLLAR;
    CopyInto(bytes, 1, bulkLen, frame);
    bytes[h] := CR;
    bytes[h + 1] := LF;
    CopyInto(bytes, h + 2, bulk, frame);
    bytes[n - 2] := CR;
    bytes[n - 1] := LF;
    out := bytes[..];
    assert frame[h + 2..n - 2] == bulk;
  }

  /** One of writeBulk's copy loops: src goes into a from index j on, one byte at a time, where the
      frame being built has it; the bytes before j already agree with the frame. */
  method CopyInto(a: array<byte>, j: nat, src: seq<byte>, ghost frame: seq<byte>)
    requires j + |src| <= a.Length == |frame|
    requires forall t :: 0 <= t < j ==> a[t] == frame[t]
    requires forall k :: 0 <= k < |src| ==> frame[j + k] == src[k]
    modifies a
    ensures forall t :: 0 <= t < j + |src| ==> a[t] == frame[t]
  {
    var k := 0;
    while k < |src|
      invariant 0 <= k <= |src|
      invariant forall t :: 0 <= t < j + k ==> a[t] == frame[t]
    {
      a[j + k] := src[k];
      k := k + 1;
    }
  }

  /** writeInt: ':', the decimal value, CR LF; the digits between the sigil and the CR LF parse back
      to n. Go's int is 64 bits wide. */
  function WriteInt(n: int): (r: seq<byte>)
    requires Int64(n)
    ensures |r| >= 4 && r[0] == COLON && r[|r| - 2..] == CRLF
    ensures ParseInt(r[1..|r| - 2]) == Parsed(n)
  {
    var r := [COLON] + Itoa(n) + CRLF;
    assert r[1..|r| - 2] == Itoa(n);
    ParseIntItoa(n);
    r
  }

  /** writeError: '-', the error's message with nothing added in front, CR LF. */
  function WriteError(msg: seq<byte>): (r: seq<byte>)
    ensures |r| == |msg| + 3 && r[0] == MINUS && r[|r| - 2..] == CRLF
    ensures r[1..|r| - 2] == msg
  {
    [MINUS] + msg + CRLF
  }

  /** writeMultiBulk: '*', the argument count and CR LF into a growing buffer, then each argument's
      bulk frame in order. */
  method WriteMultiBulk(args: seq<seq<byte>>) returns (out: seq<byte>)
    requires forall i :: 0 <= i < |args| ==> IsAscii(args[i])
    ensures out == MultiBulkFrame(args)
  {
    var buffer: seq<byte> := [STAR];
    buffer := buffer + Itoa(|args|);
    buffer := buffer + CRLF;
    ghost var header := buffer;
    assert buffer == header + Bulks(args[..0]);
    var i := 0;
    while i < |args|
      invariant i <= |args|
      invariant buffer == header + Bulks(args[..i])
    {
      var b := WriteBulk(args[i]);
      BulksGrow(header, args, i);
      buffer := buffer + b;
      i := i + 1;
    }
    assert args[..i] == args;
    out := buffer;
  }

  /** Write: refuses an empty command (returning -1 and writing nothing); otherwise hands the whole
      multi-bulk frame to the writer in a single call and returns what that call returns, a short
      write and the writer's error included. */
  method Write(w: Sink, args: seq<seq<byte>>) returns (n: int, err: Option<Error>)
    requires forall i :: 0 <= i < |args| ==> IsAscii(args[i])
    modifies w
    ensures |args| == 0 ==> n == -1 && err == Some(NoArguments) && w.writes == old(w.writes)
    ensures |args| > 0 ==> n == Taken(w.fault, MultiBulkFrame(args)) && err == Failure(w.fault)
                           && w.writes == old(w.writes) + [Sent(w.fault, MultiBulkFrame(args))]
  {
    if |args| == 0 {
      return -1, Some(NoArguments);
    }
    var frame := WriteMultiBulk(args);
    n, err := w.Write(frame);
  }
}
