/** The wire frames the encoders build: a sigil, a decimal count, CR LF, then the payload.
    Both writer.go and protocol.go build the same bulk and multi-bulk frames, so their shapes are
    stated here once and each encoder is proved to produce them. */
module Frames {
  import opened Wire
  import opened Decimal

  /** '$' + decimal byte length + CR LF + payload + CR LF. */
  function BulkFrame(b: seq<byte>): seq<byte>
  {
    [DOLLAR] + Itoa(|b|) + CRLF + b + CRLF
  }

  /** Where each part of a bulk frame sits. */
  lemma BulkFrameIndex(b: seq<byte>)
    ensures var f, h := BulkFrame(b), 1 + |Itoa(|b|)|;
            |f| == h + 2 + |b| + 2 && f[0] == DOLLAR && f[h] == CR && f[h + 1] == LF
            && f[|f| - 2] == CR && f[|f| - 1] == LF
            && (forall k :: 0 <= k < h - 1 ==> f[1 + k] == Itoa(|b|)[k])
            && (forall k :: 0 <= k < |b| ==> f[h + 2 + k] == b[k])
  {
  }

  /** The bulk frames of each argument, in order. */
  function Bulks(args: seq<seq<byte>>): seq<byte>
  {
    if args == [] then [] else BulkFrame(args[0]) + Bulks(args[1..])
  }

  /** '*' + decimal count + CR LF, then each argument as a bulk. */
  function MultiBulkFrame(args: seq<seq<byte>>): seq<byte>
  {
    [STAR] + Itoa(|args|) + CRLF + Bulks(args)
  }

  /** The header of a bulk frame: '$' + length + CR LF. */
  function BulkHeader(n: nat): seq<byte>
  {
    [DOLLAR] + Itoa(n) + CRLF
  }

  lemma BulksSnoc(args: seq<seq<byte>>, a: seq<byte>)
    ensures Bulks(args + [a]) == Bulks(args) + BulkFrame(a)
    decreases |args|
  {
    if args == [] {
      assert [a][1..] == [];
    } else {
      assert (args + [a])[1..] == args[1..] + [a];
      BulksSnoc(args[1..], a);
    }
  }

  /** One more argument's frame appended after a prefix of the arguments' frames. */
  lemma BulksGrow(header: seq<byte>, args: seq<seq<byte>>, i: nat)
    requires i < |args|
    ensures header + Bulks(args[..i + 1]) == (header + Bulks(args[..i])) + BulkFrame(args[i])
  {
    assert args[..i + 1] == args[..i] + [args[i]];
    BulksSnoc(args[..i], args[i]);
  }

  lemma IsAsciiDigits(n: nat)
    ensures IsAscii(Itoa(n))
  {
  }

  /** A bulk frame of ASCII bytes is ASCII, which is what lets Go's rune loop copy it byte for byte. */
  lemma BulkFrameAscii(b: seq<byte>)
    requires IsAscii(b)
    ensures IsAscii(BulkFrame(b))
  {
    IsAsciiDigits(|b|);
  }
}
