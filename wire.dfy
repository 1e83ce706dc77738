/** Bytes, the protocol's sigils, and the errors the codec reports.
    Shared by every module of the model. */
module Wire {

  /** A Go `byte`. */
  type byte = b: int | 0 <= b < 256

  const CR: byte := 13
  const LF: byte := 10
  const CRLF: seq<byte> := [CR, LF]

  const PLUS: byte := 43    // '+' status reply
  const MINUS: byte := 45   // '-' error reply, and the sign of a number
  const COLON: byte := 58   // ':' integer reply
  const DOLLAR: byte := 36  // '$' bulk
  const STAR: byte := 42    // '*' multi-bulk (array)
  const ZERO: byte := 48    // '0'
  const QUOTE: byte := 39   // '\''

  predicate IsDigit(b: byte) { ZERO <= b <= ZERO + 9 }

  predicate AllDigits(s: seq<byte>) { forall i :: 0 <= i < |s| ==> IsDigit(s[i]) }

  /** Every byte is below 0x80, so Go's rune-by-rune copy of a string is a byte-by-byte copy. */
  predicate IsAscii(s: seq<byte>) { forall i :: 0 <= i < |s| ==> s[i] < 128 }

  predicate NoCr(s: seq<byte>) { forall i :: 0 <= i < |s| ==> s[i] != CR }

  datatype Option<+T> = None | Some(value: T)

  /** The value of a Go int64 fits in 64 bits (two's complement). */
  predicate Int64(v: int) { -0x8000_0000_0000_0000 <= v < 0x8000_0000_0000_0000 }

  /** One constructor per error the core can return; the Go error texts are named in each comment. */
  datatype Error =
    | Eof                              // io.EOF from the underlying reader
    | InvalidCharacter(b: byte)        // "Invalid character: %q"
    | InvalidAfterCr(b: byte)          // "Invalid character after '\r': %q"
    | CannotConvert(line: seq<byte>)   // "Cannot convert to []byte: %#v"
    | ParseError(what: ParseProblem)   // gedis.NewParseError(...)
    | Message(text: seq<byte>)         // errors.New(<the line of an error reply>)
    | NumSyntax                        // strconv.ErrSyntax
    | NumRange                         // strconv.ErrRange
    | NotEnoughBytes                   // "not enough bytes in data stream"
    | InvalidFirstCharacter(b: byte)   // "Invalid first character: %q"
    | InvalidEol(got: seq<byte>)       // "Invalid EOL: %q"
    | TrailingGarbage                  // "Trailing garbage"
    | NoArguments                      // "Must write at least one argument"
    | Panic(reason: PanicReason)       // a Go runtime panic: it ends the program, it is never a value

  /** A Go runtime panic rather than a returned error. */
  predicate IsPanic(e: Option<Error>) { e.Some? && e.value.Panic? }

  datatype ParseProblem = FirstCharacter | EndOfLine

  datatype PanicReason =
    | NegativeMakeLength   // make([]T, n) with n < 0
    | IndexOutOfRange      // a[i] with i outside the slice
    | SliceBounds          // s[lo:hi] with lo > hi or hi > len(s)
    | TypeAssertion        // x.(T) when x does not hold a T
}
