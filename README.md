# gedis: a verified model of a Go Redis protocol codec

gedis is a small Go library that speaks RESP, the Redis serialization protocol
(http://redis.io/topics/protocol). It has three parts, spread over several revisions of the
library that live side by side in one repository:

- **Encoders.** `writer.go` (`Write`, `writeBulk`, `writeInt`, `writeError`, `writeMultiBulk`)
  and `protocol.go` (`WriteBulk`, `WriteMultiBulk`) build frames: a sigil, a decimal length,
  CR LF, then the payload.
- **Reply decoders.**
  - `reader.go` is a recursive stream decoder for `+ - : $ *`. It stores an array element that
    fails as an error value in its place.
  - `protocol.go` is a decoder over a whole byte slice with explicit offsets (`readLine`,
    `ReadBulk`, `NewResponse` and the `Response` accessors).
  - `parser.go` is an early decoder that knows only `+` and `-`.
- **Request decoders and the server's dispatch.**
  - `server/reader.go` reads a multi-bulk of bulks from a stream.
  - `server/server.go` reads the whole input first, checks for trailing bytes, keeps a registry
    of handlers under upper-cased verbs, and runs each client's request loop (`process`).

Each Go file is one Dafny module. Shared definitions live in four small modules:

| module | file | what it holds |
|---|---|---|
| `Wire` | wire.dfy | the byte type, the sigils, `Option`, and one `Error` constructor per error text the code produces |
| `Decimal` | decimal.dfy | `strconv.Itoa` and `strconv.ParseInt(s, 10, 64)` |
| `Frames` | frames.dfy | the bulk and multi-bulk frames both encoders build |
| `Stream` | stream.dfy | an in-memory reader and an `io.Writer` sink that may fail |

The reader is a class over `seq<byte>` with a cursor. It follows the semantics of Go's
`bytes.Buffer`: a read takes `min(n, remaining)` bytes, and io.EOF is reported only when nothing
is left and the read asks for at least one byte.

The sink stands for a client's `net.Conn` or any other `io.Writer`. Whether it fails is fixed
when it is made, not chosen by the code that writes to it. A sink without a fault takes every
write whole. A sink with a fault delivers only a prefix of each write and returns the fault's
error, so a short write always comes with an error, as the `io.Writer` contract requires.

**How each decoder is modelled.** Every decoder that consumes a stream step by step is a
`method` with the loops the Go code has. Each method is proved against a reference function of
the bytes `d` and a start position `i`. The ensures clause says that the returned value, the
error and the new cursor are the function's. For example, `ReplyReader.Read` is proved against
`ReplyReader.ReadAt(d, i)`, and `RequestReader.Read` against `RequestReader.RequestAt(d, i)`.
The properties are lemmas about these functions: round trips with the encoders, the outcome on
every kind of malformed input, and the concrete cases from the Go tests.

**Panics.** Go runtime panics are an explicit `Error.Panic(reason)`, which ends the decode.
These are:
- `make` with a negative length;
- an index out of range, e.g. `readLine`'s 1024-byte buffer or `data[0]` on an empty slice;
- a slice with bad bounds;
- a failed type assertion.

The stream position after a panic is left unspecified.

**Where the code departs from the protocol's description, the model follows the code:**
- `reader.go`'s `readBulk` does not check the two bytes after a payload. It reads up to two
  more bytes and ignores them.
- `reader.go`'s `Read` decodes an unknown indicator byte as nil without an error.
- `reader.go`'s `'-'` case type-asserts `readLine`'s string to `[]byte`. That assertion always
  fails, so an error reply never yields its own message: it yields "Cannot convert to []byte".
  Inside an array, that error is stored in the element's place.
- `server/server.go`'s `process` reads requests with `reader.go`'s `Read`
  (server/server.go:212-214), not with the request decoders. So:
  - a request that is not an array whose first element is a string panics;
  - `*0\r\n` panics on `data[0]`.
- `server/server.go`'s `readLength` never rejects a negative length. Its `n < 0` guard tests
  the named result, which is still zero at that point. A negative length then reaches `make`
  and panics.

## Model

| member | source | states |
|---|---|---|
| Decimal.ValueOfDigitsOf | writer.go:57 | the decimal digits of a natural number denote that number |
| Decimal.DigitRunIs | reader.go:27-39 | the run of leading digits ends exactly at the first non-digit |
| Decimal.ParseIntItoa | protocol.go:122 | strconv.ParseInt reads back every int64 that strconv.Itoa writes |
| Decimal.ParseIntShape | protocol.go:122 | only an optional sign followed by one or more digits parses, and its value is the signed value of the digits |
| Frames.BulkFrameIndex | writer.go:23-52 | where '$', the length digits, both CR LF pairs and each payload byte sit in a bulk frame |
| Frames.BulksSnoc | writer.go:74-76 | appending an argument appends its bulk frame |
| Frames.BulkFrameAscii | writer.go:44-47 | a bulk frame of ASCII bytes is ASCII |
| Stream.Reader.ReadByte | server/server.go:101 | bytes.Buffer.ReadByte, as called here and at lines 119, 166 and 188: the next byte and an advance by one, or nothing and io.EOF at the end, consuming nothing |
| Stream.Reader.ReadInto | server/reader.go:28 | a read of n bytes yields the next min(n, remaining) bytes, with io.EOF only when nothing is left |
| Stream.Reader.Fill | server/server.go:133 | a read into a buffer fills its first min(len, remaining) slots with the next bytes and leaves the rest of the buffer unchanged |
| Stream.Reader.ReadAll | server/server.go:159 | ioutil.ReadAll yields everything left and exhausts the stream |
| Stream.Reader.ReadString | server/server.go:95 | ReadString('\r') yields the bytes through the first CR, or everything left with io.EOF when there is none |
| Stream.Sink.Write | server/server.go:217-220 | a write delivers the bytes the writer takes and returns their count and the writer's error; a count short of the buffer comes with an error |
| Stream.DeliveredWhole | server/server.go:217-220 | writes to a writer that does not fail arrive whole |
| Stream.DeliveredAppend | server/server.go:217-220 | what arrives is decided write by write, so it splits over consecutive writes |
| Writer.WriteBulk | writer.go:23-53 | the filled buffer is '$' + decimal length + CR LF + payload + CR LF, its length is 1 + digits + 2 + len + 2, and the payload appears unchanged between the CR LF pairs |
| Writer.CopyInto | writer.go:44-47 | a copy loop puts src at index j on and keeps what is before j |
| Writer.WriteInt | writer.go:56-58 | ':' + decimal + CR LF, and the text between sigil and CR LF parses back to n |
| Writer.WriteError | writer.go:61-63 | '-' + the message with no prefix + CR LF |
| Writer.WriteMultiBulk | writer.go:67-79 | '*' + count + CR LF, then each argument's bulk frame in order |
| Writer.Write | writer.go:14-19 | no arguments: returns -1 and the error and writes nothing; otherwise one write of the multi-bulk frame, returning that write's count and error unchanged |
| ParserProperties.ParseWrittenError | writer.go:61-63 | Parse reads back what writeError writes: the error's message is the message written |
| ReplyProperties.ReadsMultiBulkFrame | writer.go:67-79 | Read decodes writeMultiBulk's frame to the array of its arguments in order and consumes it whole |
| Protocol.WriteBulk | protocol.go:24-54 | the same bulk frame as writer.go's |
| Protocol.WriteMultiBulk | protocol.go:58-72 | the count 1 + len(args), then cmd's bulk, then each argument's |
| Protocol.LineEnd | protocol.go:146-154 | where readLine's loop stops: the first CR LF from the offset, or a CR as the last byte, or the end |
| Protocol.LineFrom | protocol.go:140-157 | readLine yields the bytes from the offset up to the first CR LF and the offset two past them; a CR as the last byte, or an offset past the end, panics |
| Protocol.ReadLine | protocol.go:140-157 | the copying loop returns LineFrom's line and offset |
| Protocol.ReadBulk | protocol.go:160-183 | a returned non-empty value is the stretch of data before the next offset's two final bytes; "not enough bytes" comes with an empty value |
| Protocol.ResponseOf | protocol.go:186-228 | the kind is data[0], and empty data panics |
| Protocol.ElemsStep | protocol.go:221-223 | one turn of the values loop: a panicking ReadBulk ends it, otherwise its value is the next element |
| Protocol.NextValue | protocol.go:222 | one ReadBulk call of the loop and where the loop stands after it |
| Protocol.ReadValues | protocol.go:219-224 | the loop threads the offset from one ReadBulk to the next and keeps every value; errors are dropped |
| Protocol.NewResponse | protocol.go:186-228 | the response and error are ResponseOf(data) |
| ProtocolProperties.LineOfCrLf | protocol.go:146-156 | a line without CR LF inside, followed by CR LF, comes back whole, with the offset just past the LF |
| ProtocolProperties.LineWithoutCrLf | protocol.go:146-156 | without CR LF the rest of data comes back, with offset len(data) + 2 |
| ProtocolProperties.LineCrAtEnd | protocol.go:147 | a CR as the last byte makes the loop index one past the end |
| ProtocolProperties.LinePastEnd | protocol.go:144 | an offset past the end asks for a negative-length buffer |
| ProtocolProperties.BulkIgnoresTerminator | protocol.go:177-179 | the two bytes after a payload are skipped unread |
| ProtocolProperties.BulkOfFrame | protocol.go:160-183 | ReadBulk reads back WriteBulk's frame and continues right after it |
| ProtocolProperties.BulkNullLength | protocol.go:171-173 | a length of -1 is an empty value without an error |
| ProtocolProperties.BulkSyntaxError | protocol.go:166-169 | a length line that is not a number is returned as the value, with strconv's error |
| ProtocolProperties.BulkLengthError | protocol.go:164-169 | any length line strconv rejects (not a number, or out of int64's range) is returned as the value, with that error, and the offset just past its CR LF |
| ProtocolProperties.BulkNotEnough | protocol.go:178-182 | too few bytes: an empty value and "not enough bytes in data stream" |
| ProtocolProperties.BulkNegativeLength | protocol.go:175-179 | a length below -1 slices backwards and panics, unless the length check fails first |
| ProtocolProperties.StatusReplyOf | protocol.go:190-197 | "+line\r\n": IsStatus, Status() is the line, no error |
| ProtocolProperties.IntegerReplyOf | protocol.go:120-123 | NewResponse reads back writeInt's frame: IsInteger, and Integer() is the number |
| ProtocolProperties.ErrorReplyOf | protocol.go:193-194 | an error reply becomes an error whose message is the whole line |
| ProtocolProperties.BulkReplyOf | protocol.go:198-207 | a bulk frame: IsBulk, Value() is the payload, null exactly when the payload is empty |
| ProtocolProperties.NullBulkReplyOf | protocol.go:198-207 | "$-1\r\n" is a null bulk without an error |
| ProtocolProperties.EmptyBulkIsNull | protocol.go:201-203 | "$0\r\n\r\n" also reports null |
| ProtocolProperties.NullBulkWithoutCrLf | protocol_test.go:161 | "$-1" without CR LF is still a null bulk |
| ProtocolProperties.ElemsOfBulks | protocol.go:221-223 | consecutive bulk frames are read back, in order, as the values |
| ProtocolProperties.MultiBulkReplyOf | protocol.go:208-224 | NewResponse reads back the writers' multi-bulk frame: IsMultiBulk, Values() are the arguments |
| ProtocolProperties.NullMultiBulkReplyOf | protocol.go:216-217 | "*-1\r\n" is null without values |
| ProtocolProperties.EmptyMultiBulk | protocol.go:219-223 | "*0\r\n" has no values and is not null |
| ProtocolProperties.MultiBulkOfCount | protocol.go:208-224 | a count n >= 0: the values are the n bulks the loop reads from after the count line, or the response has none and carries the panic of one of those reads |
| ProtocolProperties.MultiBulkDropsElementError | protocol.go:222 | for any multi-bulk and any error ReadBulk returns with its first element: the error is dropped, the value read with it leads the values, and the loop goes on from where that read stopped |
| ProtocolProperties.MultiBulkBadElementLength | protocol.go:222 | "*1\r\n$x\r\n": the element's syntax error is dropped and the response holds the single value "x" |
| ProtocolProperties.ElemsPastFrames | protocol.go:221-223 | when the data ends right after fewer whole bulk frames than the loop wants, it reads their payloads in order and then the next ReadBulk starts past the end and panics |
| ProtocolProperties.MultiBulkTruncated | protocol.go:221-223 | a count line followed by fewer whole bulk frames than it announces, with nothing after them, panics with a negative make length |
| ProtocolProperties.MultiBulkCountOnly | protocol.go:221-223 | "*1\r\n" panics: the announced bulk is not there |
| ProtocolProperties.UnknownKind | protocol.go:187-227 | an unknown first byte gives a response with only its kind set and no error |
| ReplyReader.NumberAt | reader.go:13-50 | readNumber's outcome: consumed bytes stay within the stream, and an error comes with 0 |
| ReplyReader.AccumulateFromZero | reader.go:29 | n = n*10 + digit, started at 0, is the decimal value of the digits |
| ReplyReader.DigitLoopStops | reader.go:27-47 | the loop stops where the digit run stops: at the end, at CR LF, or with the error for the byte found |
| ReplyReader.NumberAtMeetsSpec | reader.go:13-50 | readNumber equals the declarative statement: optional '-', the digit run, then the end, CR LF or an error |
| ReplyReader.ReadNumber | reader.go:13-50 | the loop returns NumberAt's value and error and consumes its bytes |
| ReplyReader.ScanLine | reader.go:58-81 | readLine's scan: errors only with io.EOF after a lone CR at the end |
| ReplyReader.LineAt | reader.go:52-86 | a line without error fits the 1024-byte buffer; a failed read returns "" |
| ReplyReader.ReadLine | reader.go:52-86 | the loop returns LineAt's line and error |
| ReplyReader.BulkAt | reader.go:88-116 | readBulk's consumed bytes stay within the stream |
| ReplyReader.ReadBulk | reader.go:88-116 | the loop returns BulkAt's value and error |
| ReplyReader.ReadAt | reader.go:118-190 | Read consumes at least the indicator byte, so each recursive call starts further on |
| ReplyReader.ArrayAt | reader.go:165-186 | a decoded array has exactly as many elements as its count |
| ReplyReader.ElemsAt | reader.go:177-184 | without a panic the loop yields exactly k elements |
| ReplyReader.Read | reader.go:118-190 | Read returns ReadAt's error, and unless it panicked ReadAt's value and cursor |
| ReplyReader.ElemsStep | reader.go:178-183 | one turn of the array loop stores the value, or the error in its place |
| ReplyReader.ReadArray | reader.go:165-186 | the '*' case returns ArrayAt's outcome |
| ReplyReader.ReadElements | reader.go:175-184 | the loop stores ElemsAt's elements, and stops on a panic |
| ReplyProperties.NumberOfItoa | reader.go:16-29 | readNumber reads back strconv.Itoa's text, sign included, through CR LF |
| ReplyProperties.NumberExamples | reader_test.go:25-26 | "1234\r\n" is 1234 and "-1234\r\n" is -1234 |
| ReplyProperties.NumberAtEnd | reader.go:41-43 | the end of the stream after the digits ends the number without an error |
| ReplyProperties.NumberBadByte | reader.go:37-38 | a byte that is neither a digit nor CR fails with that byte |
| ReplyProperties.NumberCrWithoutLf | reader.go:30-36 | a CR not followed by LF fails |
| ReplyProperties.NumberRejectsLetters | reader_test.go:27 | "abc\r\n" fails |
| ReplyProperties.NumberRejectsMixed | reader_test.go:28 | "12ab34\r\n" fails |
| ReplyProperties.ReadAtEndOfStream | reader.go:18-20 | a failed first read returns io.EOF with nothing consumed, from readNumber and from Read |
| ReplyProperties.LineOfLiteral | reader.go:66-83 | readLine returns the bytes before CR LF and consumes exactly through the LF |
| ReplyProperties.LineKeepsLoneCr | reader_test.go:52-57 | a CR followed by another byte is content; the rest after CR LF stays unread |
| ReplyProperties.LineAtEnd | reader.go:61-63 | the end of the stream ends the line without an error |
| ReplyProperties.LineCrAtEnd | reader.go:67-70 | a CR as the last byte fails with io.EOF |
| ReplyProperties.LineTooLong | reader.go:53 | more than 1024 bytes overrun the buffer and panic |
| ReplyProperties.CrBeforeCrLf | reader.go:72-76 | a CR right before CR LF takes the pair's CR as content |
| ReplyProperties.BulkOfFrame | reader.go:100-115 | exactly the announced bytes verbatim, CR and LF included, then up to two unchecked bytes |
| ReplyProperties.BulkNull | reader.go:96-98 | length -1 is nil without an error |
| ReplyProperties.BulkTruncated | reader.go:103-107 | a stream ending inside the payload fails with io.EOF |
| ReplyProperties.BulkNegativeLength | reader.go:100 | a length below -1 makes `make` panic |
| ReplyProperties.ReadStatus | reader.go:127-137 | '+' yields the line |
| ReplyProperties.ReadErrorReply | reader.go:138-148 | '-' yields nil and the failed-conversion error |
| ReplyProperties.ErrorReplyAlwaysFails | reader.go:138-148 | '-' never decodes without an error |
| ReplyProperties.ReadInteger | reader.go:149-150 | ':' yields the number |
| ReplyProperties.ReadUnknownIndicator | reader.go:126-189 | any other indicator is consumed alone and yields nil without an error |
| ReplyProperties.ReadNull | reader.go:171-173 | "$-1\r\n" and "*-1\r\n" are nil without an error |
| ReplyProperties.ReadBulkFrame | reader.go:151-164 | a bulk frame decodes to its payload |
| ReplyProperties.ElemsOfBulks | reader.go:177-184 | consecutive bulk frames decode in order to their payloads |
| ReplyProperties.ReadArrayOf | reader.go:165-186 | '*' with count n yields the n elements read after it |
| ReplyProperties.ArrayOfTwo | reader.go:178-183 | a failing first element is stored in its place and the second is still read |
| ReplyProperties.ArrayKeepsFailedElement | reader.go:177-184 | "*2\r\n-l\r\n:n\r\n" is [error, n] |
| RequestReader.ReadByte | server/reader.go:47-51 | the next byte, or 0 with io.EOF |
| RequestReader.ArgAt | server/reader.go:11-44 | readBulk consumes at least one byte |
| RequestReader.ReadPayload | server/reader.go:26-37 | the payload read and the two-byte read: a short read zero-pads the buffer; io.EOF exactly when no more than n bytes are left (a complete payload with nothing after it included) |
| RequestReader.Terminator | server/reader.go:39-41 | the two bytes are CR LF exactly when CR LF follows the payload |
| RequestReader.ReadBulk | server/reader.go:11-44 | returns ArgAt's buffer and error |
| RequestReader.RequestAt | server/reader.go:62-89 | a request without error starts with '*' and holds as many byte strings as its count |
| RequestReader.NextArg | server/reader.go:81-84 | one readBulk of the loop and where the loop stands after it |
| RequestReader.ReadArgs | server/reader.go:78-85 | the loop fills the slots in order, keeps nil slots after a failure, and stops at the first error |
| RequestReader.RequestOfArgs | server/reader.go:73-88 | once the count is read, the loop decides the result |
| RequestReader.Read | server/reader.go:62-89 | returns RequestAt's byte strings and error |
| RequestProperties.ArgOfFrame | server/reader.go:11-44 | a bulk frame reads back as its payload, CR and LF included, consuming exactly the frame |
| RequestProperties.ArgBadTerminator | server/reader.go:39-41 | bytes other than CR LF after the payload are "Invalid EOL" |
| RequestProperties.ArgFirstCharacter | server/reader.go:14-19 | "Invalid first character" exactly when the first byte is not '$' |
| RequestProperties.ArgTruncated | server/reader.go:28-31 | a stream ending in the payload is io.EOF with the zero-padded buffer |
| RequestProperties.ArgBadLength | server/reader.go:21-24 | a length that is not a number is readNumber's error |
| RequestProperties.ArgsPrefix | server/reader.go:80-85 | bulk frames at the front are read in order and the loop continues after them |
| RequestProperties.ArgsOfBulks | server/reader.go:80-85 | consecutive bulk frames are read back in order |
| RequestProperties.ArgsFailAfter | server/reader.go:81-84 | a failing bulk after good ones stops the loop with its error |
| RequestProperties.RequestOfFrame | server/reader.go:62-89 | Read inverts writeMultiBulk and consumes nothing after the frame |
| RequestProperties.RequestFirstCharacter | server/server_test.go:26-29 | anything but '*' first is "Invalid first character" with no byte strings |
| RequestProperties.RequestKeepsEarlierBulks | server/reader.go:80-85 | a failure after good bulks returns them, the failed buffer, nil slots and the error |
| RequestProperties.RequestStopsAtNonBulk | server/server_test.go:37 | "*2\r\n$5\r\nlorem\r\n:1234\r\n" fails at the second element |
| RequestProperties.RequestEndsEarly | server/server_test.go:31 | a stream ending where a bulk should start is io.EOF |
| RequestProperties.RequestCountAtEnd | server/server_test.go:30 | "*1" fails with io.EOF |
| RequestProperties.RequestBadCount | server/server_test.go:34 | a count that is not a number fails |
| RequestProperties.RequestBadBulkLength | server/server_test.go:35 | a bulk length that is not a number fails |
| RequestProperties.RequestTruncatedBulk | server/server_test.go:33 | "*1\r\n$5\r\nlorem" fails with io.EOF |
| RequestProperties.NextRequestAfterFrame | server/server_test.go:70-88 | bytes after the frame stay unread, and the next Read fails at their '$' |
| RequestServer.CrFromIndexOf | server/server.go:95 | the scan stops where ReadString('\r') stops |
| RequestServer.LengthAt | server/server.go:94-113 | a length read without an error fits an int64 |
| RequestServer.LengthAtCr | server/server.go:95-112 | readLength ends at the first CR |
| RequestServer.ReadLength | server/server.go:94-113 | returns LengthAt's value and error |
| RequestServer.PayloadAt | server/server.go:131-146 | the payload read and the CR LF check stay within the data |
| RequestServer.ReadSized | server/server.go:131-148 | returns PayloadAt's buffer and error |
| RequestServer.BulkAt | server/server.go:116-149 | readBulk consumes at least one byte |
| RequestServer.ReadBulk | server/server.go:116-149 | returns BulkAt's buffer and error |
| RequestServer.ReadSizedBulk | server/server.go:126-148 | readBulk after its '$' returns BulkAfter's outcome |
| RequestServer.ReceivedOf | server/server.go:156-197 | a request without error starts with '*' and has as many byte strings as its count |
| RequestServer.NextBulk | server/server.go:182-185 | one readBulk of the loop and where the loop stands after it |
| RequestServer.ReadBulks | server/server.go:179-186 | the loop fills the slots in order and stops at the first error |
| RequestServer.ReceivedOfBulks | server/server.go:174-196 | once the count is read, the loop and the trailing-byte check decide |
| RequestServer.Read | server/server.go:156-197 | reads everything, then returns ReceivedOf's byte strings and error |
| RequestServerProperties.LengthSound | server/server.go:94-113 | a length without error is the parse of a CR-free text followed by CR LF |
| RequestServerProperties.LengthOfDecimal | server/server.go:108-112 | readLength reads back strconv.Itoa's text, negatives included: the n < 0 guard never fires |
| RequestServerProperties.LengthNotNumber | server/server.go:112 | a text strconv rejects is its error |
| RequestServerProperties.LengthBadEol | server/server.go:101-106 | a CR followed by anything but LF is "Invalid EOL" |
| RequestServerProperties.LengthUnterminated | server/server.go:95-103 | no CR, or a CR as the last byte, is io.EOF |
| RequestServerProperties.BulkOfFrame | server/server.go:116-149 | a bulk frame reads back as its payload, consuming exactly the frame |
| RequestServerProperties.BulkBadTerminator | server/server.go:144-146 | bytes other than CR LF after the payload are "Invalid EOL" |
| RequestServerProperties.LengthFailures | server/server.go:94-113 | readLength fails only with io.EOF, "Invalid EOL" or a strconv error |
| RequestServerProperties.BulkFirstCharacter | server/server.go:119-124 | "Invalid first character" exactly when the byte is not '$' |
| RequestServerProperties.BulkNegativeLength | server/server.go:131 | a negative length passes readLength and makes `make` panic |
| RequestServerProperties.BulkTruncated | server/server.go:133-136 | a buffer ending in the payload is io.EOF with the zero-padded buffer |
| RequestServerProperties.BulkBadLength | server/server.go:126-129 | a non-numeric length is strconv's error |
| RequestServerProperties.BulkLengthUnterminated | server/server.go:126-129 | a length with no CR after it is io.EOF |
| RequestServerProperties.BulksPrefix | server/server.go:181-186 | bulk frames at the front are read in order and the loop continues after them |
| RequestServerProperties.ReceivedOfFrame | server/server.go:188-193 | a multi-bulk frame yields its byte strings; any byte after it is "Trailing garbage" |
| RequestServerProperties.ReceivedOfWritten | server/server.go:156-197 | Read inverts writeMultiBulk |
| RequestServerProperties.ReceivedFirstCharacter | server/server.go:171-172 | anything but '*' first is "Invalid first character", and only then |
| RequestServerProperties.ReceivedKeepsEarlierBulks | server/server.go:181-186 | a failure after good bulks returns them and the error |
| RequestServerProperties.ReceivedStopsAtNonBulk | server/server_test.go:37 | "*2\r\n$5\r\nlorem\r\n:1234\r\n" fails at the second element |
| RequestServerProperties.ReceivedEndsEarly | server/server_test.go:31 | "*1\r\n" is io.EOF |
| RequestServerProperties.ReceivedCountUnterminated | server/server_test.go:30 | "*1" is io.EOF |
| RequestServerProperties.ReceivedBadCount | server/server_test.go:34 | a non-numeric count is strconv's error |
| RequestServerProperties.ReceivedNegativeCount | server/server.go:108-110 | "*-1\r\n" passes the guard and panics in `make` |
| RequestServerProperties.ReceivedTruncatedBulk | server/server_test.go:33 | "*1\r\n$5\r\nlorem" is io.EOF |
| RequestServerProperties.ReceivedBulkLengthUnterminated | server/server_test.go:32 | "*1\r\n$5lorem" is io.EOF |
| RequestServerProperties.ReceivedBadBulkLength | server/server_test.go:35 | a non-numeric bulk length fails |
| ServerDispatch.Upper | server/server.go:266 | upper-casing keeps the length and maps each byte to its upper-case form |
| ServerDispatch.UpperSameWord | server/server.go:265-268 | two verbs share a key exactly when they are the same word up to ASCII case |
| ServerDispatch.UpperIdempotent | server/server.go:284 | upper-casing is idempotent and leaves no lower-case letter |
| ServerDispatch.Rejection | server/server.go:298 | the reply to an unknown verb is "-Unrecognized command '<VERB>'\r\n" |
| ServerDispatch.Decide | server/server.go:283-284 | process panics on a request exactly when it is not a slice whose first element is a string |
| ServerDispatch.DecideCases | server/server.go:283-299 | a well-formed request runs its upper-cased verb's non-nil handler with the other elements, or is rejected under that verb when the handler is missing or nil |
| ServerDispatch.Server.constructor | server/server.go:250-254 | a new server has no handlers |
| ServerDispatch.Server.Handle | server/server.go:265-268 | the handler is stored under the upper-cased verb, replacing any earlier one |
| ServerDispatch.Server.Process | server/server.go:271-301 | the loop's events and end are SessionAt's; the rejections, in order, are the only writes process itself makes, each cut to what the client's writer takes |
| ServerDispatch.Serve | server/server.go:275-299 | one turn: read, then stop, run the handler, or write the rejection |
| ServerDispatch.TurnAt | server/server.go:275-299 | a turn that continues consumes at least one byte |
| ServerDispatch.SessionAt | server/server.go:274-300 | process's loop from a position: at the end of what the client sent, the session ends with io.EOF and no event |
| ServerDispatch.SessionGo | server/server.go:274-300 | a turn that continues is followed by the rest of the session |
| ServerDispatch.SessionBound | server/server.go:274-300 | the loop leaves at most one event per byte the client sends |
| ServerDispatch.SessionHandled | server/server.go:288-299 | every event is a run of a non-nil handler registered under its verb, or an error reply framed by '-' and CR LF |
| ServerDispatch.RepliesSnoc | server/server.go:298 | one more event adds its reply, if any, to what process writes |
| ServerDispatchProperties.HandleRoutes | server/server.go:265-268 | after Handle(cmd, h), a request for cmd in any case goes to h; every other verb is handled as before |
| ServerDispatchProperties.DecideRequest | server/server.go:283-299 | a request of byte strings runs its verb's handler or is rejected |
| ServerDispatchProperties.TurnOfRequest | server/server.go:275-299 | a request read without an error leaves its event |
| ServerDispatchProperties.PipelineReadsAll | server/server.go:212-214 | requests written back to back are read one after the other |
| ServerDispatchProperties.SessionOfReads | server/server.go:274-300 | requests read without errors are handled in order, then io.EOF ends the session |
| ServerDispatchProperties.SessionOfPipeline | server/server.go:274-300 | a client that sends requests and closes: each is handled in order, unknown verbs are answered, io.EOF ends it |
| ServerDispatchProperties.SessionEmptyRequest | server/server.go:284 | "*0\r\n" panics on data[0] |
| ServerDispatchProperties.SessionStatusLine | server/server.go:283 | a status line is not a slice: the type assertion panics |
| ServerDispatchProperties.SessionLoneBulk | server/server.go:283 | a lone bulk is not a slice: the type assertion panics |
| ServerDispatchProperties.SessionErrorReply | server/server.go:276-280 | an error reply from the client ends the session with the read error |
| Parser.ParseAt | parser.go:8-28 | Parse consumes at least the indicator byte unless the stream is empty |
| Parser.Parse | parser.go:8-28 | returns ParseAt's bytes and error |
| ParserProperties.ParseStatus | parser.go:17-18 | '+' returns the line |
| ParserProperties.ParseErrorReply | parser.go:19-24 | '-' returns an error whose message is the line, and a one-byte slice |
| ParserProperties.ParseErrorAlwaysFails | parser.go:19-24 | '-' always comes with an error |
| ParserProperties.ParseNil | parser.go:11-27 | nil bytes exactly at the end of the stream (io.EOF returned as is) or for another indicator (no error, one byte consumed) |
| ParserProperties.ParseOk | parser_test.go:34-37 | "+OK\r\n" is "OK" |
| ParserProperties.ParseErrUnknown | parser_test.go:48-60 | "-ERR unknown\r\n" gives the error "ERR unknown" |

## Left out

- Networking: `NewServer`'s listener, `Loop` and its goroutines, `Client.Close`, and the client
  packages are outside the model. A client is the byte stream its requests arrive on plus the
  sink its replies go to.
- Logging with `fmt.Printf` is left out, along with the error a handler returns, which is only
  logged.
- Handler bodies cannot be seen. A handler is known only by an identifier, and a run is recorded
  as an event holding the handler, the verb and the arguments.
- `fmt.Sprintf("%v", arg)` in `process` is left out: the arguments are kept as decoded values.
- ServerDispatch.Upper: `strings.ToUpper` is modelled on ASCII letters only, because Unicode case
  mapping is out of scope.
- Writer.WriteBulk, Writer.WriteMultiBulk, Writer.Write, Protocol.WriteBulk,
  Protocol.WriteMultiBulk: every payload and argument must be ASCII. The Go functions accept any
  string, but their rune loop would truncate multi-byte characters, and UTF-8 decoding is not
  modelled.
- ReplyReader.NumberAt: Go `int` overflow in `n*10 + digit` is not modelled. Values are
  unbounded integers.
- Protocol.ReadBulk and the ProtocolProperties lemmas about it assume offsets and lengths that fit
  an int64, as the lengths of Go slices do.
- RequestServerProperties.BulksPrefix and the lemmas built on it assume lengths and counts that
  fit an int64.
- Stream.Sink.Write: a writer with a fault fails the same way on every call, taking the same
  number of bytes each time. A connection that breaks only after some writes have gone through
  is not modelled.
- ServerDispatch.Rejection: server/server.go:225 frames the reply with `gedis.WriteError`, which is
  not part of this model's revision of the code. It is modelled by writer.go's `writeError`, which
  adds no prefix. writer_test.go:70-78 suggests that the exported function adds "ERR ".
- ServerDispatch.Server.Process: handlers are assumed not to read from or write to the client.
  A handler such as the one at server/server.go:56-65 would write "+PONG\r\n" between the
  rejections.
- Stream.Reader.Fill, Stream.Reader.ReadInto: a read copies min(n, remaining) bytes at once, as
  the in-memory readers do. A network stream that returns fewer bytes is not modelled.
- Stream.Reader.ReadInto, Stream.Reader.ReadAll, Stream.Reader.Fill, Stream.Reader.ReadByte,
  ReplyProperties.ReadAtEndOfStream, ParserProperties.ParseNil: a read fails only with io.EOF, and
  only at the end of the data. The other errors a network connection can return are not modelled,
  so these branches are left out: reader.go:18-20 and 44-46 (`readNumber` returns the digits read
  so far with the error), reader.go:59-65 (`readLine` returns "" and the error), reader.go:104-106
  and 121-123, parser.go:11-14, server/reader.go:49, and the error of `ioutil.ReadAll` at
  server/server.go:159-161. ReadAtEndOfStream and ParseNil show that a failed first read is
  returned unchanged for io.EOF only.
- RequestServer.BulkAt, ReplyReader.BulkAt, ReplyReader.ArrayAt, RequestReader.ArgAt,
  RequestReader.RequestAt, RequestServer.BulkAfter, RequestServer.ReceivedOf and the lemmas built
  on them: `make` is modelled as failing only for a negative length. Go's `make` also panics with
  "len out of range" when the slice would be larger than the allocation limit (2^48 bytes on
  64-bit Linux), and a smaller but still huge allocation can run out of memory. This applies at
  reader.go:100 and 175, server/reader.go:26 and 78, and server/server.go:131 and 179. In the model
  such a length is read on until the data runs out, which gives io.EOF; a count that large gives
  that many failed elements or empty slots.
- The position of a stream after a Go panic is left unspecified, since a panic ends the program.
- Tests written for other revisions of the code are not modelled:
  - writer_test.go:70-78 expects an "ERR " prefix that writeError does not add.
  - writer_test.go:103-113 passes non-string arguments to `Write`.
  - parser_test.go:87-190 expects kinds parser.go does not decode.
  - server/server_test.go:70-88 would fail server/server.go's trailing-bytes check. It holds for
    server/reader.go, where RequestProperties.NextRequestAfterFrame proves it.
- parser.go stores `readLine`'s result in a `[]byte`, while `readLine` in reader.go returns a
  string; both are byte sequences here. server/reader.go calls `gedis.ReadNumber` and
  `gedis.NewParseError`, which are not part of this model's revision of reader.go; they are
  modelled by reader.go's `readNumber` and by a parse-error value.
- `Response`'s accessors (`IsStatus`, `Status`, `Integer`, `Value`, `IsNull`, `Values`) are
  one-line members of the Response datatype. Their meaning is stated through the
  ProtocolProperties lemmas above.
