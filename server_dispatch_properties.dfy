/** What server/server.go's registry and dispatch loop do with the requests a client sends, proved
    about Decide and SessionAt, the reference functions Server.Handle and Server.Process are
    verified against. */
module ServerDispatchProperties {
  import opened Wire
  import opened Decimal
  import opened Frames
  import opened ReplyReader
  import ReplyProperties
  import opened ServerDispatch

  // ---------------------------------------------------------------------------------------------
  // Handle, then the lookup

  /** After Handle(cmd, handler), a request whose verb is cmd in any mix of cases goes to that
      handler (or is rejected, when it is nil), with the verb upper-cased; the handling of every
      other verb is what it was before. */
  lemma HandleRoutes(handlers: map<seq<byte>, Handler>, cmd: seq<byte>, handler: Handler, req: Value)
    requires WellFormed(req)
    ensures var after := Decide(handlers[Upper(cmd) := handler], req);
            SameWord(req.elems[0].bytes, cmd) ==>
              after == if handler.Func? then Invoke(handler, Upper(cmd), req.elems[1..]) else Unknown(Upper(cmd))
    ensures !SameWord(req.elems[0].bytes, cmd) ==>
              Decide(handlers[Upper(cmd) := handler], req) == Decide(handlers, req)
  {
    UpperSameWord(req.elems[0].bytes, cmd);
  }

  // ---------------------------------------------------------------------------------------------
  // One request

  /** The event process leaves for a request whose elements are the byte strings args, args[0]
      being the verb. */
  function EventOf(handlers: map<seq<byte>, Handler>, args: seq<seq<byte>>): Event
    requires args != []
  {
    var verb := Upper(args[0]);
    if verb in handlers && handlers[verb].Func? then Called(handlers[verb], verb, ReplyProperties.Strs(args[1..]))
    else Replied(Rejection(verb))
  }

  /** The decision on a request whose elements are the byte strings args, and the event it leaves. */
  lemma DecideRequest(handlers: map<seq<byte>, Handler>, args: seq<seq<byte>>)
    requires args != []
    ensures var step := Decide(handlers, Array(ReplyProperties.Strs(args)));
            (step.Invoke? && EventOf(handlers, args) == Called(step.handler, step.verb, step.args))
            || (step.Unknown? && EventOf(handlers, args) == Replied(Rejection(step.verb)))
  {
    var vs := ReplyProperties.Strs(args);
    assert vs[1..] == ReplyProperties.Strs(args[1..]);
  }

  /** A request read from position i without an error, with a verb, leaves its event. */
  lemma TurnOfRequest(handlers: map<seq<byte>, Handler>, d: seq<byte>, i: nat, args: seq<seq<byte>>)
    requires args != [] && i <= |d|
    requires ReadAt(d, i).ret == Array(ReplyProperties.Strs(args)) && ReadAt(d, i).err.None?
    ensures TurnAt(handlers, d, i) == Go(EventOf(handlers, args), ReadAt(d, i).used)
  {
    DecideRequest(handlers, args);
  }

  /** Requests written one after the other. */
  function Pipeline(reqs: seq<seq<seq<byte>>>): seq<byte>
  {
    if reqs == [] then [] else MultiBulkFrame(reqs[0]) + Pipeline(reqs[1..])
  }

  /** The events of requests handled in order. */
  function EventsOf(handlers: map<seq<byte>, Handler>, reqs: seq<seq<seq<byte>>>): (es: seq<Event>)
    requires forall k :: 0 <= k < |reqs| ==> reqs[k] != []
    ensures |es| == |reqs|
  {
    if reqs == [] then [] else [EventOf(handlers, reqs[0])] + EventsOf(handlers, reqs[1..])
  }

  /** From position i, the requests reqs are read one after the other, without an error, up to the
      end of d. */
  predicate ReadsAll(d: seq<byte>, i: nat, reqs: seq<seq<seq<byte>>>)
    requires i <= |d|
    decreases |reqs|
  {
    if reqs == [] then i == |d|
    else
      var r := ReadAt(d, i);
      r.ret == Array(ReplyProperties.Strs(reqs[0])) && r.err.None? && ReadsAll(d, i + r.used, reqs[1..])
  }

  /** A pipeline is read request by request. */
  lemma {:induction false} PipelineReadsAll(d: seq<byte>, i: nat, reqs: seq<seq<seq<byte>>>)
    requires i <= |d| && d[i..] == Pipeline(reqs)
    ensures ReadsAll(d, i, reqs)
    decreases |reqs|
  {
    if reqs != [] {
      var f := MultiBulkFrame(reqs[0]);
      ReplyProperties.Skip(d, i, f, Pipeline(reqs[1..]));
      ReplyProperties.ReadsMultiBulkFrame(d, i, reqs[0], Pipeline(reqs[1..]));
      PipelineReadsAll(d, i + |f|, reqs[1..]);
    }
  }

  /** Requests that are read one after the other, each with a verb, are handled in order, and the
      session ends with io.EOF at the end of the input. */
  lemma {:induction false} SessionOfReads(handlers: map<seq<byte>, Handler>, d: seq<byte>, i: nat, reqs: seq<seq<seq<byte>>>)
    requires forall k :: 0 <= k < |reqs| ==> reqs[k] != []
    requires i <= |d| && ReadsAll(d, i, reqs)
    ensures SessionAt(handlers, d, i) == Session(EventsOf(handlers, reqs), Eof)
    decreases |reqs|
  {
    if reqs != [] {
      var next := i + ReadAt(d, i).used;
      TurnOfRequest(handlers, d, i, reqs[0]);
      SessionGo(handlers, d, i, EventOf(handlers, reqs[0]), ReadAt(d, i).used);
      SessionOfReads(handlers, d, next, reqs[1..]);
      ThenEof(SessionAt(handlers, d, i), EventOf(handlers, reqs[0]), SessionAt(handlers, d, next), EventsOf(handlers, reqs[1..]));
      assert EventsOf(handlers, reqs) == [EventOf(handlers, reqs[0])] + EventsOf(handlers, reqs[1..]);
    }
  }

  /** A turn that leaves e, then a session that leaves more and ends with io.EOF. */
  lemma ThenEof(whole: Session, e: Event, after: Session, more: seq<Event>)
    requires whole == Then([e], after) && after == Session(more, Eof)
    ensures whole == Session([e] + more, Eof)
  {
  }

  /** A client that sends requests and then closes the connection: every request is handled in
      order, unknown verbs are answered, and the session ends with io.EOF. */
  lemma SessionOfPipeline(handlers: map<seq<byte>, Handler>, d: seq<byte>, i: nat, reqs: seq<seq<seq<byte>>>)
    requires forall k :: 0 <= k < |reqs| ==> reqs[k] != []
    requires i <= |d| && d[i..] == Pipeline(reqs)
    ensures SessionAt(handlers, d, i) == Session(EventsOf(handlers, reqs), Eof)
  {
    PipelineReadsAll(d, i, reqs);
    SessionOfReads(handlers, d, i, reqs);
  }

  // ---------------------------------------------------------------------------------------------
  // What ends a session

  /** "*0\r\n": the request reads as an empty slice, and data[0] is out of range. */
  lemma SessionEmptyRequest(handlers: map<seq<byte>, Handler>, d: seq<byte>, i: nat, rest: seq<byte>)
    requires i <= |d| && d[i..] == [STAR] + Itoa(0) + CRLF + rest
    ensures SessionAt(handlers, d, i) == Session([], Panic(IndexOutOfRange))
  {
    assert MultiBulkFrame([]) + rest == [STAR] + Itoa(0) + CRLF + rest;
    ReplyProperties.ReadsMultiBulkFrame(d, i, [], rest);
  }

  /** A status line is a string, not a slice: the type assertion panics. */
  lemma SessionStatusLine(handlers: map<seq<byte>, Handler>, d: seq<byte>, i: nat, l: seq<byte>, rest: seq<byte>)
    requires i <= |d| && d[i..] == [PLUS] + l + CRLF + rest
    requires ReplyProperties.Literal(l) && |l| <= LineBuffer
    ensures SessionAt(handlers, d, i) == Session([], Panic(TypeAssertion))
  {
    ReplyProperties.ReadStatus(d, i, l, rest);
  }

  /** A lone bulk is a string, not a slice: the type assertion panics. */
  lemma SessionLoneBulk(handlers: map<seq<byte>, Handler>, d: seq<byte>, i: nat, b: seq<byte>, rest: seq<byte>)
    requires i <= |d| && d[i..] == BulkFrame(b) + rest
    ensures SessionAt(handlers, d, i) == Session([], Panic(TypeAssertion))
  {
    ReplyProperties.ReadBulkFrame(d, i, b, rest);
  }

  /** An error reply sent by the client never reads without an error, so it ends the session
      before anything is handled. */
  lemma SessionErrorReply(handlers: map<seq<byte>, Handler>, d: seq<byte>, i: nat)
    requires i < |d| && d[i] == MINUS
    ensures SessionAt(handlers, d, i) == Session([], ReadAt(d, i).err.value)
  {
    ReplyProperties.ErrorReplyAlwaysFails(d, i);
  }
}
