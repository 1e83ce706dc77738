/** server/server.go, its command registry and dispatch: handlers are stored under the upper-cased
    verb, and each request a client sends is looked up by its upper-cased first element. Connections,
    goroutines and logging are not modelled: a client is the stream its requests arrive on and the
    sink its replies are written to, and a handler is known only by which one it is. */
module ServerDispatch {
  import opened Wire
  import opened Stream
  import opened ReplyReader
  import Writer

  // ---------------------------------------------------------------------------------------------
  // strings.ToUpper, on ASCII

  predicate IsLower(b: byte) { 'a' as int <= b <= 'z' as int }

  /** The upper-case form of one byte: ASCII letters 'a' to 'z' move to 'A' to 'Z'. */
  function UpperByte(b: byte): byte
  {
    if IsLower(b) then b - 32 else b
  }

  /** strings.ToUpper, byte by byte. */
  function Upper(s: seq<byte>): (u: seq<byte>)
    ensures |u| == |s|
    ensures forall i :: 0 <= i < |s| ==> u[i] == UpperByte(s[i])
  {
    if s == [] then [] else [UpperByte(s[0])] + Upper(s[1..])
  }

  /** x and y are the same byte, or the lower- and upper-case forms of one ASCII letter. */
  predicate SameLetter(x: byte, y: byte)
  {
    x == y || (IsLower(x) && x - 32 == y) || (IsLower(y) && y - 32 == x)
  }

  /** a and b spell the same word, ignoring the case of ASCII letters. */
  predicate SameWord(a: seq<byte>, b: seq<byte>)
  {
    |a| == |b| && forall i :: 0 <= i < |a| ==> SameLetter(a[i], b[i])
  }

  /** Two verbs are stored under the same key exactly when they are the same word up to case. */
  lemma UpperSameWord(a: seq<byte>, b: seq<byte>)
    ensures Upper(a) == Upper(b) <==> SameWord(a, b)
  {
    if Upper(a) == Upper(b) {
      assert forall i :: 0 <= i < |a| ==> UpperByte(a[i]) == Upper(a)[i] == Upper(b)[i] == UpperByte(b[i]);
    }
    if SameWord(a, b) {
      assert forall i :: 0 <= i < |a| ==> Upper(a)[i] == Upper(b)[i];
    }
  }

  /** Upper-casing twice is upper-casing once, and leaves no lower-case letter. */
  lemma UpperIdempotent(s: seq<byte>)
    ensures Upper(Upper(s)) == Upper(s)
    ensures forall i :: 0 <= i < |s| ==> !IsLower(Upper(s)[i])
  {
    assert forall i :: 0 <= i < |s| ==> Upper(Upper(s))[i] == UpperByte(Upper(s)[i]) == Upper(s)[i];
  }

  // ---------------------------------------------------------------------------------------------
  // Handle and the lookup in process

  /** A Handler func value: nil, or one of the functions the program registered. */
  datatype Handler = NilHandler | Func(id: nat)

  /** What process does with one request read from a client. */
  datatype Step =
    | Crash(reason: PanicReason)                                // a failed type assertion or index
    | Invoke(handler: Handler, verb: seq<byte>, args: seq<Value>) // the handler runs with the other elements
    | Unknown(verb: seq<byte>)                                   // answered by c.Errorf

  /** The text of the error reply in front of the verb: the bytes of "Unrecognized command '". */
  const UNRECOGNIZED: seq<byte> := [85, 110, 114, 101, 99, 111, 103, 110, 105, 122, 101, 100, 32, 99, 111, 109, 109, 97, 110, 100, 32, 39]

  /** c.Errorf("Unrecognized command '%s'", verb): the error reply "-Unrecognized command '<VERB>'\r\n",
      framed by writeError. */
  function Rejection(verb: seq<byte>): (reply: seq<byte>)
    ensures |reply| == 26 + |verb| && reply[0] == MINUS && reply[23..23 + |verb|] == verb
    ensures reply[|reply| - 2..] == CRLF
  {
    var r := Writer.WriteError(UNRECOGNIZED + verb + [QUOTE]);
    assert r[23..23 + |verb|] == r[1..|r| - 2][22..22 + |verb|];
    r
  }

  /** A request is a slice starting with a string, as process expects. */
  predicate WellFormed(req: Value)
  {
    req.Array? && req.elems != [] && req.elems[0].Str?
  }

  /** process, once a request has been read without an error: it must be a slice whose first
      element is a string (else the type assertion or the index panics); the verb is upper-cased and
      looked up, and a missing or nil handler gets the error reply. It panics exactly when the
      request is not a slice starting with a string. */
  function Decide(handlers: map<seq<byte>, Handler>, req: Value): (s: Step)
    ensures s.Crash? <==> !WellFormed(req)
  {
    if !req.Array? then Crash(TypeAssertion)
    else if req.elems == [] then Crash(IndexOutOfRange)
    else if !req.elems[0].Str? then Crash(TypeAssertion)
    else
      var cmd := Upper(req.elems[0].bytes);
      if cmd in handlers && handlers[cmd].Func? then Invoke(handlers[cmd], cmd, req.elems[1..])
      else Unknown(cmd)
  }

  /** A well-formed request runs its verb's non-nil handler with the other elements, or is
      rejected when the handler is missing or nil. */
  lemma DecideCases(handlers: map<seq<byte>, Handler>, req: Value)
    ensures Decide(handlers, req).Invoke? <==>
            WellFormed(req) && Upper(req.elems[0].bytes) in handlers && handlers[Upper(req.elems[0].bytes)] != NilHandler
    ensures Decide(handlers, req).Unknown? <==>
            WellFormed(req) && (Upper(req.elems[0].bytes) !in handlers || handlers[Upper(req.elems[0].bytes)] == NilHandler)
    ensures Decide(handlers, req).Invoke? ==>
            Decide(handlers, req) == Invoke(handlers[Upper(req.elems[0].bytes)], Upper(req.elems[0].bytes), req.elems[1..])
    ensures Decide(handlers, req).Unknown? ==> Decide(handlers, req).verb == Upper(req.elems[0].bytes)
  {
  }

  /** The registry of a server. */
  class Server {
    var handlers: map<seq<byte>, Handler>

    /** NewServer's empty map; listening on the network is not modelled. */
    constructor ()
      ensures handlers == map[]
    {
      handlers := map[];
    }

    /** Handle: the handler is stored under the upper-cased verb, replacing any handler already
        there; nothing checks that the verb is a Redis command. */
    method Handle(cmd: seq<byte>, handler: Handler)
      modifies this
      ensures handlers == old(handlers)[Upper(cmd) := handler]
    {
      handlers := handlers[Upper(cmd) := handler];
    }

    /** process: read a request with reader.go's Read, stop at the first read error (io.EOF
        included) or panic, otherwise run the handler or write the error reply (whose outcome it
        ignores), and read again. */
    method Process(c: Reader, out: Sink) returns (events: seq<Event>, end: Error)
      requires c.Valid()
      modifies c, out
      ensures SessionAt(handlers, c.data, old(c.pos)) == Session(events, end)
      ensures out.writes == old(out.writes) + Delivered(out.fault, Replies(events))
    {
      var hs := handlers;
      ghost var whole := SessionAt(hs, c.data, c.pos);
      events := [];
      while true
        invariant c.Valid() && out.writes == old(out.writes) + Delivered(out.fault, Replies(events))
        invariant whole == Then(events, SessionAt(hs, c.data, c.pos))
        decreases |c.data| - c.pos
      {
        ghost var i := c.pos;
        var t := Serve(hs, c, out);
        if t.Stop? {
          SessionStop(hs, c.data, i, t.end);
          return events, t.end;
        }
        SessionGo(hs, c.data, i, t.event, t.used);
        ThenSnoc(whole, events, SessionAt(hs, c.data, i), t.event, SessionAt(hs, c.data, c.pos), out.fault);
        events := events + [t.event];
      }
    }
  }

  /** One turn of process's loop: read a request, then run its handler or write the error reply. */
  method Serve(handlers: map<seq<byte>, Handler>, c: Reader, out: Sink) returns (t: Turn)
    requires c.Valid()
    modifies c, out
    ensures c.Valid() && t == TurnAt(handlers, c.data, old(c.pos))
    ensures t.Go? ==> c.pos == old(c.pos) + t.used
    ensures out.writes == old(out.writes) + if t.Go? && t.event.Replied? then [Sent(out.fault, t.event.reply)] else []
  {
    var start := c.pos;
    var ret, err := ReplyReader.Read(c);
    if err.Some? {
      return Stop(err.value);
    }
    match Decide(handlers, ret)
    case Crash(reason) =>
      t := Stop(Panic(reason));
    case Invoke(h, verb, args) =>
      t := Go(Called(h, verb, args), c.pos - start);
    case Unknown(verb) =>
      var reply := Rejection(verb);
      var _, _ := out.Write(reply);
      t := Go(Replied(reply), c.pos - start);
  }

  // ---------------------------------------------------------------------------------------------
  // A session

  /** What a session leaves behind: a handler run, or an error reply written to the client. */
  datatype Event = Called(handler: Handler, verb: seq<byte>, args: seq<Value>) | Replied(reply: seq<byte>)

  /** The events of a session in order, and what ended it. */
  datatype Session = Session(events: seq<Event>, end: Error)

  /** The replies among the events, in order: what process writes to the client. */
  function Replies(events: seq<Event>): (rs: seq<seq<byte>>)
    ensures |rs| <= |events|
  {
    if events == [] then []
    else (if events[0].Replied? then [events[0].reply] else []) + Replies(events[1..])
  }

  lemma {:induction false} RepliesSnoc(events: seq<Event>, e: Event)
    ensures Replies(events + [e]) == Replies(events) + (if e.Replied? then [e.reply] else [])
    decreases |events|
  {
    if events == [] {
      assert [e][1..] == [];
    } else {
      assert (events + [e])[1..] == events[1..] + [e];
      RepliesSnoc(events[1..], e);
    }
  }

  /** `done` happened, then session s. */
  function Then(done: seq<Event>, s: Session): Session
  {
    Session(done + s.events, s.end)
  }

  /** A session that went through done and reached s, where s leaves e and goes on to next: the
      events so far grow by e. */
  lemma ThenSnoc(whole: Session, done: seq<Event>, s: Session, e: Event, next: Session, fault: Option<Fault>)
    requires whole == Then(done, s) && s == Then([e], next)
    ensures whole == Then(done + [e], next)
    ensures Delivered(fault, Replies(done + [e]))
         == Delivered(fault, Replies(done)) + (if e.Replied? then [Sent(fault, e.reply)] else [])
  {
    assert done + ([e] + next.events) == (done + [e]) + next.events;
    RepliesSnoc(done, e);
    DeliveredAppend(fault, Replies(done), if e.Replied? then [e.reply] else []);
  }

  /** One turn of process's loop from position i: the session ends, or leaves an event and goes on
      `used` bytes further. */
  datatype Turn = Stop(end: Error) | Go(event: Event, used: nat)

  /** The turn from position i: a read error or a panic stops the loop; a handled request leaves
      a handler run or an error reply. A request read without an error takes at least one byte. */
  function TurnAt(handlers: map<seq<byte>, Handler>, d: seq<byte>, i: nat): (t: Turn)
    requires i <= |d|
    ensures t.Go? ==> 0 < t.used && i + t.used <= |d|
  {
    var r := ReadAt(d, i);
    if r.err.Some? then Stop(r.err.value)
    else
      match Decide(handlers, r.ret)
      case Crash(reason) => Stop(Panic(reason))
      case Invoke(h, verb, args) => Go(Called(h, verb, args), r.used)
      case Unknown(verb) => Go(Replied(Rejection(verb)), r.used)
  }

  /** An event process can leave: a run of a non-nil handler registered under its verb, or an
      error reply. */
  predicate Handled(handlers: map<seq<byte>, Handler>, e: Event)
  {
    match e
    case Called(h, verb, _) => h.Func? && verb in handlers && handlers[verb] == h
    case Replied(reply) => |reply| >= 26 && reply[0] == MINUS && reply[|reply| - 2..] == CRLF
  }

  /** process on the bytes d a client sends, from position i: turn after turn, until one stops. */
  function SessionAt(handlers: map<seq<byte>, Handler>, d: seq<byte>, i: nat): (s: Session)
    requires i <= |d|
    ensures i == |d| ==> s == Session([], Eof)
    decreases |d| - i
  {
    match TurnAt(handlers, d, i)
    case Stop(end) => Session([], end)
    case Go(event, used) => Then([event], SessionAt(handlers, d, i + used))
  }

  /** Every event of a session is a run of a non-nil handler registered under its verb, or an
      error reply. */
  lemma {:induction false} SessionHandled(handlers: map<seq<byte>, Handler>, d: seq<byte>, i: nat)
    requires i <= |d|
    ensures forall e :: e in SessionAt(handlers, d, i).events ==> Handled(handlers, e)
    decreases |d| - i
  {
    var t := SessionStep(handlers, d, i);
    if t.Go? {
      var next := i + t.used;
      SessionHandled(handlers, d, next);
      var rest := SessionAt(handlers, d, next).events;
      assert SessionAt(handlers, d, i).events == [t.event] + rest;
    }
  }

  /** Each request read takes at least one byte, so a session leaves at most one event per byte
      the client sends. */
  lemma {:induction false} SessionBound(handlers: map<seq<byte>, Handler>, d: seq<byte>, i: nat)
    requires i <= |d|
    ensures |SessionAt(handlers, d, i).events| <= |d| - i
    decreases |d| - i
  {
    var t := SessionStep(handlers, d, i);
    if t.Go? {
      var next := i + t.used;
      SessionBound(handlers, d, next);
    }
  }

  /** The first turn of a session, stated without unfolding it: a stop ends the session, and a turn
      that goes on leaves a handled event and takes at least one byte. */
  lemma SessionStep(handlers: map<seq<byte>, Handler>, d: seq<byte>, i: nat) returns (t: Turn)
    requires i <= |d|
    ensures t.Stop? ==> SessionAt(handlers, d, i) == Session([], t.end)
    ensures t.Go? ==> 0 < t.used && i + t.used <= |d| && Handled(handlers, t.event) &&
                      SessionAt(handlers, d, i) == Then([t.event], SessionAt(handlers, d, i + t.used))
  {
    t := TurnAt(handlers, d, i);
    if t.Stop? {
      SessionStop(handlers, d, i, t.end);
    } else {
      SessionGo(handlers, d, i, t.event, t.used);
      if t.event.Replied? {
        var verb := Decide(handlers, ReadAt(d, i).ret).verb;
        assert t.event.reply == Rejection(verb);
      }
    }
  }

  /** A turn that stops ends the session, with no event. */
  lemma SessionStop(handlers: map<seq<byte>, Handler>, d: seq<byte>, i: nat, end: Error)
    requires i <= |d| && TurnAt(handlers, d, i) == Stop(end)
    ensures SessionAt(handlers, d, i) == Session([], end)
  {
  }

  /** A turn that goes on: its event, then the session after it. */
  lemma SessionGo(handlers: map<seq<byte>, Handler>, d: seq<byte>, i: nat, e: Event, used: nat)
    requires i <= |d| && TurnAt(handlers, d, i) == Go(e, used)
    ensures i + used <= |d| && SessionAt(handlers, d, i) == Then([e], SessionAt(handlers, d, i + used))
  {
  }
}
