/** The byte streams the codec works on: an in-memory reader with the semantics of Go's
    bytes.Buffer, and a writer that records what each write delivered and may fail. Reading the
    network is not modelled: the bytes a peer sends are the reader's data. */
module Stream {
  import opened Wire

  function Min(a: int, b: int): int { if a <= b then a else b }

  /** The index of the first `delim` in s, or |s| when there is none. */
  function IndexOf(s: seq<byte>, delim: byte): (k: nat)
    ensures k <= |s|
    ensures forall i :: 0 <= i < k ==> s[i] != delim
    ensures k < |s| ==> s[k] == delim
  {
    if s == [] then 0 else if s[0] == delim then 0 else 1 + IndexOf(s[1..], delim)
  }

  /** A stream over `data`, read front to back; `pos` counts the bytes already consumed. */
  class Reader {
    const data: seq<byte>
    var pos: nat

    ghost predicate Valid()
      reads this
    {
      pos <= |data|
    }

    /** The bytes not yet read. */
    function Rest(): seq<byte>
      reads this
      requires Valid()
    {
      data[pos..]
    }

    constructor (data: seq<byte>)
      ensures Valid() && this.data == data && pos == 0
    {
      this.data := data;
      pos := 0;
    }

    /** r.Read(b) with a one-byte b: the next byte, or io.EOF (leaving b as it was) at the end. */
    method ReadByte() returns (b: Option<byte>)
      requires Valid()
      modifies this
      ensures Valid()
      ensures old(pos) < |data| ==> b == Some(data[old(pos)]) && pos == old(pos) + 1
      ensures old(pos) == |data| ==> b == None && pos == old(pos)
    {
      if pos < |data| {
        b := Some(data[pos]);
        pos := pos + 1;
      } else {
        b := None;
      }
    }

    /** r.Read(p) with len(p) == n: copies as many of the next n bytes as there are (a short read is
        not an error) and fails with io.EOF only when nothing is left and n > 0, as bytes.Buffer does. */
    method ReadInto(n: nat) returns (got: seq<byte>, eof: bool)
      requires Valid()
      modifies this
      ensures Valid()
      ensures got == old(Rest())[..Min(n, |old(Rest())|)]
      ensures pos == old(pos) + |got|
      ensures eof <==> old(pos) == |data| && n > 0
    {
      var k := Min(n, |data| - pos);
      got := data[pos..pos + k];
      pos := pos + k;
      eof := k == 0 && n > 0;
    }

    /** r.Read(p): copies the next Min(len(p), remaining) bytes into the front of p and leaves the rest
        of p as it was; io.EOF only when nothing is left and len(p) > 0, as bytes.Buffer does. */
    method Fill(p: array<byte>) returns (k: nat, eof: bool)
      requires Valid()
      modifies this, p
      ensures Valid()
      ensures k == Min(p.Length, |old(Rest())|) && pos == old(pos) + k
      ensures p[..k] == old(Rest())[..k] && p[k..] == old(p[k..])
      ensures eof <==> old(pos) == |data| && p.Length > 0
    {
      k := Min(p.Length, |data| - pos);
      var t := 0;
      while t < k
        invariant 0 <= t <= k && pos == old(pos)
        invariant p[..t] == data[pos..pos + t] && p[k..] == old(p[k..])
      {
        p[t] := data[pos + t];
        t := t + 1;
      }
      pos := pos + k;
      eof := k == 0 && p.Length > 0;
    }

    /** ioutil.ReadAll(r): everything that is left. */
    method ReadAll() returns (s: seq<byte>)
      requires Valid()
      modifies this
      ensures Valid()
      ensures s == old(Rest()) && pos == |data|
    {
      s := data[pos..];
      pos := |data|;
    }

    /** bytes.Buffer.ReadString(delim): the bytes up to and including the first delim; when there is
        none, everything that is left and io.EOF. */
    method ReadString(delim: byte) returns (s: seq<byte>, eof: bool)
      requires Valid()
      modifies this
      ensures Valid()
      ensures var k := IndexOf(old(Rest()), delim);
              if k < |old(Rest())|
              then s == old(Rest())[..k + 1] && !eof && pos == old(pos) + k + 1
              else s == old(Rest()) && eof && pos == |data|
    {
      var i := pos;
      while i < |data| && data[i] != delim
        invariant pos <= i <= |data|
        invariant IndexOf(data[pos..], delim) == (i - pos) + IndexOf(data[i..], delim)
      {
        assert data[i..][1..] == data[i + 1..];
        i := i + 1;
      }
      if i < |data| {
        s := data[pos..i + 1];
        eof := false;
        pos := i + 1;
      } else {
        s := data[pos..];
        eof := true;
        pos := |data|;
      }
    }
  }

  /** make([]byte, n): n zero bytes. */
  function Zeros(n: nat): (z: seq<byte>)
    ensures |z| == n && forall i :: 0 <= i < n ==> z[i] == 0
  {
    if n == 0 then [] else Zeros(n - 1) + [0]
  }

  /** A buffer made with length n after a read that filled its first |got| bytes. */
  function Padded(got: seq<byte>, n: nat): (p: seq<byte>)
    requires |got| <= n
    ensures |p| == n && p[..|got|] == got
    ensures forall i :: |got| <= i < n ==> p[i] == 0
  {
    got + Zeros(n - |got|)
  }

  /** A buffer is Padded(got, n) when it starts with got and is zero after it. */
  lemma PaddedOf(p: seq<byte>, got: seq<byte>)
    requires |got| <= |p| && p[..|got|] == got
    requires forall i :: |got| <= i < |p| ==> p[i] == 0
    ensures p == Padded(got, |p|)
  {
  }

  /** make([][]byte, n): n nil slices. */
  function Blank(n: nat): (s: seq<seq<byte>>)
    ensures |s| == n && forall i :: 0 <= i < n ==> s[i] == []
  {
    if n == 0 then [] else Blank(n - 1) + [[]]
  }

  /** The bytes of a sequence of writes, in order. */
  function Flatten(chunks: seq<seq<byte>>): (s: seq<byte>)
  {
    if chunks == [] then [] else Flatten(chunks[..|chunks| - 1]) + chunks[|chunks| - 1]
  }

  /** How a writer fails, when it does: each call takes the first `accepted` bytes it is given and
      reports `err` (a connection that breaks or is closed mid-write). */
  datatype Fault = Fault(accepted: nat, err: Error)

  /** How many bytes of p a write takes: all of them, unless the writer fails. */
  function Taken(fault: Option<Fault>, p: seq<byte>): (k: nat)
    ensures k <= |p|
    ensures fault.None? ==> k == |p|
    ensures fault.Some? && fault.value.accepted < |p| ==> k == fault.value.accepted
  {
    if fault.None? then |p| else Min(fault.value.accepted, |p|)
  }

  /** The error a write reports: none, unless the writer fails. */
  function Failure(fault: Option<Fault>): (err: Option<Error>)
    ensures err.None? <==> fault.None?
  {
    if fault.None? then None else Some(fault.value.err)
  }

  /** The part of p that reaches the other side. */
  function Sent(fault: Option<Fault>, p: seq<byte>): (s: seq<byte>)
    ensures s <= p
  {
    p[..Taken(fault, p)]
  }

  /** What reaches the other side of a sequence of writes, write by write. */
  function Delivered(fault: Option<Fault>, ps: seq<seq<byte>>): (ds: seq<seq<byte>>)
    ensures |ds| == |ps| && forall i :: 0 <= i < |ps| ==> ds[i] == Sent(fault, ps[i])
  {
    if ps == [] then [] else Delivered(fault, ps[..|ps| - 1]) + [Sent(fault, ps[|ps| - 1])]
  }

  /** Writes to a writer that does not fail arrive whole. */
  lemma DeliveredWhole(ps: seq<seq<byte>>)
    ensures Delivered(None, ps) == ps
  {
    forall i | 0 <= i < |ps|
      ensures Delivered(None, ps)[i] == ps[i]
    {
      assert ps[i][..|ps[i]|] == ps[i];
    }
  }

  /** Delivery goes write by write, so it distributes over a concatenation of writes. */
  lemma {:induction false} DeliveredAppend(fault: Option<Fault>, ps: seq<seq<byte>>, qs: seq<seq<byte>>)
    ensures Delivered(fault, ps + qs) == Delivered(fault, ps) + Delivered(fault, qs)
  {
    var l, r := Delivered(fault, ps + qs), Delivered(fault, ps) + Delivered(fault, qs);
    assert |l| == |r|;
    forall i | 0 <= i < |l|
      ensures l[i] == r[i]
    {
      if i < |ps| {
        assert (ps + qs)[i] == ps[i];
      } else {
        assert (ps + qs)[i] == qs[i - |ps|];
      }
    }
  }

  /** An io.Writer (a client's net.Conn, or a bytes.Buffer) that records what each call delivered.
      Whether it fails is fixed when it is made, not chosen by its callers: a writer without a fault
      takes every write whole, as bytes.Buffer does; one with a fault takes a prefix of each write
      and reports the fault's error. */
  class Sink {
    var writes: seq<seq<byte>>
    const fault: Option<Fault>

    constructor (fault: Option<Fault>)
      ensures writes == [] && this.fault == fault
    {
      writes := [];
      this.fault := fault;
    }

    /** The bytes written so far. */
    function Contents(): seq<byte>
      reads this
    {
      Flatten(writes)
    }

    /** Write: takes Taken(fault, p) bytes of p, reports Failure(fault), and keeps io.Writer's
        contract that a short write comes with an error. */
    method Write(p: seq<byte>) returns (n: int, err: Option<Error>)
      modifies this
      ensures 0 <= n <= |p| && n == Taken(fault, p) && err == Failure(fault)
      ensures n < |p| ==> err.Some?
      ensures writes == old(writes) + [p[..n]]
      ensures Contents() == old(Contents()) + p[..n]
    {
      n, err := Taken(fault, p), Failure(fault);
      writes := writes + [p[..n]];
      assert writes[..|writes| - 1] == old(writes);
    }
  }
}
