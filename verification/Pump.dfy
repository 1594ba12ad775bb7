/**
 The byte pump: the instrumented copy loop (internal/logx/logx.go:127-160) and the two concurrent
 directions of a relayed connection (internal/relay/tcp.go:98-123, internal/proxy/socks.go:221-247).
 */
module Pump {
  import opened Base

  const BUFFER: nat := 32 * 1024

  datatype ReadError = NoError | Eof | Broken
  datatype ReadEvent = ReadEvent(data: seq<byte>, err: ReadError)
  datatype WriteEvent = WriteEvent(accept: nat, fails: bool)

  datatype CopyError = NilError | WriteError | ShortWrite | SourceError
  datatype Outcome = Outcome(delivered: seq<byte>, err: CopyError)

  /** A reader that plays a script of results and then reports the end of the stream. */
  class Source {
    var script: seq<ReadEvent>

    constructor (script: seq<ReadEvent>)
      ensures this.script == script
    {
      this.script := script;
    }

    /** Read: the data lands at the front of the caller's buffer. */
    method Read(buf: array<byte>) returns (n: nat, err: ReadError)
      requires forall i | 0 <= i < |script| :: |script[i].data| <= buf.Length
      modifies this, buf
      ensures old(script) == [] ==> n == 0 && err == Eof && script == []
      ensures old(script) != [] ==>
                && script == old(script)[1..] && err == old(script)[0].err
                && n == |old(script)[0].data| <= buf.Length && buf[..n] == old(script)[0].data
    {
      if script == [] {
        return 0, Eof;
      }
      var data := script[0].data;
      forall i | 0 <= i < |data| {
        buf[i] := data[i];
      }
      n, err := |data|, script[0].err;
      script := script[1..];
    }
  }

  /** A writer that plays a script of partial or failing writes and then accepts everything. */
  class Sink {
    var written: seq<byte>
    var script: seq<WriteEvent>

    constructor (script: seq<WriteEvent>)
      ensures this.script == script && this.written == []
    {
      this.written, this.script := [], script;
    }

    method Write(chunk: seq<byte>) returns (n: nat, failed: bool)
      modifies this
      ensures n == Accepted(chunk, old(script)) && failed == Fails(old(script))
      ensures n <= |chunk| && written == old(written) + chunk[..n] && script == Rest(old(script))
    {
      if script == [] {
        n, failed := |chunk|, false;
      } else {
        n := if script[0].accept < |chunk| then script[0].accept else |chunk|;
        failed := script[0].fails;
        script := script[1..];
      }
      written := written + chunk[..n];
    }
  }

  function Accepted(chunk: seq<byte>, writes: seq<WriteEvent>): (n: nat)
    ensures n <= |chunk|
  {
    if writes != [] && writes[0].accept < |chunk| then writes[0].accept else |chunk|
  }

  predicate Fails(writes: seq<WriteEvent>) {
    writes != [] && writes[0].fails
  }

  function Rest(writes: seq<WriteEvent>): seq<WriteEvent> {
    if writes == [] then [] else writes[1..]
  }

  /**
   One turn of the loop: what it delivers and, unless the loop goes on, what Copy returns. The write
   result is looked at first, then the read error.
   */
  function Turn(input: seq<ReadEvent>, writes: seq<WriteEvent>): (r: (seq<byte>, Option<CopyError>))
    ensures r.1 == None ==> input != []
  {
    if input == [] then ([], Some(NilError))
    else
      var e := input[0];
      var n := Accepted(e.data, writes);
      if e.data != [] && Fails(writes) then (e.data[..n], Some(WriteError))
      else if e.data != [] && n < |e.data| then (e.data[..n], Some(ShortWrite))
      else
        match e.err
        case Eof => (e.data, Some(NilError))
        case Broken => (e.data, Some(SourceError))
        case NoError => (e.data, None)
  }

  /** The writer's script after one turn: an empty read writes nothing. */
  function AfterTurn(input: seq<ReadEvent>, writes: seq<WriteEvent>): seq<WriteEvent> {
    if input == [] || input[0].data == [] then writes else Rest(writes)
  }

  function CopySpec(input: seq<ReadEvent>, writes: seq<WriteEvent>): Outcome {
    var (part, stop) := Turn(input, writes);
    if stop.Some? then Outcome(part, stop.value)
    else
      var more := CopySpec(input[1..], AfterTurn(input, writes));
      Outcome(part + more.delivered, more.err)
  }

  method CopyTurn(dst: Sink, src: Source, buf: array<byte>) returns (n: nat, stop: Option<CopyError>)
    requires forall i | 0 <= i < |src.script| :: |src.script[i].data| <= buf.Length
    modifies dst, src, buf
    ensures var (part, end) := Turn(old(src.script), old(dst.script));
            dst.written == old(dst.written) + part && n == |part| && stop == end
    ensures stop == None ==>
              src.script == old(src.script)[1..] && dst.script == AfterTurn(old(src.script), old(dst.script))
  {
    var rn, rerr := src.Read(buf);
    n := 0;
    if rn > 0 {
      var failed;
      n, failed := dst.Write(buf[..rn]);
      if failed {
        return n, Some(WriteError);
      }
      if n != rn {
        return n, Some(ShortWrite);
      }
    }
    stop := match rerr case NoError => None case Eof => Some(NilError) case Broken => Some(SourceError);
  }

  /** A turn that lets the loop go on moves its part from what is to come to what is done. */
  lemma OneTurnDone(input: seq<ReadEvent>, writes: seq<WriteEvent>, done: seq<byte>)
    requires Turn(input, writes).1 == None
    ensures var rest := CopySpec(input[1..], AfterTurn(input, writes));
            && done + CopySpec(input, writes).delivered == done + Turn(input, writes).0 + rest.delivered
            && CopySpec(input, writes).err == rest.err
  {
  }

  /** One turn of io.Copy's loop, which remembers the first error and breaks. */
  method PlainTurn(dst: Sink, src: Source, buf: array<byte>) returns (wn: nat, err: CopyError, broke: bool)
    requires forall i | 0 <= i < |src.script| :: |src.script[i].data| <= buf.Length
    modifies dst, src, buf
    ensures var (part, end) := Turn(old(src.script), old(dst.script));
            dst.written == old(dst.written) + part && wn == |part| && end == if broke then Some(err) else None
    ensures !broke ==>
              src.script == old(src.script)[1..] && dst.script == AfterTurn(old(src.script), old(dst.script))
  {
    wn, err, broke := 0, NilError, false;
    var n, rerr := src.Read(buf);
    if n > 0 {
      var failed;
      wn, failed := dst.Write(buf[..n]);
      if failed || wn != n {
        err, broke := if failed then WriteError else ShortWrite, true;
      }
    }
    if !broke && rerr != NoError {
      err, broke := if rerr == Eof then NilError else SourceError, true;
    }
  }

  /** io.Copy: its loop leaves through one exit with the error found. */
  method PlainCopy(dst: Sink, src: Source) returns (written: nat, err: CopyError)
    requires forall i | 0 <= i < |src.script| :: |src.script[i].data| <= BUFFER
    modifies dst, src
    ensures var out := CopySpec(old(src.script), old(dst.script));
            dst.written == old(dst.written) + out.delivered && written == |out.delivered| && err == out.err
  {
    var buf := new byte[BUFFER];
    ghost var goal := CopySpec(src.script, dst.script);
    ghost var done: seq<byte> := [];
    written, err := 0, NilError;
    var broke := false;
    while !broke
      invariant !broke ==> forall i | 0 <= i < |src.script| :: |src.script[i].data| <= BUFFER
      invariant written == |done| && dst.written == old(dst.written) + done
      invariant goal == if broke then Outcome(done, err)
                        else Outcome(done + CopySpec(src.script, dst.script).delivered, CopySpec(src.script, dst.script).err)
      decreases !broke, |src.script|
    {
      ghost var input, writes, before := src.script, dst.script, done;
      ghost var part := Turn(input, writes).0;
      var wn;
      wn, err, broke := PlainTurn(dst, src, buf);
      written := written + wn;
      done := done + part;
      if !broke {
        OneTurnDone(input, writes, before);
      }
    }
  }

  /**
   logx.Copy: with neither -v nor -ddd it is io.Copy, otherwise its own loop with one buffer for all
   turns. Either way it delivers and returns the same.
   */
  method Copy(dst: Sink, src: Source, instrumented: bool) returns (total: nat, err: CopyError)
    requires forall i | 0 <= i < |src.script| :: |src.script[i].data| <= BUFFER
    modifies dst, src
    ensures var out := CopySpec(old(src.script), old(dst.script));
            dst.written == old(dst.written) + out.delivered && total == |out.delivered| && err == out.err
  {
    if !instrumented {
      total, err := PlainCopy(dst, src);
      return;
    }
    var buf := new byte[BUFFER];
    ghost var goal := CopySpec(src.script, dst.script);
    ghost var done: seq<byte> := [];
    total := 0;
    while true
      invariant forall i | 0 <= i < |src.script| :: |src.script[i].data| <= BUFFER
      invariant total == |done| && dst.written == old(dst.written) + done
      invariant goal == Outcome(done + CopySpec(src.script, dst.script).delivered, CopySpec(src.script, dst.script).err)
      decreases |src.script|
    {
      ghost var input, writes := src.script, dst.script;
      ghost var part := Turn(input, writes).0;
      var n, stop := CopyTurn(dst, src, buf);
      total := total + n;
      ghost var before := done;
      done := done + part;
      if stop.Some? {
        return total, stop.value;
      }
      OneTurnDone(input, writes, before);
    }
  }

  // ---- What a copy delivers

  /** The non-empty chunks that the reader hands out before it reports an error. */
  function Chunks(input: seq<ReadEvent>): seq<seq<byte>> {
    if input == [] then []
    else
      (if input[0].data == [] then [] else [input[0].data])
      + (if input[0].err == NoError then Chunks(input[1..]) else [])
  }

  function Concat(chunks: seq<seq<byte>>): seq<byte> {
    if chunks == [] then [] else chunks[0] + Concat(chunks[1..])
  }

  /** The first error the reader reports is the end of the stream. */
  predicate EndsAtEof(input: seq<ReadEvent>) {
    input == [] || input[0].err == Eof || (input[0].err == NoError && EndsAtEof(input[1..]))
  }

  /** Each chunk in turn is accepted whole and without error. */
  predicate AllAccepted(chunks: seq<seq<byte>>, writes: seq<WriteEvent>) {
    chunks == [] || (!Fails(writes) && Accepted(chunks[0], writes) == |chunks[0]| && AllAccepted(chunks[1..], Rest(writes)))
  }

  lemma ConcatCons(chunk: seq<byte>, rest: seq<seq<byte>>)
    ensures Concat([chunk] + rest) == chunk + Concat(rest)
  {
    assert ([chunk] + rest)[1..] == rest;
  }

  lemma AcceptedCons(chunk: seq<byte>, rest: seq<seq<byte>>, writes: seq<WriteEvent>)
    ensures AllAccepted([chunk] + rest, writes) <==>
            !Fails(writes) && Accepted(chunk, writes) == |chunk| && AllAccepted(rest, Rest(writes))
  {
    assert ([chunk] + rest)[1..] == rest;
  }

  /** What the first read contributes to the whole. */
  lemma FirstRead(input: seq<ReadEvent>, writes: seq<WriteEvent>)
    requires input != []
    ensures var e := input[0];
            var more := if e.err == NoError then Chunks(input[1..]) else [];
            && Concat(Chunks(input)) == e.data + Concat(more)
            && (AllAccepted(Chunks(input), writes) <==>
                  (e.data == [] || (!Fails(writes) && Accepted(e.data, writes) == |e.data|))
                  && AllAccepted(more, AfterTurn(input, writes)))
  {
    var e := input[0];
    var more := if e.err == NoError then Chunks(input[1..]) else [];
    if e.data == [] {
      assert Chunks(input) == more;
    } else {
      assert Chunks(input) == [e.data] + more;
      ConcatCons(e.data, more);
      AcceptedCons(e.data, more, writes);
    }
  }

  /** What a writer gets of these chunks: all of those before the first one it does not take whole, and what it takes of that. */
  function Taken(chunks: seq<seq<byte>>, writes: seq<WriteEvent>): seq<byte> {
    if chunks == [] then []
    else if Fails(writes) || Accepted(chunks[0], writes) < |chunks[0]| then chunks[0][..Accepted(chunks[0], writes)]
    else chunks[0] + Taken(chunks[1..], Rest(writes))
  }

  /** The first write that is not complete and without error failed, rather than being short. */
  predicate StopsByFailure(chunks: seq<seq<byte>>, writes: seq<WriteEvent>) {
    chunks != []
    && (Fails(writes) || (Accepted(chunks[0], writes) == |chunks[0]| && StopsByFailure(chunks[1..], Rest(writes))))
  }

  /** The first error the reader reports is not the end of the stream. */
  predicate Breaks(input: seq<ReadEvent>) {
    input != [] && (input[0].err == Broken || (input[0].err == NoError && Breaks(input[1..])))
  }

  lemma TakenCons(chunk: seq<byte>, rest: seq<seq<byte>>, writes: seq<WriteEvent>)
    ensures Taken([chunk] + rest, writes) ==
            if Fails(writes) || Accepted(chunk, writes) < |chunk| then chunk[..Accepted(chunk, writes)] else chunk + Taken(rest, Rest(writes))
    ensures StopsByFailure([chunk] + rest, writes) <==>
            Fails(writes) || (Accepted(chunk, writes) == |chunk| && StopsByFailure(rest, Rest(writes)))
  {
    assert ([chunk] + rest)[1..] == rest;
  }

  lemma FirstTaken(input: seq<ReadEvent>, writes: seq<WriteEvent>)
    requires input != []
    ensures var e := input[0];
            var more := if e.err == NoError then Chunks(input[1..]) else [];
            if e.data == [] then Chunks(input) == more
            else && Taken(Chunks(input), writes) == Taken([e.data] + more, writes)
                 && (StopsByFailure(Chunks(input), writes) <==> StopsByFailure([e.data] + more, writes))
  {
    var e := input[0];
    var more := if e.err == NoError then Chunks(input[1..]) else [];
    assert Chunks(input) == (if e.data == [] then [] else [e.data]) + more;
  }

  /**
   Exactly what a copy delivers and returns, from the reads and the writes looked at separately: the
   chunks up to and including the accepted part of the first one not written whole, those that came
   together with a read error included; and the write's error if there is one, else the reader's.
   */
  lemma {:induction false} CopyExactly(input: seq<ReadEvent>, writes: seq<WriteEvent>)
    ensures CopySpec(input, writes).delivered == Taken(Chunks(input), writes)
    ensures CopySpec(input, writes).err ==
            if !AllAccepted(Chunks(input), writes) then (if StopsByFailure(Chunks(input), writes) then WriteError else ShortWrite)
            else if Breaks(input) then SourceError else NilError
    decreases |input|
  {
    if input != [] {
      var e := input[0];
      var more := if e.err == NoError then Chunks(input[1..]) else [];
      FirstRead(input, writes);
      FirstTaken(input, writes);
      if e.data != [] {
        TakenCons(e.data, more, writes);
      }
      if Turn(input, writes).1 == None {
        CopyExactly(input[1..], AfterTurn(input, writes));
      }
    }
  }

  /**
   A copy delivers a prefix of what the source hands out, whatever is read and however writes behave.
   It reports success exactly when the source ended regularly and every write was complete, and
   then everything was delivered.
   */
  lemma {:induction false} CopyIsFaithful(input: seq<ReadEvent>, writes: seq<WriteEvent>)
    ensures CopySpec(input, writes).delivered <= Concat(Chunks(input))
    ensures CopySpec(input, writes).err == NilError <==> EndsAtEof(input) && AllAccepted(Chunks(input), writes)
    ensures CopySpec(input, writes).err == NilError ==> CopySpec(input, writes).delivered == Concat(Chunks(input))
    decreases |input|
  {
    if input != [] {
      FirstRead(input, writes);
      var (part, stop) := Turn(input, writes);
      assert part <= input[0].data;
      if stop == None {
        CopyIsFaithful(input[1..], AfterTurn(input, writes));
      }
    }
  }
}
