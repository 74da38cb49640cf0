/** The server side of one connection (`Connection::handle`): read an opcode,
    read the payload it calls for, act on it, and loop until the peer asks to
    disconnect or the stream runs dry. */
module Handler {
  import opened Wire

  /** What `handle` returns: `Ok(())` after a disconnect command, or the
      end-of-stream error of the read that came up short. Other read errors
      are not modelled: a read that fails counts as the input ending there. */
  datatype Status = Ok | Err(cause: EofError)

  /** Everything one run of the handler does: how it ends, the bytes it
      writes back, the durations it sends to the sender thread in order, and
      the bytes it leaves unread. */
  datatype Outcome = Outcome(status: Status, replies: seq<u8>, requests: seq<u64>, unread: seq<u8>)

  /** Bytes the handler writes back for `c`: a ping is answered with opcode 3. */
  function Reply(c: Command): (r: seq<u8>)
    ensures r == [] || r == [OP_PING]
    ensures r != [] <==> c.Ping?
  {
    if c.Ping? then [OP_PING] else []
  }

  /** Durations the handler enqueues for `c`: the one a request carries. */
  function Enqueued(c: Command): (e: seq<u64>)
    ensures |e| <= 1
    ensures e != [] <==> c.Request?
    ensures c.Request? ==> e[0] == c.ms
  {
    if c.Request? then [c.ms] else []
  }

  /** The handler loop run over the unread bytes `s`, one command per step. */
  function Run(s: seq<u8>): (o: Outcome)
    ensures |o.unread| < |s| || o.unread == []
    decreases |s|
  {
    match ParseCommand(s)
    case Truncated(e) => Outcome(Err(e), [], [], [])
    case Frame(c, rest) =>
      if c.Disconnect? then Outcome(Ok, [], [], rest)
      else
        var o := Run(rest);
        Outcome(o.status, Reply(c) + o.replies, Enqueued(c) + o.requests, o.unread)
  }

  // ---------------------------------------------------------------------------
  // One opcode at a time

  /** Opcode 0 consumes itself and BUFFER_SIZE filler bytes and does nothing
      else; with fewer filler bytes left the handler fails. */
  lemma DataStep(s: seq<u8>)
    requires s != [] && s[0] == OP_DATA
    ensures |s| >= 1 + BUFFER_SIZE ==> Run(s) == Run(s[1 + BUFFER_SIZE ..])
    ensures |s| < 1 + BUFFER_SIZE ==> Run(s) == Outcome(Err(InPayload(OP_DATA)), [], [], [])
  {
  }

  /** Opcode 1 consumes nine bytes, enqueues the big-endian value of the last
      eight and writes nothing; with fewer than eight left the handler fails. */
  lemma RequestStep(s: seq<u8>)
    requires s != [] && s[0] == OP_REQUEST
    ensures |s| >= 9 ==>
              var o := Run(s[9..]);
              Run(s) == Outcome(o.status, o.replies, [DecodeU64(s[1..9])] + o.requests, o.unread)
    ensures |s| < 9 ==> Run(s) == Outcome(Err(InPayload(OP_REQUEST)), [], [], [])
  {
  }

  /** Opcode 3 consumes one byte and writes exactly the byte 3. */
  lemma PingStep(s: seq<u8>)
    requires s != [] && s[0] == OP_PING
    ensures var o := Run(s[1..]);
      Run(s) == Outcome(o.status, [OP_PING] + o.replies, o.requests, o.unread)
  {
  }

  /** Opcode 2 and every opcode the server does not know consume one byte and
      leave output and queue alone; the loop goes on. */
  lemma IgnoredStep(s: seq<u8>)
    requires s != []
    requires s[0] != OP_DATA && s[0] != OP_REQUEST && s[0] != OP_PING && s[0] != OP_DISCONNECT
    ensures Run(s) == Run(s[1..])
  {
  }

  /** Opcode 255 ends the handler with `Ok` and leaves every later byte unread. */
  lemma DisconnectStep(s: seq<u8>)
    requires s != [] && s[0] == OP_DISCONNECT
    ensures Run(s) == Outcome(Ok, [], [], s[1..])
  {
  }

  /** Running out of input where an opcode is due fails with nothing done. */
  lemma EofStep()
    ensures Run([]) == Outcome(Err(AtOpcode), [], [], [])
  {
  }

  // ---------------------------------------------------------------------------
  // Whole runs

  /** The ping replies owed to `cmds`, in order. */
  function Replies(cmds: seq<Command>): seq<u8>
  {
    if cmds == [] then [] else Reply(cmds[0]) + Replies(cmds[1..])
  }

  /** The durations `cmds` request, in order. */
  function Durations(cmds: seq<Command>): seq<u64>
  {
    if cmds == [] then [] else Enqueued(cmds[0]) + Durations(cmds[1..])
  }

  ghost predicate NoDisconnect(cmds: seq<Command>)
  {
    forall c | c in cmds :: !c.Disconnect?
  }

  /** The commands the handler reads and acts on from the front of `s`, up to
      (not including) a disconnect or a truncated read. */
  function Commands(s: seq<u8>): (cmds: seq<Command>)
    ensures AllWellFormed(cmds) && NoDisconnect(cmds)
    decreases |s|
  {
    match ParseCommand(s)
    case Truncated(_) => []
    case Frame(c, rest) =>
      if c.Disconnect? then []
      else
        var more := Commands(rest);
        assert c.WellFormed() by { ParseIsEncoding(s); }
        [c] + more
  }

  /** One encoded command other than a disconnect: its own effects, then the
      rest of the run. */
  lemma RunOneEncoded(c: Command, rest: seq<u8>)
    requires c.WellFormed() && !c.Disconnect?
    ensures var o := Run(rest);
      Run(EncodeCommand(c) + rest)
        == Outcome(o.status, Reply(c) + o.replies, Enqueued(c) + o.requests, o.unread)
  {
    ParseEncoded(c, rest);
  }

  /** A run over the encodings of some commands with no disconnect among
      them answers each ping, enqueues each duration in order, and then goes
      on with whatever follows. */
  lemma {:induction false} RunEncoded(cmds: seq<Command>, tail: seq<u8>)
    requires AllWellFormed(cmds) && NoDisconnect(cmds)
    ensures var o := Run(tail);
      Run(EncodeAll(cmds) + tail)
        == Outcome(o.status, Replies(cmds) + o.replies, Durations(cmds) + o.requests, o.unread)
  {
    if cmds == [] {
      var o := Run(tail);
      assert EncodeAll(cmds) + tail == tail;
      assert Replies(cmds) + o.replies == o.replies;
      assert Durations(cmds) + o.requests == o.requests;
    } else {
      assert AllWellFormed(cmds[1..]) && NoDisconnect(cmds[1..]) by {
        assert forall d | d in cmds[1..] :: d in cmds;
      }
      RunEncoded(cmds[1..], tail);
      RunEncodedCons(cmds, tail);
    }
  }

  /** The inductive step of `RunEncoded`: one more command in front. */
  lemma RunEncodedCons(cmds: seq<Command>, tail: seq<u8>)
    requires cmds != [] && AllWellFormed(cmds) && NoDisconnect(cmds)
    requires AllWellFormed(cmds[1..])
    requires var o := Run(tail);
      Run(EncodeAll(cmds[1..]) + tail)
        == Outcome(o.status, Replies(cmds[1..]) + o.replies, Durations(cmds[1..]) + o.requests, o.unread)
    ensures var o := Run(tail);
      Run(EncodeAll(cmds) + tail)
        == Outcome(o.status, Replies(cmds) + o.replies, Durations(cmds) + o.requests, o.unread)
  {
    var c, more, o := cmds[0], cmds[1..], Run(tail);
    var after := EncodeAll(more) + tail;
    assert EncodeAll(cmds) == EncodeCommand(c) + EncodeAll(more);
    ConcatAssoc(EncodeCommand(c), EncodeAll(more), tail);
    RunOneEncoded(c, after);
    ConcatAssoc(Reply(c), Replies(more), o.replies);
    ConcatAssoc(Enqueued(c), Durations(more), o.requests);
  }

  /** A peer that sends some commands and then opcode 255 gets `Ok`, its pings
      answered and its durations queued in order; whatever it sends after the
      255 is left unread. */
  lemma RunUntilDisconnect(cmds: seq<Command>, after: seq<u8>)
    requires AllWellFormed(cmds) && NoDisconnect(cmds)
    ensures Run(EncodeAll(cmds) + [OP_DISCONNECT] + after)
              == Outcome(Ok, Replies(cmds), Durations(cmds), after)
  {
    var tail := [OP_DISCONNECT] + after;
    assert EncodeAll(cmds) + [OP_DISCONNECT] + after == EncodeAll(cmds) + tail;
    RunEncoded(cmds, tail);
    DisconnectStep(tail);
    assert tail[1..] == after;
  }

  /** A peer that sends some commands and then closes the stream makes the
      handler fail at the next opcode read, after it has acted on all of them. */
  lemma RunUntilEof(cmds: seq<Command>)
    requires AllWellFormed(cmds) && NoDisconnect(cmds)
    ensures Run(EncodeAll(cmds)) == Outcome(Err(AtOpcode), Replies(cmds), Durations(cmds), [])
  {
    assert EncodeAll(cmds) + [] == EncodeAll(cmds);
    RunEncoded(cmds, []);
  }

  /** A peer that closes the stream inside a payload makes the handler fail
      with a short read, after it has acted on the complete commands before. */
  lemma RunUntilShortRead(cmds: seq<Command>, op: u8, partial: seq<u8>)
    requires AllWellFormed(cmds) && NoDisconnect(cmds)
    requires |partial| < PayloadLength(op)
    ensures Run(EncodeAll(cmds) + [op] + partial)
              == Outcome(Err(InPayload(op)), Replies(cmds), Durations(cmds), [])
  {
    var tail := [op] + partial;
    assert EncodeAll(cmds) + [op] + partial == EncodeAll(cmds) + tail;
    RunEncoded(cmds, tail);
  }

  /** Conversely, every run is one of those: the input starts with the
      encodings of the commands the handler acts on, its replies and queue are
      exactly theirs, and it returns `Ok` exactly when the byte after them is
      a 255, leaving the rest unread; otherwise it fails having read
      everything. */
  lemma {:induction false} RunIsCommands(s: seq<u8>)
    ensures IsCommandsRun(s)
    decreases |s|
  {
    var cmds := Commands(s);
    var p := ParseCommand(s);
    if p.Truncated? {
      assert cmds == [] && EncodeAll(cmds) == [];
      ParseLength(s);
    } else if p.cmd.Disconnect? {
      assert cmds == [] && EncodeAll(cmds) == [];
      ParseIsEncoding(s);
    } else {
      RunIsCommands(p.rest);
      RunIsCommandsCons(s);
    }
  }

  /** What `RunIsCommands` states about the input `s`. */
  ghost predicate IsCommandsRun(s: seq<u8>)
  {
    var cmds, o := Commands(s), Run(s);
    var n := |EncodeAll(cmds)|;
    && n <= |s|
    && s[..n] == EncodeAll(cmds)
    && o.replies == Replies(cmds)
    && o.requests == Durations(cmds)
    && (o.status == Ok <==> n < |s| && s[n] == OP_DISCONNECT)
    && (o.status == Ok ==> o.unread == s[n + 1 ..])
    && (o.status.Err? ==> o.unread == [])
  }

  /** The step of `RunIsCommands`: one complete command other than 255 in
      front of input that already has the property. */
  lemma RunIsCommandsCons(s: seq<u8>)
    requires ParseCommand(s).Frame? && !ParseCommand(s).cmd.Disconnect?
    requires IsCommandsRun(ParseCommand(s).rest)
    ensures IsCommandsRun(s)
  {
    var p := ParseCommand(s);
    var c, rest := p.cmd, p.rest;
    var cmds, more := Commands(s), Commands(rest);
    var e, m := EncodeCommand(c), EncodeAll(more);
    var o, o' := Run(s), Run(rest);
    assert EncodeAll(cmds) == e + m
        && Replies(cmds) == Reply(c) + Replies(more)
        && Durations(cmds) == Enqueued(c) + Durations(more) by {
      assert cmds == [c] + more;
      assert cmds[0] == c && cmds[1..] == more;
    }
    assert s == e + rest by { ParseIsEncoding(s); }
    RunFrame(s);
    assert s[..|e + m|] == e + rest[..|m|];
    assert s[|e + m| ..] == rest[|m| ..];
  }

  /** Once a run has returned `Ok`, more input behind it changes nothing but
      the unread bytes: the handler never reads past the disconnect. */
  lemma {:induction false} RunIgnoresLaterInput(s: seq<u8>, more: seq<u8>)
    requires Run(s).status == Ok
    ensures var o := Run(s);
      Run(s + more) == Outcome(Ok, o.replies, o.requests, o.unread + more)
    decreases |s|
  {
    var p := ParseCommand(s);
    assert p.Frame?;
    ParseIsEncoding(s);
    assert s + more == EncodeCommand(p.cmd) + (p.rest + more);
    ParseEncoded(p.cmd, p.rest + more);
    if !p.cmd.Disconnect? {
      RunIgnoresLaterInput(p.rest, more);
    }
  }

  // ---------------------------------------------------------------------------
  // The handler as the source runs it: a loop over a stream cursor

  /** One accepted connection, seen from its handler thread. */
  class Connection {
    /** The bytes the peer sends, in order. */
    const incoming: seq<u8>
    /** The stream's read cursor: bytes before it have been consumed. */
    var pos: nat
    /** The bytes the handler has written back to the peer. */
    var written: seq<u8>
    /** Every duration sent on `sender_commander`, oldest first. */
    var sent: seq<u64>

    ghost predicate Valid()
      reads this
    {
      pos <= |incoming|
    }

    /** The bytes not read yet. */
    ghost function Unread(): seq<u8>
      reads this
      requires Valid()
    {
      incoming[pos..]
    }

    constructor (incoming: seq<u8>)
      ensures Valid()
      ensures this.incoming == incoming && pos == 0 && written == [] && sent == []
    {
      this.incoming := incoming;
      pos, written, sent := 0, [], [];
    }

    /** `read_u8`: the next byte, or `None` at the end of the stream. */
    method ReadU8() returns (r: Option<u8>)
      requires Valid()
      modifies this`pos
      ensures Valid()
      ensures old(pos) < |incoming| ==> r == Some(incoming[old(pos)]) && pos == old(pos) + 1
      ensures old(pos) == |incoming| ==> r == None && pos == old(pos)
    {
      if pos < |incoming| {
        r := Some(incoming[pos]);
        pos := pos + 1;
      } else {
        r := None;
      }
    }

    /** `read_exact` into an `n`-byte buffer: the next `n` bytes, or `None`
        (and the stream drained) if fewer are left. */
    method ReadExact(n: nat) returns (r: Option<seq<u8>>)
      requires Valid()
      modifies this`pos
      ensures Valid()
      ensures old(pos) + n <= |incoming| ==>
                r == Some(incoming[old(pos) .. old(pos) + n]) && pos == old(pos) + n
      ensures old(pos) + n > |incoming| ==> r == None && pos == |incoming|
    {
      if pos + n <= |incoming| {
        r := Some(incoming[pos .. pos + n]);
        pos := pos + n;
      } else {
        r := None;
        pos := |incoming|;
      }
    }

    /** `read_u64::<BigEndian>`. */
    method ReadU64() returns (r: Option<u64>)
      requires Valid()
      modifies this`pos
      ensures Valid()
      ensures old(pos) + 8 <= |incoming| ==>
                r == Some(DecodeU64(incoming[old(pos) .. old(pos) + 8])) && pos == old(pos) + 8
      ensures old(pos) + 8 > |incoming| ==> r == None && pos == |incoming|
    {
      var bytes := ReadExact(8);
      if bytes.Some? {
        r := Some(DecodeU64(bytes.value));
      } else {
        r := None;
      }
    }

    /** `write_u8`. */
    method WriteU8(b: u8)
      modifies this`written
      ensures written == old(written) + [b]
    {
      written := written + [b];
    }

    /** `sender_commander.send`: hand a duration to the sender thread. */
    method Send(ms: u64)
      modifies this`sent
      ensures sent == old(sent) + [ms]
    {
      sent := sent + [ms];
    }

    /** One pass of `handle`'s loop: read an opcode and its payload and act
        on it. `None` means the loop goes on, after exactly the command the
        reader frames there, having written its reply and enqueued its
        duration; `Some` means the handler returns that status, and then the
        run from here has nothing more to do. */
    method Dispatch() returns (done: Option<Status>)
      requires Valid()
      modifies this`pos, this`written, this`sent
      ensures Valid()
      ensures var s, p := old(Unread()), ParseCommand(old(Unread()));
        && (done.None? ==>
              && p.Frame? && !p.cmd.Disconnect? && Unread() == p.rest
              && written == old(written) + Reply(p.cmd)
              && sent == old(sent) + Enqueued(p.cmd))
        && (done.Some? ==>
              && Run(s) == Outcome(done.value, [], [], Unread())
              && written == old(written) && sent == old(sent))
    {
      ghost var s := Unread();
      var cmd := ReadU8();
      if cmd.None? {
        return Some(Err(AtOpcode));
      }
      var op := cmd.value;
      if op == OP_DATA {
        var sink := ReadExact(BUFFER_SIZE);
        if sink.None? {
          return Some(Err(InPayload(OP_DATA)));
        }
        assert Unread() == s[1 + BUFFER_SIZE ..];
      } else if op == OP_REQUEST {
        var ms := ReadU64();
        if ms.None? {
          return Some(Err(InPayload(OP_REQUEST)));
        }
        assert s[1..9] == incoming[pos - 8 .. pos];
        assert Unread() == s[9..];
        Send(ms.value);
      } else if op == OP_END_OF_TEST {
        // end of test: meaningful to the client only
        assert Unread() == s[1..];
      } else if op == OP_PING {
        WriteU8(OP_PING);
        assert Unread() == s[1..];
      } else if op == OP_DISCONNECT {
        assert Unread() == s[1..];
        return Some(Ok);
      } else {
        assert Unread() == s[1..];
      }
      done := None;
    }

    /** `Connection::handle`: read and act on commands until a disconnect
        (`Ok`) or a short read (`Err`). What it writes, what it enqueues and
        what it leaves unread are those of `Run` over the bytes it started
        with unread. */
    method Handle() returns (r: Status)
      requires Valid()
      modifies this`pos, this`written, this`sent
      ensures Valid()
      ensures var o := Run(old(Unread()));
        && r == o.status && Unread() == o.unread
        && written == old(written) + o.replies
        && sent == old(sent) + o.requests
    {
      ghost var goal := Run(Unread());
      while true
        invariant Valid()
        invariant var o := Run(Unread());
          && o.status == goal.status && o.unread == goal.unread
          && written + o.replies == old(written) + goal.replies
          && sent + o.requests == old(sent) + goal.requests
        decreases |incoming| - pos
      {
        ghost var s, w0, q0 := Unread(), written, sent;
        var done := Dispatch();
        if done.Some? {
          return done.value;
        }
        ghost var p := ParseCommand(s);
        RunFrame(s);
        Advance(s, p.rest, w0, Reply(p.cmd), q0, Enqueued(p.cmd), goal, old(written), old(sent));
      }
    }
  }

  /** A complete command other than a disconnect: its own effects, then the
      rest of the run after it. */
  lemma RunFrame(s: seq<u8>)
    requires ParseCommand(s).Frame? && !ParseCommand(s).cmd.Disconnect?
    ensures var p := ParseCommand(s);
      var o := Run(p.rest);
      Run(s) == Outcome(o.status, Reply(p.cmd) + o.replies, Enqueued(p.cmd) + o.requests, o.unread)
  {
  }

  /** The bookkeeping behind one pass of `Handle`'s loop: the handler acted on
      one command of `s`, writing `wrote` and enqueueing `queued`, and went on
      to `rest`; what it has written and enqueued so far plus what `Run` still
      owes stays the whole run's. */
  lemma Advance(s: seq<u8>, rest: seq<u8>, w0: seq<u8>, wrote: seq<u8>,
                q0: seq<u64>, queued: seq<u64>, goal: Outcome, w: seq<u8>, q: seq<u64>)
    requires var o := Run(rest);
      Run(s) == Outcome(o.status, wrote + o.replies, queued + o.requests, o.unread)
    requires var o := Run(s);
      && o.status == goal.status && o.unread == goal.unread
      && w0 + o.replies == w + goal.replies
      && q0 + o.requests == q + goal.requests
    ensures var o := Run(rest);
      && o.status == goal.status && o.unread == goal.unread
      && (w0 + wrote) + o.replies == w + goal.replies
      && (q0 + queued) + o.requests == q + goal.requests
  {
    ConcatAssoc(w0, wrote, Run(rest).replies);
    ConcatAssoc(q0, queued, Run(rest).requests);
  }

  /** A fresh connection fed `incoming`: the status `handle` returns, the bytes
      it writes back and the durations it enqueues, in order. */
  method HandleConnection(incoming: seq<u8>) returns (r: Status, replies: seq<u8>, queue: seq<u64>)
    ensures replies == Replies(Commands(incoming))
    ensures queue == Durations(Commands(incoming))
    ensures var n := |EncodeAll(Commands(incoming))|;
      r == Ok <==> n < |incoming| && incoming[n] == OP_DISCONNECT
  {
    var con := new Connection(incoming);
    r := con.Handle();
    replies, queue := con.written, con.sent;
    assert incoming[0..] == incoming;
    RunIsCommands(incoming);
  }
}
