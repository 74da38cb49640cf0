/** The byte-level command framing shared by both peers of the bandwidth probe.
    A single opcode byte is read first; the opcode alone decides how many
    payload bytes follow it. There is no length field anywhere else. */
module Wire {

  /** One octet of the TCP stream. */
  newtype u8 = x: int | 0 <= x < 0x100

  /** A Rust `u64`: the millisecond duration carried by opcode 1. */
  newtype u64 = x: int | 0 <= x < 0x1_0000_0000_0000_0000

  datatype Option<T> = None | Some(value: T)

  /** Size of the filler buffer that follows opcode 0 (16 KiB). Both peers
      must agree on it, since nothing on the wire says how long a chunk is. */
  const BUFFER_SIZE: nat := 16 * 1024

  const OP_DATA: u8 := 0
  const OP_REQUEST: u8 := 1
  const OP_END_OF_TEST: u8 := 2
  const OP_PING: u8 := 3
  const OP_DISCONNECT: u8 := 255

  /** Appending is associative; stated once so that proofs over long
      sequences can regroup a concatenation in one step. */
  lemma ConcatAssoc<T>(x: seq<T>, y: seq<T>, z: seq<T>)
    ensures x + (y + z) == (x + y) + z
  {
  }

  /** Number of payload bytes that follow opcode `op`. */
  function PayloadLength(op: u8): nat
  {
    if op == OP_DATA then BUFFER_SIZE
    else if op == OP_REQUEST then 8
    else 0
  }

  // ---------------------------------------------------------------------------
  // Big-endian unsigned integers

  function Pow256(n: nat): (p: nat)
    ensures p >= 1
  {
    if n == 0 then 1 else 256 * Pow256(n - 1)
  }

  lemma Pow256Eight()
    ensures Pow256(8) == 0x1_0000_0000_0000_0000
  {
  }

  /** The value of `s` read most significant byte first. */
  function BeDecode(s: seq<u8>): (v: nat)
    ensures v < Pow256(|s|)
  {
    if s == [] then 0
    else
      var hi := BeDecode(s[..|s| - 1]);
      assert hi * 256 + s[|s| - 1] as nat < Pow256(|s|) by {
        assert hi + 1 <= Pow256(|s| - 1);
        assert (hi + 1) * 256 <= Pow256(|s| - 1) * 256;
      }
      hi * 256 + s[|s| - 1] as nat
  }

  /** The `n` bytes that hold `v` most significant byte first. */
  function BeEncode(v: nat, n: nat): (s: seq<u8>)
    requires v < Pow256(n)
    ensures |s| == n
  {
    if n == 0 then []
    else
      assert v / 256 < Pow256(n - 1) by {
        assert v < 256 * Pow256(n - 1);
      }
      BeEncode(v / 256, n - 1) + [(v % 256) as u8]
  }

  /** Decoding what was encoded gives the value back. */
  lemma {:induction false} BeDecodeEncode(v: nat, n: nat)
    requires v < Pow256(n)
    ensures BeDecode(BeEncode(v, n)) == v
  {
    if n > 0 {
      var s := BeEncode(v, n);
      BeDecodeEncode(v / 256, n - 1);
      assert s[..|s| - 1] == BeEncode(v / 256, n - 1);
    }
  }

  /** Encoding what was decoded gives the bytes back: the width-`|s|`
      encoding is a bijection. */
  lemma {:induction false} BeEncodeDecode(s: seq<u8>)
    ensures BeEncode(BeDecode(s), |s|) == s
  {
    if s != [] {
      var init, last := s[..|s| - 1], s[|s| - 1] as nat;
      var v := BeDecode(s);
      assert v == BeDecode(init) * 256 + last;
      assert v / 256 == BeDecode(init) && v % 256 == last;
      BeEncodeDecode(init);
      assert s == init + [s[|s| - 1]];
    }
  }

  lemma BeDecodeSnoc(s: seq<u8>, k: nat)
    requires 0 < k <= |s|
    ensures BeDecode(s[..k]) == BeDecode(s[..k - 1]) * 256 + s[k - 1] as nat
  {
    assert s[..k][..k - 1] == s[..k - 1];
  }

  /** `read_u64::<BigEndian>` applied to exactly eight bytes. */
  function DecodeU64(s: seq<u8>): (v: u64)
    requires |s| == 8
  {
    ((((((((s[0] as int * 256 + s[1] as int) * 256 + s[2] as int) * 256 + s[3] as int) * 256
      + s[4] as int) * 256 + s[5] as int) * 256 + s[6] as int) * 256 + s[7] as int)) as u64
  }

  /** `DecodeU64` is the width-8 big-endian reading. */
  lemma DecodeU64IsBeDecode(s: seq<u8>)
    requires |s| == 8
    ensures DecodeU64(s) as nat == BeDecode(s)
  {
    assert s[..0] == [];
    BeDecodeSnoc(s, 1);
    BeDecodeSnoc(s, 2);
    BeDecodeSnoc(s, 3);
    BeDecodeSnoc(s, 4);
    BeDecodeSnoc(s, 5);
    BeDecodeSnoc(s, 6);
    BeDecodeSnoc(s, 7);
    BeDecodeSnoc(s, 8);
    assert s[..8] == s;
  }

  /** `write_u64::<BigEndian>`: the eight bytes of `v`. */
  function EncodeU64(v: u64): (s: seq<u8>)
    ensures |s| == 8
  {
    Pow256Eight();
    BeEncode(v as nat, 8)
  }

  /** Reading back eight written bytes gives the value. */
  lemma DecodeEncodeU64(v: u64)
    ensures DecodeU64(EncodeU64(v)) == v
  {
    Pow256Eight();
    DecodeU64IsBeDecode(EncodeU64(v));
    BeDecodeEncode(v as nat, 8);
  }

  /** Writing a read value gives the eight bytes back. */
  lemma EncodeDecodeU64(s: seq<u8>)
    requires |s| == 8
    ensures EncodeU64(DecodeU64(s)) == s
  {
    DecodeU64IsBeDecode(s);
    BeEncodeDecode(s);
  }

  // ---------------------------------------------------------------------------
  // Commands

  /** One unit of the protocol, as selected by its opcode. */
  datatype Command =
    | Data(filler: seq<u8>)   // opcode 0, then BUFFER_SIZE filler bytes
    | Request(ms: u64)        // opcode 1, then an 8-byte big-endian duration
    | EndOfTest               // opcode 2, no payload
    | Ping                    // opcode 3, no payload
    | Disconnect              // opcode 255, no payload
    | Unknown(op: u8)         // any other opcode, no payload
  {
    /** A filler chunk has exactly the agreed size, and an unknown opcode is
        none of the five known ones. */
    predicate WellFormed()
    {
      match this
      case Data(filler) => |filler| == BUFFER_SIZE
      case Unknown(op) => op != OP_DATA && op != OP_REQUEST && op != OP_END_OF_TEST
                          && op != OP_PING && op != OP_DISCONNECT
      case _ => true
    }

    function Opcode(): u8
    {
      match this
      case Data(_) => OP_DATA
      case Request(_) => OP_REQUEST
      case EndOfTest => OP_END_OF_TEST
      case Ping => OP_PING
      case Disconnect => OP_DISCONNECT
      case Unknown(op) => op
    }
  }

  /** The bytes a peer sends for `c`. */
  function EncodeCommand(c: Command): (e: seq<u8>)
    requires c.WellFormed()
    ensures |e| == 1 + PayloadLength(c.Opcode()) && e[0] == c.Opcode()
  {
    match c
    case Data(filler) => [OP_DATA] + filler
    case Request(ms) => [OP_REQUEST] + EncodeU64(ms)
    case EndOfTest => [OP_END_OF_TEST]
    case Ping => [OP_PING]
    case Disconnect => [OP_DISCONNECT]
    case Unknown(op) => [op]
  }

  ghost predicate AllWellFormed(cmds: seq<Command>)
  {
    forall c | c in cmds :: c.WellFormed()
  }

  /** The bytes a peer sends for `cmds`, one after another. */
  function EncodeAll(cmds: seq<Command>): seq<u8>
    requires AllWellFormed(cmds)
  {
    if cmds == [] then [] else EncodeCommand(cmds[0]) + EncodeAll(cmds[1..])
  }

  lemma {:induction false} EncodeAllAppend(a: seq<Command>, b: seq<Command>)
    requires AllWellFormed(a) && AllWellFormed(b)
    ensures AllWellFormed(a + b)
    ensures EncodeAll(a + b) == EncodeAll(a) + EncodeAll(b)
  {
    if a != [] {
      assert (a + b)[0] == a[0] && (a + b)[1..] == a[1..] + b;
      EncodeAllAppend(a[1..], b);
    } else {
      assert a + b == b;
    }
  }

  // ---------------------------------------------------------------------------
  // Reading one command

  /** Why a read came up short: the stream ended where an opcode was due, or
      inside the payload of opcode `op`. Both are `UnexpectedEof` I/O errors. */
  datatype EofError = AtOpcode | InPayload(op: u8)

  /** The command that opcode `op` and its payload stand for. */
  function CommandOf(op: u8, payload: seq<u8>): (c: Command)
    requires |payload| == PayloadLength(op)
    ensures c.WellFormed() && c.Opcode() == op
  {
    if op == OP_DATA then Data(payload)
    else if op == OP_REQUEST then Request(DecodeU64(payload))
    else if op == OP_END_OF_TEST then EndOfTest
    else if op == OP_PING then Ping
    else if op == OP_DISCONNECT then Disconnect
    else Unknown(op)
  }

  /** One command read off the front of the unread bytes, and what is left;
      or the reason the read came up short. */
  datatype Parsed = Frame(cmd: Command, rest: seq<u8>) | Truncated(err: EofError)

  /** Read one opcode off the front of `s` and the payload it calls for
      (`read_u8`, then `read_exact` or `read_u64`). */
  function ParseCommand(s: seq<u8>): (r: Parsed)
    ensures r.Frame? ==> |r.rest| < |s|
  {
    if s == [] then Truncated(AtOpcode)
    else
      var op := s[0];
      var n := PayloadLength(op);
      if |s| - 1 < n then Truncated(InPayload(op))
      else Frame(CommandOf(op, s[1 .. 1 + n]), s[1 + n ..])
  }

  /** The opcode alone decides how many bytes a command takes: a read comes up
      short exactly when fewer are left, and otherwise consumes exactly them. */
  lemma ParseLength(s: seq<u8>)
    ensures ParseCommand(s) == Truncated(AtOpcode) <==> s == []
    ensures ParseCommand(s).Truncated? && ParseCommand(s).err.InPayload? <==>
              s != [] && |s| < 1 + PayloadLength(s[0])
    ensures ParseCommand(s).Truncated? && ParseCommand(s).err.InPayload? ==>
              ParseCommand(s).err.op == s[0]
    ensures ParseCommand(s).Frame? ==>
              && ParseCommand(s).cmd.Opcode() == s[0]
              && |ParseCommand(s).rest| == |s| - 1 - PayloadLength(s[0])
  {
  }

  /** A well-formed command sent ahead of `rest` is read back as itself, and
      the reader stops right after it. */
  lemma ParseEncoded(c: Command, rest: seq<u8>)
    requires c.WellFormed()
    ensures ParseCommand(EncodeCommand(c) + rest) == Frame(c, rest)
  {
    var e := EncodeCommand(c);
    var s := e + rest;
    assert s[0] == e[0];
    assert s[1 .. |e|] == e[1..];
    assert s[|e| ..] == rest;
    match c
    case Request(ms) =>
      DecodeEncodeU64(ms);
    case Data(filler) =>
      assert e[1..] == filler;
    case _ =>
  }

  /** Whatever the reader accepts as a command is exactly that command's
      encoding: framing is unambiguous. */
  lemma ParseIsEncoding(s: seq<u8>)
    requires ParseCommand(s).Frame?
    ensures ParseCommand(s).cmd.WellFormed()
    ensures s == EncodeCommand(ParseCommand(s).cmd) + ParseCommand(s).rest
  {
    var op := s[0];
    var n := PayloadLength(op);
    var payload := s[1 .. 1 + n];
    assert s == [op] + payload + s[1 + n ..];
    if op == OP_REQUEST {
      EncodeDecodeU64(payload);
    }
  }
}
