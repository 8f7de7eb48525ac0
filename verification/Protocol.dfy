/** The wire format (src/protocol.h, README.md "Networking"): a header of 16 bytes, little-endian as on the
    machines the module runs on, and for PUT one page behind it. */
module Protocol {
  import opened Kutils
  import opened StoredPages

  const PUT: nat := 1
  const GET: nat := 2
  const RM: nat := 3
  const RELEASE: nat := 4
  const HEADER_SIZE: nat := 16

  datatype Command =
    | Put(pid: int, address: nat, page: Page)
    | Get(pid: int, address: nat)
    | Rm(pid: int, address: nat)
    | Release

  /** The fields fit their C types: int and unsigned long. */
  predicate Sendable(c: Command) {
    c.Release? || (-0x8000_0000 <= c.pid < 0x8000_0000 && c.address < WORD)
  }

  // ----- Numbers as bytes -----

  function Power256(n: nat): (r: nat)
    ensures r > 0
  {
    if n == 0 then 1 else 256 * Power256(n - 1)
  }

  function ToBytes(x: nat, n: nat): (s: seq<Byte>)
    ensures |s| == n
  {
    if n == 0 then [] else [(x % 256) as Byte] + ToBytes(x / 256, n - 1)
  }

  function FromBytes(s: seq<Byte>): nat {
    if s == [] then 0 else s[0] as nat + 256 * FromBytes(s[1..])
  }

  lemma {:induction false} BytesRoundTrip(x: nat, n: nat)
    requires x < Power256(n)
    ensures FromBytes(ToBytes(x, n)) == x
  {
    if n > 0 {
      BytesRoundTrip(x / 256, n - 1);
      assert ToBytes(x, n)[1..] == ToBytes(x / 256, n - 1);
    }
  }

  /** An int as the four bytes of its two's complement. */
  function Unsigned(i: int): nat
    requires -0x8000_0000 <= i < 0x8000_0000
  {
    if i < 0 then i + 0x1_0000_0000 else i
  }

  function Signed(u: nat): int {
    if u >= 0x8000_0000 then u - 0x1_0000_0000 else u
  }

  // ----- Headers -----

  /** `pid` and `address` as stored in the header's fields. */
  datatype Header = Header(command: int, pid: int, address: nat)

  function EncodeHeader(h: Header): (s: seq<Byte>)
    requires -0x8000_0000 <= h.command < 0x8000_0000 && -0x8000_0000 <= h.pid < 0x8000_0000
    ensures |s| == HEADER_SIZE
  {
    ToBytes(Unsigned(h.command), 4) + ToBytes(Unsigned(h.pid), 4) + ToBytes(h.address, 8)
  }

  function DecodeHeader(s: seq<Byte>): Header
    requires |s| == HEADER_SIZE
  {
    Header(Signed(FromBytes(s[0..4])), Signed(FromBytes(s[4..8])), FromBytes(s[8..16]))
  }

  lemma HeaderRoundTrip(h: Header)
    requires -0x8000_0000 <= h.command < 0x8000_0000 && -0x8000_0000 <= h.pid < 0x8000_0000 && h.address < WORD
    ensures DecodeHeader(EncodeHeader(h)) == h
  {
    assert Power256(4) == 0x1_0000_0000 && Power256(8) == WORD;
    BytesRoundTrip(Unsigned(h.command), 4);
    BytesRoundTrip(Unsigned(h.pid), 4);
    BytesRoundTrip(h.address, 8);
    Fields(ToBytes(Unsigned(h.command), 4), ToBytes(Unsigned(h.pid), 4), ToBytes(h.address, 8));
  }

  /** The fields of a header, cut out of its bytes. */
  lemma Fields(a: seq<Byte>, b: seq<Byte>, c: seq<Byte>)
    requires |a| == 4 && |b| == 4 && |c| == 8
    ensures (a + b + c)[0..4] == a && (a + b + c)[4..8] == b && (a + b + c)[8..16] == c
  {
    assert a + b + c == a + (b + c);
  }

  // ----- Commands -----

  function HeaderOf(c: Command): Header {
    match c
    case Put(pid, address, _) => Header(PUT, pid, address)
    case Get(pid, address) => Header(GET, pid, address)
    case Rm(pid, address) => Header(RM, pid, address)
    case Release => Header(RELEASE, 0, 0)
  }

  function Encode(c: Command): (s: seq<Byte>)
    requires Sendable(c)
    ensures |s| == HEADER_SIZE + if c.Put? then PAGE_SIZE else 0
  {
    EncodeHeader(HeaderOf(c)) + if c.Put? then c.page else []
  }

  // ----- The bytes on the wire -----

  /** The header of a command: four bytes of command number, four of the pid's two's complement, eight of address, the
      least significant first. */
  ghost predicate IsHeader(s: seq<Byte>, command: nat, pid: int, address: nat) {
    && |s| == 16 && s[0] as int == command && s[1] == 0 && s[2] == 0 && s[3] == 0
    && var u := pid % 0x1_0000_0000;
    && s[4] as int == u % 0x100 && s[5] as int == u / 0x100 % 0x100
    && s[6] as int == u / 0x1_0000 % 0x100 && s[7] as int == u / 0x100_0000 % 0x100
    && s[8] as int == address % 0x100 && s[9] as int == address / 0x100 % 0x100
    && s[10] as int == address / 0x1_0000 % 0x100 && s[11] as int == address / 0x100_0000 % 0x100
    && s[12] as int == address / 0x1_0000_0000 % 0x100 && s[13] as int == address / 0x100_0000_0000 % 0x100
    && s[14] as int == address / 0x1_0000_0000_0000 % 0x100 && s[15] as int == address / 0x100_0000_0000_0000 % 0x100
  }

  /** What each command is on the wire. */
  ghost predicate OnWire(s: seq<Byte>, c: Command) {
    match c
    case Put(pid, address, page) => |s| == 16 + 4096 && IsHeader(s[..16], 1, pid, address) && s[16..] == page
    case Get(pid, address) => IsHeader(s, 2, pid, address)
    case Rm(pid, address) => IsHeader(s, 3, pid, address)
    case Release => IsHeader(s, 4, 0, 0)
  }

  /** Four bytes of a number, the least significant first. */
  predicate Little4(s: seq<Byte>, x: nat)
    requires |s| == 4
  {
    && s[0] as int == x % 0x100 && s[1] as int == x / 0x100 % 0x100
    && s[2] as int == x / 0x1_0000 % 0x100 && s[3] as int == x / 0x100_0000 % 0x100
  }

  lemma FourBytes(x: nat)
    ensures Little4(ToBytes(x, 4), x)
  {
    assert ToBytes(x, 4) == [(x % 256) as Byte] + ToBytes(x / 256, 3);
    assert ToBytes(x / 256, 3) == [(x / 256 % 256) as Byte] + ToBytes(x / 256 / 256, 2);
    assert x / 256 / 256 == x / 0x1_0000 && x / 0x1_0000 / 256 == x / 0x100_0000;
  }

  lemma EightBytes(x: nat)
    ensures Little4(ToBytes(x, 8)[..4], x) && Little4(ToBytes(x, 8)[4..], x / 0x1_0000_0000)
  {
    FourBytes(x);
    FourBytes(x / 0x1_0000_0000);
    BytesSplit(x);
    assert ToBytes(x, 8)[..4] == ToBytes(x, 4) && ToBytes(x, 8)[4..] == ToBytes(x / 0x1_0000_0000, 4);
  }

  lemma BytesSplit(x: nat)
    ensures ToBytes(x, 8) == ToBytes(x, 4) + ToBytes(x / 0x1_0000_0000, 4)
  {
    var x1, x2, x3 := x / 256, x / 256 / 256, x / 256 / 256 / 256;
    assert x3 / 256 == x / 0x1_0000_0000;
    assert ToBytes(x3, 5) == ToBytes(x3, 1) + ToBytes(x3 / 256, 4);
    assert ToBytes(x2, 6) == ToBytes(x2, 2) + ToBytes(x3 / 256, 4);
    assert ToBytes(x1, 7) == ToBytes(x1, 3) + ToBytes(x3 / 256, 4);
  }

  lemma HeaderOnWire(h: Header)
    requires 0 <= h.command < 0x100 && -0x8000_0000 <= h.pid < 0x8000_0000
    ensures IsHeader(EncodeHeader(h), h.command, h.pid, h.address)
  {
    var u := Unsigned(h.pid);
    assert u == h.pid % 0x1_0000_0000;
    OneByte(h.command);
    FourBytes(u);
    EightBytes(h.address);
    FieldsInPlace(ToBytes(h.command, 4), ToBytes(u, 4), ToBytes(h.address, 8), h.command, h.pid, h.address);
  }

  lemma OneByte(x: nat)
    requires x < 0x100
    ensures var s := ToBytes(x, 4); s[0] as int == x && s[1] == 0 && s[2] == 0 && s[3] == 0
  {
    FourBytes(x);
  }

  /** The fields of a header are where they belong. */
  lemma FieldsInPlace(a: seq<Byte>, b: seq<Byte>, c: seq<Byte>, command: nat, pid: int, address: nat)
    requires |a| == 4 && |b| == 4 && |c| == 8
    requires a[0] as int == command && a[1] == 0 && a[2] == 0 && a[3] == 0
    requires Little4(b, pid % 0x1_0000_0000)
    requires Little4(c[..4], address) && Little4(c[4..], address / 0x1_0000_0000)
    ensures IsHeader(a + b + c, command, pid, address)
  {
    var s := a + b + c;
    assert s[4] == b[0] && s[5] == b[1] && s[6] == b[2] && s[7] == b[3];
    assert s[8] == c[..4][0] && s[9] == c[..4][1] && s[10] == c[..4][2] && s[11] == c[..4][3];
    assert s[12] == c[4..][0] && s[13] == c[4..][1] && s[14] == c[4..][2] && s[15] == c[4..][3];
    HighBytes(address);
  }

  lemma HighBytes(x: nat)
    ensures var y := x / 0x1_0000_0000;
            && y / 0x100 == x / 0x100_0000_0000 && y / 0x1_0000 == x / 0x1_0000_0000_0000
            && y / 0x100_0000 == x / 0x100_0000_0000_0000
  {
  }

  /** Every command that can be sent has these bytes, so the numbers of the commands, the order of the fields and the
      order of their bytes are those of the server. */
  lemma EncodeOnWire(c: Command)
    requires Sendable(c)
    ensures OnWire(Encode(c), c)
  {
    var h := HeaderOf(c);
    HeaderOnWire(h);
    assert c.Put? ==> Encode(c)[..16] == EncodeHeader(h) && Encode(c)[16..] == c.page;
    assert !c.Put? ==> Encode(c) == EncodeHeader(h);
  }

  /** No two sequences of bytes are the same command. */
  lemma OnWireOnce(s: seq<Byte>, t: seq<Byte>, c: Command)
    requires OnWire(s, c) && OnWire(t, c)
    ensures s == t
  {
    if c.Put? {
      HeaderOnce(s[..16], t[..16], 1, c.pid, c.address);
      assert s == s[..16] + s[16..] && t == t[..16] + t[16..];
    } else {
      match c
      case Get(pid, address) => HeaderOnce(s, t, 2, pid, address);
      case Rm(pid, address) => HeaderOnce(s, t, 3, pid, address);
      case Release => HeaderOnce(s, t, 4, 0, 0);
    }
  }

  lemma HeaderOnce(s: seq<Byte>, t: seq<Byte>, command: nat, pid: int, address: nat)
    requires IsHeader(s, command, pid, address) && IsHeader(t, command, pid, address)
    ensures s == t
  {
    assert s[..8] == t[..8];
    assert s[8..] == t[8..];
    assert s == s[..8] + s[8..] && t == t[..8] + t[8..];
  }

  predicate AllSendable(cs: seq<Command>) {
    forall c :: c in cs ==> Sendable(c)
  }

  function EncodeAll(cs: seq<Command>): seq<Byte>
    requires AllSendable(cs)
  {
    if cs == [] then [] else Encode(cs[0]) + EncodeAll(cs[1..])
  }

  /** The kernel side of the connection (src/storage.c): what it has written to the socket. */
  class Client {
    var sent: seq<Byte>

    constructor ()
      ensures sent == []
    {
      sent := [];
    }

    /** `socket_send`, writing all it is given. */
    method SocketSend(data: seq<Byte>)
      modifies this
      ensures sent == old(sent) + data
    {
      sent := sent + data;
    }

    /** `network_load`, up to waiting for the reply. */
    method NetworkLoad(pid: int, address: nat)
      requires Sendable(Get(pid, address))
      modifies this
      ensures sent == old(sent) + Encode(Get(pid, address))
      ensures OnWire(sent[|old(sent)|..], Get(pid, address))
    {
      EncodeOnWire(Get(pid, address));
      SocketSend(EncodeHeader(Header(GET, pid, address)));
    }

    /** `network_save`. */
    method NetworkSave(pid: int, address: nat, buffer: Page)
      requires Sendable(Put(pid, address, buffer))
      modifies this
      ensures sent == old(sent) + Encode(Put(pid, address, buffer))
      ensures OnWire(sent[|old(sent)|..], Put(pid, address, buffer))
    {
      EncodeOnWire(Put(pid, address, buffer));
      SocketSend(EncodeHeader(Header(PUT, pid, address)));
      SocketSend(buffer);
    }

    /** `network_remove`. */
    method NetworkRemove(pid: int, address: nat)
      requires Sendable(Rm(pid, address))
      modifies this
      ensures sent == old(sent) + Encode(Rm(pid, address))
      ensures OnWire(sent[|old(sent)|..], Rm(pid, address))
    {
      EncodeOnWire(Rm(pid, address));
      SocketSend(EncodeHeader(Header(RM, pid, address)));
    }

    /** `network_release`. */
    method NetworkRelease()
      modifies this
      ensures sent == old(sent) + Encode(Release)
      ensures OnWire(sent[|old(sent)|..], Release)
    {
      EncodeOnWire(Release);
      SocketSend(EncodeHeader(Header(RELEASE, 0, 0)));
    }
  }
}
