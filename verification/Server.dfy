/** The storage server (server/server.py): pages in a dictionary of dictionaries, and the handler that reads
    commands off a TCP stream. */
module Server {
  import opened Kutils
  import opened StoredPages
  import opened Protocol

  type Pages = map<int, map<nat, Page>>

  function PagesOf(pages: Pages, pid: int): map<nat, Page> {
    if pid in pages then pages[pid] else map[]
  }

  // ----- What the handler does with a stream of bytes -----

  /** What comes after the last byte that arrives: the peer closes the connection, resets it, or the socket fails
      in another way. */
  datatype StreamEnd = Closed | Reset | Broken

  /** The handler leaves its loop, or dies of an exception: the one that `len` raises on None, or the socket's. */
  datatype Ending = Quit | TypeError | SocketError

  /** How the handler ends when the stream does, before a command or inside the page of a PUT. Only the read of a
      header is guarded against a reset. */
  function EndBeforeCommand(end: StreamEnd): Ending {
    if end == Broken then SocketError else Quit
  }

  function EndInsidePage(end: StreamEnd): Ending {
    if end == Closed then TypeError else SocketError
  }

  datatype Served = Served(pages: Pages, replies: seq<Page>, ending: Ending)

  function Lookup(pages: Pages, pid: int, address: nat): Page {
    if address in PagesOf(pages, pid) then PagesOf(pages, pid)[address] else ZeroPage()
  }

  function Deleted(pages: Pages, pid: int, address: nat): Pages {
    if pid in pages then pages[pid := pages[pid] - {address}] else pages
  }

  /** Everything the handler does with the rest of the stream, given what is in `pages`. */
  function Serve(pages: Pages, replies: seq<Page>, stream: seq<Byte>, end: StreamEnd): Served
    decreases |stream|
  {
    if |stream| < HEADER_SIZE then Served(pages, replies, EndBeforeCommand(end))
    else
      var h := DecodeHeader(stream[..HEADER_SIZE]);
      var rest := stream[HEADER_SIZE..];
      if h.command == PUT then
        if |rest| < PAGE_SIZE then Served(pages, replies, EndInsidePage(end))
        else
          var stored := pages[h.pid := PagesOf(pages, h.pid)[h.address := rest[..PAGE_SIZE]]];
          Serve(stored, replies, rest[PAGE_SIZE..], end)
      else if h.command == GET then Serve(pages, replies + [Lookup(pages, h.pid, h.address)], rest, end)
      else if h.command == RM then Serve(Deleted(pages, h.pid, h.address), replies, rest, end)
      else if h.command == RELEASE then Serve(map[], replies, rest, end)
      else Serve(pages, replies, rest, end)
  }

  // ----- What it ought to be: a finite map of pages -----

  function Apply(m: map<Key, Page>, c: Command): map<Key, Page> {
    match c
    case Put(pid, address, page) => m[Key(pid, address) := page]
    case Get(_, _) => m
    case Rm(pid, address) => m - {Key(pid, address)}
    case Release => map[]
  }

  function Reply(m: map<Key, Page>, c: Command): seq<Page> {
    match c
    case Get(pid, address) => [if Key(pid, address) in m then m[Key(pid, address)] else ZeroPage()]
    case _ => []
  }

  function ApplyAll(m: map<Key, Page>, cs: seq<Command>): map<Key, Page>
    decreases |cs|
  {
    if cs == [] then m else ApplyAll(Apply(m, cs[0]), cs[1..])
  }

  function RepliesTo(m: map<Key, Page>, cs: seq<Command>): seq<Page>
    decreases |cs|
  {
    if cs == [] then [] else Reply(m, cs[0]) + RepliesTo(Apply(m, cs[0]), cs[1..])
  }

  /** The nested dictionaries hold the pages of the map, no more and no fewer. */
  ghost predicate SamePages(pages: Pages, m: map<Key, Page>) {
    forall k :: (k in m <==> k.start in PagesOf(pages, k.pid)) && (k in m ==> m[k] == PagesOf(pages, k.pid)[k.start])
  }

  /** The dictionaries after one command. */
  function Handled(pages: Pages, c: Command): Pages {
    match c
    case Put(pid, address, page) => pages[pid := PagesOf(pages, pid)[address := page]]
    case Get(_, _) => pages
    case Rm(pid, address) => Deleted(pages, pid, address)
    case Release => map[]
  }

  lemma HandledIsApply(pages: Pages, m: map<Key, Page>, c: Command)
    requires SamePages(pages, m)
    ensures SamePages(Handled(pages, c), Apply(m, c))
    ensures c.Get? ==> Reply(m, c) == [Lookup(pages, c.pid, c.address)]
  {
    if c.Get? {
      var k := Key(c.pid, c.address);
      assert k in m <==> k.start in PagesOf(pages, k.pid);
    }
  }

  lemma EncodingSplits(c: Command, tail: seq<Byte>)
    requires Sendable(c)
    ensures var stream := Encode(c) + tail;
            && stream[..HEADER_SIZE] == EncodeHeader(HeaderOf(c))
            && stream[HEADER_SIZE..] == (if c.Put? then c.page else []) + tail
  {
    var body := if c.Put? then c.page else [];
    assert Encode(c) + tail == EncodeHeader(HeaderOf(c)) + (body + tail);
  }

  /** One whole command at the front of the stream is decoded and handled. */
  lemma ServeOne(pages: Pages, replies: seq<Page>, c: Command, tail: seq<Byte>, end: StreamEnd)
    requires Sendable(c)
    ensures Serve(pages, replies, Encode(c) + tail, end) ==
            Serve(Handled(pages, c), replies + (if c.Get? then [Lookup(pages, c.pid, c.address)] else []), tail, end)
  {
    EncodingSplits(c, tail);
    HeaderRoundTrip(HeaderOf(c));
    var rest := (Encode(c) + tail)[HEADER_SIZE..];
    assert replies + [] == replies;
    if c.Put? {
      assert rest[..PAGE_SIZE] == c.page;
      assert rest[PAGE_SIZE..] == tail;
    } else {
      assert rest == tail;
    }
  }

  /** The server has the page, and has it under this pid and address. */
  ghost predicate Holds(pages: Pages, pid: int, address: nat, page: Page) {
    pid in pages && address in pages[pid] && pages[pid][address] == page
  }

  /** What the server holds after a command, page by page. */
  ghost predicate Effect(pages: Pages, after: Pages, c: Command) {
    forall pid, address: nat, page :: Holds(after, pid, address, page) <==>
      match c
      case Put(p, a, data) => if (pid, address) == (p, a) then page == data else Holds(pages, pid, address, page)
      case Get(_, _) => Holds(pages, pid, address, page)
      case Rm(p, a) => (pid, address) != (p, a) && Holds(pages, pid, address, page)
      case Release => false
  }

  /** What it answers: to a GET the page it holds, or 4096 zeros, and to the other commands nothing. */
  ghost predicate Answer(pages: Pages, c: Command, replies: seq<Page>) {
    if c.Get? then
      && |replies| == 1
      && (forall page :: Holds(pages, c.pid, c.address, page) ==> replies[0] == page)
      && ((forall page :: !Holds(pages, c.pid, c.address, page)) ==> forall i :: 0 <= i < 4096 ==> replies[0][i] == 0)
    else replies == []
  }

  /** The bytes of a command at the front of the stream have the effect and the answer of that command. */
  lemma ServesBytes(pages: Pages, replies: seq<Page>, c: Command, s: seq<Byte>, tail: seq<Byte>, end: StreamEnd)
    returns (after: Pages, answer: seq<Page>)
    requires Sendable(c) && OnWire(s, c)
    ensures Serve(pages, replies, s + tail, end) == Serve(after, replies + answer, tail, end)
    ensures Effect(pages, after, c) && Answer(pages, c, answer)
  {
    EncodeOnWire(c);
    OnWireOnce(s, Encode(c), c);
    ServeOne(pages, replies, c, tail, end);
    after := Handled(pages, c);
    answer := if c.Get? then [Lookup(pages, c.pid, c.address)] else [];
    if c.Get? && c.pid in pages && c.address in pages[c.pid] {
      assert Holds(pages, c.pid, c.address, pages[c.pid][c.address]);
    }
  }

  /** A header with another command is skipped. */
  lemma UnknownIgnored(pages: Pages, replies: seq<Page>, h: Header, tail: seq<Byte>, end: StreamEnd)
    requires -0x8000_0000 <= h.command < 0x8000_0000 && -0x8000_0000 <= h.pid < 0x8000_0000 && h.address < WORD
    requires h.command !in [1, 2, 3, 4]
    ensures Serve(pages, replies, EncodeHeader(h) + tail, end) == Serve(pages, replies, tail, end)
  {
    HeaderRoundTrip(h);
    var stream := EncodeHeader(h) + tail;
    assert stream[..HEADER_SIZE] == EncodeHeader(h) && stream[HEADER_SIZE..] == tail;
  }

  /** The round trip: from any byte stream that starts with the encodings of some commands, the server
      decodes exactly these commands, gives the replies of the map, and goes on with the map's contents. */
  lemma {:induction false} ServeDecodes(
      pages: Pages, m: map<Key, Page>, replies: seq<Page>, cs: seq<Command>, tail: seq<Byte>, end: StreamEnd)
    returns (after: Pages)
    requires AllSendable(cs) && SamePages(pages, m)
    ensures SamePages(after, ApplyAll(m, cs))
    ensures Serve(pages, replies, EncodeAll(cs) + tail, end) == Serve(after, replies + RepliesTo(m, cs), tail, end)
    decreases |cs|
  {
    if cs == [] {
      after := pages;
      assert EncodeAll(cs) + tail == tail;
      assert replies + RepliesTo(m, cs) == replies;
    } else {
      ServeFirst(pages, m, replies, cs, tail, end);
      HandledIsApply(pages, m, cs[0]);
      after := ServeDecodes(Handled(pages, cs[0]), Apply(m, cs[0]), replies + Reply(m, cs[0]), cs[1..], tail, end);
      RepliesCons(m, replies, cs);
    }
  }

  lemma RepliesCons(m: map<Key, Page>, replies: seq<Page>, cs: seq<Command>)
    requires |cs| > 0
    ensures replies + Reply(m, cs[0]) + RepliesTo(Apply(m, cs[0]), cs[1..]) == replies + RepliesTo(m, cs)
  {
    var first, rest := Reply(m, cs[0]), RepliesTo(Apply(m, cs[0]), cs[1..]);
    assert RepliesTo(m, cs) == first + rest;
    assert replies + first + rest == replies + (first + rest);
  }

  lemma ServeFirst(
      pages: Pages, m: map<Key, Page>, replies: seq<Page>, cs: seq<Command>, tail: seq<Byte>, end: StreamEnd)
    requires |cs| > 0 && AllSendable(cs) && SamePages(pages, m)
    ensures Serve(pages, replies, EncodeAll(cs) + tail, end) ==
            Serve(Handled(pages, cs[0]), replies + Reply(m, cs[0]), EncodeAll(cs[1..]) + tail, end)
  {
    var rest := EncodeAll(cs[1..]) + tail;
    assert EncodeAll(cs) + tail == Encode(cs[0]) + rest;
    ServeOne(pages, replies, cs[0], rest, end);
    HandledIsApply(pages, m, cs[0]);
  }

  /** A stream may end anywhere, even inside a command, and in any way: all commands before the cut have their
      effect, the last one has none, and the handler dies of an exception exactly when the cut is inside the page
      of a PUT or the socket fails other than by a reset. */
  lemma ServeCutStream(
      pages: Pages, m: map<Key, Page>, replies: seq<Page>, cs: seq<Command>, c: Command, cut: nat, end: StreamEnd)
    returns (after: Pages)
    requires SamePages(pages, m) && AllSendable(cs) && Sendable(c) && cut < |Encode(c)|
    ensures SamePages(after, ApplyAll(m, cs))
    ensures var inPage := c.Put? && cut >= HEADER_SIZE;
            var served := Serve(pages, replies, EncodeAll(cs) + Encode(c)[..cut], end);
            && served.pages == after && served.replies == replies + RepliesTo(m, cs)
            && served.ending == (if inPage then EndInsidePage(end) else EndBeforeCommand(end))
            && (served.ending == Quit <==> !inPage && end != Broken)
  {
    var tail := Encode(c)[..cut];
    after := ServeDecodes(pages, m, replies, cs, tail, end);
    if cut >= HEADER_SIZE {
      HeaderRoundTrip(HeaderOf(c));
      assert tail[..HEADER_SIZE] == EncodeHeader(HeaderOf(c));
    }
  }

  /** The outcome of a stream that holds whole commands only. */
  ghost predicate Agrees(served: Served, replies: seq<Page>, m: map<Key, Page>, cs: seq<Command>, end: StreamEnd) {
    && served.ending == EndBeforeCommand(end)
    && served.replies == replies + RepliesTo(m, cs) && SamePages(served.pages, ApplyAll(m, cs))
  }

  lemma WholeStream(pages: Pages, m: map<Key, Page>, replies: seq<Page>, cs: seq<Command>, end: StreamEnd)
    requires SamePages(pages, m) && AllSendable(cs)
    ensures Agrees(Serve(pages, replies, EncodeAll(cs), end), replies, m, cs, end)
  {
    var after := ServeDecodes(pages, m, replies, cs, [], end);
    assert EncodeAll(cs) + [] == EncodeAll(cs);
  }

  // ----- The handler -----

  function Concat(packets: seq<seq<Byte>>): seq<Byte> {
    if packets == [] then [] else packets[0] + Concat(packets[1..])
  }

  /** What a read of some number of bytes comes to; None stands for a stream that closed before. */
  datatype Received = All(data: seq<Byte>) | None | Raised

  /** One end of a TCP connection: what arrives comes in packets of any size, and then the end of the stream. */
  class Connection {
    const end: StreamEnd
    var packets: seq<seq<Byte>>
    var replies: seq<Page>

    ghost predicate Valid()
      reads this
    {
      forall i :: 0 <= i < |packets| ==> packets[i] != []
    }

    ghost function Stream(): seq<Byte>
      reads this
    {
      Concat(packets)
    }

    constructor (packets: seq<seq<Byte>>, end: StreamEnd)
      requires forall i :: 0 <= i < |packets| ==> packets[i] != []
      ensures Valid() && Stream() == Concat(packets) && replies == [] && this.end == end
    {
      this.packets := packets;
      this.end := end;
      replies := [];
    }

    /** `request.recv`: at most `n` bytes of what has arrived; nothing only at the end of the stream, unless that
        raises an exception. */
    method Recv(n: nat) returns (raised: bool, packet: seq<Byte>)
      requires Valid() && n > 0
      modifies `packets
      ensures Valid() && |packet| <= n && packet + Stream() == old(Stream())
      ensures packet == [] <==> old(Stream()) == []
      ensures raised <==> old(Stream()) == [] && end != Closed
    {
      if packets == [] {
        return end != Closed, [];
      }
      raised := false;
      var first := packets[0];
      if |first| <= n {
        packets := packets[1..];
        return false, first;
      }
      packet := first[..n];
      packets := [first[n..]] + packets[1..];
      assert packets[1..] == old(packets)[1..];
      assert first == first[..n] + first[n..];
    }

    /** `recvall`: `size` bytes, or None when the stream closes before that; an exception of `recv` goes on. */
    method RecvAll(size: nat) returns (r: Received)
      requires Valid()
      modifies `packets
      ensures Valid() && (r.All? <==> |old(Stream())| >= size)
      ensures r.All? ==> r.data == old(Stream())[..size] && Stream() == old(Stream())[size..]
      ensures !r.All? ==> Stream() == [] && r == if end == Closed then None else Raised
    {
      var data := [];
      while |data| < size
        invariant Valid() && |data| <= size && data + Stream() == old(Stream())
        decreases size - |data|
      {
        var raised, packet := Recv(size - |data|);
        if raised {
          assert data + [] == data;
          return Raised;
        }
        if packet == [] {
          assert data + [] == data;
          return None;
        }
        data := data + packet;
      }
      r := All(data);
    }

    /** `request.send`. */
    method Send(page: Page)
      modifies `replies
      ensures replies == old(replies) + [page]
    {
      replies := replies + [page];
    }
  }

  class PageServer {
    var pages: Pages

    constructor ()
      ensures pages == map[]
    {
      pages := map[];
    }

    /** The branches of `handle` after the header has been read; `ending` is set when the loop is left. */
    method Dispatch(conn: Connection, h: Header) returns (left: bool, ending: Ending)
      requires conn.Valid()
      modifies this, conn
      ensures conn.Valid() && |conn.Stream()| <= old(|conn.Stream()|)
      ensures left <==> h.command == PUT && old(|conn.Stream()|) < PAGE_SIZE
      ensures left ==> ending == EndInsidePage(conn.end) && pages == old(pages) && conn.replies == old(conn.replies)
      ensures !left && h.command == PUT ==>
                var page := old(conn.Stream())[..PAGE_SIZE];
                && pages == old(pages)[h.pid := PagesOf(old(pages), h.pid)[h.address := page]]
                && conn.replies == old(conn.replies) && conn.Stream() == old(conn.Stream())[PAGE_SIZE..]
      ensures h.command != PUT ==> conn.Stream() == old(conn.Stream())
      ensures h.command == GET ==>
                pages == old(pages) && conn.replies == old(conn.replies) + [Lookup(old(pages), h.pid, h.address)]
      ensures h.command != GET ==> conn.replies == old(conn.replies)
      ensures h.command == RM ==> pages == Deleted(old(pages), h.pid, h.address)
      ensures h.command == RELEASE ==> pages == map[]
      ensures h.command !in [PUT, GET, RM, RELEASE] ==> pages == old(pages)
    {
      ending := Quit;
      if h.command == PUT {
        var r := conn.RecvAll(PAGE_SIZE);
        if r.Raised? {
          return true, SocketError;
        }
        if r.None? {
          return true, TypeError;
        }
        var page: Page := r.data;
        if h.pid in pages {
          var pidPages: map<nat, Page> := pages[h.pid];
          pidPages := pidPages[h.address := page];
          pages := pages[h.pid := pidPages];
        } else {
          var pidPages: map<nat, Page> := map[h.address := page];
          pages := pages[h.pid := pidPages];
        }
      } else if h.command == GET {
        var page := ZeroPage();
        if h.pid in pages {
          var pidPages := pages[h.pid];
          if h.address in pidPages {
            page := pidPages[h.address];
          }
        }
        conn.Send(page);
      } else if h.command == RM {
        if h.pid in pages {
          var pidPages := pages[h.pid];
          if h.address in pidPages {
            pages := pages[h.pid := pidPages - {h.address}];
          } else {
            assert pages[h.pid] - {h.address} == pages[h.pid];
            assert pages[h.pid := pages[h.pid]] == pages;
          }
        }
      } else if h.command == RELEASE {
        pages := map[];
      }
      left := false;
    }

    /** The loop of `handle`: whatever packets the stream comes in, the outcome is that of `Serve` on its
        bytes. */
    method ServeLoop(conn: Connection) returns (ending: Ending)
      requires conn.Valid()
      modifies this, conn
      ensures Serve(old(pages), old(conn.replies), old(conn.Stream()), conn.end) == Served(pages, conn.replies, ending)
    {
      while true
        invariant conn.Valid()
        invariant Serve(old(pages), old(conn.replies), old(conn.Stream()), conn.end) ==
                  Serve(pages, conn.replies, conn.Stream(), conn.end)
        decreases |conn.Stream()|
      {
        var r := conn.RecvAll(HEADER_SIZE);
        if r.Raised? {
          if conn.end != Reset {
            return SocketError;
          }
          return Quit;
        }
        if r.None? {
          return Quit;
        }
        var left;
        left, ending := Dispatch(conn, DecodeHeader(r.data));
        if left {
          return;
        }
      }
    }

    /** `handle`: if the bytes that arrive are the encodings of some commands, in packets of any size, and the
        server held the pages of `m`, it ends with the pages and the replies of the map after these commands. */
    method Handle(conn: Connection) returns (ending: Ending)
      requires conn.Valid()
      modifies this, conn
      ensures Serve(old(pages), old(conn.replies), old(conn.Stream()), conn.end) == Served(pages, conn.replies, ending)
      ensures forall m, cs :: SamePages(old(pages), m) && AllSendable(cs) && old(conn.Stream()) == EncodeAll(cs) ==>
                Agrees(Served(pages, conn.replies, ending), old(conn.replies), m, cs, conn.end)
    {
      ending := ServeLoop(conn);
      forall m, cs | SamePages(old(pages), m) && AllSendable(cs) && old(conn.Stream()) == EncodeAll(cs)
        ensures Agrees(Served(pages, conn.replies, ending), old(conn.replies), m, cs, conn.end)
      {
        WholeStream(old(pages), m, old(conn.replies), cs, conn.end);
      }
    }
  }
}
