/**
  * The connection as the driver sees it: one ordered stream of received bytes with a read position, one output
  * buffer, and a peer that answers each flushed request. The peer either follows a script of arbitrary bytes or is
  * the sequential server, which serves one request at a time.
  */
module Network {
  import opened Wire
  import opened Unicode
  import opened Values
  import opened Encoding

  // ---- Requests ----

  const RESULT_FETCH_ROWS := 5
  const LOB_READ := 17
  const CHUNK := 0x1_0000

  const STATUS_ERROR := 0
  const STATUS_OK := 1
  const STATUS_OK_STATE_CHANGED := 3

  function FetchRequest(id: int32, count: int32): Bytes {
    Put32(RESULT_FETCH_ROWS) + (Put32(id) + Put32(count))
  }

  function LobRequest(id: int64, mac: Option<Bytes>, offset: int): Bytes {
    Put32(LOB_READ) + (Put64(id) + (PutBytes(mac) + (EncBE(offset, 8) + Put32(CHUNK))))
  }

  datatype Request =
    | FetchRows(id: int32, count: int32)
    | ReadLob(lob: int64, mac: Option<Bytes>, offset: int64, length: int32)
    | CloseResult(id: int32)
    | CloseCommand(id: int32)
    | Quiet

  /** How the server reads a request: operation 4, 5, 7 or 17 with its operands. Others are quiet here. */
  function Understand(req: Bytes): Request {
    if |req| == 12 && Int32(req[..4]) == 5 then FetchRows(Int32(req[4..8]), Int32(req[8..]))
    else if |req| == 8 && Int32(req[..4]) == 7 then CloseResult(Int32(req[4..]))
    else if |req| == 8 && Int32(req[..4]) == 4 then CloseCommand(Int32(req[4..]))
    else if |req| >= 12 && Int32(req[..4]) == 17 then
      match GetBytes(req[12..])
      case Fail => Quiet
      case Got(mac, n) =>
        if |req| != 24 + n then Quiet
        else ReadLob(Int64(req[4..12]), mac, Int64(req[12 + n..20 + n]), Int32(req[20 + n..]))
    else Quiet
  }

  // ---- The sequential server ----

  type Mac = b: Option<Bytes> | b.Some? ==> |b.value| <= MAX_WIRE_LENGTH witness None
  type Content = b: Bytes | |b| < 0x8000_0000_0000_0000 witness []
  type WireRow = r: seq<WireValue> | AllSendable(r, false) witness []

  datatype Lob = Lob(mac: Mac, content: Content)

  datatype ErrorFrame = ErrorFrame(sqlState: JavaString, message: JavaString, sql: JavaString, code: int32,
                                   trace: JavaString)

  function ErrorBytes(e: ErrorFrame): Bytes {
    PutText(e.sqlState) + (PutText(e.message) + (PutText(e.sql) + (Put32(e.code) + PutText(e.trace))))
  }

  /** What follows the last row of a result. */
  datatype Ending = Exhausted | Throws(e: ErrorFrame)

  datatype Server = Server(resultID: int32, rows: seq<WireRow>, ending: Ending, open: bool,
                           commands: set<int32>, lobs: map<int64, Lob>, chunks: seq<nat>, complaint: ErrorFrame)

  /** The row-sending rule: per promised row a flag 1 and the values, or a flag 0 or an error frame and stop. */
  function SendRows(rows: seq<WireRow>, ending: Ending, count: int): Bytes
    decreases |rows|
  {
    if count <= 0 then []
    else if rows != [] then [1] + (Frames(rows[0], false) + SendRows(rows[1..], ending, count - 1))
    else match ending case Exhausted => [0] case Throws(e) => [255] + ErrorBytes(e)
  }

  function Min(a: int, b: int): int { if a < b then a else b }

  function SentRows(s: Server, count: int): nat { if count <= 0 then 0 else Min(count, |s.rows|) }

  function AfterRows(s: Server, count: int): Server {
    s.(rows := s.rows[SentRows(s, count)..], open := s.open && count <= |s.rows|)
  }

  /** Size of the next chunk: whatever the server's schedule says, but non-empty until the end and never too long. */
  function ChunkSize(s: Server, content: Bytes, offset: int, length: int): nat {
    if offset < 0 || offset >= |content| || length <= 0 then 0
    else
      var want := if s.chunks == [] then length else if s.chunks[0] == 0 then 1 else s.chunks[0];
      Min(Min(want, length), |content| - offset)
  }

  function Serve(s: Server, req: Bytes): (Bytes, Server) {
    match Understand(req)
    case FetchRows(id, count) =>
      if id == s.resultID && s.open then (Put32(1) + SendRows(s.rows, s.ending, count), AfterRows(s, count))
      else (Put32(0) + ErrorBytes(s.complaint), s)
    case ReadLob(id, mac, offset, length) =>
      if id in s.lobs && s.lobs[id].mac == mac && offset >= 0 then
        var content := s.lobs[id].content;
        var n := ChunkSize(s, content, offset, length);
        var chunk := if n == 0 then [] else content[offset..offset + n];
        (Put32(1) + (EncBE(n, 4) + chunk), s.(chunks := if s.chunks == [] then [] else s.chunks[1..]))
      else (Put32(0) + ErrorBytes(s.complaint), s)
    case CloseResult(id) => ([], if id == s.resultID then s.(open := false) else s)
    case CloseCommand(id) => ([], s.(commands := s.commands - {id}))
    case Quiet => ([], s)
  }

  // ---- The connection ----

  datatype Peer = Scripted(answers: seq<Bytes>) | Sequential(server: Server)

  function Answer(p: Peer, req: Bytes): (Bytes, Peer) {
    match p
    case Scripted(as_) => if as_ == [] then ([], p) else (as_[0], Scripted(as_[1..]))
    case Sequential(s) => var (b, s') := Serve(s, req); (b, Sequential(s'))
  }

  /** A request together with the number of received bytes that were still unread when it was written. */
  datatype Sent = Sent(request: Bytes, unread: nat)

  /** `life` is the number of flushes the connection still survives. */
  datatype Conn = Conn(input: Bytes, pos: nat, out: Bytes, log: seq<Sent>, life: nat, peer: Peer)

  type Net = c: Conn | c.pos <= |c.input| witness Conn([], 0, [], [], 0, Scripted([]))

  function Unread(n: Net): Bytes { n.input[n.pos..] }

  function Take(n: Net, k: nat): Net
    requires k <= |Unread(n)|
  {
    n.(pos := n.pos + k)
  }

  function Write(n: Net, b: Bytes): Net { n.(out := n.out + b) }

  /** Sends the buffered request; its answer joins the received bytes. */
  function Flush(n: Net): Option<Net> {
    if n.life == 0 then None else
      var (b, p) := Answer(n.peer, n.out);
      Some(Conn(n.input + b, n.pos, [], n.log + [Sent(n.out, |Unread(n)|)], n.life - 1, p))
  }

  function Send(n: Net, req: Bytes): Option<Net> { Flush(Write(n, req)) }

  // ---- The server understands what the driver writes ----

  lemma UnderstandFetch(id: int32, count: int32)
    ensures Understand(FetchRequest(id, count)) == FetchRows(id, count)
  {
    Int32Put(RESULT_FETCH_ROWS);
    Int32Put(id);
    Int32Put(count);
    hide Put32, Int32;
    Cut(Put32(RESULT_FETCH_ROWS), Put32(id), Put32(count));
  }

  lemma UnderstandClose(id: int32)
    ensures Understand(Put32(7) + Put32(id)) == CloseResult(id)
    ensures Understand(Put32(4) + Put32(id)) == CloseCommand(id)
  {
    Int32Put(7);
    Int32Put(4);
    Int32Put(id);
    hide Put32, Int32;
  }

  lemma UnderstandLob(id: int64, mac: Mac, offset: int64)
    ensures Understand(LobRequest(id, mac, offset)) == ReadLob(id, mac, offset, CHUNK)
  {
    var tail := Put64(offset) + Put32(CHUNK);
    var m := PutBytes(mac);
    Int32Put(LOB_READ);
    Int64Put(id);
    Int64Put(offset);
    Int32Put(CHUNK);
    GetBytesPut(mac, tail);
    assert LobRequest(id, mac, offset) == Put32(LOB_READ) + (Put64(id) + (m + tail));
    hide Put32, Int32, Put64, Int64, PutBytes, GetBytes, LobRequest;
    var req := Put32(LOB_READ) + (Put64(id) + (m + tail));
    Cut(Put32(LOB_READ), Put64(id), m + tail);
    LobTail(req, m, Put64(offset), Put32(CHUNK));
  }

  lemma LobTail(req: Bytes, m: Bytes, a: Bytes, b: Bytes)
    requires |req| >= 12 && req[12..] == m + (a + b) && |a| == 8 && |b| == 4
    ensures |req| == 24 + |m| && req[12 + |m|..20 + |m|] == a && req[20 + |m|..] == b
  {
    Cut(m, a, b);
    assert req[12 + |m|..] == req[12..][|m|..];
    assert req[12 + |m|..20 + |m|] == req[12..][|m|..|m| + 8];
    assert req[20 + |m|..] == req[12..][|m| + 8..];
  }
}
