/** Sessions and result rows: the driver's objects and the methods that update them, proved against module RowStream. */
module Driver {
  import opened Wire
  import opened Unicode
  import opened Values
  import opened Network
  import opened RowStream
  import opened Transfer
  import opened Strings
  import opened Decoder
  import opened Metadata
  import TypeInfos

  datatype Result<+T> = Ok(value: T) | Failure(e: Err)

  // ---- Status and error frames ----

  method ReadH2Error(tr: Tr) returns (r: Option<H2Error>)
    requires tr.Valid()
    modifies tr`pos
    ensures tr.Valid() && Reads(old(tr.State()), ParseError(old(Unread(tr.State()))), tr.State(), r)
  {
    hide TypeInfos.GetStrings, GetString, Int32, TypeInfos.OrEmpty;
    ghost var net := tr.State();
    ghost var s := Unread(net);
    var texts := ReadStrings(tr, 3);
    if texts == None { return None; }
    ghost var n := TypeInfos.GetStrings(s, 3).n;
    UnreadTake(net, n);
    var code := tr.ReadInt32();
    if code == None { return None; }
    UnreadTake(net, n + 4);
    var trace := ReadString(tr);
    if trace == None { return None; }
    var ts := texts.value;
    return Some(H2Error(ts[0], ts[1], ts[2], code.value, TypeInfos.OrEmpty(trace.value)));
  }

  /** Some(None) is success, Some(Some(e)) a reported error, None everything else. */
  method ReadStatus(tr: Tr) returns (r: Option<Option<H2Error>>)
    requires tr.Valid()
    modifies tr`pos
    ensures tr.Valid() && Reads(old(tr.State()), ParseStatus(old(Unread(tr.State()))), tr.State(), r)
  {
    hide ParseError, Int32;
    ghost var net := tr.State();
    var status := tr.ReadInt32();
    if status == None { return None; }
    UnreadTake(net, 4);
    if status.value == STATUS_OK || status.value == STATUS_OK_STATE_CHANGED { return Some(None); }
    if status.value == STATUS_ERROR {
      var e := ReadH2Error(tr);
      return if e == None then None else Some(Some(e.value));
    }
    return None;
  }

  // ---- Fetching a LOB ----

  method ReadChunk(tr: Tr) returns (r: Option<Bytes>)
    requires tr.Valid()
    modifies tr`pos
    ensures tr.Valid() && Reads(old(tr.State()), ParseChunk(old(Unread(tr.State()))), tr.State(), r)
  {
    hide Int32;
    ghost var s := Unread(tr.State());
    var status := tr.ReadInt32();
    if status == None || status.value != STATUS_OK { return None; }
    assert Unread(tr.State()) == s[4..];
    var length := tr.ReadInt32();
    if length == None { return None; }
    assert s[4..][..4] == s[4..8] && Unread(tr.State()) == s[8..];
    if length.value == 0 { assert s[8..8] == []; return Some([]); }
    if length.value < 0 || length.value > CHUNK { return None; }
    var chunk := new byte[length.value];
    var ok := tr.ReadFull(chunk);
    if !ok { return None; }
    assert s[8..][..length.value] == s[8..8 + length.value];
    return Some(chunk[..]);
  }

  method RequestChunk(tr: Tr, p: PendingLob, offset: nat) returns (ok: bool)
    requires tr.Valid()
    modifies tr
    ensures tr.Valid()
    ensures match Send(old(tr.State()), LobRequest(p.lobID, p.hmac, offset))
            case None => !ok
            case Some(net) => ok && tr.State() == net
  {
    hide Put32, Put64, PutBytes, EncBE, Answer;
    ghost var net := tr.State();
    tr.WriteInt32(LOB_READ);
    tr.WriteInt64(p.lobID);
    tr.WriteBytes(p.hmac);
    tr.Write(EncBE(offset, 8));
    tr.WriteInt32(CHUNK);
    Joined(net.out, Put32(LOB_READ), Put64(p.lobID), PutBytes(p.hmac), EncBE(offset, 8), Put32(CHUNK));
    ok := tr.Flush();
  }

  lemma Joined(o: Bytes, a: Bytes, b: Bytes, c: Bytes, d: Bytes, e: Bytes)
    ensures o + a + b + c + d + e == o + (a + (b + (c + (d + e))))
  {
  }

  lemma ChunksUnfold(net: Net, p: PendingLob, acc: Bytes)
    ensures var sent := Send(net, LobRequest(p.lobID, p.hmac, |acc|));
            && (sent.None? ==> FetchChunks(net, p, acc) == Failed(Lost))
            && (sent.Some? ==>
                  var g := ParseChunk(Unread(sent.value));
                  && (g.Fail? ==> FetchChunks(net, p, acc) == Failed(Broken))
                  && (g.Got? ==> FetchChunks(net, p, acc) ==
                                 if g.v == [] then Done(Take(sent.value, g.n), acc)
                                 else FetchChunks(Take(sent.value, g.n), p, acc + g.v)))
  {
    hide Send, LobRequest, ParseChunk;
  }

  lemma LifeDrops(net: Net, req: Bytes)
    requires Send(net, req).Some?
    ensures Send(net, req).value.life < net.life
  {
    hide Answer;
  }

  /** LOB_READ after LOB_READ until an empty chunk. */
  method FetchLob(tr: Tr, p: PendingLob) returns (r: Result<Value>)
    requires tr.Valid()
    modifies tr
    ensures tr.Valid()
    ensures match RowStream.FetchLob(old(tr.State()), p)
            case Failed(e) => r == Failure(e)
            case Done(net, v) => r == Ok(v) && tr.State() == net
  {
    hide Send, LobRequest, ParseChunk, FetchChunks;
    var total := if p.clob then p.octetLength else p.precision;
    if total > MAX_WIRE_LENGTH { return Failure(Broken); }
    ghost var net := tr.State();
    var acc: Bytes := [];
    while true
      invariant tr.Valid() && FetchChunks(tr.State(), p, acc) == FetchChunks(net, p, [])
      decreases tr.life
    {
      ghost var now := tr.State();
      ChunksUnfold(now, p, acc);
      var sent := RequestChunk(tr, p, |acc|);
      if !sent { return Failure(Lost); }
      LifeDrops(now, LobRequest(p.lobID, p.hmac, |acc|));
      var chunk := ReadChunk(tr);
      if chunk == None { return Failure(Broken); }
      if chunk.value == [] { break; }
      acc := acc + chunk.value;
    }
    return Ok(LobValue(p, acc));
  }

  // ---- Sessions ----

  const STATEMENT_CANCELED := 57014

  class Session {
    var tr: Tr?
    var dead: bool

    predicate Valid()
      reads this, tr
    {
      (tr == null <==> dead) && (tr != null ==> tr.Valid())
    }

    /** The connection, while the session has one. */
    function Link(): Option<Net>
      requires Valid()
      reads this, tr
    {
      if tr == null then None else Some(tr.State())
    }

    constructor (tr: Tr)
      requires tr.Valid()
      ensures Valid() && this.tr == tr && !dead
    {
      this.tr, dead := tr, false;
    }

    /** Drops the transport and marks the session dead. */
    method Abort()
      modifies this
      ensures Valid() && dead && tr == null
    {
      if tr == null {
        dead := true;
        return;
      }
      tr := null;
      dead := true;
    }

    /**
      * What becomes of a failed operation whose context may be done: a cancellation the server itself reported leaves
      * the session usable, every other failure under a finished context or past its deadline aborts it.
      */
    method FinalizeContext(e: Option<Err>, done: bool, expired: bool) returns (own: bool)
      requires Valid()
      modifies this
      ensures Valid() && own == (e.Some? && (done || expired))
      ensures var spared := e == None || (!done && !expired)
              || (done && e.value.Reported? && e.value.e.code == STATEMENT_CANCELED);
              if spared then tr == old(tr) && dead == old(dead) else tr == null && dead
    {
      if e == None { return false; }
      if done {
        if e.value.Reported? && e.value.e.code == STATEMENT_CANCELED { return true; }
        Abort();
        return true;
      }
      if expired {
        Abort();
        return true;
      }
      return false;
    }

    method MarkStreamBroken()
      modifies this
      ensures Valid() && dead && tr == null
    {
      Abort();
    }

    /** Only a fully parsed server error leaves the stream trustworthy. */
    method MarkUnlessAligned(e: Err)
      requires Valid()
      modifies this
      ensures Valid() && (e.Reported? ==> tr == old(tr) && dead == old(dead)) && (!e.Reported? ==> tr == null && dead)
    {
      if !e.Reported? { MarkStreamBroken(); }
    }
  }

  // ---- One row, one batch ----

  /** The first `|vs|` columns of a row took `n` bytes. */
  predicate RowSoFar(s: Bytes, row: nat, k: nat, vs: seq<Value>, n: nat) {
    && |vs| <= k && n <= |s|
    && ParseRow(s, row, 0, k) ==
       (match ParseRow(s[n..], row, |vs|, k) case Fail => Fail case Got(ws, m) => Got(vs + ws, n + m))
  }

  lemma RowStart(s: Bytes, row: nat, k: nat)
    ensures RowSoFar(s, row, k, [], 0)
  {
    assert s[0..] == s;
    hide ParseValue;
    if ParseRow(s, row, 0, k).Got? { assert [] + ParseRow(s, row, 0, k).v == ParseRow(s, row, 0, k).v; }
  }

  lemma RowAdvance(s: Bytes, row: nat, k: nat, vs: seq<Value>, n: nat)
    requires RowSoFar(s, row, k, vs, n) && |vs| < k
    ensures var g := ParseValue(s[n..], Cell(row, |vs|));
            (g.Fail? ==> ParseRow(s, row, 0, k).Fail?) && (g.Got? ==> RowSoFar(s, row, k, vs + [g.v], n + g.n))
  {
    hide ParseValue;
    var g := ParseValue(s[n..], Cell(row, |vs|));
    if g.Got? {
      assert s[n..][g.n..] == s[n + g.n..];
      var h := ParseRow(s[n + g.n..], row, |vs| + 1, k);
      if h.Got? { assert vs + ([g.v] + h.v) == vs + [g.v] + h.v; }
    }
  }

  lemma RowFinish(s: Bytes, row: nat, k: nat, vs: seq<Value>, n: nat)
    requires RowSoFar(s, row, k, vs, n) && |vs| == k
    ensures ParseRow(s, row, 0, k) == Got(vs, n)
  {
    assert vs + [] == vs;
    hide ParseValue;
  }

  lemma PendingGrows(vs: seq<Value>, v: Value)
    ensures RowPending(vs + [v]) == RowPending(vs) + CellPending(v)
  {
    assert (vs + [v])[..|vs|] == vs;
    hide CellPending;
  }

  /** Column by column; every placeholder is recorded with its row and column. */
  method ReadRow(tr: Tr, lc: LobCollector, k: nat) returns (r: Option<Row>)
    requires tr.Valid() && !lc.reject
    modifies tr`pos, lc`pending, lc`curCol
    ensures tr.Valid() && Reads(old(tr.State()), ParseRow(old(Unread(tr.State())), lc.curRow, 0, k), tr.State(), r)
    ensures r.Some? ==> lc.pending == old(lc.pending) + RowPending(r.value)
  {
    hide ParseRow, ParseValue, RowSoFar, RowPending, CellPending;
    ghost var net := tr.State();
    ghost var s, n := Unread(net), 0;
    var row: seq<Value> := [];
    RowStart(s, lc.curRow, k);
    NonePending();
    for j := 0 to k
      invariant tr.Valid() && 0 <= n <= |s| && tr.State() == Take(net, n) && |row| == j
      invariant RowSoFar(s, lc.curRow, k, row, n) && lc.pending == old(lc.pending) + RowPending(row)
    {
      RowAdvance(s, lc.curRow, k, row, n);
      UnreadTake(net, n);
      lc.curCol := j;
      var v := ReadValue(tr, lc);
      if v == None { return None; }
      PendingGrows(row, v.value);
      n := n + ParseValue(s[n..], Cell(lc.curRow, j)).n;
      row := row + [v.value];
    }
    RowFinish(s, lc.curRow, k, row, n);
    return Some(row);
  }

  lemma NonePending()
    ensures RowPending([]) == [] && RowsPending([]) == []
  {
  }

  datatype BatchRead = Whole(rows: seq<Row>, end: bool) | Failing(e: H2Error) | Unreadable

  /** After `i` flags and `n` bytes the rows `rows` are buffered. */
  predicate BatchSoFar(s: Bytes, k: nat, fetch: int, have: seq<Row>, i: nat, rows: seq<Row>, n: nat) {
    have <= rows && n <= |s| && ParseBatch(s, k, fetch, have) == After(ParseBatch(s[n..], k, fetch - i, rows), n)
  }

  lemma BatchStart(s: Bytes, k: nat, fetch: int, have: seq<Row>)
    ensures BatchSoFar(s, k, fetch, have, 0, have, 0)
  {
    assert s[0..] == s;
    hide ParseBatch;
  }

  lemma AfterTwice(b: Batch, n: nat, m: nat)
    ensures After(After(b, n), m) == After(b, n + m)
  {
  }

  /** What the next flag means. */
  lemma BatchAdvance(s: Bytes, k: nat, fetch: int, have: seq<Row>, i: nat, rows: seq<Row>, n: nat)
    requires BatchSoFar(s, k, fetch, have, i, rows, n) && i < fetch
    ensures n == |s| ==> ParseBatch(s, k, fetch, have) == Garbled
    ensures n < |s| && s[n] == 1 ==>
              var g := ParseRow(s[n + 1..], |rows|, 0, k);
              && (g.Fail? ==> ParseBatch(s, k, fetch, have) == Garbled)
              && (g.Got? ==> BatchSoFar(s, k, fetch, have, i + 1, rows + [g.v], n + 1 + g.n))
    ensures n < |s| && s[n] == 0 ==> ParseBatch(s, k, fetch, have) == Complete(rows, true, n + 1)
    ensures n < |s| && s[n] == 255 ==>
              var g := ParseError(s[n + 1..]);
              ParseBatch(s, k, fetch, have) == if g.Got? then Threw(g.v, n + 1 + g.n) else Garbled
    ensures n < |s| && s[n] != 0 && s[n] != 1 && s[n] != 255 ==> ParseBatch(s, k, fetch, have) == Garbled
  {
    hide ParseRow, ParseError, ParseBatch;
    OneFlag(s[n..], k, fetch - i, rows);
    if n < |s| {
      assert s[n..][0] == s[n] && s[n..][1..] == s[n + 1..];
      if s[n] == 1 {
        var g := ParseRow(s[n + 1..], |rows|, 0, k);
        if g.Got? {
          assert s[n..][1 + g.n..] == s[n + 1 + g.n..];
          AfterTwice(ParseBatch(s[n + 1 + g.n..], k, fetch - i - 1, rows + [g.v]), 1 + g.n, n);
        }
      }
    }
  }

  lemma OneFlag(s: Bytes, k: nat, fetch: int, rows: seq<Row>)
    requires fetch > 0
    ensures s == [] ==> ParseBatch(s, k, fetch, rows) == Garbled
    ensures s != [] && s[0] == 1 ==>
              var g := ParseRow(s[1..], |rows|, 0, k);
              ParseBatch(s, k, fetch, rows) ==
              if g.Fail? then Garbled else After(ParseBatch(s[1 + g.n..], k, fetch - 1, rows + [g.v]), 1 + g.n)
    ensures s != [] && s[0] == 0 ==> ParseBatch(s, k, fetch, rows) == Complete(rows, true, 1)
    ensures s != [] && s[0] == 255 ==>
              var g := ParseError(s[1..]);
              ParseBatch(s, k, fetch, rows) == if g.Got? then Threw(g.v, 1 + g.n) else Garbled
    ensures s != [] && s[0] != 0 && s[0] != 1 && s[0] != 255 ==> ParseBatch(s, k, fetch, rows) == Garbled
  {
    hide ParseRow, ParseError, After;
  }

  lemma BatchFinish(s: Bytes, k: nat, fetch: int, have: seq<Row>, i: nat, rows: seq<Row>, n: nat)
    requires BatchSoFar(s, k, fetch, have, i, rows, n) && i >= fetch
    ensures ParseBatch(s, k, fetch, have) == Complete(rows, false, n)
  {
    hide ParseRow, ParseError;
  }

  lemma RowsPendingGrows(have: seq<Row>, rows: seq<Row>, row: Row)
    requires have <= rows
    ensures RowsPending((rows + [row])[|have|..]) == RowsPending(rows[|have|..]) + RowPending(row)
  {
    var a := rows[|have|..];
    assert (rows + [row])[|have|..] == a + [row];
    assert (a + [row])[..|a|] == a;
    hide RowPending;
  }

  datatype Flagged = ARow(row: Row) | AtEnd | Report(e: H2Error) | NoRow

  /** One flag and what it announces: a row, the end of the result, or an error frame. */
  method ReadFlagged(tr: Tr, lc: LobCollector, k: nat) returns (r: Flagged)
    requires tr.Valid() && !lc.reject
    modifies tr`pos, lc`pending, lc`curCol
    ensures tr.Valid() && tr.State() == old(tr.State()).(pos := tr.pos)
    ensures var s, net := old(Unread(tr.State())), old(tr.State());
            if s == [] then r == NoRow
            else if s[0] == 1 then
              match ParseRow(s[1..], lc.curRow, 0, k)
              case Fail => r == NoRow
              case Got(row, n) =>
                r == ARow(row) && tr.State() == Take(net, 1 + n) && lc.pending == old(lc.pending) + RowPending(row)
            else if s[0] == 0 then r == AtEnd && tr.State() == Take(net, 1) && lc.pending == old(lc.pending)
            else if s[0] == 255 then
              match ParseError(s[1..])
              case Fail => r == NoRow
              case Got(e, n) => r == Report(e) && tr.State() == Take(net, 1 + n)
            else r == NoRow
  {
    hide ParseRow, ParseError, RowPending;
    ghost var net := tr.State();
    var flag := tr.ReadByte();
    if flag == None { return NoRow; }
    UnreadTake(net, 1);
    if flag.value == 1 {
      var row := ReadRow(tr, lc, k);
      return if row == None then NoRow else ARow(row.value);
    } else if flag.value == 0 {
      return AtEnd;
    } else if flag.value == 255 {
      var e := ReadH2Error(tr);
      return if e == None then NoRow else Report(e.value);
    }
    return NoRow;
  }

  /**
    * Flag by flag, until the promised rows are read or the batch ends itself. `rows` is what is buffered when it stops,
    * however it stops.
    */
  method ReadBatch(tr: Tr, lc: LobCollector, k: nat, fetch: int, have: seq<Row>) returns (b: BatchRead, rows: seq<Row>)
    requires tr.Valid() && !lc.reject && lc.pending == []
    modifies tr`pos, lc
    ensures tr.Valid() && have <= rows && (b.Whole? ==> b.rows == rows)
    ensures forall i | |have| <= i < |rows| :: |rows[i]| == k
    ensures match ParseBatch(old(Unread(tr.State())), k, fetch, have)
            case Garbled => b == Unreadable
            case Threw(e, n) => b == Failing(e) && tr.State() == Take(old(tr.State()), n)
            case Complete(all, end, n) =>
              b == Whole(all, end) && tr.State() == Take(old(tr.State()), n) && lc.pending == RowsPending(all[|have|..])
  {
    hide ParseBatch, ParseRow, ParseError, BatchSoFar, RowsPending, RowPending;
    ghost var net := tr.State();
    ghost var s, n := Unread(net), 0;
    rows := have;
    var i := 0;
    BatchStart(s, k, fetch, have);
    NonePending();
    assert have[|have|..] == [];
    while i < fetch
      invariant 0 <= i && tr.Valid() && 0 <= n <= |s| && tr.State() == Take(net, n) && have <= rows
      invariant forall j | |have| <= j < |rows| :: |rows[j]| == k
      invariant BatchSoFar(s, k, fetch, have, i, rows, n) && lc.pending == RowsPending(rows[|have|..])
    {
      BatchAdvance(s, k, fetch, have, i, rows, n);
      UnreadTake(net, n);
      assert n < |s| ==> s[n..][1..] == s[n + 1..];
      lc.curRow := |rows|;
      var row := ReadFlagged(tr, lc, k);
      match row {
        case NoRow => return Unreadable, rows;
        case AtEnd => return Whole(rows, true), rows;
        case Report(e) => return Failing(e), rows;
        case ARow(vs) =>
          RowsPendingGrows(have, rows, vs);
          n := n + 1 + ParseRow(s[n + 1..], |rows|, 0, k).n;
          rows := rows + [vs];
      }
      i := i + 1;
    }
    BatchFinish(s, k, fetch, have, i, rows, n);
    return Whole(rows, false), rows;
  }

  lemma ResolveUnfolds(net: Net, rows: seq<Row>, pending: seq<PendingLob>)
    ensures pending == [] ==> Resolve(net, rows, pending) == Done(net, rows)
    ensures pending != [] ==>
              match RowStream.FetchLob(net, pending[0])
              case Failed(e) => Resolve(net, rows, pending) == Failed(e)
              case Done(net', v) =>
                Resolve(net, rows, pending) == Resolve(net', Splice(rows, pending[0], v), pending[1..])
  {
    hide RowStream.FetchLob, Splice;
  }

  predicate SameShape(a: seq<Row>, b: seq<Row>) { |a| == |b| && forall i | 0 <= i < |a| :: |a[i]| == |b[i]| }

  lemma SpliceShape(a: seq<Row>, b: seq<Row>, p: PendingLob, v: Value)
    requires SameShape(a, b)
    ensures SameShape(a, Splice(b, p, v))
  {
  }

  /** Fetches the recorded LOBs and writes each into its cell. `now` are the rows as far as that went. */
  method ResolveLobs(tr: Tr, rows: seq<Row>, pending: seq<PendingLob>) returns (r: Result<seq<Row>>, now: seq<Row>)
    requires tr.Valid()
    modifies tr
    ensures tr.Valid() && SameShape(rows, now) && (r.Ok? ==> r.value == now)
    ensures match Resolve(old(tr.State()), rows, pending)
            case Failed(e) => r == Failure(e)
            case Done(net, rows') => r == Ok(rows') && tr.State() == net
  {
    hide Resolve, RowStream.FetchLob, Splice;
    ghost var net := tr.State();
    now := rows;
    assert pending[0..] == pending;
    for i := 0 to |pending|
      invariant tr.Valid() && Resolve(tr.State(), now, pending[i..]) == Resolve(net, rows, pending)
      invariant SameShape(rows, now)
    {
      ResolveUnfolds(tr.State(), now, pending[i..]);
      assert pending[i..][0] == pending[i] && pending[i..][1..] == pending[i + 1..];
      var v := FetchLob(tr, pending[i]);
      if v.Failure? { return Failure(v.e), now; }
      SpliceShape(rows, now, pending[i], v.value);
      now := Splice(now, pending[i], v.value);
    }
    ResolveUnfolds(tr.State(), now, []);
    assert pending[|pending|..] == [];
    return Ok(now), now;
  }
}
