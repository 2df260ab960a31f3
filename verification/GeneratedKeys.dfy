/** The generated-keys result that follows an update. */
module GeneratedKeys {
  import opened Wire
  import opened Values
  import opened Network
  import opened RowStream
  import opened Batches
  import opened Lockstep
  import opened BatchFetch
  import opened Streaming
  import opened Queries
  import opened Transfer
  import opened Decoder
  import opened Metadata
  import opened Driver
  import NoPlaceholder
  import TypeInfos

  /** `Capped` is the refusal of an oversized row count, which leaves the session alive. */
  datatype Keys =
    | Keys(net: Net, names: seq<Bytes>, rows: seq<Row>)
    | KeysRefused(net: Net, e: H2Error)
    | Capped(net: Net)
    | KeysDead(why: Err)

  function Aliases(cs: seq<TypeInfos.Column>): seq<Bytes> {
    seq(|cs|, i requires 0 <= i < |cs| => cs[i].alias)
  }

  /**
    * How many flags are read at most: with a negative count, until the end flag, which no more rows than bytes can
    * delay.
    */
  function Flags(count: int, s: Bytes): int { if count < 0 then |s| + 1 else count }

  function ReadKeys(net: Net): Keys {
    var s := Unread(net);
    match Get32(s)
    case Fail => KeysDead(Broken)
    case Got(columns, _) =>
      match Get64(s[4..])
      case Fail => KeysDead(Broken)
      case Got(count, _) =>
        if count > MAX_COLLECTION then Capped(Take(net, 12))
        else match TypeInfos.ParseMeta(columns, s[12..])
          case Fail => KeysDead(Broken)
          case Got(cs, n) => KeyRows(Take(net, 12 + n), cs, count)
  }

  function KeyRows(net: Net, cs: seq<TypeInfos.Column>, count: int): Keys {
    match FetchBatch(net, |cs|, Flags(count, Unread(net)), [])
    case Dead(e) => KeysDead(e)
    case Refused(net', e) => KeysRefused(net', e)
    case Fresh(net', rows, _) => Keys(net', Aliases(cs), rows)
  }

  /** No placeholder escapes into a generated-keys result, whatever bytes arrive. */
  lemma KeysResolved(net: Net)
    requires ReadKeys(net).Keys?
    ensures NoPlaceholder.RowsResolved(ReadKeys(net).rows)
  {
    var at, cs, count := KeysCome(net);
    hide ReadKeys;
    KeyRowsResolved(at, cs, count);
  }

  lemma KeysCome(net: Net) returns (at: Net, cs: seq<TypeInfos.Column>, count: int)
    requires ReadKeys(net).Keys?
    ensures ReadKeys(net) == KeyRows(at, cs, count)
  {
    hide TypeInfos.ParseMeta, Int32, Int64, KeyRows;
    var s := Unread(net);
    count := Get64(s[4..]).v;
    var g := TypeInfos.ParseMeta(Get32(s).v, s[12..]);
    at, cs := Take(net, 12 + g.n), g.v;
  }

  lemma KeyRowsResolved(at: Net, cs: seq<TypeInfos.Column>, count: int)
    requires KeyRows(at, cs, count).Keys?
    ensures NoPlaceholder.RowsResolved(KeyRows(at, cs, count).rows)
  {
    hide FetchBatch, Aliases, NoPlaceholder.RowsResolved;
    NoPlaceholder.NoRows();
    NoPlaceholder.FetchResolved(at, |cs|, Flags(count, Unread(at)), []);
  }

  // ---- Against the sequential server ----

  /** The keys frame as the server sends it. */
  function KeysBytes(cols: seq<TypeInfos.ColumnTree>, count: int64, rows: seq<WireRow>, ending: Ending): Bytes
    requires TypeInfos.ColumnsOk(cols) && |cols| <= MAX_COLLECTION
  {
    Put32(|cols|) + (Put64(count) + (TypeInfos.ColumnsBytes(cols) + SendRows(rows, ending, count)))
  }

  lemma KeysHeader(net: Net, s: Server, cols: seq<TypeInfos.ColumnTree>, count: int64, body: Bytes)
    requires |cols| <= MAX_COLLECTION && Holding(net, s, Put32(|cols|) + (Put64(count) + body))
    ensures Get32(Unread(net)) == Got(|cols|, 4) && |Unread(net)| >= 12 && Get64(Unread(net)[4..]) == Got(count, 8)
    ensures Unread(net)[12..] == body && Holding(Take(net, 12), s, body)
  {
    var k: int32 := |cols|;
    var a, b := Put32(k), Put64(count);
    hide *;
    HoldingIs(net, s, a + (b + body));
    Get32Put(k, b + body);
    Get64Put(count, body);
    ReadOff(net, s, a, b + body);
    ReadOff(Take(net, 4), s, b, body);
    TakeTwice(net, 4, 8);
    Cut(a, b, body);
  }

  /** The names of the key columns: their labels. */
  function Labels(cols: seq<TypeInfos.ColumnTree>): (names: seq<Bytes>)
    ensures |names| == |cols| && forall i | 0 <= i < |cols| :: names[i] == TypeInfos.NameText(cols[i].alias)
  {
    seq(|cols|, i requires 0 <= i < |cols| => TypeInfos.NameText(cols[i].alias))
  }

  lemma {:induction false} LabelsRead(cols: seq<TypeInfos.ColumnTree>)
    requires TypeInfos.ColumnsOk(cols)
    ensures Aliases(TypeInfos.EraseColumns(cols)) == Labels(cols)
  {
    if cols != [] {
      LabelsRead(cols[1..]);
      hide TypeInfos.NameText, TypeInfos.Erase;
      var cs := TypeInfos.EraseColumns(cols);
      assert cs[0] == TypeInfos.EraseColumn(cols[0]) && cs[1..] == TypeInfos.EraseColumns(cols[1..]);
      assert Aliases(cs) == [cs[0].alias] + Aliases(cs[1..]);
      assert Labels(cols) == [TypeInfos.NameText(cols[0].alias)] + Labels(cols[1..]);
    }
  }

  /** What the reader must make of the frame for `count` announced keys. */
  ghost predicate KeysMean(k: Keys, lobs: map<int64, Lob>, names: seq<Bytes>, count: int, rows: seq<WireRow>,
                           ending: Ending)
    requires RowsOk(lobs, |names|, rows)
  {
    var n, columns := Brings(|rows|, count), |names|;
    if count > MAX_COLLECTION then k.Capped? && Unread(k.net) != []
    else if count < 0 then k == KeysDead(Broken)
    else if count > |rows| && ending.Throws? then k.KeysRefused? && k.e == ErrorOf(ending.e) && Unread(k.net) == []
    else
      && k.Keys? && n <= |rows| && RowsOk(lobs, columns, rows[..n]) && k.rows == ShownRows(lobs, columns, rows[..n])
      && k.names == names && Unread(k.net) == []
  }

  /** The whole frame was read and the session is alive. */
  predicate FrameRead(k: Keys) { !k.KeysDead? && Unread(k.net) == [] }

  /**
    * For every announced count: within the cap the keys come back in order with their LOBs in place, or a failing
    * server's error is passed on, and the frame is read to its end. Above the cap the rest of the frame is left unread.
    * For a negative count the server sends no row and no flag, so the reader's wait for an end flag breaks the session.
    */
  lemma KeysHonest(net: Net, s: Server, cols: seq<TypeInfos.ColumnTree>, count: int64, rows: seq<WireRow>,
                   ending: Ending)
    requires TypeInfos.ColumnsOk(cols) && |cols| <= MAX_COLLECTION && RowsOk(s.lobs, |cols|, rows)
    requires Holding(net, s, KeysBytes(cols, count, rows, ending)) && net.life >= RowsCost(s.lobs, rows)
    ensures KeysMean(ReadKeys(net), s.lobs, Labels(cols), count, rows, ending)
  {
    if count > MAX_COLLECTION {
      CapLeavesFrame(net, s, cols, count, rows, ending);
      hide Labels, TypeInfos.ColumnsOk, RowsOk, KeysBytes, ReadKeys;
    } else {
      hide *;
      KeysBytesIs(cols, count, rows, ending);
      var at, cs := KeysReads(net, s, cols, count, SendRows(rows, ending, count));
      if count < 0 {
        NegativeCount(at, s, cs, count, rows, ending);
      } else {
        BringsFits(|rows|, count);
        SplitCost(s.lobs, rows, Brings(|rows|, count));
        BatchHonest(at, s, rows, ending, count, |cols|);
        KeysRight(at, s, cs, count, rows, ending);
      }
    }
  }

  /**
    * The keys frame is read to its end with the session alive if and only if the count is not negative and within the
    * cap.
    */
  lemma KeysExact(net: Net, s: Server, cols: seq<TypeInfos.ColumnTree>, count: int64, rows: seq<WireRow>,
                  ending: Ending)
    requires TypeInfos.ColumnsOk(cols) && |cols| <= MAX_COLLECTION && RowsOk(s.lobs, |cols|, rows)
    requires Holding(net, s, KeysBytes(cols, count, rows, ending)) && net.life >= RowsCost(s.lobs, rows)
    ensures FrameRead(ReadKeys(net)) <==> 0 <= count <= MAX_COLLECTION
  {
    KeysHonest(net, s, cols, count, rows, ending);
    hide TypeInfos.ColumnsOk, RowsOk, KeysBytes, ReadKeys, RowsCost, ErrorOf, Labels;
  }

  lemma NegativeCount(at: Net, s: Server, cs: seq<TypeInfos.Column>, count: int64, rows: seq<WireRow>, ending: Ending)
    requires RowsOk(s.lobs, |cs|, rows) && count < 0 && Holding(at, s, SendRows(rows, ending, count))
    ensures KeysMean(KeyRows(at, cs, count), s.lobs, Aliases(cs), count, rows, ending)
  {
    HoldingIs(at, s, SendRows(rows, ending, count));
    assert Unread(at) == [] && ParseBatch([], |cs|, 1, []) == Garbled;
    hide RowsOk, ParseBatch, Resolve, Aliases;
  }

  lemma BringsFits(n: nat, fetch: int)
    ensures Brings(n, fetch) <= n
  {
  }

  lemma KeysBytesIs(cols: seq<TypeInfos.ColumnTree>, count: int64, rows: seq<WireRow>, ending: Ending)
    requires TypeInfos.ColumnsOk(cols) && |cols| <= MAX_COLLECTION && count <= MAX_COLLECTION
    ensures KeysBytes(cols, count, rows, ending) ==
            Put32(|cols|) + (Put64(count) + (TypeInfos.ColumnsBytes(cols) + SendRows(rows, ending, count)))
  {
    hide TypeInfos.ColumnsOk, TypeInfos.ColumnsBytes, SendRows, Put32, Put64;
  }

  lemma KeysReads(net: Net, s: Server, cols: seq<TypeInfos.ColumnTree>, count: int64, batch: Bytes)
    returns (at: Net, cs: seq<TypeInfos.Column>)
    requires TypeInfos.ColumnsOk(cols) && |cols| <= MAX_COLLECTION && count <= MAX_COLLECTION
    requires Holding(net, s, Put32(|cols|) + (Put64(count) + (TypeInfos.ColumnsBytes(cols) + batch)))
    ensures Holding(at, s, batch) && at.life == net.life && |cs| == |cols| && ReadKeys(net) == KeyRows(at, cs, count)
    ensures Aliases(cs) == Labels(cols)
  {
    hide *;
    var meta := TypeInfos.ColumnsBytes(cols);
    KeysHeader(net, s, cols, count, meta + batch);
    var mid := Take(net, 12);
    ReadOff(mid, s, meta, batch);
    TakeTwice(net, 12, |meta|);
    at := Take(net, 12 + |meta|);
    MetaParsed(cols, batch);
    LabelsRead(cols);
    cs := TypeInfos.ParseMeta(|cols|, meta + batch).v;
    KeysUnfold(net, |cols|, count, cs, |meta|);
    TakeLives(net, 12 + |meta|);
  }

  lemma MetaParsed(cols: seq<TypeInfos.ColumnTree>, batch: Bytes)
    requires TypeInfos.ColumnsOk(cols) && |cols| <= MAX_COLLECTION
    ensures var meta := TypeInfos.ColumnsBytes(cols);
            var g := TypeInfos.ParseMeta(|cols|, meta + batch);
            g == Got(TypeInfos.EraseColumns(cols), |meta|) && |g.v| == |cols|
  {
    TypeInfos.MetaRoundTrip(cols, batch);
    hide TypeInfos.ParseColumns, TypeInfos.ColumnsBytes, TypeInfos.EraseColumns;
  }

  lemma KeysUnfold(net: Net, columns: int32, count: int64, cs: seq<TypeInfos.Column>, n: nat)
    requires Get32(Unread(net)) == Got(columns, 4) && |Unread(net)| >= 12 && Get64(Unread(net)[4..]) == Got(count, 8)
    requires count <= MAX_COLLECTION && TypeInfos.ParseMeta(columns, Unread(net)[12..]) == Got(cs, n)
    ensures ReadKeys(net) == KeyRows(Take(net, 12 + n), cs, count)
  {
    hide Get32, Get64, TypeInfos.ParseMeta, KeyRows;
  }

  lemma KeysRight(at: Net, s: Server, cs: seq<TypeInfos.Column>, count: int64, rows: seq<WireRow>, ending: Ending)
    requires RowsOk(s.lobs, |cs|, rows) && 0 <= count <= MAX_COLLECTION
    requires at.life >= RowsCost(s.lobs, rows[..Brings(|rows|, count)])
    requires BatchRight(FetchBatch(at, |cs|, count, []), rows, ending, count, |cs|, at, s, 0)
    ensures KeysMean(KeyRows(at, cs, count), s.lobs, Aliases(cs), count, rows, ending)
  {
    PrefixOk(s.lobs, |cs|, rows, Brings(|rows|, count));
    hide FetchBatch, RowsOk, ShownRows, RowsCost, ErrorOf, Same, Aliases, AllRead;
  }

  /** An oversized count is refused with the whole rest of the frame unread, while the session stays alive. */
  lemma CapLeavesFrame(net: Net, s: Server, cols: seq<TypeInfos.ColumnTree>, count: int64, rows: seq<WireRow>,
                       ending: Ending)
    requires TypeInfos.ColumnsOk(cols) && |cols| <= MAX_COLLECTION && count > MAX_COLLECTION
    requires Holding(net, s, KeysBytes(cols, count, rows, ending))
    ensures ReadKeys(net).Capped?
    ensures var rest := Unread(ReadKeys(net).net);
            rest == TypeInfos.ColumnsBytes(cols) + SendRows(rows, ending, count) && rest != []
  {
    var body := TypeInfos.ColumnsBytes(cols) + SendRows(rows, ending, count);
    KeysHeader(net, s, cols, count, body);
    SomethingSent(rows, ending, count);
    HoldingIs(Take(net, 12), s, body);
    hide Get32, Get64, TypeInfos.ParseMeta, KeyRows, SendRows, TypeInfos.ColumnsBytes, Holding;
  }

  lemma SomethingSent(rows: seq<WireRow>, ending: Ending, count: int)
    requires count > 0
    ensures SendRows(rows, ending, count) != []
  {
  }

  // ---- The reader ----

  /** Row after row: as many as announced, or until the end flag when the count is negative. */
  method ReadKeyRows(tr: Tr, lc: LobCollector, k: nat, count: int) returns (b: BatchRead)
    requires tr.Valid() && !lc.reject && lc.pending == []
    modifies tr`pos, lc
    ensures tr.Valid()
    ensures match ParseBatch(old(Unread(tr.State())), k, Flags(count, old(Unread(tr.State()))), [])
            case Garbled => b == Unreadable
            case Threw(e, n) => b == Failing(e) && tr.State() == Take(old(tr.State()), n)
            case Complete(rows, _, n) =>
              b.Whole? && b.rows == rows && tr.State() == Take(old(tr.State()), n) && lc.pending == RowsPending(rows)
  {
    hide ParseBatch, ParseRow, ParseError, BatchSoFar, RowsPending, RowPending;
    ghost var net := tr.State();
    ghost var s, n := Unread(net), 0;
    ghost var fetch := Flags(count, s);
    var rows: seq<Row> := [];
    var i := 0;
    BatchStart(s, k, fetch, []);
    NonePending();
    while count < 0 || i < count
      invariant 0 <= i <= n <= |s| && tr.Valid() && tr.State() == Take(net, n) && |rows| == i
      invariant BatchSoFar(s, k, fetch, [], i, rows, n) && lc.pending == RowsPending(rows)
      decreases |s| - n
    {
      BatchAdvance(s, k, fetch, [], i, rows, n);
      UnreadTake(net, n);
      assert n < |s| ==> s[n..][1..] == s[n + 1..];
      lc.curRow := |rows|;
      var row := ReadFlagged(tr, lc, k);
      match row {
        case NoRow => return Unreadable;
        case AtEnd => return Whole(rows, true);
        case Report(e) => return Failing(e);
        case ARow(vs) =>
          RowsPendingGrows([], rows, vs);
          assert rows[0..] == rows && (rows + [vs])[0..] == rows + [vs];
          n := n + 1 + ParseRow(s[n + 1..], |rows|, 0, k).n;
          rows := rows + [vs];
      }
      i := i + 1;
    }
    BatchFinish(s, k, fetch, [], i, rows, n);
    return Whole(rows, false);
  }

  datatype KeysResult = Result(names: seq<Bytes>, rows: seq<Row>) | TooMany | KeysError(e: Err)

  /** Every failure but a parsed server error and the row-count cap kills the session. */
  method ReadGeneratedKeys(session: Session) returns (r: KeysResult)
    requires session.Valid()
    modifies session, session.tr
    ensures session.Valid() && (old(session.tr) == null ==> r == KeysError(BadConn) && session.tr == null)
    ensures old(session.tr) != null ==>
              match ReadKeys(old(session.tr.State()))
              case KeysDead(why) => r == KeysError(why) && session.tr == null
              case Capped(net) => r == TooMany && session.tr == old(session.tr) && session.tr.State() == net
              case KeysRefused(net, e) =>
                r == KeysError(Reported(e)) && session.tr == old(session.tr) && session.tr.State() == net
              case Keys(net, names, rows) =>
                r == Result(names, rows) && session.tr == old(session.tr) && session.tr.State() == net
  {
    hide TypeInfos.ParseMeta, Int32, Int64, KeyRows;
    if session.tr == null { return KeysError(BadConn); }
    var tr := session.tr;
    ghost var net := tr.State();
    var columns := tr.ReadInt32();
    if columns == None {
      session.MarkStreamBroken();
      return KeysError(Broken);
    }
    UnreadTake(net, 4);
    var count := tr.ReadInt64();
    if count == None {
      session.MarkStreamBroken();
      return KeysError(Broken);
    }
    UnreadTake(net, 12);
    if count.value > MAX_COLLECTION { return TooMany; }
    var meta := ReadResultMeta(tr, columns.value);
    if meta == None {
      session.MarkStreamBroken();
      return KeysError(Broken);
    }
    r := FillKeys(session, meta.value, count.value);
  }

  method FillKeys(session: Session, cs: seq<TypeInfos.Column>, count: int) returns (r: KeysResult)
    requires session.Valid() && session.tr != null
    modifies session, session.tr
    ensures session.Valid()
    ensures match KeyRows(old(session.tr.State()), cs, count)
            case KeysDead(why) => r == KeysError(why) && session.tr == null
            case KeysRefused(net, e) =>
              r == KeysError(Reported(e)) && session.tr == old(session.tr) && session.tr.State() == net
            case Keys(net, names, rows) =>
              r == Result(names, rows) && session.tr == old(session.tr) && session.tr.State() == net
            case Capped(_) => false
  {
    hide ParseBatch, Resolve, RowsPending, Aliases, Flags;
    var tr := session.tr;
    var lc := new LobCollector(false);
    var b := ReadKeyRows(tr, lc, |cs|, count);
    match b {
      case Unreadable =>
        session.MarkStreamBroken();
        return KeysError(Broken);
      case Failing(e) =>
        session.MarkUnlessAligned(Reported(e));
        return KeysError(Reported(e));
      case Whole(rows, _) =>
        assert rows[0..] == rows;
        var filled, now := ResolveLobs(tr, rows, lc.pending);
        if filled.Failure? {
          session.MarkStreamBroken();
          return KeysError(filled.e);
        }
        return Result(Aliases(cs), filled.value);
    }
  }
}
