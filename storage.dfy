/**
 * The SQLite store (src/action/storage.py): the tables `raw_messages` and
 * `trade_signals` as maps keyed by their primary key, with SQLite's
 * `INSERT OR IGNORE`, transaction and foreign-key rules written out.
 * The clock is a parameter, SHA-256 and float `repr` are uninterpreted, and
 * `fault` stands for any other `sqlite3.Error` (disk, lock), on which the
 * transaction rolls back.
 */
module Storage {
  import opened Wrappers
  import opened Strings
  import opened DateTimes
  import opened Types

  /** A row of `raw_messages` without its key; `timestamp` and `ingestedAt` are `YYYY-MM-DD HH:MM:SS` text. */
  datatype RawRow = RawRow(content: string, sender: string, room: Option<string>,
                           timestamp: string, ingestedAt: string, isTrade: int)

  /** A row of `trade_signals` without its key. */
  datatype SignalRow = SignalRow(rawMsgId: string, intent: string, item: string, price: Option<real>,
                                 specs: Option<string>, confidence: Option<real>, groupName: Option<string>,
                                 sender: string, timestamp: string, rawContent: string, createdAt: string)

  /** The parameter tuple `save_signals` binds for one signal; `sender` and `rawContent` may still be `NULL`. */
  datatype SignalParams = SignalParams(id: string, rawMsgId: string, intent: string, item: string,
                                       price: Option<real>, specs: Option<string>, confidence: Option<real>,
                                       group: Option<string>, sender: Option<string>, timestamp: string,
                                       rawContent: Option<string>, createdAt: string)

  type RawTable = map<string, RawRow>
  type SignalTable = map<string, SignalRow>

  /** The foreign key `trade_signals.raw_msg_id` references `raw_messages.id`. */
  predicate Referential(raw: RawTable, signals: SignalTable)
  {
    forall id :: id in signals ==> signals[id].rawMsgId in raw
  }

  /** `f"{x}"` of an optional string. */
  function PyStr(x: Option<string>): string
  {
    match x
    case None => "None"
    case Some(v) => v
  }

  /** `f"{price}"`: `repr` of the float, or "None". */
  function PriceText(floatRepr: real -> string, price: Option<real>): string
  {
    match price
    case None => "None"
    case Some(p) => floatRepr(p)
  }

  /** The text `_signal_id` digests: the five identity fields joined by "|". */
  function SignalPayload(floatRepr: real -> string, s: MarketSignal): string
  {
    s.rawMsgId + "|" + s.intent + "|" + PyStr(s.item) + "|" + PriceText(floatRepr, s.price) + "|" + PyStr(s.specs)
  }

  function SignalId(digest: string -> string, floatRepr: real -> string, s: MarketSignal): string
  {
    digest(SignalPayload(floatRepr, s))
  }

  /** The id depends on the five identity fields only: confidence, group, sender, time and content do not count. */
  lemma SignalIdIgnoresOtherFields(digest: string -> string, floatRepr: real -> string, a: MarketSignal, b: MarketSignal)
    requires a.rawMsgId == b.rawMsgId && a.intent == b.intent && a.item == b.item
    requires a.price == b.price && a.specs == b.specs
    ensures SignalId(digest, floatRepr, a) == SignalId(digest, floatRepr, b)
  {
  }

  /**
   * An absent item and an empty item are stored alike (""), but the id is
   * computed from the unconverted item, so their payloads differ.
   */
  lemma NoneAndEmptyItemDiffer(floatRepr: real -> string, s: MarketSignal, createdAt: string,
                               digest: string -> string)
    requires s.item.None?
    ensures SignalPayload(floatRepr, s) != SignalPayload(floatRepr, s.(item := Some("")))
    ensures ParamsOf(digest, floatRepr, s, createdAt).item == ParamsOf(digest, floatRepr, s.(item := Some("")), createdAt).item
  {
    var t := s.(item := Some(""));
    assert |SignalPayload(floatRepr, s)| == |SignalPayload(floatRepr, t)| + 4;
  }

  /**
   * The item text "None" and an absent item give the same payload, hence the
   * same id, although they are stored as "None" and "".
   */
  lemma NoneItemTextCollides(digest: string -> string, floatRepr: real -> string, s: MarketSignal, createdAt: string)
    requires s.item.None?
    ensures SignalId(digest, floatRepr, s) == SignalId(digest, floatRepr, s.(item := Some("None")))
    ensures ParamsOf(digest, floatRepr, s, createdAt).item != ParamsOf(digest, floatRepr, s.(item := Some("None")), createdAt).item
  {
  }

  /** The row `save_raw_message` inserts. */
  function RawRowOf(m: RawMessage, isTrade: bool, ingestedAt: DateTime): (r: RawRow)
    ensures r.isTrade == 1 <==> isTrade
    ensures r.isTrade == 0 <==> !isTrade
    ensures r.content == m.content && r.sender == m.sender && r.room == m.room
    ensures |r.timestamp| == 19 && |r.ingestedAt| == 19
    ensures r.timestamp == SqlFormat(m.timestamp) && r.ingestedAt == SqlFormat(ingestedAt)
  {
    RawRow(m.content, m.sender, m.room, SqlFormat(m.timestamp), SqlFormat(ingestedAt), if isTrade then 1 else 0)
  }

  /** The parameter tuple built for one signal. */
  function ParamsOf(digest: string -> string, floatRepr: real -> string, s: MarketSignal, createdAt: string)
    : (p: SignalParams)
    ensures p.id == SignalId(digest, floatRepr, s) && p.rawMsgId == s.rawMsgId
    ensures p.item == (if Truthy(s.item) then s.item.value else "")
    ensures p.timestamp == StampText(s.timestamp) && p.createdAt == createdAt
  {
    SignalParams(SignalId(digest, floatRepr, s), s.rawMsgId, s.intent, s.item.GetOr(""), s.price, s.specs,
                 s.confidence, s.group, s.sender, StampText(s.timestamp), s.rawContent, createdAt)
  }

  predicate NotNull(p: SignalParams)
  {
    p.sender.Some? && p.rawContent.Some?
  }

  function RowOf(p: SignalParams): SignalRow
    requires NotNull(p)
  {
    SignalRow(p.rawMsgId, p.intent, p.item, p.price, p.specs, p.confidence, p.group,
              p.sender.value, p.timestamp, p.rawContent.value, p.createdAt)
  }

  /**
   * One `INSERT OR IGNORE` into `trade_signals`: a `NULL` in a `NOT NULL`
   * column or an existing id ignores the row; a `raw_msg_id` with no raw row
   * is a foreign-key error (`None`).
   */
  function InsertOne(raw: RawTable, table: SignalTable, p: SignalParams): Option<SignalTable>
  {
    if !NotNull(p) || p.id in table then Some(table)
    else if p.rawMsgId !in raw then None
    else Some(table[p.id := RowOf(p)])
  }

  /** `executemany` of the batch: the rows in order, stopping at the first error. */
  function InsertAll(raw: RawTable, table: SignalTable, rows: seq<SignalParams>): (r: Option<SignalTable>)
    ensures (forall k :: 0 <= k < |rows| ==> rows[k].rawMsgId in raw) ==> r.Some?
    ensures r.Some? ==> forall id :: id in table ==> id in r.value && r.value[id] == table[id]
    ensures r.Some? && Referential(raw, table) ==> Referential(raw, r.value)
    decreases |rows|
  {
    if rows == [] then Some(table)
    else
      var init := rows[..|rows| - 1];
      var p := rows[|rows| - 1];
      assert forall k :: 0 <= k < |init| ==> init[k] == rows[k];
      match InsertAll(raw, table, init)
      case None => None
      case Some(t) => InsertOne(raw, t, p)
  }

  /**
   * What a successful batch adds: each new row is the row of some non-NULL
   * parameter tuple of the batch, and every non-NULL tuple's id is stored.
   */
  lemma {:induction false} InsertAllNewRows(raw: RawTable, table: SignalTable, rows: seq<SignalParams>)
    requires InsertAll(raw, table, rows).Some?
    ensures var t := InsertAll(raw, table, rows).value;
            forall id :: id in t && id !in table ==>
              exists k :: 0 <= k < |rows| && rows[k].id == id && NotNull(rows[k]) && t[id] == RowOf(rows[k])
    decreases |rows|
  {
    if rows != [] {
      var init := rows[..|rows| - 1];
      var p := rows[|rows| - 1];
      assert forall k :: 0 <= k < |init| ==> init[k] == rows[k];
      InsertAllNewRows(raw, table, init);
      var before := InsertAll(raw, table, init).value;
      var t := InsertAll(raw, table, rows).value;
      assert t == InsertOne(raw, before, p).value;
      forall id | id in t && id !in table
        ensures exists k :: 0 <= k < |rows| && rows[k].id == id && NotNull(rows[k]) && t[id] == RowOf(rows[k])
      {
        if id in before {
          var k :| 0 <= k < |init| && init[k].id == id && NotNull(init[k]) && before[id] == RowOf(init[k]);
          assert rows[k] == init[k];
        } else {
          assert rows[|rows| - 1].id == id;
        }
      }
    }
  }

  /** After a successful batch every non-NULL tuple's id is stored. */
  lemma {:induction false} InsertAllStoresEach(raw: RawTable, table: SignalTable, rows: seq<SignalParams>)
    requires InsertAll(raw, table, rows).Some?
    ensures forall k :: 0 <= k < |rows| && NotNull(rows[k]) ==> rows[k].id in InsertAll(raw, table, rows).value
    decreases |rows|
  {
    if rows != [] {
      var init := rows[..|rows| - 1];
      assert forall k :: 0 <= k < |init| ==> init[k] == rows[k];
      InsertAllStoresEach(raw, table, init);
    }
  }

  /** Rows whose ids are all present already (or that are ignored) change nothing. */
  lemma {:induction false} InsertPresentIsNoOp(raw: RawTable, table: SignalTable, rows: seq<SignalParams>)
    requires forall k :: 0 <= k < |rows| && NotNull(rows[k]) ==> rows[k].id in table
    ensures InsertAll(raw, table, rows) == Some(table)
    decreases |rows|
  {
    if rows != [] {
      var init := rows[..|rows| - 1];
      assert forall k :: 0 <= k < |init| ==> init[k] == rows[k];
      InsertPresentIsNoOp(raw, table, init);
    }
  }

  /** Saving a batch a second time changes nothing: a stored row is never inserted twice or overwritten. */
  lemma InsertAllIdempotent(raw: RawTable, table: SignalTable, rows: seq<SignalParams>)
    requires InsertAll(raw, table, rows).Some?
    ensures InsertAll(raw, InsertAll(raw, table, rows).value, rows) == InsertAll(raw, table, rows)
  {
    InsertAllStoresEach(raw, table, rows);
    InsertPresentIsNoOp(raw, InsertAll(raw, table, rows).value, rows);
  }

  /** A batch holding the same signal twice stores what the signal alone stores. */
  lemma RepeatedRowStoredOnce(raw: RawTable, table: SignalTable, p: SignalParams)
    ensures InsertAll(raw, table, [p, p]) == InsertAll(raw, table, [p])
  {
    assert [p, p][..1] == [p];
    assert [p][..0] == [];
  }

  /** A row that would violate the foreign key fails the whole batch. */
  lemma UnknownRawIdFailsBatch(raw: RawTable, table: SignalTable, rows: seq<SignalParams>, k: nat)
    requires k < |rows| && NotNull(rows[k]) && rows[k].rawMsgId !in raw
    requires forall j :: 0 <= j < |rows| ==> rows[j].id !in table && (j != k ==> rows[j].id != rows[k].id)
    ensures InsertAll(raw, table, rows).None?
  {
    var r := InsertAll(raw, table, rows);
    if r.Some? {
      InsertAllNewRows(raw, table, rows);
      InsertAllStoresEach(raw, table, rows);
      assert rows[k].id in r.value;
      var id := rows[k].id;
      var j :| 0 <= j < |rows| && rows[j].id == id && NotNull(rows[j]) && r.value[id] == RowOf(rows[j]);
      assert j == k;
      InsertSomeRowsHaveRaw(raw, table, rows);
      assert false;
    }
  }

  /** Every row a successful batch adds references a raw row. */
  lemma {:induction false} InsertSomeRowsHaveRaw(raw: RawTable, table: SignalTable, rows: seq<SignalParams>)
    requires InsertAll(raw, table, rows).Some?
    ensures forall id :: id in InsertAll(raw, table, rows).value && id !in table ==>
              InsertAll(raw, table, rows).value[id].rawMsgId in raw
    decreases |rows|
  {
    if rows != [] {
      var init := rows[..|rows| - 1];
      assert forall k :: 0 <= k < |init| ==> init[k] == rows[k];
      InsertSomeRowsHaveRaw(raw, table, init);
    }
  }

  /** The parameter tuples of a whole batch. */
  function ParamsAll(digest: string -> string, floatRepr: real -> string, batch: seq<MarketSignal>, createdAt: string)
    : (rows: seq<SignalParams>)
    ensures |rows| == |batch|
  {
    seq(|batch|, k requires 0 <= k < |batch| => ParamsOf(digest, floatRepr, batch[k], createdAt))
  }

  /** A raw row is expired when its `ingested_at` text sorts before the cutoff `datetime('now', '-N days')`. */
  predicate Expired(row: RawRow, cutoff: string)
  {
    LexLess(row.ingestedAt, cutoff)
  }

  /**
   * `DELETE FROM raw_messages WHERE ingested_at < cutoff` with foreign keys
   * on: fails (`None`) when a signal references an expired row, otherwise
   * removes exactly the expired rows.
   */
  function Sweep(raw: RawTable, signals: SignalTable, cutoff: string): (r: Option<RawTable>)
    ensures r.None? <==> exists sid :: sid in signals && signals[sid].rawMsgId in raw
                                       && Expired(raw[signals[sid].rawMsgId], cutoff)
    ensures r.Some? ==> forall id :: id in r.value <==> id in raw && !Expired(raw[id], cutoff)
    ensures r.Some? ==> forall id :: id in r.value ==> r.value[id] == raw[id]
    ensures r.Some? && Referential(raw, signals) ==> Referential(r.value, signals)
  {
    if exists sid :: sid in signals && signals[sid].rawMsgId in raw && Expired(raw[signals[sid].rawMsgId], cutoff)
    then None
    else Some(map id | id in raw && !Expired(raw[id], cutoff) :: raw[id])
  }

  /** `SqliteStore` */
  class SqliteStore {
    var raw: RawTable
    var signals: SignalTable
    /** `raw_retention_days`: `CleanupRawMessages` is given the clock reading less this many days as its cutoff. */
    const rawRetentionDays: int
    /** SHA-256 hex digest. */
    const digest: string -> string
    /** Python's `str` of a float. */
    const floatRepr: real -> string

    ghost predicate Valid()
      reads this
    {
      Referential(raw, signals)
    }

    /** Opening the database: the schema is created if absent, existing contents are kept. */
    constructor (raw: RawTable, signals: SignalTable, rawRetentionDays: int,
                 digest: string -> string, floatRepr: real -> string)
      requires Referential(raw, signals)
      ensures Valid()
      ensures this.raw == raw && this.signals == signals && this.rawRetentionDays == rawRetentionDays
      ensures this.digest == digest && this.floatRepr == floatRepr
    {
      this.raw := raw;
      this.signals := signals;
      this.rawRetentionDays := rawRetentionDays;
      this.digest := digest;
      this.floatRepr := floatRepr;
    }

    /** `save_raw_message`: inserts only when the id is absent; an existing row is never modified. */
    method SaveRawMessage(message: RawMessage, isTrade: bool, now: DateTime, fault: bool)
      requires Valid()
      modifies this
      ensures Valid()
      ensures signals == old(signals)
      ensures fault || message.id in old(raw) ==> raw == old(raw)
      ensures !fault && message.id !in old(raw) ==> raw == old(raw)[message.id := RawRowOf(message, isTrade, now)]
    {
      var timestamp := SqlFormat(message.timestamp);
      var ingestedAt := SqlFormat(now);
      if fault {
        return;
      }
      if message.id !in raw {
        raw := raw[message.id := RawRow(message.content, message.sender, message.room, timestamp, ingestedAt,
                                        if isTrade then 1 else 0)];
      }
    }

    /**
     * `save_signals`: builds the parameter tuples, returns at once for an
     * empty batch, and otherwise runs the batch as one transaction: on a
     * foreign-key error or any other error nothing of the batch is kept.
     */
    method SaveSignals(batch: seq<MarketSignal>, now: DateTime, fault: bool)
      requires Valid()
      modifies this
      ensures Valid()
      ensures raw == old(raw)
      ensures var r := InsertAll(old(raw), old(signals), ParamsAll(digest, floatRepr, batch, SqlFormat(now)));
              signals == if batch == [] || fault || r.None? then old(signals) else r.value
    {
      var createdAt := SqlFormat(now);
      var rows: seq<SignalParams> := [];
      for i := 0 to |batch|
        invariant |rows| == i
        invariant forall k :: 0 <= k < i ==> rows[k] == ParamsOf(digest, floatRepr, batch[k], createdAt)
      {
        var signal := batch[i];
        var signalId := SignalId(digest, floatRepr, signal);
        var timestamp := StampText(signal.timestamp);
        rows := rows + [SignalParams(signalId, signal.rawMsgId, signal.intent, signal.item.GetOr(""), signal.price,
                                     signal.specs, signal.confidence, signal.group, signal.sender, timestamp,
                                     signal.rawContent, createdAt)];
      }
      assert rows == ParamsAll(digest, floatRepr, batch, createdAt);
      if rows == [] {
        return;
      }
      if fault {
        return;
      }
      var result := InsertAll(raw, signals, rows);
      if result.Some? {
        signals := result.value;
      }
    }

    /**
     * `cleanup_raw_messages` with `cutoff` the text of
     * `datetime('now', '-{raw_retention_days} days')`: only raw rows are
     * deleted, and not at all when one of them is still referenced.
     */
    method CleanupRawMessages(cutoff: string, fault: bool)
      requires Valid()
      modifies this
      ensures Valid()
      ensures signals == old(signals)
      ensures raw == if fault || Sweep(old(raw), old(signals), cutoff).None? then old(raw)
                     else Sweep(old(raw), old(signals), cutoff).value
    {
      if fault {
        return;
      }
      var swept := Sweep(raw, signals, cutoff);
      if swept.Some? {
        raw := swept.value;
      }
    }
  }
}
