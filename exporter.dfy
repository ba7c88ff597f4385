/**
 * The daily CSV log of src/action/exporter.py: each signal is appended, as is,
 * to `market_log_{YYYY-MM-DD}.csv`, and the header is written only when that
 * file did not exist before the call. The clock is the `now` parameter of
 * `Save`; `str(float)` is `floatRepr`; which of the two logged exceptions, if
 * any, a call meets is its `fault` parameter.
 */
module Exporter {
  import opened Wrappers
  import opened Strings
  import opened DateTimes
  import opened Types
  import opened Csv
  import Recorder

  const Columns: Row := ["Time", "Group", "Sender", "Item", "Price", "Raw_Content"]

  /** `market_log_{today}.csv`: one file per calendar day. */
  function DailyFilename(now: DateTime): (name: string)
    ensures |name| == 25
    ensures name[..11] == "market_log_" && name[11..21] == DateFormat(now) && name[21..] == ".csv"
  {
    "market_log_" + DateFormat(now) + ".csv"
  }

  /** Two clock readings share a log file exactly when they fall on the same day. */
  lemma DailyFilenameSameDay(a: DateTime, b: DateTime)
    ensures DailyFilename(a) == DailyFilename(b) <==> DateFormat(a) == DateFormat(b)
  {
    if DailyFilename(a) == DailyFilename(b) {
      assert DateFormat(a) == DailyFilename(a)[11..21];
    }
  }

  /** `csv.DictWriter` writes `None` as the empty cell. */
  function Cell(s: Option<string>): string
  {
    match s case None => "" case Some(v) => v
  }

  /** The dict `save` hands to the writer, in column order; no field is sanitised. */
  function ExportRow(floatRepr: real -> string, signal: MarketSignal): (r: Row)
    ensures |r| == |Columns|
  {
    [StampText(signal.timestamp),
     if Truthy(signal.group) then signal.group.value else "Direct Message",
     Cell(signal.sender),
     if Truthy(signal.item) then signal.item.value else "",
     match signal.price case None => "" case Some(p) => floatRepr(p),
     Cell(signal.rawContent)]
  }

  /** The defaults: Group for a missing or empty group, Item for a missing one, Price only for a missing price. */
  lemma ExportDefaults(floatRepr: real -> string, signal: MarketSignal)
    requires forall p :: floatRepr(p) != ""
    ensures ExportRow(floatRepr, signal)[1] == "Direct Message" <==>
            !Truthy(signal.group) || signal.group.value == "Direct Message"
    ensures ExportRow(floatRepr, signal)[3] == "" <==> !Truthy(signal.item)
    ensures ExportRow(floatRepr, signal)[4] == "" <==> signal.price.None?
    ensures signal.rawContent.Some? ==> ExportRow(floatRepr, signal)[5] == signal.rawContent.value
  {
  }

  /**
   * On clean fields (no line breaks, no surrounding whitespace) the daily log
   * and the recorder write the same row; they differ only in what the recorder
   * sanitises.
   */
  lemma AgreesWithRecorderOnCleanFields(floatRepr: real -> string, signal: MarketSignal)
    requires signal.group.Some? ==> Recorder.Clean(signal.group.value)
    requires signal.sender.Some? ==> Recorder.Clean(signal.sender.value)
    requires signal.item.Some? ==> Recorder.Clean(signal.item.value)
    requires signal.rawContent.Some? ==> Recorder.Clean(signal.rawContent.value)
    ensures ExportRow(floatRepr, signal) == Recorder.RecordRow(floatRepr, signal)
  {
  }

  /** A raw content with a line break reaches the daily log unchanged but never the recorder's logs. */
  lemma LineBreakOnlyInDailyLog(floatRepr: real -> string, signal: MarketSignal)
    requires signal.rawContent.Some? && '\n' in signal.rawContent.value
    ensures '\n' in ExportRow(floatRepr, signal)[5]
    ensures '\n' !in Recorder.RecordRow(floatRepr, signal)[5]
  {
  }

  /** The directory after one `save` at `now`. */
  function Saved(files: Files, floatRepr: real -> string, signal: MarketSignal, now: DateTime): Files
  {
    var name := DailyFilename(now);
    files[name := (if name in files then files[name] else [Columns]) + [ExportRow(floatRepr, signal)]]
  }

  /**
   * The exceptions `save` catches and logs: `PermissionError` when the file
   * cannot be opened (nothing is written), or an exception once the file is
   * open, while the row is formed or written (the header, if due, is already
   * written).
   */
  datatype SaveFault = NoFault | OpenFails | RowFails

  /** The directory after one `save` at `now` that meets `fault`. */
  function Attempted(files: Files, floatRepr: real -> string, signal: MarketSignal, now: DateTime,
                     fault: SaveFault): Files
  {
    var name := DailyFilename(now);
    match fault
    case NoFault => Saved(files, floatRepr, signal, now)
    case OpenFails => files
    case RowFails => if name in files then files else files[name := [Columns]]
  }

  /**
   * A failed save adds no row: every existing file keeps its content, and the
   * only possible new file is the day's, holding just the header.
   */
  lemma FailedSaveAddsNoRow(files: Files, floatRepr: real -> string, signal: MarketSignal, now: DateTime,
                            fault: SaveFault)
    requires fault != NoFault
    ensures forall n :: n in files ==> n in Attempted(files, floatRepr, signal, now, fault)
                                       && Attempted(files, floatRepr, signal, now, fault)[n] == files[n]
    ensures forall n :: n in Attempted(files, floatRepr, signal, now, fault) && n !in files ==>
              n == DailyFilename(now) && fault == RowFails
              && Attempted(files, floatRepr, signal, now, fault)[n] == [Columns]
  {
  }

  /**
   * The header left by a save that failed after opening is the one the next
   * same-day save would have written: that save gives the same directory as
   * if the failed one had not happened.
   */
  lemma HeaderAfterFailureIsReused(files: Files, floatRepr: real -> string, failed: MarketSignal,
                                   signal: MarketSignal, now: DateTime, later: DateTime)
    requires DailyFilename(later) == DailyFilename(now)
    ensures Saved(Attempted(files, floatRepr, failed, now, RowFails), floatRepr, signal, later)
            == Saved(files, floatRepr, signal, later)
  {
  }

  /** The directory after `save` for each `(signal, now)` in turn. */
  function SavedAll(files: Files, floatRepr: real -> string, batch: seq<(MarketSignal, DateTime)>): Files
    decreases |batch|
  {
    if batch == [] then files
    else
      var last := batch[|batch| - 1];
      Saved(SavedAll(files, floatRepr, batch[..|batch| - 1]), floatRepr, last.0, last.1)
  }

  /** The rows of `batch` in order. */
  function ExportRows(floatRepr: real -> string, batch: seq<(MarketSignal, DateTime)>): (rows: seq<Row>)
    ensures |rows| == |batch|
    ensures forall k :: 0 <= k < |batch| ==> rows[k] == ExportRow(floatRepr, batch[k].0)
  {
    seq(|batch|, k requires 0 <= k < |batch| => ExportRow(floatRepr, batch[k].0))
  }

  /**
   * Any number of saves on one day: that day's file is its earlier content (or
   * a single header if it did not exist) followed by one row per save, in
   * order; every other file is untouched.
   */
  lemma {:induction false} SameDaySaves(files: Files, floatRepr: real -> string,
                                        batch: seq<(MarketSignal, DateTime)>, name: string)
    requires forall k :: 0 <= k < |batch| ==> DailyFilename(batch[k].1) == name
    ensures name in SavedAll(files, floatRepr, batch) <==> name in files || batch != []
    ensures batch != [] ==>
              SavedAll(files, floatRepr, batch)[name] ==
              (if name in files then files[name] else [Columns]) + ExportRows(floatRepr, batch)
    ensures forall n :: n != name ==>
              (n in SavedAll(files, floatRepr, batch) <==> n in files)
              && (n in files ==> SavedAll(files, floatRepr, batch)[n] == files[n])
    decreases |batch|
  {
    if batch != [] {
      var init := batch[..|batch| - 1];
      var last := batch[|batch| - 1];
      SameDaySaves(files, floatRepr, init, name);
      var before := SavedAll(files, floatRepr, init);
      var base := if name in files then files[name] else [Columns];
      var row := ExportRow(floatRepr, last.0);
      assert SavedAll(files, floatRepr, batch) == Saved(before, floatRepr, last.0, last.1);
      ExportRowsSnoc(floatRepr, batch);
      if init == [] {
        assert before == files;
        assert ExportRows(floatRepr, batch) == [row];
      } else {
        assert before[name] == base + ExportRows(floatRepr, init);
        SnocAssoc(base, ExportRows(floatRepr, init), row);
      }
    }
  }

  lemma ExportRowsSnoc(floatRepr: real -> string, batch: seq<(MarketSignal, DateTime)>)
    requires batch != []
    ensures ExportRows(floatRepr, batch)
            == ExportRows(floatRepr, batch[..|batch| - 1]) + [ExportRow(floatRepr, batch[|batch| - 1].0)]
  {
  }

  lemma SnocAssoc<T>(a: seq<T>, b: seq<T>, x: T)
    ensures a + b + [x] == a + (b + [x])
  {
  }

  /** Starting from a day without a file, the header is written exactly once, at the top. */
  lemma HeaderOnce(files: Files, floatRepr: real -> string, batch: seq<(MarketSignal, DateTime)>, name: string)
    requires name !in files && batch != []
    requires forall k :: 0 <= k < |batch| ==> DailyFilename(batch[k].1) == name
    ensures SavedAll(files, floatRepr, batch)[name] == [Columns] + ExportRows(floatRepr, batch)
  {
    SameDaySaves(files, floatRepr, batch, name);
  }

  /** `CsvExporter`: the data directory is `files`. */
  class CsvExporter {
    var files: Files
    const floatRepr: real -> string

    constructor (files: Files, floatRepr: real -> string)
      ensures this.files == files && this.floatRepr == floatRepr
    {
      this.files := files;
      this.floatRepr := floatRepr;
    }

    /**
     * `save`: the header goes first only when the day's file did not exist
     * before this call; `fault` says where, if anywhere, the call fails.
     */
    method Save(signal: MarketSignal, now: DateTime, fault: SaveFault)
      modifies this
      ensures files == Attempted(old(files), floatRepr, signal, now, fault)
    {
      var filename := DailyFilename(now);
      var fileExists := filename in files;
      if fault == OpenFails {
        return;
      }
      var content: seq<Row> := if fileExists then files[filename] else [];
      if !fileExists {
        content := content + [Columns];
        assert content == [Columns];
        files := files[filename := content];
      }
      if fault == RowFails {
        return;
      }
      content := content + [ExportRow(floatRepr, signal)];
      files := files[filename := content];
    }
  }
}
