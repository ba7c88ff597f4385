/**
 * The silent recorder of src/action/recorder.py: every signal becomes one
 * flattened CSV row, appended to a session log that is reset at start-up and
 * to a monthly history log that is only ever extended. Files are modelled as
 * a map from file name to rows (module Csv); the clock reading taken by the
 * constructor and `str(float)` are parameters.
 */
module Recorder {
  import opened Wrappers
  import opened Strings
  import opened DateTimes
  import opened Types
  import opened Csv

  const Headers: Row := ["Time", "Group", "Sender", "Item", "Price", "Raw_Content"]

  const SessionFile: string := "session_latest.csv"

  /** `history_{YYYY-MM}.csv` for the month of `now`. */
  function HistoryFile(now: DateTime): (name: string)
    ensures StartsWith(name, "history_") && name != SessionFile
  {
    var name := "history_" + MonthFormat(now) + ".csv";
    assert name[0] != SessionFile[0];
    name
  }

  /** Free of line breaks and of whitespace at either end. */
  predicate Clean(s: string)
  {
    '\r' !in s && '\n' !in s && (s == [] || (!IsSpace(s[0]) && !IsSpace(s[|s| - 1])))
  }

  /**
   * `_sanitize_text`: `None` gives the empty text; otherwise every CR and every
   * LF becomes " | " and the result is stripped.
   */
  function SanitizeText(text: Option<string>): (r: string)
    ensures text.None? ==> r == ""
    ensures Clean(r)
    ensures text.Some? && Clean(text.value) ==> r == text.value
  {
    match text
    case None => ""
    case Some(s) =>
      var flat := ReplaceChar(ReplaceChar(s, '\r', " | "), '\n', " | ");
      var r := Strip(flat);
      assert '\r' !in flat && '\n' !in flat;
      assert Clean(s) ==> r == s by {
        if Clean(s) { assert flat == s; StripKeeps(s); }
      }
      r
  }

  /** Between two clean pieces, a line feed becomes the " | " separator; nothing else changes. */
  lemma LineFeedBecomesSeparator(a: string, b: string)
    requires a != [] && b != [] && Clean(a) && Clean(b)
    ensures SanitizeText(Some(a + "\n" + b)) == a + " | " + b
  {
    var sep: string := " | ";
    assert '\r' !in a + "\n" + b;
    ReplaceAround(a, "\n", b, '\n', sep);
    ReplaceCharSingle('\n', '\n', sep);
    KeepsCleanEnds(a, sep, b);
  }

  /** Between two clean pieces, a CR LF pair becomes two " | " separators. */
  lemma CrLfBecomesTwoSeparators(a: string, b: string)
    requires a != [] && b != [] && Clean(a) && Clean(b)
    ensures SanitizeText(Some(a + "\r\n" + b)) == a + " |  | " + b
  {
    var sep: string := " | ";
    ReplaceAround(a, "\r\n", b, '\r', sep);
    CrOfCrLf(sep);
    ReplaceAround(a, sep + "\n", b, '\n', sep);
    LfAfterSeparator(sep);
    KeepsCleanEnds(a, " |  | ", b);
  }

  lemma CrOfCrLf(sep: string)
    requires sep == " | "
    ensures ReplaceChar("\r\n", '\r', sep) == sep + "\n"
  {
    assert "\r\n" == "\r" + "\n";
    ReplaceCharAppend("\r", "\n", '\r', sep);
    ReplaceCharSingle('\r', '\r', sep);
    ReplaceCharSingle('\n', '\r', sep);
  }

  lemma LfAfterSeparator(sep: string)
    requires sep == " | "
    ensures ReplaceChar(sep + "\n", '\n', sep) == " |  | "
  {
    ReplaceCharAppend(sep, "\n", '\n', sep);
    ReplaceCharSingle('\n', '\n', sep);
  }

  lemma ReplaceAround(a: string, m: string, b: string, c: char, rep: string)
    requires c !in a && c !in b
    ensures ReplaceChar(a + m + b, c, rep) == a + ReplaceChar(m, c, rep) + b
  {
    ReplaceCharAppend(a + m, b, c, rep);
    ReplaceCharAppend(a, m, c, rep);
  }

  lemma KeepsCleanEnds(a: string, sep: string, b: string)
    requires a != [] && b != [] && Clean(a) && Clean(b)
    ensures Strip(a + sep + b) == a + sep + b
  {
    var s := a + sep + b;
    assert s[0] == a[0] && s[|s| - 1] == b[|b| - 1];
    StripKeeps(s);
  }

  /** Sanitising a sanitised text changes nothing. */
  lemma SanitizeTextIdempotent(text: Option<string>)
    ensures SanitizeText(Some(SanitizeText(text))) == SanitizeText(text)
  {
  }

  /** The Group cell: the sanitised group when it is truthy, "Direct Message" otherwise. */
  function GroupText(group: Option<string>): (r: string)
    ensures Clean(r)
    ensures !Truthy(group) ==> r == "Direct Message"
    ensures Truthy(group) && Clean(group.value) ==> r == group.value
    ensures Truthy(group) ==> r == SanitizeText(group)
  {
    DirectMessageIsClean();
    if Truthy(group) then SanitizeText(group) else "Direct Message"
  }

  /** The Item cell: the sanitised item, or "" when that is empty. */
  function ItemText(item: Option<string>): (r: string)
    ensures Clean(r) && r == SanitizeText(item)
  {
    var sanitized := SanitizeText(item);
    if sanitized != "" then sanitized else ""
  }

  /** `str(price)`, or "" for a missing price. */
  function PriceText(floatRepr: real -> string, price: Option<real>): string
  {
    match price
    case None => ""
    case Some(p) => floatRepr(p)
  }

  /** The row `save` writes to both logs. */
  function RecordRow(floatRepr: real -> string, signal: MarketSignal): (r: Row)
    ensures |r| == |Headers|
  {
    [StampText(signal.timestamp), GroupText(signal.group), SanitizeText(signal.sender),
     ItemText(signal.item), PriceText(floatRepr, signal.price), SanitizeText(signal.rawContent)]
  }

  /** Every text cell of a recorded row (all but Time and Price) is a single clean line. */
  lemma RecordedTextCellsAreClean(floatRepr: real -> string, signal: MarketSignal)
    ensures var r := RecordRow(floatRepr, signal);
            Clean(r[1]) && Clean(r[2]) && Clean(r[3]) && Clean(r[5])
  {
    var group, sender, item, raw := GroupText(signal.group), SanitizeText(signal.sender),
                                    ItemText(signal.item), SanitizeText(signal.rawContent);
    CleanTextCells(RecordRow(floatRepr, signal), StampText(signal.timestamp), group, sender, item,
                   PriceText(floatRepr, signal.price), raw);
  }

  lemma CleanTextCells(r: Row, time: string, group: string, sender: string, item: string, price: string, raw: string)
    requires r == [time, group, sender, item, price, raw]
    requires Clean(group) && Clean(sender) && Clean(item) && Clean(raw)
    ensures Clean(r[1]) && Clean(r[2]) && Clean(r[3]) && Clean(r[5])
  {
  }

  lemma DirectMessageIsClean()
    ensures Clean("Direct Message")
  {
    var dm: string := "Direct Message";
    assert dm[0] == 'D' && dm[|dm| - 1] == 'e';
    assert forall i :: 0 <= i < |dm| ==> dm[i] != '\r' && dm[i] != '\n';
  }

  /** A group of blanks is truthy, so its cell is empty rather than "Direct Message". */
  lemma BlankGroupGivesEmptyCell()
    ensures GroupText(Some(" ")) == ""
  {
    var blank: string := " ";
    assert blank[0] == ' ';
    assert ReplaceChar(blank, '\r', " | ") == blank;
    assert ReplaceChar(blank, '\n', " | ") == blank;
    assert TrimStart(blank) == "";
    assert Strip(blank) == "";
  }

  /** The Item fallback never fires: the cell is always the sanitised item. */
  lemma ItemCellIsSanitisedItem(floatRepr: real -> string, signal: MarketSignal)
    ensures RecordRow(floatRepr, signal)[3] == SanitizeText(signal.item)
  {
  }

  /** The Price cell is empty only for a missing price; a price of 0 is written. */
  lemma PriceCellEmptyOnlyWhenMissing(floatRepr: real -> string, signal: MarketSignal)
    requires forall p :: floatRepr(p) != ""
    ensures RecordRow(floatRepr, signal)[4] == "" <==> signal.price.None?
  {
  }

  /** `DualTableRecorder`: the two logs live in `files`; `logged` is every row saved since start-up. */
  class DualTableRecorder {
    var files: Files
    const historyFile: string
    const floatRepr: real -> string
    ghost var logged: seq<Row>
    ghost const historyBase: seq<Row>

    ghost predicate Valid()
      reads this
    {
      && SessionFile in files && historyFile in files
      && historyFile != SessionFile
      && files[SessionFile] == [Headers] + logged
      && files[historyFile] == historyBase + logged
    }

    /**
     * `__init__`: the session log is truncated to the header; the history log
     * of the current month gets a header only when it does not exist yet.
     */
    constructor (files: Files, now: DateTime, floatRepr: real -> string)
      ensures Valid()
      ensures historyFile == HistoryFile(now) && this.floatRepr == floatRepr
      ensures logged == []
      ensures historyBase == if HistoryFile(now) in files then files[HistoryFile(now)] else [Headers]
      ensures this.files == files[SessionFile := [Headers]][HistoryFile(now) := historyBase]
    {
      var history := HistoryFile(now);
      var session := files[SessionFile := [Headers]];
      var base := if history in files then files[history] else [Headers];
      this.historyFile := history;
      this.floatRepr := floatRepr;
      this.logged := [];
      this.historyBase := base;
      this.files := session[history := base];
    }

    /** `save`: the same row is appended to the session log and to the history log. */
    method Save(signal: MarketSignal)
      requires Valid()
      modifies this
      ensures Valid()
      ensures logged == old(logged) + [RecordRow(floatRepr, signal)]
      ensures files == old(files)[SessionFile := old(files)[SessionFile] + [RecordRow(floatRepr, signal)]]
                                 [historyFile := old(files)[historyFile] + [RecordRow(floatRepr, signal)]]
    {
      var row := RecordRow(floatRepr, signal);
      WriteBoth(row);
    }

    /** The two `writerow(row)` calls. */
    method WriteBoth(row: Row)
      requires Valid()
      modifies this
      ensures Valid()
      ensures logged == old(logged) + [row]
      ensures files == old(files)[SessionFile := old(files)[SessionFile] + [row]]
                                 [historyFile := old(files)[historyFile] + [row]]
    {
      files := files[SessionFile := files[SessionFile] + [row]];
      files := files[historyFile := files[historyFile] + [row]];
      logged := logged + [row];
    }
  }
}
