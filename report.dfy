/**
 * CSV reports over the signal table (src/action/report.py): the goods filter
 * and the ordering of `_fetch_signals`, bucketing by group, report filenames
 * and `_sanitize`. The table is the sequence of its rows; the query's
 * `WHERE` and `ORDER BY` are written out on that sequence. Today's date is a
 * parameter, `\w` is the uninterpreted `isWord`, float `str` is `floatRepr`.
 */
module Report {
  import opened Wrappers
  import opened Strings
  import opened DateTimes
  import opened Types
  import opened Csv
  import Storage

  /** The five columns the report query selects. */
  datatype ReportRow = ReportRow(timestamp: string, group: Option<string>, sender: string, item: string,
                                 price: Option<real>)

  function Select(table: seq<Storage.SignalRow>): (rows: seq<ReportRow>)
    ensures |rows| == |table|
  {
    seq(|table|, k requires 0 <= k < |table| =>
      ReportRow(table[k].timestamp, table[k].groupName, table[k].sender, table[k].item, table[k].price))
  }

  /** `LOWER(item) LIKE '%w%'` for some lower-cased whitelist entry `w`; no entries, no filter. */
  predicate Keep(needles: seq<string>, row: ReportRow)
  {
    needles == [] || exists n :: n in needles && Contains(Lower(row.item), n)
  }

  /** The `WHERE` clause: the rows kept, in table order. */
  function Where(rows: seq<ReportRow>, needles: seq<string>): (r: seq<ReportRow>)
    ensures forall x :: x in r <==> x in rows && Keep(needles, x)
    ensures forall x :: multiset(r)[x] == if Keep(needles, x) then multiset(rows)[x] else 0
    ensures |r| <= |rows|
    decreases |rows|
  {
    if rows == [] then []
    else
      var init := Where(rows[..|rows| - 1], needles);
      var last := rows[|rows| - 1];
      assert rows == rows[..|rows| - 1] + [last];
      assert multiset(rows) == multiset(rows[..|rows| - 1]) + multiset{last};
      if Keep(needles, last) then init + [last] else init
  }

  /** The lower-cased entries the query's parameters carry. */
  function Needles(whitelist: seq<string>): (needles: seq<string>)
    ensures |needles| == |whitelist|
  {
    seq(|whitelist|, k requires 0 <= k < |whitelist| => Lower(whitelist[k]))
  }

  /** The goods filter: an empty whitelist keeps every row; otherwise some entry must occur in the item, ignoring case. */
  lemma KeepSpec(whitelist: seq<string>, row: ReportRow)
    ensures whitelist == [] ==> Keep(Needles(whitelist), row)
    ensures whitelist != [] ==>
              (Keep(Needles(whitelist), row) <==> exists w :: w in whitelist && Contains(Lower(row.item), Lower(w)))
  {
    if whitelist != [] && Keep(Needles(whitelist), row) {
      var n :| n in Needles(whitelist) && Contains(Lower(row.item), n);
      var k :| 0 <= k < |whitelist| && Needles(whitelist)[k] == n;
      assert whitelist[k] in whitelist;
    }
    if whitelist != [] {
      forall w | w in whitelist && Contains(Lower(row.item), Lower(w)) ensures Keep(Needles(whitelist), row) {
        var k :| 0 <= k < |whitelist| && whitelist[k] == w;
        assert Needles(whitelist)[k] in Needles(whitelist);
      }
    }
  }

  /** `price` strictly above in `ORDER BY price DESC`: `NULL` sorts below every number. */
  predicate PriceAbove(p: Option<real>, q: Option<real>)
  {
    p.Some? && (q.None? || p.value > q.value)
  }

  /** `a` may precede `b` under `ORDER BY price DESC, timestamp DESC`. */
  predicate Before(a: ReportRow, b: ReportRow)
  {
    PriceAbove(a.price, b.price) || (a.price == b.price && !LexLess(a.timestamp, b.timestamp))
  }

  lemma LexNotLessTransitive(a: string, b: string, c: string)
    requires !LexLess(a, b) && !LexLess(b, c)
    ensures !LexLess(a, c)
  {
    if LexLess(a, c) {
      if b != c {
        LexLessTotal(b, c);
        if a == b {
          assert false;
        } else {
          LexLessTotal(a, b);
          LexLessTransitive(a, c, b);
          assert false;
        }
      }
    }
  }

  lemma BeforeTotal(a: ReportRow, b: ReportRow)
    ensures Before(a, b) || Before(b, a)
  {
    if a.price == b.price && LexLess(a.timestamp, b.timestamp) && LexLess(b.timestamp, a.timestamp) {
      LexLessTransitive(a.timestamp, b.timestamp, a.timestamp);
      LexLessIrreflexive(a.timestamp);
    }
  }

  lemma BeforeTransitive(a: ReportRow, b: ReportRow, c: ReportRow)
    requires Before(a, b) && Before(b, c)
    ensures Before(a, c)
  {
    if a.price == b.price && b.price == c.price {
      LexNotLessTransitive(a.timestamp, b.timestamp, c.timestamp);
    }
  }

  predicate Ordered(rows: seq<ReportRow>)
  {
    forall i, j :: 0 <= i < j < |rows| ==> Before(rows[i], rows[j])
  }

  /** Puts `x` before the first row it may precede. */
  function Insert(x: ReportRow, rows: seq<ReportRow>): (r: seq<ReportRow>)
    ensures multiset(r) == multiset(rows) + multiset{x}
    ensures |r| == |rows| + 1
    decreases |rows|
  {
    if rows == [] then [x]
    else if Before(x, rows[0]) then [x] + rows
    else
      assert rows == [rows[0]] + rows[1..];
      [rows[0]] + Insert(x, rows[1..])
  }

  lemma {:induction false} InsertOrdered(x: ReportRow, rows: seq<ReportRow>)
    requires Ordered(rows)
    ensures Ordered(Insert(x, rows))
    decreases |rows|
  {
    if rows == [] {
    } else if Before(x, rows[0]) {
      forall y | y in rows ensures Before(x, y) {
        var k :| 0 <= k < |rows| && rows[k] == y;
        if k > 0 {
          BeforeTransitive(x, rows[0], y);
        }
      }
      ConsOrdered(x, rows);
    } else {
      BeforeTotal(x, rows[0]);
      var tail := rows[1..];
      OrderedTail(rows);
      InsertOrdered(x, tail);
      var t := Insert(x, tail);
      forall y | y in t ensures Before(rows[0], y) {
        assert y in multiset(t);
        if y != x {
          assert y in multiset(tail);
          var k :| 0 <= k < |tail| && tail[k] == y;
          assert rows[k + 1] == y;
        }
      }
      ConsOrdered(rows[0], t);
    }
  }

  lemma OrderedTail(rows: seq<ReportRow>)
    requires rows != [] && Ordered(rows)
    ensures Ordered(rows[1..])
  {
    var tail := rows[1..];
    forall i, j | 0 <= i < j < |tail| ensures Before(tail[i], tail[j]) {
      assert tail[i] == rows[i + 1] && tail[j] == rows[j + 1];
    }
  }

  lemma ConsOrdered(h: ReportRow, t: seq<ReportRow>)
    requires Ordered(t) && forall y :: y in t ==> Before(h, y)
    ensures Ordered([h] + t)
  {
    var r := [h] + t;
    forall i, j | 0 <= i < j < |r| ensures Before(r[i], r[j]) {
      if i == 0 {
        assert r[j] == t[j - 1];
      } else {
        assert r[i] == t[i - 1] && r[j] == t[j - 1];
      }
    }
  }

  /**
   * The rows in report order (insertion sort). Each row goes in front of the
   * first one it may precede, so rows equal on both keys come out in reverse
   * table order.
   */
  function Sort(rows: seq<ReportRow>): (r: seq<ReportRow>)
    ensures multiset(r) == multiset(rows)
    decreases |rows|
  {
    if rows == [] then []
    else
      var init, x := rows[..|rows| - 1], rows[|rows| - 1];
      assert multiset(rows) == multiset(init) + multiset{x} by { assert rows == init + [x]; }
      Insert(x, Sort(init))
  }

  lemma {:induction false} SortOrdered(rows: seq<ReportRow>)
    ensures Ordered(Sort(rows))
    decreases |rows|
  {
    if rows != [] {
      var init, x := rows[..|rows| - 1], rows[|rows| - 1];
      SortOrdered(init);
      InsertOrdered(x, Sort(init));
    }
  }

  /** Two rows equal on both keys come out in reverse table order. */
  lemma TiesComeOutReversed(a: ReportRow, b: ReportRow)
    requires a.price == b.price && a.timestamp == b.timestamp
    ensures Sort([a, b]) == [b, a]
  {
    LexLessIrreflexive(a.timestamp);
    assert [a, b][..1] == [a] && [a][..0] == [];
  }

  /** What `_fetch_signals` returns: the kept rows in report order, or nothing on a database error. */
  function Fetched(table: seq<Storage.SignalRow>, whitelist: seq<string>, fault: bool): seq<ReportRow>
  {
    if fault then [] else Sort(Where(Select(table), Needles(whitelist)))
  }

  /**
   * The fetched rows are ordered by price descending, then time descending,
   * and are exactly the table's kept rows, each as often as in the table.
   */
  lemma FetchedSpec(table: seq<Storage.SignalRow>, whitelist: seq<string>)
    ensures Ordered(Fetched(table, whitelist, false))
    ensures forall x :: x in Fetched(table, whitelist, false) <==> x in Select(table) && Keep(Needles(whitelist), x)
    ensures multiset(Fetched(table, whitelist, false)) == multiset(Where(Select(table), Needles(whitelist)))
  {
    var w := Where(Select(table), Needles(whitelist));
    SortOrdered(w);
    forall x ensures x in Sort(w) <==> x in w {
      assert x in Sort(w) <==> x in multiset(Sort(w));
      assert x in w <==> x in multiset(w);
    }
  }

  /** An ordered report never lists a row with a lower price before one with a higher price. */
  lemma OrderedPricesDescend(rows: seq<ReportRow>, i: int, j: int)
    requires Ordered(rows) && 0 <= i < j < |rows|
    requires rows[i].price.Some? && rows[j].price.Some?
    ensures rows[i].price.value >= rows[j].price.value
  {
    assert Before(rows[i], rows[j]);
  }

  const Header: Row := ["Time", "Group", "Sender", "Item", "Price"]

  /** The CSV cells of one row: `None` is written as an empty cell, a price by `str`. */
  function Cells(floatRepr: real -> string, row: ReportRow): (r: Row)
    ensures |r| == 5
  {
    [row.timestamp, row.group.GetOr(""), row.sender, row.item,
     match row.price case None => "" case Some(p) => floatRepr(p)]
  }

  /** `_write_report`: the header row, then the rows in order. */
  function ReportFile(floatRepr: real -> string, rows: seq<ReportRow>): (f: seq<Row>)
    ensures |f| == |rows| + 1 && f[0] == Header
    ensures forall k :: 0 <= k < |rows| ==> f[k + 1] == Cells(floatRepr, rows[k])
  {
    [Header] + seq(|rows|, k requires 0 <= k < |rows| => Cells(floatRepr, rows[k]))
  }

  /** `_dated_filename` */
  function DatedFilename(reportType: string, today: DateTime): (name: string)
    ensures |name| == |reportType| + 22
    ensures StartsWith(name, "report_") && name[|name| - 4..] == ".csv"
    ensures name[7..7 + |reportType|] == reportType
    ensures name[7 + |reportType|] == '_' && name[8 + |reportType|..|name| - 4] == DateFormat(today)
  {
    "report_" + reportType + "_" + DateFormat(today) + ".csv"
  }

  /** On one day, different report types get different files. */
  lemma DatedFilenameInjective(a: string, b: string, today: DateTime)
    requires DatedFilename(a, today) == DatedFilename(b, today)
    ensures a == b
  {
    assert a == DatedFilename(a, today)[7..7 + |a|];
  }

  /** For one report type, two clock readings give the same file name exactly when they fall on the same day. */
  lemma DatedFilenameSameDay(reportType: string, a: DateTime, b: DateTime)
    ensures DatedFilename(reportType, a) == DatedFilename(reportType, b) <==> DateFormat(a) == DateFormat(b)
  {
    var na, nb := DatedFilename(reportType, a), DatedFilename(reportType, b);
    if na == nb {
      assert DateFormat(a) == na[8 + |reportType|..|na| - 4];
    }
  }

  /** `re.sub(r"\s+", "_", s)`: every maximal run of whitespace becomes one "_". */
  function CollapseSpace(s: string): (r: string)
    ensures forall i :: 0 <= i < |r| ==> !IsSpace(r[i])
    ensures (forall i :: 0 <= i < |s| ==> !IsSpace(s[i])) ==> r == s
    decreases |s|
  {
    if s == [] then []
    else if IsSpace(s[0]) then "_" + CollapseSpace(TrimStart(s[1..]))
    else
      assert s == [s[0]] + s[1..];
      [s[0]] + CollapseSpace(s[1..])
  }

  /** `re.sub(r"[^\w\-]+", "", s)`: keeps word characters and hyphens. */
  function KeepWordChars(isWord: char -> bool, s: string): (r: string)
    ensures forall i :: 0 <= i < |r| ==> isWord(r[i]) || r[i] == '-'
    ensures (forall i :: 0 <= i < |s| ==> isWord(s[i]) || s[i] == '-') ==> r == s
    decreases |s|
  {
    if s == [] then []
    else
      var rest := KeepWordChars(isWord, s[1..]);
      assert s == [s[0]] + s[1..];
      if isWord(s[0]) || s[0] == '-' then [s[0]] + rest else rest
  }

  /** A piece without whitespace passes through `CollapseSpace` unchanged, whatever follows it. */
  lemma {:induction false} CollapseSpaceKeepsWord(w: string, t: string)
    requires forall i :: 0 <= i < |w| ==> !IsSpace(w[i])
    ensures CollapseSpace(w + t) == w + CollapseSpace(t)
    decreases |w|
  {
    if w == [] {
      assert w + t == t;
    } else {
      calc {
        CollapseSpace(w + t);
        == { TailOfAppend(w, t); }
        [w[0]] + CollapseSpace(w[1..] + t);
        == { CollapseSpaceKeepsWord(w[1..], t); }
        [w[0]] + (w[1..] + CollapseSpace(t));
        == { assert w == [w[0]] + w[1..]; }
        w + CollapseSpace(t);
      }
    }
  }

  /** A whole run of whitespace is dropped by `lstrip`, up to the first character after it. */
  lemma {:induction false} TrimStartRun(sp: string, rest: string)
    requires forall i :: 0 <= i < |sp| ==> IsSpace(sp[i])
    requires rest == [] || !IsSpace(rest[0])
    ensures TrimStart(sp + rest) == rest
    decreases |sp|
  {
    if sp == [] {
      assert sp + rest == rest;
    } else {
      TailOfAppend(sp, rest);
      TrimStartRun(sp[1..], rest);
    }
  }

  /** A maximal run of whitespace becomes one "_". */
  lemma CollapseSpaceRun(sp: string, rest: string)
    requires sp != [] && forall i :: 0 <= i < |sp| ==> IsSpace(sp[i])
    requires rest == [] || !IsSpace(rest[0])
    ensures CollapseSpace(sp + rest) == "_" + CollapseSpace(rest)
  {
    TailOfAppend(sp, rest);
    CollapseSpaceAtSpace(sp + rest);
    TrimStartRun(sp[1..], rest);
  }

  lemma CollapseSpaceAtSpace(u: string)
    requires u != [] && IsSpace(u[0])
    ensures CollapseSpace(u) == "_" + CollapseSpace(TrimStart(u[1..]))
  {
  }

  /** `re.sub(r"\s+", "_", w + sp + rest)` for a word `w`, a whitespace run `sp` and a `rest` that does not start with whitespace. */
  lemma CollapseSpaceStep(w: string, sp: string, rest: string)
    requires forall i :: 0 <= i < |w| ==> !IsSpace(w[i])
    requires sp != [] && forall i :: 0 <= i < |sp| ==> IsSpace(sp[i])
    requires rest == [] || !IsSpace(rest[0])
    ensures CollapseSpace(w + sp + rest) == w + "_" + CollapseSpace(rest)
  {
    calc {
      CollapseSpace(w + sp + rest);
      == { assert w + sp + rest == w + (sp + rest); }
      CollapseSpace(w + (sp + rest));
      == { CollapseSpaceKeepsWord(w, sp + rest); }
      w + CollapseSpace(sp + rest);
      == { CollapseSpaceRun(sp, rest); }
      w + ("_" + CollapseSpace(rest));
      ==
      w + "_" + CollapseSpace(rest);
    }
  }

  /** `re.sub(r"[^\w\-]+", "", a + b)` is the concatenation of the results on `a` and on `b`. */
  lemma {:induction false} KeepWordCharsAppend(isWord: char -> bool, a: string, b: string)
    ensures KeepWordChars(isWord, a + b) == KeepWordChars(isWord, a) + KeepWordChars(isWord, b)
    decreases |a|
  {
    if a == [] {
      assert a + b == b;
    } else {
      TailOfAppend(a, b);
      KeepWordCharsAppend(isWord, a[1..], b);
    }
  }

  /** One character is kept exactly when it is a word character or a hyphen. */
  lemma KeepWordCharsSingle(isWord: char -> bool, c: char)
    ensures KeepWordChars(isWord, [c]) == if isWord(c) || c == '-' then [c] else []
  {
    assert [c][1..] == [];
  }

  /** The properties of `\w` that `_sanitize` relies on: no whitespace is a word character, "_" and letters are. */
  predicate WordClass(isWord: char -> bool)
  {
    && (forall c :: IsSpace(c) ==> !isWord(c))
    && isWord('_')
    && (forall c :: 'A' <= c <= 'Z' || 'a' <= c <= 'z' ==> isWord(c))
  }

  /** `_sanitize`; the result is never empty. */
  function Sanitize(isWord: char -> bool, value: string): (r: string)
    ensures r != []
    ensures r == "Unknown" || forall i :: 0 <= i < |r| ==> isWord(r[i]) || r[i] == '-'
  {
    var v := KeepWordChars(isWord, CollapseSpace(Strip(value)));
    if v == [] then "Unknown" else v
  }

  /** With a real word class, the result has no whitespace and sanitising it again changes nothing. */
  lemma SanitizeIdempotent(isWord: char -> bool, value: string)
    requires WordClass(isWord)
    ensures forall i :: 0 <= i < |Sanitize(isWord, value)| ==> !IsSpace(Sanitize(isWord, value)[i])
    ensures Sanitize(isWord, Sanitize(isWord, value)) == Sanitize(isWord, value)
  {
    WordCharsAreKept(isWord, value);
    SanitizeClean(isWord, Sanitize(isWord, value));
  }

  /** Two words separated by any whitespace become one file-name part joined by "_": "New York" gives "New_York". */
  lemma SanitizeTwoWords(isWord: char -> bool, a: string, sp: string, b: string)
    requires WordClass(isWord)
    requires a != [] && b != []
    requires forall i :: 0 <= i < |a| ==> isWord(a[i])
    requires forall i :: 0 <= i < |b| ==> isWord(b[i])
    requires sp != [] && forall i :: 0 <= i < |sp| ==> IsSpace(sp[i])
    ensures Sanitize(isWord, a + sp + b) == a + "_" + b
  {
    var s := a + sp + b;
    assert s[0] == a[0] && s[|s| - 1] == b[|b| - 1];
    StripKeeps(s);
    CollapseSpaceStep(a, sp, b);
    var j := a + "_" + b;
    assert forall i :: 0 <= i < |j| ==> isWord(j[i]) by {
      forall i | 0 <= i < |j| ensures isWord(j[i]) {
        if i < |a| { assert j[i] == a[i]; } else if i == |a| { assert j[i] == '_'; } else { assert j[i] == b[i - |a| - 1]; }
      }
    }
  }

  lemma WordCharsAreKept(isWord: char -> bool, value: string)
    requires WordClass(isWord)
    ensures var r := Sanitize(isWord, value);
            forall i :: 0 <= i < |r| ==> (isWord(r[i]) || r[i] == '-') && !IsSpace(r[i])
  {
    var r := Sanitize(isWord, value);
    if r == "Unknown" {
      UnknownIsWord(isWord);
    }
    NoSpaceAmongWordChars(isWord, r);
  }

  lemma UnknownIsWord(isWord: char -> bool)
    requires WordClass(isWord)
    ensures forall i :: 0 <= i < |"Unknown"| ==> isWord("Unknown"[i])
  {
    var u: string := "Unknown";
    forall i | 0 <= i < |u| ensures isWord(u[i]) {
      assert u[i] == 'U' || u[i] == 'n' || u[i] == 'k' || u[i] == 'o' || u[i] == 'w';
    }
  }

  lemma NoSpaceAmongWordChars(isWord: char -> bool, r: string)
    requires WordClass(isWord)
    requires forall i :: 0 <= i < |r| ==> isWord(r[i]) || r[i] == '-'
    ensures forall i :: 0 <= i < |r| ==> !IsSpace(r[i])
  {
  }

  /** A non-empty string of word characters and hyphens without whitespace is left as it is. */
  lemma SanitizeClean(isWord: char -> bool, r: string)
    requires r != []
    requires forall i :: 0 <= i < |r| ==> (isWord(r[i]) || r[i] == '-') && !IsSpace(r[i])
    ensures Sanitize(isWord, r) == r
  {
    StripKeeps(r);
    assert CollapseSpace(r) == r;
    assert KeepWordChars(isWord, r) == r;
  }

  /** Different group names can share a report file: "A B" and "A_B" both become "A_B". */
  lemma GroupNamesCanCollide(isWord: char -> bool)
    requires WordClass(isWord)
    ensures Sanitize(isWord, "A B") == Sanitize(isWord, "A_B") == "A_B"
  {
    var ab: string := "A_B";
    assert ab[0] == 'A' && ab[1] == '_' && ab[2] == 'B';
    assert isWord('A') && isWord('_') && isWord('B');
    SanitizeClean(isWord, ab);
    SpaceBecomesUnderscore();
  }

  lemma SpaceBecomesUnderscore()
    ensures Strip("A B") == "A B"
    ensures CollapseSpace("A B") == "A_B"
  {
    var a, sp, b: string := "A", " ", "B";
    assert !IsSpace('A') && !IsSpace('B') && IsSpace(' ');
    StripKeeps(a + sp + b);
    assert TrimStart(b) == b;
    assert CollapseSpace(b) == b;
    assert (sp + b)[1..] == b;
    assert CollapseSpace(sp + b) == "_" + b;
    assert (a + sp + b)[1..] == sp + b;
    assert CollapseSpace(a + sp + b) == a + "_" + b;
    assert a + sp + b == "A B";
    assert a + "_" + b == "A_B";
  }

  lemma PrefixSnoc<T>(s: seq<T>, i: nat)
    requires i < |s|
    ensures s[..i + 1][..i] == s[..i] && s[..i + 1][i] == s[i] && |s[..i + 1]| == i + 1
  {
  }

  /** One more name written: the step of a loop over `xs` that writes and collects names. */
  lemma WriteAllSnoc<N, K, V>(m: map<K, V>, xs: seq<N>, k: nat, name: N -> K, content: N -> V)
    requires k < |xs|
    ensures WriteAll(m, xs[..k + 1], name, content) == WriteAll(m, xs[..k], name, content)[name(xs[k]) := content(xs[k])]
    ensures MapSeq(xs[..k + 1], name) == MapSeq(xs[..k], name) + [name(xs[k])]
  {
    assert xs[..k + 1][..k] == xs[..k];
  }

  /** The keys of `rows` in order of first appearance, as an insertion-ordered dict holds them. */
  function GroupOrder<T(!new), K(==,!new)>(rows: seq<T>, key: T -> K): (order: seq<K>)
    ensures forall g :: g in order <==> exists x :: x in rows && key(x) == g
    ensures forall i, j :: 0 <= i < j < |order| ==> order[i] != order[j]
    decreases |rows|
  {
    if rows == [] then []
    else
      var init := rows[..|rows| - 1];
      var last := rows[|rows| - 1];
      assert rows == init + [last];
      var o := GroupOrder(init, key);
      if key(last) in o then o else o + [key(last)]
  }

  /** The rows with key `g`, in order; every row is in the one list of its own key. */
  function RowsOf<T(!new), K(==,!new)>(rows: seq<T>, key: T -> K, g: K): (r: seq<T>)
    ensures forall x :: x in r <==> x in rows && key(x) == g
    ensures (forall x :: x in rows ==> key(x) != g) ==> r == []
    decreases |rows|
  {
    if rows == [] then []
    else
      var init := rows[..|rows| - 1];
      var last := rows[|rows| - 1];
      assert rows == init + [last];
      if key(last) == g then RowsOf(init, key, g) + [last] else RowsOf(init, key, g)
  }

  /** The dict `rows_by_group` after the loop of `setdefault(key, []).append(row)`. */
  function Buckets<T(!new), K(==,!new)>(rows: seq<T>, key: T -> K): map<K, seq<T>>
    decreases |rows|
  {
    if rows == [] then map[]
    else
      var b := Buckets(rows[..|rows| - 1], key);
      var g := key(rows[|rows| - 1]);
      b[g := (if g in b then b[g] else []) + [rows[|rows| - 1]]]
  }

  /** The dict has one entry per key, in first-appearance order, holding exactly that key's rows. */
  lemma {:induction false} BucketsAreRowsOf<T(!new), K(!new)>(rows: seq<T>, key: T -> K)
    ensures forall g :: g in Buckets(rows, key) <==> g in GroupOrder(rows, key)
    ensures forall g :: g in Buckets(rows, key) ==> Buckets(rows, key)[g] == RowsOf(rows, key, g)
    decreases |rows|
  {
    if rows != [] {
      var init := rows[..|rows| - 1];
      var last := rows[|rows| - 1];
      BucketsAreRowsOf(init, key);
      if key(last) !in Buckets(init, key) {
        assert forall x :: x in init ==> key(x) != key(last);
      }
    }
  }

  /** One more pass of the bucketing loop. */
  lemma BucketsSnoc<T(!new), K(!new)>(rows: seq<T>, key: T -> K, i: nat)
    requires i < |rows|
    ensures var b := Buckets(rows[..i], key);
            var g := key(rows[i]);
            Buckets(rows[..i + 1], key) == b[g := (if g in b then b[g] else []) + [rows[i]]]
    ensures var o := GroupOrder(rows[..i], key);
            GroupOrder(rows[..i + 1], key) == if key(rows[i]) in Buckets(rows[..i], key) then o else o + [key(rows[i])]
  {
    PrefixSnoc(rows, i);
    BucketsAreRowsOf(rows[..i], key);
  }

  /** The total number of rows in the lists of `names`. */
  function SumLengths<T(!new), K(==,!new)>(rows: seq<T>, key: T -> K, names: seq<K>): nat
    decreases |names|
  {
    if names == [] then 0 else SumLengths(rows, key, names[..|names| - 1]) + |RowsOf(rows, key, names[|names| - 1])|
  }

  lemma {:induction false} SumLengthsSnoc<T(!new), K(!new)>(init: seq<T>, last: T, key: T -> K, names: seq<K>)
    requires forall i, j :: 0 <= i < j < |names| ==> names[i] != names[j]
    ensures SumLengths(init + [last], key, names)
            == SumLengths(init, key, names) + (if key(last) in names then 1 else 0)
    decreases |names|
  {
    assert (init + [last])[..|init|] == init;
    if names != [] {
      var front := names[..|names| - 1];
      assert forall g :: g in front ==> g in names;
      SumLengthsSnoc(init, last, key, front);
    }
  }

  /** The lists of all keys together hold every row exactly once. */
  lemma {:induction false} BucketsCount<T(!new), K(!new)>(rows: seq<T>, key: T -> K)
    ensures |rows| == SumLengths(rows, key, GroupOrder(rows, key))
    decreases |rows|
  {
    if rows != [] {
      var init := rows[..|rows| - 1];
      var last := rows[|rows| - 1];
      assert rows == init + [last];
      BucketsCount(init, key);
      var o := GroupOrder(init, key);
      SumLengthsSnoc(init, last, key, o);
      if key(last) !in o {
        assert forall x :: x in init ==> key(x) != key(last);
        assert (o + [key(last)])[..|o|] == o;
      }
    }
  }

  function MapSeq<A, B>(xs: seq<A>, f: A -> B): (ys: seq<B>)
    ensures |ys| == |xs| && forall k :: 0 <= k < |xs| ==> ys[k] == f(xs[k])
    decreases |xs|
  {
    if xs == [] then [] else MapSeq(xs[..|xs| - 1], f) + [f(xs[|xs| - 1])]
  }

  /** The map after writing `content(n)` under `name(n)` for each `n` in turn; a later write replaces an earlier one. */
  function WriteAll<N, K(==), V>(m: map<K, V>, names: seq<N>, name: N -> K, content: N -> V): map<K, V>
    decreases |names|
  {
    if names == [] then m
    else
      var n := names[|names| - 1];
      WriteAll(m, names[..|names| - 1], name, content)[name(n) := content(n)]
  }

  /** When the names are told apart by `name`, each one's entry is its own content, and nothing else changes. */
  lemma {:induction false} WriteAllContent<N, K, V>(m: map<K, V>, names: seq<N>, name: N -> K, content: N -> V)
    requires forall a, b :: a in names && b in names && name(a) == name(b) ==> a == b
    ensures forall n :: n in names ==> name(n) in WriteAll(m, names, name, content)
                                       && WriteAll(m, names, name, content)[name(n)] == content(n)
    ensures forall f :: f in m && (forall n :: n in names ==> f != name(n)) ==>
              f in WriteAll(m, names, name, content) && WriteAll(m, names, name, content)[f] == m[f]
    decreases |names|
  {
    if names != [] {
      var front := names[..|names| - 1];
      assert names == front + [names[|names| - 1]];
      assert forall n :: n in front ==> n in names;
      WriteAllContent(m, front, name, content);
    }
  }

  /** Last write wins: a name written again later holds the later content, whatever was written before. */
  lemma {:induction false} WriteAllLastWins<N, K, V>(m: map<K, V>, names: seq<N>, name: N -> K, content: N -> V,
                                                    k: int)
    requires 0 <= k < |names|
    requires forall j :: k < j < |names| ==> name(names[j]) != name(names[k])
    ensures name(names[k]) in WriteAll(m, names, name, content)
    ensures WriteAll(m, names, name, content)[name(names[k])] == content(names[k])
    decreases |names|
  {
    if k < |names| - 1 {
      var front := names[..|names| - 1];
      assert front[k] == names[k];
      assert forall j :: k < j < |front| ==> front[j] == names[j];
      WriteAllLastWins(m, front, name, content, k);
    }
  }

  /** `row[1] or "Direct_Message"` */
  function Bucket(row: ReportRow): string
  {
    if Truthy(row.group) then row.group.value else "Direct_Message"
  }

  function GroupFilename(isWord: char -> bool, g: string, today: DateTime): string
  {
    DatedFilename("group_" + Sanitize(isWord, g), today)
  }

  function GroupFilenames(isWord: char -> bool, today: DateTime): string -> string
  {
    g => GroupFilename(isWord, g, today)
  }

  function GroupReports(floatRepr: real -> string, rows: seq<ReportRow>): string -> seq<Row>
  {
    g => ReportFile(floatRepr, RowsOf(rows, Bucket, g))
  }

  /** The files after `generate_group_reports` writes every bucket of `rows`. */
  function GroupFiles(isWord: char -> bool, floatRepr: real -> string, files: Files, rows: seq<ReportRow>,
                      today: DateTime): Files
  {
    WriteAll(files, GroupOrder(rows, Bucket), GroupFilenames(isWord, today), GroupReports(floatRepr, rows))
  }

  /**
   * Every row is reported under its own group, empty and absent groups
   * under "Direct_Message"; when the group names give distinct files, each
   * group's file holds exactly that group's rows.
   */
  lemma GroupReportsContent(isWord: char -> bool, floatRepr: real -> string, files: Files,
                            rows: seq<ReportRow>, today: DateTime)
    requires forall a, b :: (a in GroupOrder(rows, Bucket) && b in GroupOrder(rows, Bucket)
                             && GroupFilename(isWord, a, today) == GroupFilename(isWord, b, today)) ==> a == b
    ensures forall x :: x in rows ==>
              GroupFilename(isWord, Bucket(x), today) in GroupFiles(isWord, floatRepr, files, rows, today)
              && GroupFiles(isWord, floatRepr, files, rows, today)[GroupFilename(isWord, Bucket(x), today)]
                 == ReportFile(floatRepr, RowsOf(rows, Bucket, Bucket(x)))
  {
    var order := GroupOrder(rows, Bucket);
    var name := GroupFilenames(isWord, today);
    var content := GroupReports(floatRepr, rows);
    assert forall a, b :: a in order && b in order && name(a) == name(b) ==> a == b;
    WriteAllContent(files, order, name, content);
    forall x | x in rows
      ensures name(Bucket(x)) in GroupFiles(isWord, floatRepr, files, rows, today)
      ensures GroupFiles(isWord, floatRepr, files, rows, today)[name(Bucket(x))] == content(Bucket(x))
    {
      assert Bucket(x) in order;
    }
  }

  /**
   * When group names collide on one file, the file holds the report of the
   * last of them in first-appearance order; the earlier reports are lost.
   */
  lemma CollidingGroupsLastWins(isWord: char -> bool, floatRepr: real -> string, files: Files,
                                rows: seq<ReportRow>, today: DateTime, k: int)
    requires 0 <= k < |GroupOrder(rows, Bucket)|
    requires forall j :: k < j < |GroupOrder(rows, Bucket)| ==>
               GroupFilename(isWord, GroupOrder(rows, Bucket)[j], today)
               != GroupFilename(isWord, GroupOrder(rows, Bucket)[k], today)
    ensures var g := GroupOrder(rows, Bucket)[k];
            GroupFilename(isWord, g, today) in GroupFiles(isWord, floatRepr, files, rows, today)
            && GroupFiles(isWord, floatRepr, files, rows, today)[GroupFilename(isWord, g, today)]
               == ReportFile(floatRepr, RowsOf(rows, Bucket, g))
  {
    WriteAllLastWins(files, GroupOrder(rows, Bucket), GroupFilenames(isWord, today), GroupReports(floatRepr, rows), k);
  }

  /** `ReportGenerator`: the output directory as a map from filename to rows. */
  class ReportGenerator {
    var files: Files
    const isWord: char -> bool
    const floatRepr: real -> string

    constructor (files: Files, isWord: char -> bool, floatRepr: real -> string)
      ensures this.files == files && this.isWord == isWord && this.floatRepr == floatRepr
    {
      this.files := files;
      this.isWord := isWord;
      this.floatRepr := floatRepr;
    }

    /** `_fetch_signals`: the parameter loop lower-cases the whitelist, the query filters and orders. */
    method FetchSignals(table: seq<Storage.SignalRow>, goodsWhitelist: seq<string>, fault: bool)
      returns (rows: seq<ReportRow>)
      ensures rows == Fetched(table, goodsWhitelist, fault)
    {
      var params: seq<string> := [];
      for i := 0 to |goodsWhitelist|
        invariant params == Needles(goodsWhitelist[..i])
      {
        assert goodsWhitelist[..i + 1] == goodsWhitelist[..i] + [goodsWhitelist[i]];
        params := params + [Lower(goodsWhitelist[i])];
      }
      assert goodsWhitelist[..|goodsWhitelist|] == goodsWhitelist;
      if fault {
        return [];
      }
      rows := Sort(Where(Select(table), params));
    }

    method WriteReport(filename: string, rows: seq<ReportRow>) returns (path: string)
      modifies this
      ensures path == filename
      ensures files == old(files)[filename := ReportFile(floatRepr, rows)]
    {
      files := files[filename := ReportFile(floatRepr, rows)];
      path := filename;
    }

    /** `generate_aggregate_report` */
    method GenerateAggregateReport(table: seq<Storage.SignalRow>, today: DateTime, fault: bool)
      returns (path: string)
      modifies this
      ensures path == DatedFilename("aggregate", today)
      ensures files == old(files)[path := ReportFile(floatRepr, Fetched(table, [], fault))]
    {
      var rows := FetchSignals(table, [], fault);
      path := WriteReport(DatedFilename("aggregate", today), rows);
    }

    /** `generate_group_reports`: buckets the fetched rows, then writes one report per bucket in first-seen order. */
    method GenerateGroupReports(table: seq<Storage.SignalRow>, today: DateTime, fault: bool)
      returns (paths: seq<string>)
      modifies this
      ensures var order := GroupOrder(Fetched(table, [], fault), Bucket);
              && paths == MapSeq(order, GroupFilenames(isWord, today))
              && files == GroupFiles(isWord, floatRepr, old(files), Fetched(table, [], fault), today)
    {
      var rows := FetchSignals(table, [], fault);
      var order, byGroup := BucketRows(rows);
      BucketsAreRowsOf(rows, Bucket);
      paths := WriteGroups(rows, order, byGroup, today);
    }

    /** The second loop of `generate_group_reports`: one report per group, in first-appearance order. */
    method WriteGroups(rows: seq<ReportRow>, order: seq<string>, byGroup: map<string, seq<ReportRow>>,
                       today: DateTime) returns (paths: seq<string>)
      requires forall g :: g in order ==> g in byGroup && byGroup[g] == RowsOf(rows, Bucket, g)
      modifies this
      ensures paths == MapSeq(order, GroupFilenames(isWord, today))
      ensures files == WriteAll(old(files), order, GroupFilenames(isWord, today), GroupReports(floatRepr, rows))
    {
      var name, content := GroupFilenames(isWord, today), GroupReports(floatRepr, rows);
      paths := [];
      for k := 0 to |order|
        invariant paths == MapSeq(order[..k], name)
        invariant files == WriteAll(old(files), order[..k], name, content)
      {
        var groupName := order[k];
        WriteAllSnoc(old(files), order, k, name, content);
        var path := WriteReport(DatedFilename("group_" + Sanitize(isWord, groupName), today), byGroup[groupName]);
        assert path == name(groupName);
        assert byGroup[groupName] == RowsOf(rows, Bucket, groupName);
        assert content(groupName) == ReportFile(floatRepr, byGroup[groupName]);
        paths := paths + [path];
      }
      assert order[..|order|] == order;
    }

    /** The first loop of `generate_group_reports`: `rows_by_group.setdefault(group_name, []).append(row)`. */
    method BucketRows(rows: seq<ReportRow>) returns (order: seq<string>, byGroup: map<string, seq<ReportRow>>)
      ensures order == GroupOrder(rows, Bucket) && byGroup == Buckets(rows, Bucket)
    {
      order := [];
      byGroup := map[];
      for i := 0 to |rows|
        invariant order == GroupOrder(rows[..i], Bucket)
        invariant byGroup == Buckets(rows[..i], Bucket)
      {
        BucketsSnoc(rows, Bucket, i);
        var groupName := if Truthy(rows[i].group) then rows[i].group.value else "Direct_Message";
        var bucket := if groupName in byGroup then byGroup[groupName] else [];
        if groupName !in byGroup {
          order := order + [groupName];
        }
        byGroup := byGroup[groupName := bucket + [rows[i]]];
      }
      assert rows[..|rows|] == rows;
    }

    /** `generate_temporary_goods_report`, without the removal of old temporary reports. */
    method GenerateTemporaryGoodsReport(table: seq<Storage.SignalRow>, goodsWhitelist: seq<string>,
                                        today: DateTime, fault: bool) returns (path: string)
      modifies this
      ensures path == DatedFilename("temp_goods", today)
      ensures files == old(files)[path := ReportFile(floatRepr, Fetched(table, goodsWhitelist, fault))]
    {
      var rows := FetchSignals(table, goodsWhitelist, fault);
      path := WriteReport(DatedFilename("temp_goods", today), rows);
    }
  }
}
