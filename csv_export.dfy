/**
 * The CSV text of `exportLogsCsv`: the header line `at,action,status,hash,note`,
 * then one line per log entry, oldest first, every field wrapped in double
 * quotes with inner double quotes doubled (section 2, rules 5 to 7, of
 * RFC 4180), and a final newline. Lines end in LF, not the CRLF of RFC 4180.
 *
 * The partner of the writer is a reader for exactly this shape of text, and
 * the round-trip lemmas show that the export reads back as the log's fields
 * in chronological order.
 */
module CsvExport {
  import opened Common
  import opened Text
  import opened AuditLog

  const Header: string := "at,action,status,hash,note"

  function StatusText(s: Status): string
  {
    match s
    case Pending => "pending"
    case Success => "success"
    case Error => "error"
  }

  /** `replaceAll('"', '""')`. */
  function DoubleQuotes(v: string): string
  {
    if v == [] then [] else (if v[0] == '"' then "\"\"" else [v[0]]) + DoubleQuotes(v[1..])
  }

  /** `safe(v)`: the field in double quotes. */
  function Quote(v: string): string
  {
    "\"" + DoubleQuotes(v) + "\""
  }

  /** `v ?? ""`. */
  function OrEmpty(o: Option<string>): string
  {
    match o
    case None => ""
    case Some(v) => v
  }

  /** The five exported fields of an entry, unquoted. */
  function Fields(l: TxLog): seq<string>
  {
    [l.at, l.action, StatusText(l.status), OrEmpty(l.hash), OrEmpty(l.note)]
  }

  function FieldsOf(ls: seq<TxLog>): seq<seq<string>>
  {
    seq(|ls|, i requires 0 <= i < |ls| => Fields(ls[i]))
  }

  function QuoteAll(fs: seq<string>): seq<string>
  {
    seq(|fs|, i requires 0 <= i < |fs| => Quote(fs[i]))
  }

  /** One CSV line: the quoted fields joined with commas. */
  function Row(l: TxLog): string
  {
    Join(QuoteAll(Fields(l)), ",")
  }

  function Rows(ls: seq<TxLog>): seq<string>
  {
    seq(|ls|, i requires 0 <= i < |ls| => Row(ls[i]))
  }

  /** The text `exportLogsCsv` hands to the download: the log is stored newest first and written oldest first. */
  function ExportCsv(logs: seq<TxLog>): string
  {
    Header + "\n" + Join(Rows(Reverse(logs)), "\n") + "\n"
  }

  /**
   * Reads the rest of a quoted field after its opening quote: `""` stands for
   * one quote and a lone `"` closes the field. Gives the field and what
   * follows the closing quote.
   */
  function UnquoteField(s: string): (r: Option<(string, string)>)
    ensures r.Some? ==> |r.value.1| < |s|
    decreases |s|
  {
    if s == [] then None
    else if s[0] == '"' then
      if |s| >= 2 && s[1] == '"' then
        match UnquoteField(s[2..])
        case None => None
        case Some((v, rest)) => Some(("\"" + v, rest))
      else Some(("", s[1..]))
    else
      match UnquoteField(s[1..])
      case None => None
      case Some((v, rest)) => Some(([s[0]] + v, rest))
  }

  /** Reads one line of quoted fields separated by commas and ended by a newline. */
  function ReadRecord(s: string): (r: Option<(seq<string>, string)>)
    ensures r.Some? ==> |r.value.1| < |s|
    decreases |s|
  {
    if s == [] || s[0] != '"' then None
    else
      match UnquoteField(s[1..])
      case None => None
      case Some((v, rest)) =>
        if rest != [] && rest[0] == ',' then
          match ReadRecord(rest[1..])
          case None => None
          case Some((vs, rest')) => Some(([v] + vs, rest'))
        else if rest != [] && rest[0] == '\n' then Some(([v], rest[1..]))
        else None
  }

  /** Reads newline-terminated lines of quoted fields up to the end of the text. */
  function ReadRecords(s: string): Option<seq<seq<string>>>
    decreases |s|
  {
    if s == [] then Some([])
    else
      match ReadRecord(s)
      case None => None
      case Some((r, rest)) =>
        match ReadRecords(rest)
        case None => None
        case Some(rs) => Some([r] + rs)
  }

  /** Reads an export: the header line, then the records. */
  function ReadExport(text: string): Option<seq<seq<string>>>
  {
    var h := Header + "\n";
    if StartsWith(text, h) then ReadRecords(text[|h|..]) else None
  }

  /** A quoted field reads back as the original value, whatever quotes it holds. */
  lemma {:induction false} UnquoteQuoted(v: string, rest: string)
    requires rest == [] || rest[0] != '"'
    ensures UnquoteField(DoubleQuotes(v) + "\"" + rest) == Some((v, rest))
  {
    if v == [] {
      assert DoubleQuotes(v) + "\"" + rest == "\"" + rest;
    } else {
      UnquoteQuoted(v[1..], rest);
      if v[0] == '"' {
        UnquoteEscaped(v, rest);
      } else {
        UnquotePlain(v, rest);
      }
    }
  }

  /** A leading quote, written doubled, reads back in front of the rest of the field. */
  lemma UnquoteEscaped(v: string, rest: string)
    requires v != [] && v[0] == '"'
    requires UnquoteField(DoubleQuotes(v[1..]) + "\"" + rest) == Some((v[1..], rest))
    ensures UnquoteField(DoubleQuotes(v) + "\"" + rest) == Some((v, rest))
  {
    var tail := DoubleQuotes(v[1..]) + "\"" + rest;
    var s := DoubleQuotes(v) + "\"" + rest;
    assert s == "\"\"" + tail;
    assert s[2..] == tail;
    assert "\"" + v[1..] == v;
  }

  /** Any other leading character reads back in front of the rest of the field. */
  lemma UnquotePlain(v: string, rest: string)
    requires v != [] && v[0] != '"'
    requires UnquoteField(DoubleQuotes(v[1..]) + "\"" + rest) == Some((v[1..], rest))
    ensures UnquoteField(DoubleQuotes(v) + "\"" + rest) == Some((v, rest))
  {
    var tail := DoubleQuotes(v[1..]) + "\"" + rest;
    var s := DoubleQuotes(v) + "\"" + rest;
    assert s == [v[0]] + tail;
    assert s[1..] == tail;
    assert [v[0]] + v[1..] == v;
  }

  /** A line holding one quoted field reads back as that field. */
  lemma ReadWrittenField(f: string, rest: string)
    ensures ReadRecord(Quote(f) + "\n" + rest) == Some(([f], rest))
  {
    var s := Quote(f) + "\n" + rest;
    assert s[1..] == DoubleQuotes(f) + "\"" + ("\n" + rest);
    UnquoteQuoted(f, "\n" + rest);
    assert ("\n" + rest)[1..] == rest;
  }

  /** A line written from a non-empty list of fields reads back as those fields. */
  lemma {:induction false} ReadWrittenRecord(fs: seq<string>, rest: string)
    requires fs != []
    ensures ReadRecord(Join(QuoteAll(fs), ",") + "\n" + rest) == Some((fs, rest))
  {
    var q := QuoteAll(fs);
    if |fs| == 1 {
      assert Join(q, ",") == Quote(fs[0]);
      ReadWrittenField(fs[0], rest);
      assert [fs[0]] == fs;
    } else {
      ReadWrittenRecord(fs[1..], rest);
      ReadFieldThenRecord(fs[0], fs[1..], rest);
      assert [fs[0]] + fs[1..] == fs;
    }
  }

  /** A quoted field and a comma in front of a line that reads back add that field in front of its record. */
  lemma ReadFieldThenRecord(f: string, more: seq<string>, rest: string)
    requires more != []
    requires ReadRecord(Join(QuoteAll(more), ",") + "\n" + rest) == Some((more, rest))
    ensures ReadRecord(Join(QuoteAll([f] + more), ",") + "\n" + rest) == Some(([f] + more, rest))
  {
    var q := QuoteAll([f] + more);
    var tail := Join(QuoteAll(more), ",") + "\n" + rest;
    assert q[1..] == QuoteAll(more);
    var s := Join(q, ",") + "\n" + rest;
    assert Join(q, ",") == Quote(f) + "," + Join(QuoteAll(more), ",");
    assert s == Quote(f) + ("," + tail);
    ReadQuotedThenComma(f, tail);
  }

  /** A quoted field and a comma in front of text that reads as a record add the field in front of it. */
  lemma ReadQuotedThenComma(f: string, tail: string)
    requires ReadRecord(tail).Some?
    ensures ReadRecord(Quote(f) + ("," + tail)) == Some(([f] + ReadRecord(tail).value.0, ReadRecord(tail).value.1))
  {
    var s := Quote(f) + ("," + tail);
    assert s[1..] == DoubleQuotes(f) + "\"" + ("," + tail);
    UnquoteQuoted(f, "," + tail);
    assert ("," + tail)[1..] == tail;
  }

  lemma FieldsOfCons(ls: seq<TxLog>)
    requires ls != []
    ensures FieldsOf(ls) == [Fields(ls[0])] + FieldsOf(ls[1..])
  {
  }

  /** A single written line reads back as the one record of its entry's fields. */
  lemma ReadWrittenRow(l: TxLog)
    ensures ReadRecords(Row(l) + "\n") == Some([Fields(l)])
  {
    ReadWrittenRecord(Fields(l), "");
    assert Row(l) + "\n" == Join(QuoteAll(Fields(l)), ",") + "\n" + "";
    assert ReadRecords("") == Some([]);
    assert [Fields(l)] + [] == [Fields(l)];
  }

  /** The lines written for a non-empty list of entries read back as their fields, in the same order. */
  lemma {:induction false} ReadWrittenRows(ls: seq<TxLog>)
    requires ls != []
    ensures ReadRecords(Join(Rows(ls), "\n") + "\n") == Some(FieldsOf(ls))
  {
    var rows := Rows(ls);
    if |ls| == 1 {
      assert Join(rows, "\n") == Row(ls[0]);
      ReadWrittenRow(ls[0]);
      assert FieldsOf(ls) == [Fields(ls[0])];
    } else {
      var tail := Join(Rows(ls[1..]), "\n") + "\n";
      assert rows[1..] == Rows(ls[1..]);
      assert Join(rows, "\n") + "\n" == Row(ls[0]) + "\n" + tail;
      ReadWrittenRecord(Fields(ls[0]), tail);
      ReadWrittenRows(ls[1..]);
      FieldsOfCons(ls);
    }
  }

  /**
   * The export of a non-empty log reads back as one record per entry, oldest
   * entry first, each holding the entry's five fields exactly.
   */
  lemma ExportReadsBack(logs: seq<TxLog>)
    requires logs != []
    ensures ReadExport(ExportCsv(logs)) == Some(FieldsOf(Reverse(logs)))
  {
    var h := Header + "\n";
    var body := Join(Rows(Reverse(logs)), "\n") + "\n";
    assert ExportCsv(logs) == h + body;
    assert (h + body)[..|h|] == h;
    assert (h + body)[|h|..] == body;
    ReadWrittenRows(Reverse(logs));
  }

  /** The export of an empty log is the header followed by an empty line. */
  lemma ExportOfEmptyLog()
    ensures ExportCsv([]) == Header + "\n\n"
  {
    assert Rows(Reverse<TxLog>([])) == [];
  }

  /**
   * Entries added one by one to an empty log (at most 200 of them) are
   * exported in the order they were added.
   */
  lemma ExportIsChronological(es: seq<TxLog>)
    requires 0 < |es| <= MaxLogs
    ensures ReadExport(ExportCsv(PushAll([], es))) == Some(FieldsOf(es))
  {
    ChronologicalOrder(es);
    PushAllWindow([], es);
    ExportReadsBack(PushAll([], es));
  }
}
