/** The audit export: a CSV writer and an independent reader by section 2 of RFC 4180. */
module Csv {
  import opened Sequences
  import opened Wrappers
  import opened Text

  // ----- Writer

  function Doubled(value: string): string {
    if value == [] then []
    else (if value[0] == '"' then ['"', '"'] else [value[0]]) + Doubled(value[1..])
  }

  function Quoted(value: string): string { ['"'] + Doubled(value) + ['"'] }

  function QuotedAll(row: seq<string>): seq<string> {
    if row == [] then [] else [Quoted(row[0])] + QuotedAll(row[1..])
  }

  function Record(row: seq<string>): string { Join(QuotedAll(row), ',') }

  function Records(rows: seq<seq<string>>): seq<string> {
    if rows == [] then [] else [Record(rows[0])] + Records(rows[1..])
  }

  function Write(rows: seq<seq<string>>): string { Join(Records(rows), '\n') }

  // ----- Reader

  /** Where the reader is inside a field. */
  datatype Mode = Start | Plain | Escaped | Closing

  /** Reads the rest of a text, `field` and `row` being what is read of the current field and record.
      A record ends at a line feed; a last record may do without. */
  function ReadFrom(s: string, mode: Mode, field: string, row: seq<string>): Option<seq<seq<string>>>
    decreases |s|
  {
    if s == [] then
      if mode.Escaped? then None
      else if mode.Start? && row == [] then Some([])
      else Some([row + [field]])
    else
      var c, rest := s[0], s[1..];
      match mode
      case Escaped => if c == '"' then ReadFrom(rest, Closing, field, row) else ReadFrom(rest, Escaped, field + [c], row)
      case _ =>
        if c == ',' then ReadFrom(rest, Start, [], row + [field])
        else if c == '\n' then
          var more := ReadFrom(rest, Start, [], []);
          if more.None? then None else Some([row + [field]] + more.value)
        else if c == '"' then
          if mode.Start? then ReadFrom(rest, Escaped, [], row)
          else if mode.Closing? then ReadFrom(rest, Escaped, field + [c], row)
          else None
        else if mode.Closing? || c == '\r' then None
        else ReadFrom(rest, Plain, field + [c], row)
  }

  function Read(text: string): Option<seq<seq<string>>> { ReadFrom(text, Start, [], []) }

  // ----- Reading back what was written

  /** One character inside the quotes, as it is written. */
  lemma ReadsOne(c: char, rest: string, field: string, row: seq<string>)
    ensures ReadFrom((if c == '"' then ['"', '"'] else [c]) + rest, Escaped, field, row)
         == ReadFrom(rest, Escaped, field + [c], row)
  {
    if c == '"' {
      var s := ['"', '"'] + rest;
      assert s[1..] == ['"'] + rest;
      assert ReadFrom(s, Escaped, field, row) == ReadFrom(['"'] + rest, Closing, field, row);
      assert (['"'] + rest)[1..] == rest;
    } else {
      assert ([c] + rest)[1..] == rest;
    }
  }

  lemma {:induction false} ReadsDoubled(value: string, rest: string, field: string, row: seq<string>)
    ensures ReadFrom(Doubled(value) + rest, Escaped, field, row) == ReadFrom(rest, Escaped, field + value, row)
  {
    if value == [] {
      assert Doubled(value) + rest == rest && field + value == field;
    } else {
      var after := Doubled(value[1..]) + rest;
      var first := if value[0] == '"' then ['"', '"'] else [value[0]];
      Assoc(first, Doubled(value[1..]), rest);
      ReadsOne(value[0], after, field, row);
      ReadsDoubled(value[1..], rest, field + [value[0]], row);
      AsCons(value);
      Assoc(field, [value[0]], value[1..]);
    }
  }

  lemma ReadsQuoted(value: string, rest: string, row: seq<string>)
    ensures ReadFrom(Quoted(value) + rest, Start, [], row) == ReadFrom(rest, Closing, value, row)
  {
    var s := Quoted(value) + rest;
    assert s[1..] == Doubled(value) + (['"'] + rest);
    ReadsDoubled(value, ['"'] + rest, [], row);
    assert [] + value == value && (['"'] + rest)[1..] == rest;
  }

  ghost predicate PlainText(w: string) {
    forall c :: c in w ==> c != ',' && c != '\n' && c != '"' && c != '\r'
  }

  lemma {:induction false} ReadsPlain(w: string, rest: string, mode: Mode, field: string, row: seq<string>)
    requires w != [] && PlainText(w) && (mode == Start || mode == Plain)
    ensures ReadFrom(w + rest, mode, field, row) == ReadFrom(rest, Plain, field + w, row)
  {
    assert w[0] in w && (w + rest)[1..] == w[1..] + rest;
    if |w| == 1 {
      assert w[1..] + rest == rest && w == [w[0]];
    } else {
      assert forall c :: c in w[1..] ==> c in w;
      ReadsPlain(w[1..], rest, Plain, field + [w[0]], row);
      AsCons(w);
      Assoc(field, [w[0]], w[1..]);
    }
  }

  /** What the reader refuses: a quote or a carriage return inside a field without quotes, anything but a
      separator behind a closing quote, and a quote that is never closed. */
  lemma ReaderRefuses(w: string, value: string, c: char, rest: string)
    requires w != [] && PlainText(w)
    ensures Read(w + (['"'] + rest)).None? && Read(w + (['\r'] + rest)).None?
    ensures c != ',' && c != '\n' && c != '"' ==> Read(Quoted(value) + ([c] + rest)).None?
    ensures Read(['"'] + Doubled(value)).None?
  {
    ReadsPlain(w, ['"'] + rest, Start, [], []);
    ReadsPlain(w, ['\r'] + rest, Start, [], []);
    ReadsQuoted(value, [c] + rest, []);
    ReadsDoubled(value, [], [], []);
    assert Doubled(value) + [] == Doubled(value) && (['"'] + Doubled(value))[1..] == Doubled(value);
  }

  /** What may follow a record: nothing, or a line feed and another record. */
  predicate EndsRecord(rest: string) { rest == [] || rest[0] == '\n' }

  function AfterRecord(record: seq<string>, rest: string): Option<seq<seq<string>>>
    requires EndsRecord(rest)
  {
    if rest == [] then Some([record])
    else
      var more := Read(rest[1..]);
      if more.None? then None else Some([record] + more.value)
  }

  lemma RecordThenRest(first: string, others: string, rest: string)
    ensures first + [','] + others + rest == first + ([','] + (others + rest))
  {
    Assoc(first + [','], others, rest);
    Assoc(first, [','], others + rest);
  }

  lemma {:induction false} ReadsRecord(row: seq<string>, rest: string, read: seq<string>)
    requires row != [] && EndsRecord(rest)
    ensures ReadFrom(Record(row) + rest, Start, [], read) == AfterRecord(read + row, rest)
    decreases |row|
  {
    JoinCons(Quoted(row[0]), QuotedAll(row[1..]), ',');
    AsCons(row);
    if |row| == 1 {
      ReadsQuoted(row[0], rest, read);
      NilUnit([row[0]]);
    } else {
      var more := Record(row[1..]) + rest;
      RecordThenRest(Quoted(row[0]), Record(row[1..]), rest);
      ReadsQuoted(row[0], [','] + more, read);
      ConsParts(',', more);
      ReadsRecord(row[1..], rest, read + [row[0]]);
      Assoc(read, [row[0]], row[1..]);
    }
  }

  ghost predicate NoEmptyRow(rows: seq<seq<string>>) { forall k :: 0 <= k < |rows| ==> rows[k] != [] }

  /** Reading the exported text gives back the rows, whatever the fields contain. */
  lemma {:induction false} WrittenRowsReadBack(rows: seq<seq<string>>)
    requires NoEmptyRow(rows)
    ensures Read(Write(rows)) == Some(rows)
  {
    if rows == [] {
    } else {
      JoinCons(Record(rows[0]), Records(rows[1..]), '\n');
      if |rows| == 1 {
        ReadsRecord(rows[0], [], []);
        assert Record(rows[0]) + [] == Record(rows[0]);
        assert [] + rows[0] == rows[0] && rows == [rows[0]];
      } else {
        var next := ['\n'] + Write(rows[1..]);
        assert Write(rows) == Record(rows[0]) + next;
        assert next[1..] == Write(rows[1..]);
        WrittenRowsReadBack(rows[1..]);
        ReadsRecord(rows[0], next, []);
        assert [] + rows[0] == rows[0];
        assert rows == [rows[0]] + rows[1..];
      }
    }
  }

  /** A row without fields is not written as a record of its own: reading back fails exactly there. */
  lemma {:induction false} ReadBackIffNoEmptyRow(rows: seq<seq<string>>)
    ensures Read(Write(rows)) == Some(rows) <==> NoEmptyRow(rows)
  {
    if NoEmptyRow(rows) {
      WrittenRowsReadBack(rows);
    } else if Read(Write(rows)) == Some(rows) {
      RecordsHaveFields(Write(rows), Start, [], []);
    }
  }

  lemma {:induction false} RecordsHaveFields(s: string, mode: Mode, field: string, row: seq<string>)
    ensures var r := ReadFrom(s, mode, field, row); r.Some? ==> NoEmptyRow(r.value)
    decreases |s|
  {
    if s != [] {
      var c, rest := s[0], s[1..];
      RecordsHaveFields(rest, Start, [], []);
      RecordsHaveFields(rest, Start, [], row + [field]);
      RecordsHaveFields(rest, Closing, field, row);
      RecordsHaveFields(rest, Escaped, field + [c], row);
      RecordsHaveFields(rest, Escaped, [], row);
      RecordsHaveFields(rest, Plain, field + [c], row);
    }
  }

  // ----- The export

  datatype AuditItem = AuditItem(occurredAt: string, actorName: string, action: string, traceId: string)

  function Row(item: AuditItem): seq<string> { [item.occurredAt, item.actorName, item.action, item.traceId] }

  function Rows(audit: seq<AuditItem>): (r: seq<seq<string>>)
    ensures |r| == |audit| && forall k :: 0 <= k < |r| ==> r[k] == Row(audit[k])
  {
    if audit == [] then [] else [Row(audit[0])] + Rows(audit[1..])
  }

  function Header(): (r: seq<string>)
    ensures r != []
  {
    ["occurred_at", "actor", "action", "trace_id"]
  }

  function Headed(header: seq<string>, audit: seq<AuditItem>): seq<seq<string>> { [header] + Rows(audit) }

  function ExportAudit(audit: seq<AuditItem>): string { Write(Headed(Header(), audit)) }

  lemma RowsAreInjective(a: seq<AuditItem>, b: seq<AuditItem>)
    requires Rows(a) == Rows(b)
    ensures a == b
  {
    forall k | 0 <= k < |a| ensures a[k] == b[k] {
      RowIsInjective(a[k], b[k]);
    }
  }

  lemma RowIsInjective(a: AuditItem, b: AuditItem)
    requires Row(a) == Row(b)
    ensures a == b
  {
    assert Row(a)[0] == Row(b)[0] && Row(a)[1] == Row(b)[1] && Row(a)[2] == Row(b)[2] && Row(a)[3] == Row(b)[3];
  }

  lemma HeadedReadsBack(header: seq<string>, audit: seq<AuditItem>)
    requires header != []
    ensures Read(Write(Headed(header, audit))) == Some(Headed(header, audit))
  {
    forall k | 0 <= k < |Headed(header, audit)| ensures Headed(header, audit)[k] != [] {
      if k > 0 {
        assert Headed(header, audit)[k] == Row(audit[k - 1]);
      }
    }
    WrittenRowsReadBack(Headed(header, audit));
  }

  /** The export reads back as the header and one record per item. */
  lemma ExportReadsBack(audit: seq<AuditItem>)
    ensures Read(ExportAudit(audit)) == Some(Headed(Header(), audit))
    ensures Header() == ["occurred_at", "actor", "action", "trace_id"]
  {
    HeadedReadsBack(Header(), audit);
  }

  lemma HeadedIsInjective(header: seq<string>, a: seq<AuditItem>, b: seq<AuditItem>)
    requires Headed(header, a) == Headed(header, b)
    ensures a == b
  {
    assert Rows(a) == Headed(header, a)[1..] == Headed(header, b)[1..] == Rows(b);
    RowsAreInjective(a, b);
  }

  /** Distinct audit lists give distinct files. */
  lemma DistinctAuditsGiveDistinctFiles(a: seq<AuditItem>, b: seq<AuditItem>)
    requires a != b
    ensures ExportAudit(a) != ExportAudit(b)
  {
    if ExportAudit(a) == ExportAudit(b) {
      ExportReadsBack(a);
      ExportReadsBack(b);
      HeadedIsInjective(Header(), a, b);
    }
  }
}
