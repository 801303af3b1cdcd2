/** CSV field quoting as the export script writes it (`escapeForCsv`): a
    field holding a double quote, a comma or a line feed is enclosed in double
    quotes with every inner double quote doubled, in the manner of rules 6 and
    7 of section 2 of RFC 4180. A reader for such records is defined alongside
    so that the quoting can be shown to lose nothing. */
module Csv {
  import opened Js

  /** `/[",\n]/.test(s)` */
  predicate NeedsQuotes(s: string) {
    '"' in s || ',' in s || '\n' in s
  }

  /** `s.replace(/"/g, '""')` */
  function DoubleQuotes(s: string): (r: string)
    ensures |r| >= |s|
    ensures '"' !in s ==> r == s
    ensures ',' in r <==> ',' in s
  {
    if s == [] then []
    else (if s[0] == '"' then "\"\"" else [s[0]]) + DoubleQuotes(s[1..])
  }

  /** Reads back text in which every double quote is doubled; None when a
      double quote stands alone. */
  function Undouble(s: string): Option<string> {
    if s == [] then Some([])
    else if s[0] != '"' then
      match Undouble(s[1..])
      case Some(rest) => Some([s[0]] + rest)
      case None => None
    else if |s| >= 2 && s[1] == '"' then
      match Undouble(s[2..])
      case Some(rest) => Some("\"" + rest)
      case None => None
    else None
  }

  lemma {:induction false} UndoubleDoubleQuotes(s: string)
    ensures Undouble(DoubleQuotes(s)) == Some(s)
  {
    if s != [] {
      UndoubleDoubleQuotes(s[1..]);
      var r := DoubleQuotes(s);
      if s[0] == '"' {
        assert r[0] == '"' && r[1] == '"' && r[2..] == DoubleQuotes(s[1..]);
        assert "\"" + s[1..] == s;
      } else {
        assert r[0] == s[0] && r[1..] == DoubleQuotes(s[1..]);
        assert [s[0]] + s[1..] == s;
      }
    }
  }

  /** The quoting step of `escapeForCsv` on a string */
  function QuoteField(s: string): (r: string)
    ensures !NeedsQuotes(s) ==> r == s
    ensures NeedsQuotes(s) ==>
      && |r| >= 2 && r[0] == '"' && r[|r| - 1] == '"'
      && Undouble(r[1..|r| - 1]) == Some(s)
  {
    if NeedsQuotes(s) then
      var r := "\"" + DoubleQuotes(s) + "\"";
      assert r[1..|r| - 1] == DoubleQuotes(s);
      UndoubleDoubleQuotes(s);
      r
    else s
  }

  /** `escapeForCsv(value)`: null and undefined give the empty field, every
      other value is quoted as its `String(value)` text. */
  function EscapeForCsv(v: Value): (r: string)
    ensures Nullish(v) ==> r == ""
    ensures !Nullish(v) && !NeedsQuotes(ToJsString(v)) ==> r == ToJsString(v)
    ensures !Nullish(v) && NeedsQuotes(ToJsString(v)) ==>
      && |r| >= 2 && r[0] == '"' && r[|r| - 1] == '"'
      && Undouble(r[1..|r| - 1]) == Some(ToJsString(v))
  {
    if Nullish(v) then "" else QuoteField(ToJsString(v))
  }

  /** `cells.join(",")` */
  function Join(cells: seq<string>): string {
    if cells == [] then ""
    else if |cells| == 1 then cells[0]
    else cells[0] + "," + Join(cells[1..])
  }

  // ---------------------------------------------------------------------
  // Reading a record back

  /** Reads an unquoted field up to the next comma or the end of the text;
      a double quote or a line feed inside it is an error. Returns the field
      and the text that follows it. */
  function ReadBare(s: string): (r: Option<(string, string)>)
    ensures r.Some? ==> |r.value.1| <= |s| && (r.value.1 == [] || r.value.1[0] == ',')
  {
    if s == [] then Some(([], []))
    else if s[0] == ',' then Some(([], s))
    else if s[0] == '"' || s[0] == '\n' then None
    else
      match ReadBare(s[1..])
      case Some((f, rest)) => Some(([s[0]] + f, rest))
      case None => None
  }

  /** Reads a quoted field whose opening quote has been consumed, up to the
      closing quote, which must be followed by a comma or the end. */
  function ReadQuoted(s: string): (r: Option<(string, string)>)
    ensures r.Some? ==> |r.value.1| < |s| && (r.value.1 == [] || r.value.1[0] == ',')
  {
    if s == [] then None
    else if s[0] == '"' then
      if |s| >= 2 && s[1] == '"' then
        match ReadQuoted(s[2..])
        case Some((f, rest)) => Some(("\"" + f, rest))
        case None => None
      else if |s| == 1 || s[1] == ',' then Some(([], s[1..]))
      else None
    else
      match ReadQuoted(s[1..])
      case Some((f, rest)) => Some(([s[0]] + f, rest))
      case None => None
  }

  function ReadField(s: string): (r: Option<(string, string)>)
    ensures r.Some? ==> |r.value.1| <= |s| && (r.value.1 == [] || r.value.1[0] == ',')
  {
    if s != [] && s[0] == '"' then ReadQuoted(s[1..]) else ReadBare(s)
  }

  /** Splits one line into its fields, undoing the quoting. */
  function ReadRecord(s: string): Option<seq<string>>
    decreases |s|
  {
    match ReadField(s)
    case None => None
    case Some((f, rest)) =>
      if rest == [] then Some([f])
      else
        match ReadRecord(rest[1..])
        case Some(fs) => Some([f] + fs)
        case None => None
  }

  lemma {:induction false} ReadBareRoundTrip(s: string, suffix: string)
    requires !NeedsQuotes(s)
    requires suffix == [] || suffix[0] == ','
    ensures ReadBare(s + suffix) == Some((s, suffix))
  {
    var t := s + suffix;
    if s == [] {
      assert t == suffix;
    } else {
      assert t[0] == s[0] && s[0] in s;
      assert t[1..] == s[1..] + suffix;
      assert !NeedsQuotes(s[1..]) by {
        assert forall c :: c in s[1..] ==> c in s;
      }
      ReadBareRoundTrip(s[1..], suffix);
      assert ReadBare(t[1..]) == Some((s[1..], suffix));
      assert ReadBare(t) == Some(([s[0]] + s[1..], suffix));
      assert [s[0]] + s[1..] == s;
    }
  }

  lemma {:induction false} ReadQuotedRoundTrip(s: string, suffix: string)
    requires suffix == [] || suffix[0] == ','
    ensures ReadQuoted(DoubleQuotes(s) + "\"" + suffix) == Some((s, suffix))
  {
    var t := DoubleQuotes(s) + "\"" + suffix;
    if s == [] {
      assert t == "\"" + suffix;
      assert t[1..] == suffix;
    } else if s[0] == '"' {
      assert t == "\"\"" + (DoubleQuotes(s[1..]) + "\"" + suffix);
      ReadQuotedRoundTrip(s[1..], suffix);
      assert t[2..] == DoubleQuotes(s[1..]) + "\"" + suffix;
      assert "\"" + s[1..] == s;
    } else {
      assert t == [s[0]] + (DoubleQuotes(s[1..]) + "\"" + suffix);
      ReadQuotedRoundTrip(s[1..], suffix);
      assert t[0] == s[0] && t[1..] == DoubleQuotes(s[1..]) + "\"" + suffix;
      assert ReadQuoted(t) == Some(([s[0]] + s[1..], suffix));
      assert [s[0]] + s[1..] == s;
    }
  }

  /** A quoted field followed by a comma or the end reads back as the
      original text, the suffix untouched. */
  lemma ReadFieldRoundTrip(s: string, suffix: string)
    requires suffix == [] || suffix[0] == ','
    ensures ReadField(QuoteField(s) + suffix) == Some((s, suffix))
  {
    if NeedsQuotes(s) {
      var t := "\"" + (DoubleQuotes(s) + "\"" + suffix);
      assert QuoteField(s) + suffix == t;
      assert t[1..] == DoubleQuotes(s) + "\"" + suffix;
      ReadQuotedRoundTrip(s, suffix);
    } else {
      assert QuoteField(s) == s;
      ReadBareField(s, suffix);
    }
  }

  lemma ReadBareField(s: string, suffix: string)
    requires !NeedsQuotes(s)
    requires suffix == [] || suffix[0] == ','
    ensures ReadField(s + suffix) == Some((s, suffix))
  {
    ReadBareRoundTrip(s, suffix);
    if s != [] {
      assert (s + suffix)[0] == s[0] && s[0] in s;
    } else {
      assert s + suffix == suffix;
    }
  }

  function QuoteAll(fields: seq<string>): (r: seq<string>)
    ensures |r| == |fields|
    ensures forall i :: 0 <= i < |r| ==> r[i] == QuoteField(fields[i])
  {
    if fields == [] then [] else [QuoteField(fields[0])] + QuoteAll(fields[1..])
  }

  /** Joining quoted fields with commas and reading the line back gives the
      fields: no text a field holds can break the record apart. */
  lemma {:induction false} RecordRoundTrip(fields: seq<string>)
    requires |fields| >= 1
    ensures ReadRecord(Join(QuoteAll(fields))) == Some(fields)
  {
    var cells := QuoteAll(fields);
    if |fields| == 1 {
      ReadFieldRoundTrip(fields[0], []);
      assert Join(cells) == QuoteField(fields[0]) + [] == QuoteField(fields[0]);
      assert ReadField(Join(cells)) == Some((fields[0], []));
      assert fields == [fields[0]];
    } else {
      var rest := Join(cells[1..]);
      assert cells[1..] == QuoteAll(fields[1..]);
      RecordRoundTrip(fields[1..]);
      assert Join(cells) == QuoteField(fields[0]) + ("," + rest);
      ReadFieldRoundTrip(fields[0], "," + rest);
      assert ("," + rest)[1..] == rest;
      assert fields == [fields[0]] + fields[1..];
    }
  }

  // ---------------------------------------------------------------------
  // Rows of values

  /** The text a cell holds once read back: nothing for null and undefined,
      `String(value)` otherwise */
  function CellText(v: Value): string {
    if Nullish(v) then "" else ToJsString(v)
  }

  function EscapeAll(vs: seq<Value>): (r: seq<string>)
    ensures |r| == |vs|
    ensures forall i :: 0 <= i < |vs| ==> r[i] == EscapeForCsv(vs[i])
  {
    if vs == [] then [] else [EscapeForCsv(vs[0])] + EscapeAll(vs[1..])
  }

  function CellTexts(vs: seq<Value>): (r: seq<string>)
    ensures |r| == |vs|
    ensures forall i :: 0 <= i < |vs| ==> r[i] == CellText(vs[i])
  {
    if vs == [] then [] else [CellText(vs[0])] + CellTexts(vs[1..])
  }

  /** A row written as `cells.map(escapeForCsv).join(",")` reads back as the
      text of each of its cells. */
  lemma EscapedRowRoundTrip(vs: seq<Value>)
    requires |vs| >= 1
    ensures ReadRecord(Join(EscapeAll(vs))) == Some(CellTexts(vs))
  {
    var texts := CellTexts(vs);
    assert !NeedsQuotes("");
    assert EscapeAll(vs) == QuoteAll(texts);
    RecordRoundTrip(texts);
  }
}
