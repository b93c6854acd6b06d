/** The byte stream behind the content identity, and its decoder. A character stands for
    one byte; text is its encoded bytes; the digest is the stream itself. */
module ContentIdentity {
  import opened Outcome

  /** A stored value. The hexadecimal text of a real never holds a semicolon. */
  datatype Value =
    | Null
    | Integer(number: int)
    | Real(hex: string)
    | Text(data: string)
    | Blob(data: string)

  predicate Storable(v: Value) {
    v.Real? ==> ';' !in v.hex
  }

  type Row = seq<Value>

  predicate StorableRow(row: Row) {
    forall i :: 0 <= i < |row| ==> Storable(row[i])
  }

  datatype Table = Table(name: string, rows: seq<Row>)

  predicate StorableTable(t: Table) {
    forall i :: 0 <= i < |t.rows| ==> StorableRow(t.rows[i])
  }

  // --- Decimal text ----------------------------------------------------------------------

  predicate IsDigit(c: char) {
    '0' <= c <= '9'
  }

  predicate AllDigits(s: string) {
    forall c :: c in s ==> IsDigit(c)
  }

  function Digit(d: nat): char
    requires d < 10
  {
    "0123456789"[d]
  }

  function Decimal(n: nat): (s: string)
    ensures s != [] && AllDigits(s)
  {
    if n < 10 then [Digit(n)] else Decimal(n / 10) + [Digit(n % 10)]
  }

  function Signed(i: int): string {
    if i < 0 then "-" + Decimal(-i) else Decimal(i)
  }

  lemma DigitsPrefix(s: string)
    requires AllDigits(s) && s != []
    ensures AllDigits(s[..|s| - 1])
  {
    forall c | c in s[..|s| - 1] ensures IsDigit(c) {
      assert c in s;
    }
  }

  function ParseDecimal(s: string): nat
    requires AllDigits(s)
  {
    if s == [] then 0
    else
      var last := s[|s| - 1];
      assert last in s && IsDigit(last);
      assert AllDigits(s[..|s| - 1]) by { DigitsPrefix(s); }
      10 * ParseDecimal(s[..|s| - 1]) + (last as int - '0' as int)
  }

  function ParseSigned(s: string): Option<int> {
    if s != [] && s[0] == '-' then
      if AllDigits(s[1..]) then Some(0 - ParseDecimal(s[1..])) else None
    else if AllDigits(s) then Some(0 + ParseDecimal(s))
    else None
  }

  lemma {:induction false} DecimalParses(n: nat)
    ensures ParseDecimal(Decimal(n)) == n
  {
    var s := Decimal(n);
    var d := n % 10;
    assert s[|s| - 1] == Digit(d);
    assert Digit(d) as int - '0' as int == d;
    if n >= 10 {
      DecimalParses(n / 10);
      assert s[..|s| - 1] == Decimal(n / 10);
    } else {
      assert s[..|s| - 1] == [];
    }
  }

  lemma SignedParses(i: int)
    ensures ParseSigned(Signed(i)) == Some(i)
    ensures ';' !in Signed(i)
  {
    hide Decimal, ParseDecimal;
    var digits := Decimal(if i < 0 then -i else i);
    DecimalParses(if i < 0 then -i else i);
    assert IsDigit(digits[0]) by { assert digits[0] in digits; }
    assert ("-" + digits)[1..] == digits;
    assert ';' !in digits by { assert !IsDigit(';'); }
  }

  // --- Encoding ----------------------------------------------------------------------------

  /** Data behind its length. */
  function Counted(data: string): string {
    Decimal(|data|) + ":" + data + ";"
  }

  function Encode(v: Value): string {
    match v
    case Null => "N;"
    case Integer(i) => "i" + Signed(i) + ";"
    case Real(hex) => "r" + hex + ";"
    case Text(data) => "t" + Counted(data)
    case Blob(data) => "b" + Counted(data)
  }

  function EncodeValues(row: Row): string {
    if row == [] then "" else Encode(row[0]) + EncodeValues(row[1..])
  }

  function EncodeRow(row: Row): string {
    "(" + EncodeValues(row) + ")"
  }

  function EncodeRows(rows: seq<Row>): string {
    if rows == [] then "" else EncodeRow(rows[0]) + EncodeRows(rows[1..])
  }

  function Closing(count: nat): string {
    "#" + Decimal(count) + ";"
  }

  function EncodeTable(t: Table): string {
    Encode(Text(t.name)) + EncodeRows(t.rows) + Closing(|t.rows|)
  }

  const HEADER := "flight-recorder public demo content identity v1;"

  function EncodeTables(tables: seq<Table>): string {
    if tables == [] then "" else EncodeTable(tables[0]) + EncodeTables(tables[1..])
  }

  /** The whole stream of a snapshot. */
  function Stream(tables: seq<Table>): string {
    HEADER + EncodeTables(tables)
  }

  /** The running digest: what has been fed to it so far. */
  class Digest {
    var fed: string

    constructor ()
      ensures fed == ""
    {
      fed := "";
    }

    method Update(bytes: string)
      modifies this
      ensures fed == old(fed) + bytes
    {
      fed := fed + bytes;
    }
  }

  lemma {:induction false} ValuesAppend(row: Row, v: Value)
    ensures EncodeValues(row + [v]) == EncodeValues(row) + Encode(v)
  {
    hide Encode;
    if row == [] {
      assert [v][1..] == [];
    } else {
      ValuesAppend(row[1..], v);
      assert (row + [v])[1..] == row[1..] + [v];
    }
  }

  lemma {:induction false} RowsAppend(rows: seq<Row>, row: Row)
    ensures EncodeRows(rows + [row]) == EncodeRows(rows) + EncodeRow(row)
  {
    hide EncodeRow;
    if rows == [] {
      assert [row][1..] == [];
    } else {
      RowsAppend(rows[1..], row);
      assert (rows + [row])[1..] == rows[1..] + [row];
    }
  }

  lemma {:induction false} TablesAppend(tables: seq<Table>, t: Table)
    ensures EncodeTables(tables + [t]) == EncodeTables(tables) + EncodeTable(t)
  {
    hide EncodeTable;
    if tables == [] {
      assert [t][1..] == [];
    } else {
      TablesAppend(tables[1..], t);
      assert (tables + [t])[1..] == tables[1..] + [t];
    }
  }

  lemma Associates(a: string, b: string, c: string)
    ensures (a + b) + c == a + (b + c)
  {
  }

  /** Feeds one row between parentheses. */
  method HashRow(digest: Digest, row: Row)
    modifies digest
    ensures digest.fed == old(digest.fed) + EncodeRow(row)
  {
    hide Encode, EncodeValues;
    ghost var start := digest.fed;
    digest.Update("(");
    NoValues();
    for k := 0 to |row|
      invariant digest.fed == start + ("(" + EncodeValues(row[..k]))
    {
      digest.Update(Encode(row[k]));
      assert row[..k + 1] == row[..k] + [row[k]];
      ValuesAppend(row[..k], row[k]);
      Associates(start, "(" + EncodeValues(row[..k]), Encode(row[k]));
      Associates("(", EncodeValues(row[..k]), Encode(row[k]));
    }
    assert row[..|row|] == row;
    digest.Update(")");
    Associates(start, "(" + EncodeValues(row), ")");
  }

  lemma NoValues()
    ensures EncodeValues([]) == "" && EncodeRows([]) == "" && EncodeTables([]) == ""
  {
  }

  /** Feeds one table: its label, its rows in order, and how many there were. */
  method HashRows(digest: Digest, name: string, rows: seq<Row>)
    modifies digest
    ensures digest.fed == old(digest.fed) + EncodeTable(Table(name, rows))
  {
    hide Encode, EncodeRow, EncodeRows, Decimal;
    ghost var start := digest.fed;
    var opening := Encode(Text(name));
    digest.Update(opening);
    NoValues();
    var count := 0;
    for r := 0 to |rows|
      invariant count == r && digest.fed == start + (opening + EncodeRows(rows[..r]))
    {
      HashRow(digest, rows[r]);
      assert rows[..r + 1] == rows[..r] + [rows[r]];
      RowsAppend(rows[..r], rows[r]);
      Associates(start, opening + EncodeRows(rows[..r]), EncodeRow(rows[r]));
      Associates(opening, EncodeRows(rows[..r]), EncodeRow(rows[r]));
      count := count + 1;
    }
    assert rows[..|rows|] == rows;
    digest.Update("#" + Decimal(count) + ";");
    Associates(start, opening + EncodeRows(rows), Closing(count));
  }

  /** Feeds every table in its declared order. */
  method Identify(tables: seq<Table>) returns (digest: Digest)
    ensures fresh(digest) && digest.fed == Stream(tables)
  {
    hide EncodeTable, EncodeTables;
    digest := new Digest();
    digest.Update(HEADER);
    NoValues();
    for i := 0 to |tables|
      invariant fresh(digest) && digest.fed == HEADER + EncodeTables(tables[..i])
    {
      HashRows(digest, tables[i].name, tables[i].rows);
      assert tables[..i + 1] == tables[..i] + [tables[i]];
      TablesAppend(tables[..i], tables[i]);
      Associates(HEADER, EncodeTables(tables[..i]), EncodeTable(tables[i]));
    }
    assert tables[..|tables|] == tables;
  }

  // --- Decoding -----------------------------------------------------------------------------

  /** The position of the first occurrence of c. */
  function Until(s: string, c: char): (n: nat)
    ensures n <= |s| && (n < |s| ==> s[n] == c) && forall i :: 0 <= i < n ==> s[i] != c
  {
    if s == [] || s[0] == c then 0 else 1 + Until(s[1..], c)
  }

  /** A separator that does not occur before it splits the text where it stands. */
  lemma {:induction false} SplitAt(a: string, c: char, rest: string)
    requires c !in a
    ensures var s := a + [c] + rest;
      Until(s, c) == |a| < |s| && s[..|a|] == a && s[|a| + 1..] == rest
  {
    var s := a + [c] + rest;
    if a != [] {
      SplitAt(a[1..], c, rest);
      assert s[1..] == a[1..] + [c] + rest;
      assert a[0] in a;
    }
  }

  /** The length-prefixed data after a 't' or a 'b'. */
  function DecodeData(s: string): Option<(string, string)> {
    var n := Until(s, ':');
    if n == |s| || n == 0 || !AllDigits(s[..n]) then None
    else
      var size := ParseDecimal(s[..n]);
      var body := s[n + 1..];
      if size < |body| && body[size] == ';' then Some((body[..size], body[size + 1..])) else None
  }

  function DecodeValue(s: string): (r: Option<(Value, string)>)
    ensures r.Some? ==> |r.value.1| < |s|
  {
    if s == [] then None
    else
      var tag, tail := s[0], s[1..];
      if tag == 'N' then
        if tail != [] && tail[0] == ';' then Some((Null, tail[1..])) else None
      else if tag == 'i' || tag == 'r' then
        var n := Until(tail, ';');
        if n == |tail| then None
        else if tag == 'r' then Some((Real(tail[..n]), tail[n + 1..]))
        else
          match ParseSigned(tail[..n])
          case Some(i) => Some((Integer(i), tail[n + 1..]))
          case None => None
      else if tag == 't' || tag == 'b' then
        match DecodeData(tail)
        case Some((data, rest)) => Some((if tag == 't' then Text(data) else Blob(data), rest))
        case None => None
      else None
  }

  /** The values up to the closing parenthesis. */
  function DecodeValues(s: string): (r: Option<(Row, string)>)
    ensures r.Some? ==> |r.value.1| < |s|
    decreases |s|
  {
    if s == [] then None
    else if s[0] == ')' then Some(([], s[1..]))
    else
      match DecodeValue(s)
      case None => None
      case Some((v, rest)) =>
        match DecodeValues(rest)
        case None => None
        case Some((row, after)) => Some(([v] + row, after))
  }

  /** The rows up to the count. */
  function DecodeRows(s: string): (r: Option<(seq<Row>, string)>)
    ensures r.Some? ==> |r.value.1| < |s|
    decreases |s|
  {
    if s == [] then None
    else if s[0] == '#' then Some(([], s[1..]))
    else if s[0] != '(' then None
    else
      match DecodeValues(s[1..])
      case None => None
      case Some((row, rest)) =>
        match DecodeRows(rest)
        case None => None
        case Some((rows, after)) => Some(([row] + rows, after))
  }

  function DecodeTable(s: string): (r: Option<(Table, string)>)
    ensures r.Some? ==> |r.value.1| < |s|
  {
    match DecodeValue(s)
    case Some((Text(name), body)) =>
      (match DecodeRows(body)
       case None => None
       case Some((rows, tail)) =>
         var n := Until(tail, ';');
         if n < |tail| && AllDigits(tail[..n]) && ParseDecimal(tail[..n]) == |rows|
         then Some((Table(name, rows), tail[n + 1..]))
         else None)
    case _ => None
  }

  function DecodeTables(s: string): Option<seq<Table>>
    decreases |s|
  {
    if s == [] then Some([])
    else
      match DecodeTable(s)
      case None => None
      case Some((t, rest)) =>
        match DecodeTables(rest)
        case None => None
        case Some(tables) => Some([t] + tables)
  }

  function DecodeStream(s: string): Option<seq<Table>> {
    if HEADER <= s then DecodeTables(s[|HEADER|..]) else None
  }

  // --- The round trip --------------------------------------------------------------------------

  lemma DataRoundTrip(data: string, rest: string)
    ensures DecodeData(Counted(data) + rest) == Some((data, rest))
  {
    hide Decimal, ParseDecimal, Until;
    var size := Decimal(|data|);
    var body := data + ";" + rest;
    DecimalParses(|data|);
    assert Counted(data) + rest == size + [':'] + body;
    SplitAt(size, ':', body);
    assert body[..|data|] == data && body[|data| + 1..] == rest;
  }

  lemma ValueRoundTrip(v: Value, rest: string)
    requires Storable(v)
    ensures DecodeValue(Encode(v) + rest) == Some((v, rest))
  {
    hide Signed, ParseSigned, Counted, DecodeData, Until;
    var s := Encode(v) + rest;
    match v {
      case Null => assert s[1..][1..] == rest;
      case Integer(i) =>
        SignedParses(i);
        assert s[1..] == Signed(i) + [';'] + rest;
        SplitAt(Signed(i), ';', rest);
      case Real(hex) =>
        assert s[1..] == hex + [';'] + rest;
        SplitAt(hex, ';', rest);
      case Text(data) =>
        DataRoundTrip(data, rest);
        assert s[1..] == Counted(data) + rest;
      case Blob(data) =>
        DataRoundTrip(data, rest);
        assert s[1..] == Counted(data) + rest;
    }
  }

  lemma {:induction false} ValuesRoundTrip(row: Row, rest: string)
    requires StorableRow(row)
    ensures DecodeValues(EncodeValues(row) + ")" + rest) == Some((row, rest))
    decreases |row|
  {
    hide DecodeValue, Encode;
    var s := EncodeValues(row) + ")" + rest;
    if row == [] {
      assert s[1..] == rest;
    } else {
      var tail := EncodeValues(row[1..]) + ")" + rest;
      assert s == Encode(row[0]) + tail;
      ValueRoundTrip(row[0], tail);
      ValuesRoundTrip(row[1..], rest);
      TagOpens(row[0], tail);
      assert [row[0]] + row[1..] == row;
    }
  }

  lemma TagOpens(v: Value, rest: string)
    ensures Encode(v) + rest != [] && (Encode(v) + rest)[0] != ')'
  {
  }

  lemma {:induction false} RowsRoundTrip(rows: seq<Row>, rest: string)
    requires forall i :: 0 <= i < |rows| ==> StorableRow(rows[i])
    ensures DecodeRows(EncodeRows(rows) + "#" + rest) == Some((rows, rest))
    decreases |rows|
  {
    hide DecodeValues, EncodeValues, StorableRow;
    var s := EncodeRows(rows) + "#" + rest;
    if rows == [] {
      assert s[1..] == rest;
    } else {
      var tail := EncodeRows(rows[1..]) + "#" + rest;
      assert s[1..] == EncodeValues(rows[0]) + ")" + tail;
      ValuesRoundTrip(rows[0], tail);
      RowsRoundTrip(rows[1..], rest);
      assert [rows[0]] + rows[1..] == rows;
    }
  }

  lemma TableRoundTrip(t: Table, rest: string)
    requires StorableTable(t)
    ensures DecodeTable(EncodeTable(t) + rest) == Some((t, rest))
  {
    hide DecodeValue, DecodeRows, EncodeRows, Encode, StorableRow, ParseDecimal, Until, Decimal;
    var count := Decimal(|t.rows|);
    var tail := count + ";" + rest;
    var body := EncodeRows(t.rows) + "#" + tail;
    assert EncodeTable(t) + rest == Encode(Text(t.name)) + body;
    ValueRoundTrip(Text(t.name), body);
    RowsRoundTrip(t.rows, tail);
    DecimalParses(|t.rows|);
    assert ';' !in count;
    SplitAt(count, ';', rest);
    assert tail == count + [';'] + rest;
  }

  lemma {:induction false} TablesRoundTrip(tables: seq<Table>)
    requires forall i :: 0 <= i < |tables| ==> StorableTable(tables[i])
    ensures DecodeTables(EncodeTables(tables)) == Some(tables)
    decreases |tables|
  {
    hide DecodeTable, EncodeTable, StorableTable;
    if tables != [] {
      var tail := EncodeTables(tables[1..]);
      TableRoundTrip(tables[0], tail);
      TablesRoundTrip(tables[1..]);
      TableNotEmpty(tables[0]);
      assert [tables[0]] + tables[1..] == tables;
    }
  }

  lemma TableNotEmpty(t: Table)
    ensures EncodeTable(t) != []
  {
  }

  /** The decoder recovers every label, row and typed value of a snapshot's stream. */
  lemma StreamRoundTrip(tables: seq<Table>)
    requires forall i :: 0 <= i < |tables| ==> StorableTable(tables[i])
    ensures DecodeStream(Stream(tables)) == Some(tables)
  {
    hide EncodeTables, DecodeTables, StorableTable;
    TablesRoundTrip(tables);
    assert Stream(tables)[|HEADER|..] == EncodeTables(tables);
  }

  /** Two different contents never produce the same stream. */
  lemma StreamsDiffer(a: seq<Table>, b: seq<Table>)
    requires forall i :: 0 <= i < |a| ==> StorableTable(a[i])
    requires forall i :: 0 <= i < |b| ==> StorableTable(b[i])
    ensures Stream(a) == Stream(b) ==> a == b
  {
    hide Stream, DecodeStream, StorableTable;
    StreamRoundTrip(a);
    StreamRoundTrip(b);
  }
}
