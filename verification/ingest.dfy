/**
 The upload ingestor of backend/server.py (`process_csv_excel_file`): it turns the bytes of
 an uploaded CSV or spreadsheet into the ordered list of normalised usernames of one
 column, or refuses the upload with HTTP 400.

 Decoding bytes as text and parsing a table are done by pandas and Python's codecs; here
 they are the abstract partial functions of a `Readers` value. A table is its list of
 columns, each a header name with its cells top to bottom; a missing cell is `None`.
 */
module Ingest {
  import opened Results
  import opened Seqs
  import Normalizer

  type Bytes = seq<bv8>

  /** The text encodings tried for a CSV upload. */
  datatype Encoding = Utf8 | Utf8Sig | Latin1 | Cp1252

  /** The encodings in the order they are tried. */
  const EncodingOrder: seq<Encoding> := [Utf8, Utf8Sig, Latin1, Cp1252]

  /** One column of an uploaded table: its header name and its cells, with `None` for an empty or NaN cell. */
  datatype Column = Column(name: string, cells: seq<Option<string>>)

  type Table = seq<Column>

  /**
   The external decoders and readers: `decode(e, b)` is `b.decode(e)`, `None` when it
   raises `UnicodeDecodeError`; `readCsv` and `readExcel` are `pd.read_csv` and
   `pd.read_excel`, `None` when they raise.
   */
  datatype Readers = Readers(
    decode: (Encoding, Bytes) -> Option<string>,
    readCsv: string -> Option<Table>,
    readExcel: Bytes -> Option<Table>)

  /** An uploaded file: its bytes and its declared media type, absent when the client sent none. */
  datatype Upload = Upload(content: Bytes, contentType: Option<string>)

  /** The header names considered as the username column, in order of preference. */
  const UsernameColumns: seq<string> :=
    ["username", "kullanici_adi", "kullan\U{131}c\U{131}_ad\U{131}", "user", "name", "isim"]

  /** ASCII lowercasing, enough to find the letters `csv` in a media type. */
  function AsciiLower(s: string): (r: string)
    ensures |r| == |s|
    ensures forall i :: 0 <= i < |s| ==> r[i] == if 'A' <= s[i] <= 'Z' then (s[i] as int + 32) as char else s[i]
  {
    if s == [] then [] else [if 'A' <= s[0] <= 'Z' then (s[0] as int + 32) as char else s[0]] + AsciiLower(s[1..])
  }

  /** `needle` occurs in `s` starting at position `i`. */
  predicate OccursAt(s: string, needle: string, i: nat) {
    i + |needle| <= |s| && s[i..i + |needle|] == needle
  }

  /** `needle in s` on Python strings. */
  predicate Contains(s: string, needle: string) {
    exists i: nat | i <= |s| :: OccursAt(s, needle, i)
  }

  /** A media type is treated as CSV when it starts with `text/csv` or mentions `csv` in any case; anything else is read as a spreadsheet. */
  predicate IsCsvType(contentType: string) {
    (|"text/csv"| <= |contentType| && contentType[..|"text/csv"|] == "text/csv")
    || Contains(AsciiLower(contentType), "csv")
  }

  /** The `text/csv` prefix test adds nothing: a media type is CSV exactly when it mentions `csv` in any case. */
  lemma CsvTypeByMention(contentType: string)
    ensures IsCsvType(contentType) <==> Contains(AsciiLower(contentType), "csv")
  {
    if |"text/csv"| <= |contentType| && contentType[..|"text/csv"|] == "text/csv" {
      var lowered := AsciiLower(contentType);
      assert contentType[5] == 'c' && contentType[6] == 's' && contentType[7] == 'v';
      assert lowered[5..8] == "csv";
      assert OccursAt(lowered, "csv", 5);
    }
  }

  /**
   Tries the candidate encodings in order and returns the position of the first that
   decodes `content`, with the decoded text.
   */
  function FirstDecoding(decode: (Encoding, Bytes) -> Option<string>, content: Bytes, candidates: seq<Encoding>)
    : (r: Option<(nat, string)>)
    ensures r.Some? ==> r.value.0 < |candidates| && decode(candidates[r.value.0], content) == Some(r.value.1)
    ensures r.Some? ==> forall j :: 0 <= j < r.value.0 ==> decode(candidates[j], content).None?
    ensures r.None? <==> forall j :: 0 <= j < |candidates| ==> decode(candidates[j], content).None?
  {
    if candidates == [] then None
    else match decode(candidates[0], content)
      case Some(text) => Some((0, text))
      case None =>
        match FirstDecoding(decode, content, candidates[1..])
        case None => None
        case Some((k, text)) => Some((k + 1, text))
  }

  /** When the latin1 decoder accepts every byte string, as Python's does, the encoding failure cannot happen. */
  lemma Latin1MakesDecodingTotal(decode: (Encoding, Bytes) -> Option<string>, content: Bytes)
    requires decode(Latin1, content).Some?
    ensures FirstDecoding(decode, content, EncodingOrder).Some?
    ensures FirstDecoding(decode, content, EncodingOrder).value.0 <= 2
  {
    assert EncodingOrder[2] == Latin1;
  }

  /** Reads the upload into a table: CSV through the first working encoding, anything else as a spreadsheet. */
  function ReadTable(upload: Upload, readers: Readers): (r: Result<Table>)
    ensures r.Err? ==> r.failure.status == BadRequest
    ensures upload.contentType.None? ==> r.Err? && r.failure.reason == MissingContentType
    ensures upload.contentType.Some? && IsCsvType(upload.contentType.value) ==>
      (r.Err? && r.failure.reason == Undecodable <==>
       forall e :: e in EncodingOrder ==> readers.decode(e, upload.content).None?)
    ensures (upload.contentType.Some? && IsCsvType(upload.contentType.value) &&
             FirstDecoding(readers.decode, upload.content, EncodingOrder).Some?) ==>
      r == (match readers.readCsv(FirstDecoding(readers.decode, upload.content, EncodingOrder).value.1)
            case Some(table) => Ok(table)
            case None => Err(Failure(BadRequest, Unreadable)))
    ensures upload.contentType.Some? && !IsCsvType(upload.contentType.value) ==>
      r == (match readers.readExcel(upload.content)
            case Some(table) => Ok(table)
            case None => Err(Failure(BadRequest, Unreadable)))
  {
    match upload.contentType
    case None => Err(Failure(BadRequest, MissingContentType))
    case Some(contentType) =>
      if IsCsvType(contentType) then
        match FirstDecoding(readers.decode, upload.content, EncodingOrder)
        case None => Err(Failure(BadRequest, Undecodable))
        case Some((_, text)) =>
          match readers.readCsv(text)
          case Some(table) => Ok(table)
          case None => Err(Failure(BadRequest, Unreadable))
      else
        match readers.readExcel(upload.content)
        case Some(table) => Ok(table)
        case None => Err(Failure(BadRequest, Unreadable))
  }

  function Names(table: Table): (names: seq<string>)
    ensures |names| == |table|
    ensures forall i :: 0 <= i < |table| ==> names[i] == table[i].name
  {
    if table == [] then [] else [table[0].name] + Names(table[1..])
  }

  /** The position in `candidates` of the first candidate present in `names`, if any. */
  function FirstPresent(candidates: seq<string>, names: seq<string>): (k: Option<nat>)
    ensures k.Some? ==> k.value < |candidates| && candidates[k.value] in names
    ensures k.Some? ==> forall j :: 0 <= j < k.value ==> candidates[j] !in names
    ensures k.None? <==> forall j :: 0 <= j < |candidates| ==> candidates[j] !in names
  {
    if candidates == [] then None
    else if candidates[0] in names then Some(0)
    else match FirstPresent(candidates[1..], names)
      case None => None
      case Some(k) => Some(k + 1)
  }

  /**
   The username column: the first name of `UsernameColumns` that appears exactly
   (case-sensitively) among the header names, or else the first column; none for a table
   without columns.
   */
  function SelectColumn(names: seq<string>): (r: Option<string>)
    ensures r.Some? <==> |names| > 0
    ensures r.Some? ==> r.value in names
    ensures (exists k :: 0 <= k < |UsernameColumns| && UsernameColumns[k] in names) ==>
      exists k :: 0 <= k < |UsernameColumns| && r == Some(UsernameColumns[k]) &&
        forall j :: 0 <= j < k ==> UsernameColumns[j] !in names
    ensures (forall k :: 0 <= k < |UsernameColumns| ==> UsernameColumns[k] !in names) ==>
      r == if names == [] then None else Some(names[0])
  {
    match FirstPresent(UsernameColumns, names)
    case Some(k) => Some(UsernameColumns[k])
    case None => if names == [] then None else Some(names[0])
  }

  /** `df[name]`: the cells of the first column with that header name. */
  function CellsOf(table: Table, name: string): (cells: seq<Option<string>>)
    ensures name in Names(table) ==> exists i :: 0 <= i < |table| && table[i].name == name && cells == table[i].cells
  {
    if table == [] then []
    else if table[0].name == name then table[0].cells
    else CellsOf(table[1..], name)
  }

  /** The number of cells that hold a value. */
  function Present(cells: seq<Option<string>>): nat {
    if cells == [] then 0 else (if cells[0].Some? then 1 else 0) + Present(cells[1..])
  }

  /** The key of every cell, in row order; an absent cell has the empty key. */
  function CellKeys(cells: seq<Option<string>>): (keys: seq<string>)
    ensures |keys| == |cells|
    ensures forall i :: 0 <= i < |cells| ==> keys[i] == Normalizer.Normalize(cells[i])
  {
    if cells == [] then [] else [Normalizer.Normalize(cells[0])] + CellKeys(cells[1..])
  }

  /** The non-empty keys of the present cells, in row order, duplicates kept. */
  function Usernames(cells: seq<Option<string>>): (keys: seq<string>)
    ensures |keys| <= |cells|
    ensures forall i :: 0 <= i < |keys| ==> Normalizer.IsUsername(keys[i])
  {
    Filter(Normalizer.IsUsername, CellKeys(cells))
  }

  lemma {:induction false} CellKeysAppend(a: seq<Option<string>>, b: seq<Option<string>>)
    ensures CellKeys(a + b) == CellKeys(a) + CellKeys(b)
  {
    if a == [] {
      assert a + b == b;
    } else {
      assert (a + b)[0] == a[0] && (a + b)[1..] == a[1..] + b;
      CellKeysAppend(a[1..], b);
      var head := [Normalizer.Normalize(a[0])];
      calc {
        CellKeys(a + b);
        head + CellKeys(a[1..] + b);
        head + (CellKeys(a[1..]) + CellKeys(b));
        (head + CellKeys(a[1..])) + CellKeys(b);
      }
    }
  }

  /** Extraction works row block by row block, so row order and duplicates are kept. */
  lemma UsernamesAppend(a: seq<Option<string>>, b: seq<Option<string>>)
    ensures Usernames(a + b) == Usernames(a) + Usernames(b)
  {
    CellKeysAppend(a, b);
    FilterAppend(Normalizer.IsUsername, CellKeys(a), CellKeys(b));
  }

  /** At most one username per present cell: absent cells contribute nothing. */
  lemma {:induction false} UsernamesAtMostPresent(cells: seq<Option<string>>)
    ensures |Usernames(cells)| <= Present(cells)
  {
    if cells != [] {
      assert cells == [cells[0]] + cells[1..];
      UsernamesAppend([cells[0]], cells[1..]);
      UsernamesAtMostPresent(cells[1..]);
      assert CellKeys([cells[0]]) == [Normalizer.Normalize(cells[0])];
      assert Present(cells) == (if cells[0].Some? then 1 else 0) + Present(cells[1..]);
    }
  }

  /** A key is extracted exactly when some present cell normalises to it and it is not empty. */
  lemma UsernamesMembership(cells: seq<Option<string>>, key: string)
    ensures key in Usernames(cells) <==>
      key != "" && exists i :: 0 <= i < |cells| && cells[i].Some? && Normalizer.Normalize(cells[i]) == key
  {
    var keys := CellKeys(cells);
    if key in keys {
      var i :| 0 <= i < |keys| && keys[i] == key;
      assert Normalizer.Normalize(cells[i]) == key;
    }
    if exists i :: 0 <= i < |cells| && cells[i].Some? && Normalizer.Normalize(cells[i]) == key {
      var i :| 0 <= i < |cells| && cells[i].Some? && Normalizer.Normalize(cells[i]) == key;
      assert keys[i] == key;
    }
  }

  /**
   `process_csv_excel_file`: read the table, choose the username column, normalise its
   present cells and keep the non-empty keys; refuse with HTTP 400 when anything fails or
   no key remains.
   */
  function IngestUpload(upload: Upload, readers: Readers): (r: Result<seq<string>>)
    ensures r.Err? ==> r.failure.status == BadRequest
    ensures r.Ok? ==> |r.value| > 0 && forall i :: 0 <= i < |r.value| ==> Normalizer.IsUsername(r.value[i])
    ensures r.Ok? <==>
      ReadTable(upload, readers).Ok? && |ReadTable(upload, readers).value| > 0 &&
      Usernames(CellsOf(ReadTable(upload, readers).value,
                        SelectColumn(Names(ReadTable(upload, readers).value)).value)) != []
  {
    match ReadTable(upload, readers)
    case Err(failure) => Err(failure)
    case Ok(table) =>
      match SelectColumn(Names(table))
      case None => Err(Failure(BadRequest, NoColumns))
      case Some(name) =>
        var keys := Usernames(CellsOf(table, name));
        if keys == [] then Err(Failure(BadRequest, NoUsernames)) else Ok(keys)
  }

  /** A successful ingest returns the keys of the chosen column of the table the readers produced. */
  lemma IngestTakesChosenColumn(upload: Upload, readers: Readers)
    requires IngestUpload(upload, readers).Ok?
    ensures exists table :: (ReadTable(upload, readers) == Ok(table) && |table| > 0 &&
      var name := SelectColumn(Names(table)).value;
      name in Names(table) && IngestUpload(upload, readers).value == Usernames(CellsOf(table, name)))
  {
    var table := ReadTable(upload, readers).value;
    assert ReadTable(upload, readers) == Ok(table);
  }
}
