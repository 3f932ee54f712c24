/**
 The upload decision flow of the file picker: check the browser-reported
 MIME type against an allow-list, read the file, parse its first sheet,
 reject an empty result, and hand the rows and the keys of the first row to
 the page.

 Reading and parsing are not modelled: what the parser would make of the
 file's bytes is an input, `ParseOutcome`. What the handler does is a list
 of observable effects, so that "never read" and "never loaded" can be
 stated.
 */
module FileUpload {
  import opened Basics
  import opened JsObjects
  import opened JsValues

  /** What the browser reports about the chosen file. */
  datatype FileInfo = FileInfo(mimeType: string)

  /** What reading the file and converting its first sheet to JSON would give. */
  datatype ParseOutcome = Sheet(rows: seq<Row>) | Throws

  /** The notifications the handler raises. */
  datatype Toast = InvalidFileType | EmptyDataset | ParseError | Uploaded(rowCount: nat)

  /** Observable effects, in the order they happen. */
  datatype Effect =
    | ReadStarted                                      // `reader.readAsArrayBuffer(file)`
    | DataLoaded(data: seq<Row>, columns: seq<string>) // `onDataLoaded(jsonData, columns)`
    | Notify(toast: Toast)

  /** The MIME types accepted: Excel 2007+, legacy Excel, and four spellings of CSV. */
  const AllowedTypes: seq<string> := [
    "application/vnd.openxmlformats-officedocument.spreadsheetml.sheet",
    "application/vnd.ms-excel",
    "text/csv",
    "application/csv",
    "text/x-csv",
    "application/x-csv"
  ]

  predicate IsAllowedType(mimeType: string) {
    mimeType in AllowedTypes
  }

  /** `reader.onload`: everything after the bytes arrive, inside the `try`. */
  function OnLoad(parse: ParseOutcome): (effects: seq<Effect>)
    ensures parse.Throws? ==> effects == [Notify(ParseError)]
    ensures parse.Sheet? && |parse.rows| == 0 ==> effects == [Notify(EmptyDataset)]
    ensures parse.Sheet? && |parse.rows| > 0 ==>
              effects == [DataLoaded(parse.rows, parse.rows[0].Keys()), Notify(Uploaded(|parse.rows|))]
  {
    match parse
    case Throws => [Notify(ParseError)]
    case Sheet(rows) =>
      if |rows| == 0 then [Notify(EmptyDataset)]
      else
        var columns := rows[0].Keys();
        [DataLoaded(rows, columns), Notify(Uploaded(|rows|))]
  }

  /** `handleFile`: the effects of choosing `file`, when parsing its contents would give `parse`. */
  function HandleFile(file: Option<FileInfo>, parse: ParseOutcome): (effects: seq<Effect>)
    ensures file.None? ==> effects == []
    ensures file.Some? && !IsAllowedType(file.value.mimeType) ==> effects == [Notify(InvalidFileType)]
    ensures file.Some? && IsAllowedType(file.value.mimeType) ==> effects == [ReadStarted] + OnLoad(parse)
  {
    match file
    case None => []
    case Some(f) =>
      if !IsAllowedType(f.mimeType) then [Notify(InvalidFileType)]
      else [ReadStarted] + OnLoad(parse)
  }

  /** The data handed to the page, if any. */
  function LoadedData(effects: seq<Effect>): Option<(seq<Row>, seq<string>)>
    decreases |effects|
  {
    if |effects| == 0 then None
    else if effects[0].DataLoaded? then Some((effects[0].data, effects[0].columns))
    else LoadedData(effects[1..])
  }

  /** The notification raised, if any (the handler raises at most one). */
  function Notification(effects: seq<Effect>): Option<Toast>
    decreases |effects|
  {
    if |effects| == 0 then None
    else if effects[0].Notify? then Some(effects[0].toast)
    else Notification(effects[1..])
  }

  /**
   A file is loaded exactly when its type is allowed and its first sheet
   parses to at least one row. The page then receives the rows unchanged
   and, as columns, the keys of the first row in object-key order, without
   repetitions; the success message counts exactly those rows.
   */
  lemma LoadedExactlyWhenAccepted(file: Option<FileInfo>, parse: ParseOutcome)
    ensures var effects := HandleFile(file, parse);
      LoadedData(effects).Some? <==>
        file.Some? && IsAllowedType(file.value.mimeType) && parse.Sheet? && |parse.rows| > 0
    ensures var effects := HandleFile(file, parse);
      LoadedData(effects).Some? ==>
        && LoadedData(effects).value.0 == parse.rows
        && LoadedData(effects).value.1 == parse.rows[0].Keys()
        && Notification(effects) == Some(Uploaded(|LoadedData(effects).value.0|))
  {
    var effects := HandleFile(file, parse);
    if file.Some? && IsAllowedType(file.value.mimeType) {
      var rest := OnLoad(parse);
      assert effects == [ReadStarted] + rest;
      assert effects[1..] == rest;
      assert LoadedData(effects) == LoadedData(rest);
      assert Notification(effects) == Notification(rest);
      if parse.Sheet? && |parse.rows| > 0 {
        assert rest[0] == DataLoaded(parse.rows, parse.rows[0].Keys());
        assert LoadedData(rest) == Some((parse.rows, parse.rows[0].Keys()));
        assert rest[1..] == [Notify(Uploaded(|parse.rows|))];
        assert Notification(rest[1..]) == Some(Uploaded(|parse.rows|));
        assert Notification(rest) == Notification(rest[1..]);
      } else {
        assert |rest| == 1 && rest[0].Notify?;
        assert rest[1..] == [];
        assert LoadedData(rest[1..]) == None;
        assert LoadedData(rest) == None;
      }
    } else if file.Some? {
      assert effects == [Notify(InvalidFileType)];
      assert effects[1..] == [];
    }
  }

  /** The columns handed over are the first row's keys, each once, arrays indices first. */
  lemma ColumnsAreFirstRowKeys(row: Row)
    requires row.Valid()
    ensures Distinct(row.Keys())
    ensures forall k :: k in row.Keys() <==> k in row.props
    ensures NamedKeysOf(row.Keys()) == NamedKeysOf(row.order)
  {
  }

  /** A file of a type outside the allow-list is never read, whatever its contents. */
  lemma RejectedTypeIsNeverRead(file: FileInfo, parse: ParseOutcome, parse': ParseOutcome)
    requires !IsAllowedType(file.mimeType)
    ensures HandleFile(Some(file), parse) == HandleFile(Some(file), parse')
    ensures ReadStarted !in HandleFile(Some(file), parse)
    ensures LoadedData(HandleFile(Some(file), parse)).None?
    ensures Notification(HandleFile(Some(file), parse)) == Some(InvalidFileType)
  {
  }

  /**
   When nothing is loaded, a chosen file always raises exactly one of the
   three failure notifications: bad type, empty sheet or parse error.
   */
  lemma FailuresAreTheThreeRejections(file: Option<FileInfo>, parse: ParseOutcome)
    requires file.Some?
    requires LoadedData(HandleFile(file, parse)).None?
    ensures Notification(HandleFile(file, parse)) in {Some(InvalidFileType), Some(EmptyDataset), Some(ParseError)}
    ensures !IsAllowedType(file.value.mimeType) ==> Notification(HandleFile(file, parse)) == Some(InvalidFileType)
    ensures IsAllowedType(file.value.mimeType) && parse.Throws? ==> Notification(HandleFile(file, parse)) == Some(ParseError)
    ensures IsAllowedType(file.value.mimeType) && parse.Sheet? ==> Notification(HandleFile(file, parse)) == Some(EmptyDataset)
  {
  }
}
