/** The download handler: look the row up by id, check that its file is
    still in the blob store, and choose the response headers. */
module Download {
  import opened Common
  import opened Documents

  /** The three outcomes of a download request.  `Stream` carries the headers
      that are set before the file's bytes are piped out, and the path read. */
  datatype DownloadResponse =
    | DocumentNotFound(id: int)
    | FileNotFound
    | Stream(contentType: string, disposition: string, contentLength: int, path: string)
  {
    function Status(): int
    {
      if Stream? then 200 else 404
    }

    function Error(): string
      requires !Stream?
    {
      if DocumentNotFound? then "Document not found" else "File not found"
    }

    function Message(): string
      requires !Stream?
    {
      if DocumentNotFound? then "No document exists with ID " + IntToString(id)
      else "The file has been deleted from storage"
    }
  }

  /** `SELECT * FROM documents WHERE id = ?`: the first row carrying `id`. */
  function Lookup(rows: seq<Document>, id: int): (r: Option<Document>)
    ensures r.Some? ==> r.value in rows && r.value.id == id
    ensures r.None? <==> forall k :: 0 <= k < |rows| ==> rows[k].id != id
  {
    if rows == [] then None
    else if rows[0].id == id then Some(rows[0])
    else Lookup(rows[1..], id)
  }

  /** In a table whose ids are unique, looking up a row's own id finds that row. */
  lemma {:induction false} LookupFindsRow(rows: seq<Document>, nextId: int, k: int)
    requires IdsBelow(rows, nextId)
    requires 0 <= k < |rows|
    ensures Lookup(rows, rows[k].id) == Some(rows[k])
  {
    if k > 0 {
      assert rows[0].id < rows[k].id;
      assert IdsBelow(rows[1..], nextId);
      LookupFindsRow(rows[1..], nextId, k - 1);
    }
  }

  /** `document.mimetype || 'application/octet-stream'`. */
  function ContentType(mimetype: Option<string>): (r: string)
    ensures mimetype.Some? && mimetype.value != "" ==> r == mimetype.value
    ensures mimetype.None? || mimetype.value == "" ==> r == "application/octet-stream"
  {
    if mimetype.Some? && mimetype.value != "" then mimetype.value else "application/octet-stream"
  }

  const DispositionPrefix: string := "attachment; filename=\""

  /** The `Content-Disposition` header naming `filename` for the browser. */
  function Disposition(filename: string): (r: string)
    ensures |r| == |DispositionPrefix| + |filename| + 1
    ensures r[..|DispositionPrefix|] == DispositionPrefix
    ensures r[|DispositionPrefix|..|r| - 1] == filename
    ensures r[|r| - 1] == '"'
  {
    var r := DispositionPrefix + filename + "\"";
    assert r[|DispositionPrefix|..|r| - 1] == filename;
    r
  }

  /** How a client reads a quoted header parameter back: the characters up
      to the closing quote, a backslash escaping the character after it. */
  function QuotedValue(s: string): string
    decreases |s|
  {
    if s == [] || s[0] == '"' then []
    else if s[0] == '\\' && |s| > 1 then [s[1]] + QuotedValue(s[2..])
    else [s[0]] + QuotedValue(s[1..])
  }

  /** The file name a client reads from a header that starts with the
      `attachment; filename="` prefix. */
  function DispositionName(header: string): string
    requires |header| >= |DispositionPrefix|
  {
    QuotedValue(header[|DispositionPrefix|..])
  }

  lemma {:induction false} QuotedValueOfPlain(name: string)
    requires forall i :: 0 <= i < |name| ==> name[i] != '"' && name[i] != '\\'
    ensures QuotedValue(name + "\"") == name
  {
    if name != [] {
      assert (name + "\"")[1..] == name[1..] + "\"";
      QuotedValueOfPlain(name[1..]);
    }
  }

  /** A stored name without quotes or backslashes reaches the client intact. */
  lemma DispositionRoundTrip(filename: string)
    requires forall i :: 0 <= i < |filename| ==> filename[i] != '"' && filename[i] != '\\'
    ensures DispositionName(Disposition(filename)) == filename
  {
    var h := Disposition(filename);
    assert h[|DispositionPrefix|..] == filename + "\"";
    QuotedValueOfPlain(filename);
  }

  /** The header does not escape the name, so a quote inside it cuts the name
      short for the client. */
  lemma DispositionQuoteTruncates()
    ensures DispositionName(Disposition("a\"b")) == "a"
  {
    var h := Disposition("a\"b");
    assert h[|DispositionPrefix|..] == "a\"b\"";
    assert "a\"b\""[1..] == "\"b\"";
  }

  /** The handler.  `stored` is the set of paths present in the blob store. */
  function Fetch(rows: seq<Document>, stored: set<string>, id: int): (r: DownloadResponse)
    ensures r.DocumentNotFound? <==> forall k :: 0 <= k < |rows| ==> rows[k].id != id
    ensures r.DocumentNotFound? ==> r.id == id
    ensures r.FileNotFound? <==> Lookup(rows, id).Some? && Lookup(rows, id).value.filepath !in stored
    ensures r.Stream? ==>
      var d := Lookup(rows, id).value;
      && d in rows && d.id == id && d.filepath in stored
      && r.contentType == ContentType(d.mimetype)
      && r.disposition == Disposition(d.filename)
      && r.contentLength == d.filesize
      && r.path == d.filepath
    ensures r.Status() == 404 <==> !r.Stream?
  {
    match Lookup(rows, id)
    case None => DocumentNotFound(id)
    case Some(d) =>
      if d.filepath !in stored then FileNotFound
      else Stream(ContentType(d.mimetype), Disposition(d.filename), d.filesize, d.filepath)
  }

  /** Downloading a row of a valid table whose file is present streams that
      row's file under its stored (server-generated) name, not the name the
      client uploaded it under. */
  lemma FetchStoredRow(rows: seq<Document>, nextId: int, stored: set<string>, k: int)
    requires IdsBelow(rows, nextId)
    requires 0 <= k < |rows| && rows[k].filepath in stored
    ensures Fetch(rows, stored, rows[k].id)
         == Stream(ContentType(rows[k].mimetype), Disposition(rows[k].filename),
                   rows[k].filesize, rows[k].filepath)
  {
    LookupFindsRow(rows, nextId, k);
  }

  /** A file just inserted by the upload handler downloads as a stream whose
      content type is the uploaded mimetype (or the fallback) and whose
      disposition names the stored file. */
  lemma FetchUploaded(rows: seq<Document>, nextId: int, stored: set<string>,
                      file: UploadedFile, title: Option<string>, now: int)
    requires IdsBelow(rows, nextId) && nextId >= 1
    requires file.path in stored
    ensures Fetch(rows + [InsertedRow(file, title, nextId, now)], stored, nextId)
         == Stream(ContentType(Some(file.mimetype)), Disposition(file.storedName), file.size, file.path)
  {
    var rows' := rows + [InsertedRow(file, title, nextId, now)];
    assert IdsBelow(rows', nextId + 1);
    FetchStoredRow(rows', nextId + 1, stored, |rows|);
  }
}
