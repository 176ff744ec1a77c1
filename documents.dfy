/** The `documents` table and the upload handler that inserts into it.
    The table is held in memory as a sequence of rows plus the next value of
    the AUTOINCREMENT counter; the multer-stored files arrive as records. */
module Documents {
  import opened Common

  /** One row of the `documents` table.  `uploadedAt` stands for the
      `uploaded_at` column's default timestamp, treated as an opaque key. */
  datatype Document = Document(
    id: int,
    title: string,
    filename: string,   // server-generated storage name
    filepath: string,   // location in the blob store
    filesize: int,
    mimetype: Option<string>,
    uploadedAt: int)

  /** A file as the upload middleware hands it to the controller. */
  datatype UploadedFile = UploadedFile(
    originalName: string,
    storedName: string,
    path: string,
    size: int,
    mimetype: string)

  /** One entry of the upload response's `documents` list. */
  datatype Summary = Summary(id: int, title: string, filename: string, size: int)

  datatype UploadResponse =
    | UploadRejected(status: int, error: string, message: string)
    | Uploaded(status: int, message: string, documents: seq<Summary>)

  /** `req.body.title || file.originalname`: a missing or empty title falls back. */
  function EffectiveTitle(title: Option<string>, file: UploadedFile): (r: string)
    ensures title.Some? && title.value != "" ==> r == title.value
    ensures title.None? || title.value == "" ==> r == file.originalName
  {
    if title.Some? && title.value != "" then title.value else file.originalName
  }

  /** The row inserted for `file` when the counter stands at `id`: the
      `filename` column receives the server-generated name, not the name the
      client sent. */
  function InsertedRow(file: UploadedFile, title: Option<string>, id: int, now: int): (r: Document)
    ensures r.id == id && r.title == EffectiveTitle(title, file)
    ensures r.filename == file.storedName && r.filepath == file.path
    ensures r.filesize == file.size && r.mimetype == Some(file.mimetype) && r.uploadedAt == now
  {
    Document(id, EffectiveTitle(title, file), file.storedName, file.path, file.size,
             Some(file.mimetype), now)
  }

  /** Ids are positive, strictly increasing in insertion order and below `nextId`. */
  ghost predicate IdsBelow(rows: seq<Document>, nextId: int)
  {
    && (forall k :: 0 <= k < |rows| ==> 1 <= rows[k].id < nextId)
    && (forall j, k :: 0 <= j < k < |rows| ==> rows[j].id < rows[k].id)
  }

  /** Distinct rows never share an id, so a lookup by id is unambiguous. */
  lemma IdsBelowUnique(rows: seq<Document>, nextId: int, j: int, k: int)
    requires IdsBelow(rows, nextId)
    requires 0 <= j < |rows| && 0 <= k < |rows| && j != k
    ensures rows[j].id != rows[k].id
  {
  }

  class DocumentTable {
    var rows: seq<Document>
    var nextId: int

    ghost predicate Valid()
      reads this
    {
      nextId >= 1 && IdsBelow(rows, nextId)
    }

    /** An empty table; SQLite's AUTOINCREMENT hands out 1 first. */
    constructor ()
      ensures Valid() && rows == [] && nextId == 1
    {
      rows := [];
      nextId := 1;
    }

    /** The upload handler.  `files` is None when the request carried no
        file field at all; `now` is the insert-time timestamp. */
    method Upload(files: Option<seq<UploadedFile>>, title: Option<string>, now: int)
      returns (r: UploadResponse)
      requires Valid()
      modifies this
      ensures Valid()
      ensures files.None? || |files.value| == 0 ==>
        && r == UploadRejected(400, "No files uploaded", "Please select at least one file to upload")
        && rows == old(rows) && nextId == old(nextId)
      ensures files.Some? && |files.value| > 0 ==>
        var fs := files.value;
        && r.Uploaded? && r.status == 201
        && r.message == "Successfully uploaded " + NatToString(|fs|) + " document(s)"
        && |r.documents| == |fs|
        && nextId == old(nextId) + |fs|
        && |rows| == |old(rows)| + |fs|
        && rows[..|old(rows)|] == old(rows)
        && (forall i :: 0 <= i < |fs| ==>
              && rows[|old(rows)| + i] == InsertedRow(fs[i], title, old(nextId) + i, now)
              && r.documents[i] == Summary(old(nextId) + i, EffectiveTitle(title, fs[i]),
                                           fs[i].originalName, fs[i].size))
      ensures r.Uploaded? ==> forall i, k :: 0 <= i < |r.documents| && 0 <= k < |old(rows)| ==>
        r.documents[i].id != old(rows)[k].id
    {
      if files.None? || |files.value| == 0 {
        return UploadRejected(400, "No files uploaded", "Please select at least one file to upload");
      }
      var fs := files.value;
      var uploaded: seq<Summary> := [];
      var i := 0;
      while i < |fs|
        invariant 0 <= i <= |fs|
        invariant nextId == old(nextId) + i
        invariant |rows| == |old(rows)| + i && |uploaded| == i
        invariant rows[..|old(rows)|] == old(rows)
        invariant forall k :: 0 <= k < i ==>
          && rows[|old(rows)| + k] == InsertedRow(fs[k], title, old(nextId) + k, now)
          && uploaded[k] == Summary(old(nextId) + k, EffectiveTitle(title, fs[k]),
                                    fs[k].originalName, fs[k].size)
        invariant Valid()
      {
        var file := fs[i];
        var t := EffectiveTitle(title, file);
        var id := nextId;
        rows := rows + [Document(id, t, file.storedName, file.path, file.size, Some(file.mimetype), now)];
        nextId := nextId + 1;
        uploaded := uploaded + [Summary(id, t, file.originalName, file.size)];
        i := i + 1;
      }
      r := Uploaded(201, "Successfully uploaded " + NatToString(|uploaded|) + " document(s)", uploaded);
    }
  }
}
