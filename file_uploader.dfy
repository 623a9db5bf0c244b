/** The file picker of the post form. It holds no state of its own: the
    parent passes the current selection in, and each handler hands a new
    selection back through `onChange`. A handler that returns `None` here is
    one that does not call `onChange` at all. */
module FileUploader {
  import opened Common

  /** The browser's `File`: its name, MIME type and size in bytes. */
  datatype File = File(name: string, mimeType: string, size: nat)

  datatype FileItem = FileItem(id: string, file: File)

  datatype Icon = ImageIcon | DocumentIcon | ArchiveIcon | GenericIcon

  const DefaultMaxFiles: nat := 5
  const DefaultMaxSize: nat := 10 * 1024 * 1024

  /** The values the defaults denote: five files of at most ten mebibytes. */
  lemma DefaultLimits()
    ensures DefaultMaxFiles == 5 && DefaultMaxSize == 10485760
  {
  }

  /** With the default cap, a selection of five files takes no further
      file, and a drop that fits is taken. */
  lemma DropAtDefaultCap(value: seq<FileItem>, accepted: seq<File>, freshIds: seq<string>)
    requires |freshIds| == |accepted|
    ensures |value| == DefaultMaxFiles && accepted != [] ==> OnDrop(value, accepted, freshIds, DefaultMaxFiles).None?
    ensures |value| + |accepted| <= 5 ==> OnDrop(value, accepted, freshIds, DefaultMaxFiles).Some?
  {
  }

  function ItemId(item: FileItem): string {
    item.id
  }

  /** `onDrop`: when the drop would take the selection beyond `maxFiles`
      nothing is handed back; otherwise the dropped files, each under the fresh
      id supplied for it, are appended after the current selection. */
  function OnDrop(value: seq<FileItem>, accepted: seq<File>, freshIds: seq<string>, maxFiles: int)
    : (r: Option<seq<FileItem>>)
    requires |freshIds| == |accepted|
    ensures r.None? <==> |value| + |accepted| > maxFiles
    ensures r.Some? ==> |r.value| == |value| + |accepted| <= maxFiles
    ensures r.Some? ==> r.value[..|value|] == value
    ensures r.Some? ==> forall i | 0 <= i < |accepted| ::
      r.value[|value| + i].file == accepted[i] && r.value[|value| + i].id == freshIds[i]
  {
    if |value| + |accepted| > maxFiles then None
    else Some(value + seq(|accepted|, i requires 0 <= i < |accepted| => FileItem(freshIds[i], accepted[i])))
  }

  /** `removeFile`: every selected item with this id is dropped, the rest
      keep their order. */
  function RemoveFile(value: seq<FileItem>, fileId: string): (r: seq<FileItem>)
    ensures forall f <- r :: f in value && f.id != fileId
    ensures forall f <- value :: f.id != fileId ==> f in r
    ensures (forall f <- value :: f.id != fileId) ==> r == value
  {
    Without(value, ItemId, fileId)
  }

  /** Removing twice is removing once. */
  lemma RemoveFileIdempotent(value: seq<FileItem>, fileId: string)
    ensures RemoveFile(RemoveFile(value, fileId), fileId) == RemoveFile(value, fileId)
  {
    WithoutIdempotent(value, ItemId, fileId);
  }

  /** Dropping one file under an id nobody uses and then removing that id
      gives back the selection as it was. */
  lemma DropThenRemove(value: seq<FileItem>, f: File, id: string, maxFiles: int)
    requires forall item <- value :: item.id != id
    requires |value| + 1 <= maxFiles
    ensures OnDrop(value, [f], [id], maxFiles).Some?
    ensures RemoveFile(OnDrop(value, [f], [id], maxFiles).value, id) == value
  {
    var added := OnDrop(value, [f], [id], maxFiles).value;
    assert added == value + [FileItem(id, f)];
    WithoutAppend(value, [FileItem(id, f)], ItemId, id);
    assert Without([FileItem(id, f)], ItemId, id) == [];
  }

  /** The selection never outgrows the cap: starting within `maxFiles`, it
      stays within it whether or not the drop is taken. */
  lemma DropKeepsCap(value: seq<FileItem>, accepted: seq<File>, freshIds: seq<string>, maxFiles: int)
    requires |freshIds| == |accepted|
    requires |value| <= maxFiles
    ensures |(match OnDrop(value, accepted, freshIds, maxFiles)
              case None => value
              case Some(next) => next)| <= maxFiles
  {
  }

  predicate StartsWith(s: string, prefix: string) {
    prefix <= s
  }

  /** JavaScript's `s.includes(sub)`. */
  predicate Includes(s: string, sub: string)
    decreases |s|
  {
    StartsWith(s, sub) || (s != [] && Includes(s[1..], sub))
  }

  /** `includes` finds nothing but actual occurrences. */
  lemma {:induction false} IncludesOccurs(s: string, sub: string)
    requires Includes(s, sub)
    ensures exists i | 0 <= i <= |s| :: StartsWith(s[i..], sub)
    decreases |s|
  {
    if StartsWith(s, sub) {
      assert s[0..] == s;
    } else {
      IncludesOccurs(s[1..], sub);
      var i :| 0 <= i <= |s[1..]| && StartsWith(s[1..][i..], sub);
      assert s[1..][i..] == s[i + 1..];
    }
  }

  /** An occurrence at any position is found. */
  lemma {:induction false} IncludesAt(s: string, sub: string, i: nat)
    requires i <= |s| && StartsWith(s[i..], sub)
    ensures Includes(s, sub)
    decreases i
  {
    if i > 0 {
      assert s[1..][i - 1..] == s[i..];
      IncludesAt(s[1..], sub, i - 1);
    }
  }

  /** Every character of a contained string occurs in the containing one. */
  lemma {:induction false} IncludedCharsOccur(s: string, sub: string)
    ensures Includes(s, sub) ==> forall k | 0 <= k < |sub| :: sub[k] in s
    decreases |s|
  {
    if Includes(s, sub) {
      if StartsWith(s, sub) {
        forall k | 0 <= k < |sub| ensures sub[k] in s {
          assert s[k] == sub[k];
        }
      } else {
        IncludedCharsOccur(s[1..], sub);
        forall k | 0 <= k < |sub| ensures sub[k] in s {
          assert sub[k] in s[1..];
        }
      }
    }
  }

  /** `getFileIcon`: the first matching rule wins, in the order image type,
      PDF, ZIP or other archive, anything else. */
  function FileIcon(item: FileItem): (icon: Icon)
    ensures StartsWith(item.file.mimeType, "image/") ==> icon == ImageIcon
    ensures icon == ImageIcon ==> StartsWith(item.file.mimeType, "image/")
    ensures icon == DocumentIcon <==>
      !StartsWith(item.file.mimeType, "image/") && Includes(item.file.mimeType, "pdf")
    ensures icon == ArchiveIcon <==>
      && !StartsWith(item.file.mimeType, "image/")
      && !Includes(item.file.mimeType, "pdf")
      && (Includes(item.file.mimeType, "zip") || Includes(item.file.mimeType, "archive"))
  {
    var t := item.file.mimeType;
    if StartsWith(t, "image/") then ImageIcon
    else if Includes(t, "pdf") then DocumentIcon
    else if Includes(t, "zip") || Includes(t, "archive") then ArchiveIcon
    else GenericIcon
  }

  /** The icons of some of the types the drop zone accepts: an image, a PDF,
      a ZIP archive and plain text. */
  lemma IconOfImage(f: File)
    requires f.mimeType == "image/png"
    ensures FileIcon(FileItem("", f)) == ImageIcon
  {
    assert "image/" <= f.mimeType;
  }

  lemma IconOfPdf(f: File)
    requires f.mimeType == "application/pdf"
    ensures FileIcon(FileItem("", f)) == DocumentIcon
  {
    var t := f.mimeType;
    assert t[0] != "image/"[0];
    assert t[12..] == "pdf";
    IncludesAt(t, "pdf", 12);
  }

  lemma IconOfZip(f: File)
    requires f.mimeType == "application/zip"
    ensures FileIcon(FileItem("", f)) == ArchiveIcon
  {
    var t := f.mimeType;
    assert t[0] != "image/"[0];
    IncludedCharsOccur(t, "pdf");
    assert "pdf"[1] !in t;
    assert t[12..] == "zip";
    IncludesAt(t, "zip", 12);
  }

  lemma IconOfPlainText(f: File)
    requires f.mimeType == "text/plain"
    ensures FileIcon(FileItem("", f)) == GenericIcon
  {
    var t := f.mimeType;
    assert t[0] != "image/"[0];
    IncludedCharsOccur(t, "pdf");
    assert "pdf"[1] !in t;
    IncludedCharsOccur(t, "zip");
    assert "zip"[0] !in t;
    IncludedCharsOccur(t, "archive");
    assert "archive"[2] !in t;
  }
}
