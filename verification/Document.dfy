/** `ketplus::Document`: the file path, encoding and dirty flag around the codec. */
module DocumentFile {
  import opened Options
  import opened Utf
  import opened TextCodec

  type Path = string
  type Files = map<Path, seq<Byte>>

  datatype Failure = Unreadable | NoFilePath | NotEncodable(e: TextEncoding) | NotWritable
  datatype Result = Ok | Failed(why: Failure)
  datatype LoadResult = Loaded(content: seq<Byte>) | LoadFailed(why: Failure)

  /** Where `QSaveFile` can give up; the target keeps its old bytes in every case. */
  datatype WriteFault = NoFault | OpenFault | ShortWrite | CommitFault

  /** `QFileInfo::absoluteFilePath` for a process running in `cwd`. */
  function AbsolutePath(cwd: Path, path: Path): (absolute: Path)
    ensures path != "" ==> absolute != ""
  {
    if path != "" && path[0] == '/' then path
    else if path == "" then ""
    else cwd + "/" + path
  }

  datatype DocState = DocState(filePath: Path, encoding: TextEncoding, modified: bool)

  // ---------- what loading and saving mean ----------

  /** `readable` is false when the file cannot be opened or read through. */
  function LoadSpec(d: DocState, files: Files, cwd: Path, path: Path,
                    chosen: Option<TextEncoding>, readable: bool): (DocState, LoadResult)
  {
    var absolute := AbsolutePath(cwd, path);
    if !readable || absolute !in files then (d, LoadFailed(Unreadable))
    else
      var raw := files[absolute];
      var e := if chosen.Some? then chosen.value else DetectEncoding(raw);
      (DocState(absolute, e, false), Loaded(DecodeToUtf8(raw, e)))
  }

  function SaveAsSpec(d: DocState, files: Files, cwd: Path, path: Path,
                      content: seq<Byte>, fault: WriteFault): (DocState, Files, Result)
  {
    match EncodeFromUtf8(content, d.encoding)
    case None => (d, files, Failed(NotEncodable(d.encoding)))
    case Some(bytes) =>
      var absolute := AbsolutePath(cwd, path);
      if fault != NoFault then (d, files, Failed(NotWritable))
      else (d.(filePath := absolute, modified := false), files[absolute := bytes], Ok)
  }

  function SaveSpec(d: DocState, files: Files, cwd: Path,
                    content: seq<Byte>, fault: WriteFault): (DocState, Files, Result)
  {
    if d.filePath == "" then (d, files, Failed(NoFilePath))
    else SaveAsSpec(d, files, cwd, d.filePath, content, fault)
  }

  // ---------- the object ----------

  class Disk {
    var files: Files
    const cwd: Path

    constructor (cwd: Path, files: Files)
      requires cwd != "" && cwd[0] == '/'
      ensures this.cwd == cwd && this.files == files
    {
      this.cwd, this.files := cwd, files;
    }
  }

  class Document {
    var filePath: Path
    var encoding: TextEncoding
    var modified: bool

    ghost function State(): DocState
      reads this
    {
      DocState(filePath, encoding, modified)
    }

    constructor ()
      ensures State() == DocState("", Utf8, false)
    {
      filePath, encoding, modified := "", Utf8, false;
    }

    method LoadWith(disk: Disk, path: Path, chosen: Option<TextEncoding>, readable: bool)
      returns (result: LoadResult)
      modifies this
      ensures (State(), result) == LoadSpec(old(State()), disk.files, disk.cwd, path, chosen, readable)
    {
      var absolute := AbsolutePath(disk.cwd, path);
      if !readable || absolute !in disk.files {
        return LoadFailed(Unreadable);
      }
      var raw := disk.files[absolute];
      filePath := absolute;
      encoding := if chosen.Some? then chosen.value else DetectEncoding(raw);
      modified := false;
      return Loaded(DecodeToUtf8(raw, encoding));
    }

    method SaveAs(disk: Disk, path: Path, content: seq<Byte>, fault: WriteFault)
      returns (result: Result)
      modifies this, disk`files
      ensures (State(), disk.files, result)
              == SaveAsSpec(old(State()), old(disk.files), disk.cwd, path, content, fault)
    {
      var encoded := Encode(content, encoding);
      if encoded.None? {
        return Failed(NotEncodable(encoding));
      }
      if fault != NoFault {
        return Failed(NotWritable);
      }
      var absolute := AbsolutePath(disk.cwd, path);
      disk.files := disk.files[absolute := encoded.value];
      filePath := absolute;
      modified := false;
      return Ok;
    }

    method Save(disk: Disk, content: seq<Byte>, fault: WriteFault)
      returns (result: Result)
      modifies this, disk`files
      ensures (State(), disk.files, result)
              == SaveSpec(old(State()), old(disk.files), disk.cwd, content, fault)
    {
      if filePath == "" {
        return Failed(NoFilePath);
      }
      result := SaveAs(disk, filePath, content, fault);
    }

    method SetTextEncoding(e: TextEncoding)
      modifies this`encoding
      ensures encoding == e
    {
      encoding := e;
    }

    method SetModified(flag: bool)
      modifies this`modified
      ensures modified == flag
    {
      modified := flag;
    }
  }

  // ---------- sequences of calls ----------

  /**
    Open a file, change nothing, save it: the disk is untouched for every file but a damaged or
    doubly marked UTF-16 one, and for such a file it is not.
   */
  lemma {:induction false} OpenThenSave(d: DocState, files: Files, cwd: Path, path: Path)
    requires cwd != "" && cwd[0] == '/'
    requires path != "" && AbsolutePath(cwd, path) in files
    ensures var raw := files[AbsolutePath(cwd, path)];
            var (doc, loaded) := LoadSpec(d, files, cwd, path, None, true);
            loaded.Loaded? &&
            var (saved, after, result) := SaveSpec(doc, files, cwd, loaded.content, NoFault);
            saved.encoding == DetectEncoding(raw) && !saved.modified &&
            (result == Ok && after == files <==>
             (IsUtf16(DetectEncoding(raw)) ==> IntactUtf16(raw[2..], DetectEncoding(raw).Utf16BE?)))
  {
    var absolute := AbsolutePath(cwd, path);
    var raw := files[absolute];
    var doc := LoadSpec(d, files, cwd, path, None, true).0;
    assert absolute[0] == '/';
    SaveUnchanged(raw);
    var encoded := EncodeFromUtf8(DecodeToUtf8(raw, doc.encoding), doc.encoding);
    if encoded.Some? {
      assert files[absolute := encoded.value] == files <==> encoded.value == raw by {
        assert files[absolute := encoded.value][absolute] == encoded.value;
      }
    }
  }

  /** Saving and reopening shows the same text and encoding for exactly the texts named here. */
  lemma {:induction false} SaveThenOpen(d: DocState, other: DocState, files: Files, cwd: Path, path: Path,
                                             text: seq<Byte>)
    requires path != "" && !d.encoding.Latin1?
    ensures var (saved, after, result) := SaveAsSpec(d, files, cwd, path, text, NoFault);
            var (doc, loaded) := LoadSpec(other, after, cwd, path, None, true);
            result == Ok && doc.filePath == saved.filePath && loaded.Loaded? &&
            (doc.encoding == d.encoding && loaded.content == text <==>
             d.encoding.Utf8Bom? || (WellFormed(text) && !(UTF8_BOM <= text)))
  {
    SaveThenReload(text, d.encoding);
  }

  /** Reopened with the encoding it was saved in, a file shows the saved text for exactly these texts. */
  lemma {:induction false} SaveThenOpenAs(d: DocState, other: DocState, files: Files, cwd: Path, path: Path,
                                               text: seq<Byte>)
    requires path != "" && EncodeFromUtf8(text, d.encoding).Some?
    ensures var (saved, after, result) := SaveAsSpec(d, files, cwd, path, text, NoFault);
            var (doc, loaded) := LoadSpec(other, after, cwd, path, Some(d.encoding), true);
            result == Ok && loaded.Loaded? && doc == DocState(saved.filePath, d.encoding, false) &&
            (loaded.content == text <==>
             match d.encoding
             case Utf8 | Utf8Bom => true
             case Utf16LE | Utf16BE => WellFormed(text) && !(UTF8_BOM <= text)
             case Latin1 => !(UTF8_BOM <= text))
  {
    match d.encoding
    case Utf8 | Utf8Bom => Utf8Encodes(text);
    case Utf16LE => Utf16Reload(text, false);
    case Utf16BE => Utf16Reload(text, true);
    case Latin1 => Latin1Inverts(text);
  }

  function Resolved(cwd: Path, path: Path): Path
    requires path != ""
  {
    if path[0] == '/' then path else cwd + "/" + path
  }

  /** A file opens exactly when it is there and can be read; a failure leaves the document as it was. */
  lemma OpeningMeans(d: DocState, files: Files, cwd: Path, path: Path, chosen: Option<TextEncoding>, readable: bool)
    requires path != ""
    ensures var (doc, loaded) := LoadSpec(d, files, cwd, path, chosen, readable);
            && (loaded.Loaded? <==> readable && Resolved(cwd, path) in files)
            && (loaded.Loaded? ==> doc.filePath == Resolved(cwd, path) && !doc.modified)
            && (loaded.Loaded? && chosen.Some? ==> doc.encoding == chosen.value)
            && (loaded.LoadFailed? ==> doc == d && loaded.why == Unreadable)
  {
  }

  /**
    A save writes its own file and no other. It fails when the encoding cannot carry the text, which
    only Latin-1 does, or when writing fails, and then neither the disk nor the document changes.
   */
  lemma SavingMeans(d: DocState, files: Files, cwd: Path, path: Path, text: seq<Byte>, fault: WriteFault)
    requires path != ""
    ensures var (doc, after, result) := SaveAsSpec(d, files, cwd, path, text, fault);
            var target, body := Resolved(cwd, path), WithoutPrefix(text, [0xEF, 0xBB, 0xBF]);
            var carried := d.encoding.Latin1? ==> WellFormed(body) && NoneBeyondLatin1(Scalars(body));
            && (result == Ok <==> carried && fault == NoFault)
            && (!carried ==> result == Failed(NotEncodable(d.encoding)))
            && (carried && fault != NoFault ==> result == Failed(NotWritable))
            && (result != Ok ==> doc == d && after == files)
            && (result == Ok ==>
                  && doc == DocState(target, d.encoding, false)
                  && after.Keys == files.Keys + {target} && Some(after[target]) == EncodeFromUtf8(text, d.encoding)
                  && forall p | p in files && p != target :: after[p] == files[p])
  {
    Latin1Refusal(text);
  }

  /** Saving writes to the document's own path, and an untitled document has none. */
  lemma SavingAgainMeans(d: DocState, files: Files, cwd: Path, text: seq<Byte>, fault: WriteFault)
    requires d.filePath != "" ==> d.filePath[0] == '/'
    ensures var (doc, after, result) := SaveSpec(d, files, cwd, text, fault);
            && (d.filePath == "" ==> result == Failed(NoFilePath) && doc == d && after == files)
            && (d.filePath != "" ==> doc.filePath == d.filePath)
            && (result == Ok ==> d.filePath != "" && !doc.modified && d.filePath in after
                                 && Some(after[d.filePath]) == EncodeFromUtf8(text, d.encoding))
  {
  }
}
