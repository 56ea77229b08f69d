/**
 * The upload endpoint that turns a Word file into a stored document: the
 * file validator, the title taken from the file name, and the status each
 * request ends with. The conversion to Markdown is an input.
 */
module FileUpload {
  import opened Options
  import opened Http
  import opened Store
  import Text

  /** The size bound: 5 MiB. */
  const MaxFileSize := 5 * 1024 * 1024

  const PdfType := "application/pdf"
  const DocType := "application/msword"
  const DocxType := "application/vnd.openxmlformats-officedocument.wordprocessingml.document"
  const AllowedTypes: seq<string> := [PdfType, DocType, DocxType]

  const SizeMessage := "File size should be less than 5MB"
  const TypeMessage := "File type should be PDF, DOC, or DOCX"
  /** The schema library's message when the `file` field is not a file. */
  const NotAFileMessage := "Input not instance of File"

  datatype UploadedFile = UploadedFile(name: string, size: nat, mimeType: string)

  /** What `formData.get('file')` yields: nothing, a text field, or a file. */
  datatype FormEntry = NoEntry | TextEntry(text: string) | FileEntry(file: UploadedFile)

  /**
   * `FileSchema.safeParse`: the list of failure messages, empty when the
   * entry is valid. A non-file fails the type test and stops there; for a
   * file both refinements run and report in declaration order.
   */
  function ValidationErrors(entry: FormEntry): (errors: seq<string>)
    ensures errors == [] <==>
              entry.FileEntry? && entry.file.size <= MaxFileSize && entry.file.mimeType in AllowedTypes
    ensures entry.FileEntry? ==>
              && (SizeMessage in errors <==> entry.file.size > MaxFileSize)
              && (TypeMessage in errors <==> entry.file.mimeType !in AllowedTypes)
              && (|errors| == 2 ==> errors == [SizeMessage, TypeMessage])
    ensures entry.FileEntry? ==>
              |errors| == (if entry.file.size > MaxFileSize then 1 else 0)
                          + (if entry.file.mimeType !in AllowedTypes then 1 else 0)
    ensures !entry.FileEntry? ==> errors == [NotAFileMessage]
  {
    match entry
    case FileEntry(file) =>
      (if file.size <= MaxFileSize then [] else [SizeMessage])
      + (if file.mimeType in AllowedTypes then [] else [TypeMessage])
    case _ => [NotAFileMessage]
  }

  /** The error text answered for an invalid upload: the messages joined with ", ". */
  function ErrorText(errors: seq<string>): string {
    Text.Join(errors, ", ")
  }

  /** An oversized file of a wrong type reports both problems in one line. */
  lemma BothProblemsReported(file: UploadedFile)
    requires file.size > MaxFileSize && file.mimeType !in AllowedTypes
    ensures ErrorText(ValidationErrors(FileEntry(file))) == SizeMessage + ", " + TypeMessage
  {
    var errors := ValidationErrors(FileEntry(file));
    assert errors == [SizeMessage, TypeMessage];
    assert errors[1..] == [TypeMessage];
    assert Text.Join(errors[1..], ", ") == TypeMessage;
    assert Text.Join(errors, ", ") == errors[0] + ", " + Text.Join(errors[1..], ", ");
  }

  /**
   * The document title: the file name without its last `.`-segment
   * (`split('.').slice(0, -1).join('.')`). A name without a dot has an empty
   * title; otherwise title, dot and last segment put back together give the name.
   */
  function TitleOf(filename: string): (title: string)
    ensures '.' !in filename ==> title == ""
    ensures '.' in filename ==> title + "." + LastSegment(filename) == filename
  {
    var parts := Text.Split(filename, '.');
    if '.' in filename then
      Text.SplitWithSeparator(filename, '.');
      Text.JoinSnoc(parts, ".");
      Text.JoinSplit(filename, '.');
      Text.Join(parts[..|parts| - 1], ".")
    else
      Text.SplitWithoutSeparator(filename, '.');
      Text.Join(parts[..|parts| - 1], ".")
  }

  /** The last `.`-segment of a file name, which the title drops. */
  function LastSegment(filename: string): (segment: string)
    ensures '.' !in segment
  {
    var parts := Text.Split(filename, '.');
    parts[|parts| - 1]
  }

  /**
   * The title is the part of the name before its last dot: the name
   * continues with a dot right after the title, and no dot follows.
   */
  lemma TitleEndsAtLastDot(filename: string)
    requires '.' in filename
    ensures var t := TitleOf(filename);
            |t| < |filename| && filename[..|t|] == t && filename[|t|] == '.' && '.' !in filename[|t| + 1..]
  {
    var t := TitleOf(filename);
    var last := LastSegment(filename);
    assert filename == t + "." + last;
    assert filename[|t| + 1..] == last;
  }

  /** A name with two dots keeps everything before the second: only the extension is dropped. */
  lemma TitleDropsOnlyExtension(stem: string, middle: string, ext: string)
    requires '.' !in stem && '.' !in middle && '.' !in ext
    ensures TitleOf(stem + "." + middle + "." + ext) == stem + "." + middle
  {
    var name := stem + "." + middle + "." + ext;
    Text.SplitWithoutSeparator(ext, '.');
    Text.SplitAround(middle, ext, '.');
    Text.SplitAround(stem, middle + ['.'] + ext, '.');
    assert name == stem + ['.'] + (middle + ['.'] + ext);
    var rest := Text.Split(middle + ['.'] + ext, '.');
    assert rest == [middle] + [ext];
    var parts := Text.Split(name, '.');
    assert parts == [stem] + rest;
    assert |parts| == 3 && parts[0] == stem && parts[1] == middle;
    assert parts[..2] == [stem, middle];
    assert [stem, middle][1..] == [middle];
    assert Text.Join([stem, middle], ".") == stem + "." + Text.Join([middle], ".");
    assert TitleOf(name) == Text.Join([stem, middle], ".");
  }

  /** A worked example: `"a.b.docx"` becomes `"a.b"`. */
  lemma TitleExample()
    ensures TitleOf("a.b.docx") == "a.b"
  {
    TitleDropsOnlyExtension("a", "b", "docx");
    assert "a" + "." + "b" + "." + "docx" == "a.b.docx";
  }

  /** The Markdown extraction of a Word file succeeds with some text or fails. */
  datatype Conversion = Converted(markdown: string) | ConversionFailed

  datatype ResponseBody = ErrorBody(error: string) | IdBody(id: string) | PlainText(text: string)

  /** The response, and the document row saved on the way (if any). */
  datatype UploadResponse = UploadResponse(status: Status, body: ResponseBody, saved: Option<DocumentRow>)

  /** A non-empty entry: `formData.get` returned a file or a non-empty string. */
  predicate Present(entry: FormEntry) {
    entry.FileEntry? || (entry.TextEntry? && entry.text != "")
  }

  /**
   * `POST /api/files/process`. `form` is `None` when reading the form data
   * fails; `conversion` is the outcome for a Word file; `saveSucceeds` whether
   * the store accepted the row; `id` and `now` are the fresh id and clock.
   */
  function ProcessUpload(user: Option<User>, hasBody: bool, form: Option<FormEntry>, id: string,
                         conversion: Conversion, saveSucceeds: bool, now: int): (r: UploadResponse)
    ensures user.None? ==> r == UploadResponse(Unauthorized, ErrorBody("Unauthorized"), None)
    ensures user.Some? && !hasBody ==> r.status == BadRequest && r.saved.None?
    ensures user.Some? && hasBody && form.None? ==> r.status == InternalError && r.saved.None?
    ensures user.Some? && hasBody && form.Some? && !Present(form.value) ==>
              r == UploadResponse(BadRequest, ErrorBody("No file uploaded"), None)
    ensures user.Some? && hasBody && form.Some? && Present(form.value) && ValidationErrors(form.value) != [] ==>
              r == UploadResponse(BadRequest, ErrorBody(ErrorText(ValidationErrors(form.value))), None)
    ensures form.Some? && form.value.FileEntry? && form.value.file.mimeType == PdfType ==>
              r.status != Ok && r.saved.None?
    ensures (user.Some? && hasBody && form.Some? && form.value.FileEntry? && ValidationErrors(form.value) == []
             && form.value.file.mimeType != PdfType) ==>
              && (r.status == Ok <==> conversion.Converted? && saveSucceeds)
              && (r.status != Ok ==> r == UploadResponse(InternalError, ErrorBody("Upload failed"), None))
    ensures r.status == Ok <==> r.saved.Some?
    ensures r.status == Ok ==>
              && user.Some? && form.Some? && form.value.FileEntry? && conversion.Converted?
              && r.body == IdBody(id)
              && r.saved == Some(DocumentRow(id, TitleOf(form.value.file.name), Some(conversion.markdown),
                                             user.value.id, now))
    ensures r.body != ErrorBody("Unsupported file type")
  {
    if user.None? then UploadResponse(Unauthorized, ErrorBody("Unauthorized"), None)
    else if !hasBody then UploadResponse(BadRequest, PlainText("Request body is empty"), None)
    else if form.None? then UploadResponse(InternalError, ErrorBody("Failed to process request"), None)
    else
      var entry := form.value;
      if !Present(entry) then UploadResponse(BadRequest, ErrorBody("No file uploaded"), None)
      else
        var errors := ValidationErrors(entry);
        if errors != [] then UploadResponse(BadRequest, ErrorBody(ErrorText(errors)), None)
        else
          var file := entry.file;
          var title := TitleOf(file.name);
          if file.mimeType == PdfType then UploadResponse(InternalError, ErrorBody("PDF not implemented"), None)
          else if file.mimeType == DocType || file.mimeType == DocxType then
            match conversion
            case ConversionFailed => UploadResponse(InternalError, ErrorBody("Upload failed"), None)
            case Converted(markdown) =>
              if saveSucceeds then
                UploadResponse(Ok, IdBody(id), Some(DocumentRow(id, title, Some(markdown), user.value.id, now)))
              else UploadResponse(InternalError, ErrorBody("Upload failed"), None)
          else UploadResponse(BadRequest, ErrorBody("Unsupported file type"), None)
  }

  /** A valid PDF is accepted by the validator but always answered with 500 "PDF not implemented". */
  lemma PdfNotImplemented(user: User, name: string, size: nat, id: string, conversion: Conversion,
                          saveSucceeds: bool, now: int)
    requires size <= MaxFileSize
    ensures ValidationErrors(FileEntry(UploadedFile(name, size, PdfType))) == []
    ensures ProcessUpload(Some(user), true, Some(FileEntry(UploadedFile(name, size, PdfType))), id,
                          conversion, saveSucceeds, now)
            == UploadResponse(InternalError, ErrorBody("PDF not implemented"), None)
  {
  }
}
