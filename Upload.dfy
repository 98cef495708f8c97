/** components/FileUpload.js: the upload card's validator, its drop and drag handlers
    and the `accept` filter of its file input. The files handed to `onFileSelect` are
    recorded in order. */
module Upload {
  import opened Text
  import opened Media
  import opened FileNames
  import opened Validation

  /** The error `validateFile` leaves behind: it stops at the first failing check,
      format before size, and leaves "" for a file that passes. */
  function UploadError(file: File, formats: seq<string>, maxSize: nat): string
  {
    if !FormatSupported(file.name, formats) then FormatError(formats)
    else if Oversized(file.Size(), maxSize) then SizeError(maxSize)
    else ""
  }

  /** The upload check agrees with the accumulating validator: it reports that
      validator's first error, and accepts exactly the files that validator accepts.
      An unsupported format is reported whatever the size. */
  lemma UploadErrorIsFirstError(file: File, formats: seq<string>, maxSize: nat)
    ensures var errors := FileErrors(file, formats, maxSize);
      UploadError(file, formats, maxSize) == (if errors == [] then "" else errors[0])
    ensures UploadError(file, formats, maxSize) == "" <==> FileErrors(file, formats, maxSize) == []
    ensures !FormatSupported(file.name, formats) ==> UploadError(file, formats, maxSize) == FormatError(formats)
  {
    var errors := FileErrors(file, formats, maxSize);
    assert |FormatError(formats)| > 0 && |SizeError(maxSize)| > 0;
    if !FormatSupported(file.name, formats) {
      assert errors[0] == FormatError(formats);
    } else if Oversized(file.Size(), maxSize) {
      assert errors == [SizeError(maxSize)];
    } else {
      assert errors == [];
    }
  }

  /** The extensions as the file input's `accept` lists them: `.mp4`, `.mov`, … */
  function Dotted(formats: seq<string>): seq<string>
  {
    seq(|formats|, i requires 0 <= i < |formats| => "." + formats[i])
  }

  /** `acceptedFormats.map(format => `.${format}`).join(',')` */
  function Accept(formats: seq<string>): string
  {
    Join(Dotted(formats), ",")
  }

  /** For formats without commas the `accept` string splits back into the dotted
      formats, one per format and in the same order. */
  lemma AcceptRoundTrip(formats: seq<string>)
    requires |formats| >= 1
    requires forall i :: 0 <= i < |formats| ==> ',' !in formats[i]
    ensures Split(Accept(formats), ',') == Dotted(formats)
    ensures forall i :: 0 <= i < |formats| ==> Split(Accept(formats), ',')[i] == "." + formats[i]
  {
    var ds := Dotted(formats);
    forall i | 0 <= i < |ds|
      ensures ',' !in ds[i]
    {
      assert ds[i] == "." + formats[i];
      assert ',' !in formats[i];
    }
    SplitJoin(ds, ',');
  }

  class Uploader {
    /** The `acceptedFormats` and `maxSize` props. */
    const acceptedFormats: seq<string>
    const maxSize: nat
    var isDragOver: bool
    var error: string
    /** The files passed to `onFileSelect`, in order. */
    var selected: seq<File>

    constructor(acceptedFormats: seq<string>, maxSize: nat)
      ensures this.acceptedFormats == acceptedFormats && this.maxSize == maxSize
      ensures !isDragOver && error == "" && selected == []
    {
      this.acceptedFormats := acceptedFormats;
      this.maxSize := maxSize;
      isDragOver := false;
      error := "";
      selected := [];
    }

    /** `validateFile(file)`: clears the error, then checks the format and the size in
        turn, stopping at the first that fails. */
    method ValidateFile(file: File) returns (ok: bool)
      modifies this
      ensures error == UploadError(file, acceptedFormats, maxSize)
      ensures ok <==> error == ""
      ensures isDragOver == old(isDragOver) && selected == old(selected)
    {
      error := "";
      var extension := ToLowerAscii(ExtensionOf(file.name));
      if extension !in acceptedFormats {
        error := FormatError(acceptedFormats);
        return false;
      }
      if file.Size() > maxSize * MiB {
        error := SizeError(maxSize);
        return false;
      }
      return true;
    }

    /** `handleFileSelect(file)`: only a file that passes validation reaches
        `onFileSelect`. */
    method HandleFileSelect(file: File)
      modifies this
      ensures error == UploadError(file, acceptedFormats, maxSize)
      ensures selected == old(selected) + (if error == "" then [file] else [])
      ensures isDragOver == old(isDragOver)
    {
      var ok := ValidateFile(file);
      if ok {
        selected := selected + [file];
      }
    }

    /** `handleDrop`: the highlight goes off and only the first dropped file is
        considered; an empty drop selects nothing. */
    method HandleDrop(files: seq<File>)
      modifies this
      ensures !isDragOver
      ensures files == [] ==> error == old(error) && selected == old(selected)
      ensures files != [] ==> error == UploadError(files[0], acceptedFormats, maxSize)
      ensures files != [] ==> selected == old(selected) + (if error == "" then [files[0]] else [])
    {
      isDragOver := false;
      if |files| > 0 {
        HandleFileSelect(files[0]);
      }
    }

    /** `handleDragOver`: turns the highlight on. */
    method HandleDragOver()
      modifies this
      ensures isDragOver
      ensures error == old(error) && selected == old(selected)
    {
      isDragOver := true;
    }

    /** `handleDragLeave`: turns the highlight off. */
    method HandleDragLeave()
      modifies this
      ensures !isDragOver
      ensures error == old(error) && selected == old(selected)
    {
      isDragOver := false;
    }

    /** `handleInputChange`: the first chosen file, if there is one, goes through the
        same selection as a drop; the highlight is left alone. */
    method HandleInputChange(files: seq<File>)
      modifies this
      ensures isDragOver == old(isDragOver)
      ensures files == [] ==> error == old(error) && selected == old(selected)
      ensures files != [] ==> error == UploadError(files[0], acceptedFormats, maxSize)
      ensures files != [] ==> selected == old(selected) + (if error == "" then [files[0]] else [])
    {
      if |files| > 0 {
        HandleFileSelect(files[0]);
      }
    }
  }
}
