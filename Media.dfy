/** The browser-side values the core passes around: a selected `File` and the `Blob`
    the encoder produces. Only their names, bytes and MIME types matter here. */
module Media {

  newtype byte = x: int | 0 <= x < 256

  /** Bytes per megabyte as the code counts them (`1024 * 1024`). */
  const MiB: nat := 1024 * 1024

  /** A user-selected file; `size` in the source is the number of bytes. */
  datatype File = File(name: string, data: seq<byte>) {
    function Size(): nat { |data| }
  }

  /** An in-memory binary object tagged with a media type. */
  datatype Blob = Blob(data: seq<byte>, mimeType: string) {
    function Size(): nat { |data| }
  }
}

/** File-name pieces the services and validators derive from `file.name`. */
module FileNames {
  import opened Text

  /** `name.split('.').pop()`: the text after the last dot, or the whole name. */
  function ExtensionOf(name: string): (ext: string)
    ensures '.' !in ext
    ensures '.' !in name ==> ext == name
    ensures '.' in name ==> ext == name[LastIndexOf(name, '.') + 1..]
  {
    LastSplit(name, '.');
    Last(Split(name, '.'))
  }

  /** Whatever precedes a last dot, the extension is what follows it. */
  lemma ExtensionOfDotted(stem: string, ext: string)
    requires '.' !in ext
    ensures ExtensionOf(stem + "." + ext) == ext
  {
    LastSplitOfSuffix(stem, '.', ext);
  }
}
