/** utils/index.js: the accumulating file validator and the stand-alone bitrate
    helper. The error texts are shared with the upload component. */
module Validation {
  import opened Text
  import opened Media
  import opened FileNames
  import opened Planner

  const FormatErrorPrefix: string := "Unsupported file format. Please use: "
  const SizeErrorPrefix: string := "File too large. Maximum size: "

  /** `Unsupported file format. Please use: ${formats.join(', ')}` */
  function FormatError(formats: seq<string>): (m: string)
    ensures FormatErrorPrefix <= m
  {
    FormatErrorPrefix + Join(formats, ", ")
  }

  /** `File too large. Maximum size: ${maxSizeMB}MB` */
  function SizeError(maxSizeMB: nat): (m: string)
    ensures SizeErrorPrefix <= m
  {
    SizeErrorPrefix + NatToString(maxSizeMB) + "MB"
  }

  lemma ErrorsDiffer(formats: seq<string>, maxSizeMB: nat)
    ensures FormatError(formats) != SizeError(maxSizeMB)
  {
    assert FormatError(formats)[0] == 'U' != 'F' == SizeError(maxSizeMB)[0];
  }

  /** The lower-cased text after the last dot is one of the formats. */
  predicate FormatSupported(name: string, formats: seq<string>)
  {
    ToLowerAscii(ExtensionOf(name)) in formats
  }

  /** `file.size / (1024 * 1024) > maxSizeMB`, decided on whole bytes. */
  predicate Oversized(size: nat, maxSizeMB: nat)
  {
    size > maxSizeMB * MiB
  }

  /** The byte comparison is the megabyte comparison the code writes. */
  lemma OversizedInMegabytes(size: nat, maxSizeMB: nat)
    ensures Oversized(size, maxSizeMB) <==> SizeMB(size) > maxSizeMB as real
  {
    assert SizeMB(size) * MiB as real == size as real;
  }

  /** The errors `validateVideoFile` reports: the format error first, then the size
      error, each present exactly when its check fails. */
  function FileErrors(file: File, formats: seq<string>, maxSizeMB: nat): (errors: seq<string>)
    ensures |errors| <= 2
    ensures FormatError(formats) in errors <==> !FormatSupported(file.name, formats)
    ensures SizeError(maxSizeMB) in errors <==> Oversized(file.Size(), maxSizeMB)
    ensures forall k :: 0 <= k < |errors| ==> errors[k] == FormatError(formats) || errors[k] == SizeError(maxSizeMB)
    ensures |errors| == 2 ==> errors == [FormatError(formats), SizeError(maxSizeMB)]
  {
    ErrorsDiffer(formats, maxSizeMB);
    (if FormatSupported(file.name, formats) then [] else [FormatError(formats)])
      + (if Oversized(file.Size(), maxSizeMB) then [SizeError(maxSizeMB)] else [])
  }

  /** `{ isValid, errors }` */
  datatype FileValidation = FileValidation(isValid: bool, errors: seq<string>)

  /** `validateVideoFile(file, supportedFormats, maxSizeMB)`. */
  method ValidateVideoFile(file: File, formats: seq<string>, maxSizeMB: nat) returns (v: FileValidation)
    ensures v.errors == FileErrors(file, formats, maxSizeMB)
    ensures v.isValid <==> v.errors == []
  {
    var errors: seq<string> := [];
    var extension := ToLowerAscii(ExtensionOf(file.name));
    if extension !in formats {
      errors := errors + [FormatError(formats)];
    }
    if file.Size() > maxSizeMB * MiB {
      errors := errors + [SizeError(maxSizeMB)];
    }
    v := FileValidation(|errors| == 0, errors);
  }

  /** A file is valid exactly when its format is supported and it is not oversized;
      a file exactly at the limit passes. */
  lemma ValidExactly(file: File, formats: seq<string>, maxSizeMB: nat)
    ensures FileErrors(file, formats, maxSizeMB) == [] <==>
      FormatSupported(file.name, formats) && !Oversized(file.Size(), maxSizeMB)
    ensures file.Size() == maxSizeMB * MiB && FormatSupported(file.name, formats)
      ==> FileErrors(file, formats, maxSizeMB) == []
  {
    if FileErrors(file, formats, maxSizeMB) == [] {
      assert FormatError(formats) !in FileErrors(file, formats, maxSizeMB);
    }
  }

  /** `calculateTargetBitrate(targetSizeMB, durationSeconds)`: the same budget formula
      as the services with a floor of 200 kbps. */
  function CalculateTargetBitrate(targetSizeMB: real, durationSeconds: real): (r: int)
    requires durationSeconds != 0.0
    ensures r >= 200
    ensures r > 200 ==> ((r + 128) * 1000) as real <= BitsPerSecond(targetSizeMB * MiB as real, durationSeconds)
                          < ((r + 129) * 1000) as real
    ensures r == 200 ==> BitsPerSecond(targetSizeMB * MiB as real, durationSeconds) < 329000.0
  {
    Bitrate(targetSizeMB * MiB as real, durationSeconds, 200)
  }

  /** 8 MB over a minute leaves 990 kbps for the video. */
  lemma TargetBitrateExample()
    ensures CalculateTargetBitrate(8.0, 60.0) == 990
  {
    var b := 8.0 * MiB as real * 8.0 / 60.0 / 1000.0;
    assert 1118.0 <= b < 1119.0;
    assert b.Floor == 1118;
  }

  /** For a non-negative budget, a longer video never gets a higher rate. */
  lemma TargetBitrateNonIncreasing(targetSizeMB: real, d1: real, d2: real)
    requires targetSizeMB >= 0.0 && 0.0 < d1 <= d2
    ensures CalculateTargetBitrate(targetSizeMB, d2) <= CalculateTargetBitrate(targetSizeMB, d1)
  {
    BitrateNonIncreasing(targetSizeMB * MiB as real, d1, d2, 200);
  }

  /** The helper's floor is below both services' floors, so for the same inputs it
      never exceeds what either service caps the encoder at. */
  lemma TargetBitrateBelowServices(targetSizeMB: real, duration: real)
    requires duration > 0.0
    ensures CalculateTargetBitrate(targetSizeMB, duration)
      <= Plan(targetSizeMB * MiB as real, duration, LegacyEncoding).maxrateKbps
    ensures CalculateTargetBitrate(targetSizeMB, duration)
      <= Plan(targetSizeMB * MiB as real, duration, CurrentEncoding).maxrateKbps
  {
  }
}
