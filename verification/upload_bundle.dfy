/**
 * The client-side classifiers used when a figure bundle is uploaded: which
 * files go up as "small" (inline content) or "large" (signed URL), which file
 * names are zarr chunks, and the Content-Type sent with a large file.
 */
module UploadBundle {
  import opened Common

  datatype FileType = Small | Large

  /** A character a zarr chunk name may hold (`.` or a digit). */
  predicate ChunkChar(c: char)
  {
    c == '.' || IsDigit(c)
  }

  /** The character scan of `_is_zarr_chunk`: no character from `i` on is rejected. */
  function ScanChunkChars(name: string, i: nat): (ok: bool)
    requires i <= |name|
    ensures ok <==> forall k :: i <= k < |name| ==> ChunkChar(name[k])
    decreases |name| - i
  {
    if i == |name| then true
    else if name[i] != '.' && !IsDigit(name[i]) then false
    else ScanChunkChars(name, i + 1)
  }

  /**
   * `_is_zarr_chunk`: a chunk key such as "0.0.1" -- non-empty, only digits
   * and dots, and neither starting nor ending with a dot.
   */
  function IsZarrChunk(name: string): (r: bool)
    ensures r <==> |name| > 0 && (forall k :: 0 <= k < |name| ==> ChunkChar(name[k]))
                   && name[0] != '.' && name[|name| - 1] != '.'
  {
    ScanChunkChars(name, 0) && |name| > 0 && !StartsWith(name, ".") && !EndsWith(name, ".")
  }

  predicate HasMetadataSuffix(p: string)
  {
    EndsWith(p, ".zattrs") || EndsWith(p, ".zgroup") || EndsWith(p, ".zarray") || EndsWith(p, ".zmetadata")
  }

  /** `_determine_file_type`, with its checks in source order. */
  function DetermineFileType(path: string): (r: FileType)
    ensures r == Small <==> path == "index.html" || HasMetadataSuffix(path) || EndsWith(path, ".html")
  {
    if path == "index.html" then Small
    else if HasMetadataSuffix(path) then Small
    else if EndsWith(path, ".html") then Small
    else if StartsWith(path, "data.zarr/") && IsZarrChunk(path[|"data.zarr/"|..]) then Large
    else if StartsWith(path, "data.zarr/") && HasMetadataSuffix(path[|"data.zarr/"|..]) then
      SuffixOfSuffix(path, |"data.zarr/"|);
      Small
    else Large
  }

  /** A suffix of `path[n..]` is a suffix of `path`. */
  lemma SuffixOfSuffix(path: string, n: nat)
    requires n <= |path|
    ensures HasMetadataSuffix(path[n..]) ==> HasMetadataSuffix(path)
  {
  }

  /** A suffix that ends in a letter never matches the last character of a chunk key. */
  lemma ChunkEndsInDigit(path: string, n: nat, suffix: string)
    requires n <= |path| && IsZarrChunk(path[n..]) && |suffix| >= 1
    requires suffix[|suffix| - 1] != '.' && !IsDigit(suffix[|suffix| - 1])
    ensures !EndsWith(path, suffix)
  {
    assert path[|path| - 1] == path[n..][|path| - n - 1];
  }

  /** Chunks of `data.zarr/` are always uploaded as large files. */
  lemma DataZarrChunksAreLarge(path: string)
    requires StartsWith(path, "data.zarr/") && IsZarrChunk(path[|"data.zarr/"|..])
    ensures DetermineFileType(path) == Large
  {
    var n := |"data.zarr/"|;
    ChunkEndsInDigit(path, n, ".zattrs");
    ChunkEndsInDigit(path, n, ".zgroup");
    ChunkEndsInDigit(path, n, ".zarray");
    ChunkEndsInDigit(path, n, ".zmetadata");
    ChunkEndsInDigit(path, n, ".html");
  }

  // ---------------------------------------------------------------------
  // Content type (`_determine_content_type`)
  // ---------------------------------------------------------------------

  /** The last '/' segment, then the text after its last '.' (or "" without a dot). */
  function FileExtension(path: string): (ext: string)
    ensures var name := AfterLast(path, '/');
            ext == if '.' in name then AfterLast(name, '.') else ""
    ensures '/' !in ext && '.' !in ext
  {
    var fileName := LastPiece(path, '/');
    if '.' in fileName then LastPiece(fileName, '.') else ""
  }

  const OctetStream := "application/octet-stream"

  /** The extensions with a known Content-Type. */
  const KnownExtensions := {"json", "html", "css", "js", "png", "zattrs", "zgroup", "zarray", "zmetadata"}

  /** `content_type_map.get(extension, "application/octet-stream")`. */
  function ContentTypeFor(ext: string): (r: string)
    ensures r == OctetStream <==> ext !in KnownExtensions
    // zarr metadata files are JSON documents
    ensures ext in {"json", "zattrs", "zgroup", "zarray", "zmetadata"} ==> r == "application/json"
  {
    match ext
    case "json" => "application/json"
    case "html" => "text/html"
    case "css" => "text/css"
    case "js" => "application/javascript"
    case "png" => "image/png"
    case "zattrs" => "application/json"
    case "zgroup" => "application/json"
    case "zarray" => "application/json"
    case "zmetadata" => "application/json"
    case _ => OctetStream
  }

  /** The Content-Type header for a large upload: by extension, unknown ones as an octet stream. */
  function DetermineContentType(path: string): (r: string)
    ensures r == OctetStream <==> FileExtension(path) !in KnownExtensions
  {
    ContentTypeFor(FileExtension(path))
  }

  /** A name without a dot in its last segment has no extension, so it is sent as an octet stream. */
  lemma NoDotIsOctetStream(path: string)
    requires '.' !in AfterLast(path, '/')
    ensures DetermineContentType(path) == OctetStream
  {
  }

  /** A single-segment name `stem.ext` has extension `ext` (the shape of the package's tests). */
  lemma ExtensionOf(path: string, stem: string, ext: string)
    requires path == stem + "." + ext && '/' !in path && '.' !in stem && '.' !in ext
    ensures FileExtension(path) == ext
    ensures DetermineContentType(path) == ContentTypeFor(ext)
  {
    AfterLastUnique(path, '/', path);
    assert path[|stem|] == '.';
    assert path[|path| - |ext|..] == ext;
    AfterLastUnique(path, '.', ext);
  }
}
