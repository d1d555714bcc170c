/**
 * The server side of a batch upload: the whitelist of relative paths a
 * figure may contain, and the per-file checks (path, size, destination key)
 * made before a signed upload URL is issued. Database, authentication and
 * S3 signing are not part of this model; the figure URL and the bucket's
 * base URL are parameters.
 */
module UploadHandler {
  import opened Common
  import UploadBundle
  import ZarrConsolidate

  // ---------------------------------------------------------------------
  // `isZarrChunk`
  // ---------------------------------------------------------------------

  /** The scan of `isZarrChunk`: every character from `i` on is '.' or in '0'..'9'. */
  function ScanChunkChars(name: string, i: nat): (ok: bool)
    requires i <= |name|
    ensures ok <==> forall k :: i <= k < |name| ==> name[k] == '.' || '0' <= name[k] <= '9'
    decreases |name| - i
  {
    if i == |name| then true
    else if name[i] != '.' && (name[i] < '0' || name[i] > '9') then false
    else ScanChunkChars(name, i + 1)
  }

  function IsZarrChunk(name: string): bool
  {
    ScanChunkChars(name, 0) && |name| > 0 && !StartsWith(name, ".") && !EndsWith(name, ".")
  }

  /** The server's chunk test has the same truth table as the uploader's. */
  lemma SameChunkRule(name: string)
    ensures IsZarrChunk(name) == UploadBundle.IsZarrChunk(name)
  {
    if |name| > 0 {
      assert StartsWith(name, ".") <==> name[0] == '.';
      assert EndsWith(name, ".") <==> name[|name| - 1] == '.';
    }
  }

  // ---------------------------------------------------------------------
  // `validateFilePath`
  // ---------------------------------------------------------------------

  /** `/^\d+$/`. */
  predicate AllAsciiDigits(s: string)
  {
    |s| > 0 && forall k :: 0 <= k < |s| ==> '0' <= s[k] <= '9'
  }

  /** `_consolidated_<digits>.dat`, the names the consolidator writes. */
  predicate IsConsolidatedFile(base: string)
  {
    StartsWith(base, "_consolidated_") && EndsWith(base, ".dat") &&
    AllAsciiDigits(JsSlice(base, |"_consolidated_"|, -|".dat"|))
  }

  predicate IsMetadataName(base: string)
  {
    base == ".zattrs" || base == ".zgroup" || base == ".zarray" || base == ".zmetadata"
  }

  /** What a base name under `data.zarr/` may be. */
  predicate DataZarrBaseValid(base: string)
  {
    IsZarrChunk(base) || IsMetadataName(base) || IsConsolidatedFile(base)
  }

  predicate IsFixedName(path: string)
  {
    path == "index.html" || path == "manifest.json" || path == "extension_manifest.json" || path == "annotations.json"
  }

  /** `validateFilePath`, with its checks in source order. */
  function ValidateFilePath(path: string): (valid: bool)
    ensures IsFixedName(path) || EndsWith(path, ".html") ==> valid
    ensures valid ==> IsFixedName(path) || EndsWith(path, ".html") || StartsWith(path, "extension-")
                      || StartsWith(path, "data.zarr/") || StartsWith(path, "assets/")
  {
    if path == "index.html" || path == "manifest.json" || path == "extension_manifest.json" then true
    else if path == "annotations.json" then true
    else if EndsWith(path, ".png") && StartsWith(path, "assets/neurosift-logo") then
      PrefixOfPrefix(path, "assets/", "neurosift-logo");
      true
    else if EndsWith(path, ".html") then true
    else if StartsWith(path, "extension-") && EndsWith(path, ".js") then true
    else if StartsWith(path, "data.zarr/") && DataZarrBaseValid(LastPiece(path, '/')) then true
    else if StartsWith(path, "assets/") && (EndsWith(path[|"assets/"|..], ".js") || EndsWith(path[|"assets/"|..], ".css")) then true
    else false
  }

  /** Under `data.zarr/`, a non-HTML path is valid iff its base name is a chunk, a metadata file or a consolidated file. */
  lemma DataZarrRule(path: string)
    requires StartsWith(path, "data.zarr/") && !EndsWith(path, ".html")
    ensures ValidateFilePath(path) <==> DataZarrBaseValid(AfterLast(path, '/'))
  {
    NotBothPrefixes(path, "data.zarr/", "assets/");
    NotBothPrefixes(path, "data.zarr/", "extension-");
    NotBothPrefixes(path, "data.zarr/", "assets/neurosift-logo");
  }

  /** Under `assets/`, a non-HTML path is valid iff it is a .js or .css file or the neurosift logo. */
  lemma AssetsRule(path: string)
    requires StartsWith(path, "assets/") && !EndsWith(path, ".html")
    ensures ValidateFilePath(path) <==>
              EndsWith(path[|"assets/"|..], ".js") || EndsWith(path[|"assets/"|..], ".css") ||
              (EndsWith(path, ".png") && StartsWith(path, "assets/neurosift-logo"))
  {
    NotBothPrefixes(path, "assets/", "data.zarr/");
    NotBothPrefixes(path, "assets/", "extension-");
    assert !IsFixedName(path) by {
      assert path[1] == 's';
    }
  }

  lemma NotBothPrefixes(path: string, p: string, q: string)
    requires StartsWith(path, p) && |p| > 0 && |q| > 0 && p[0] != q[0]
    ensures !StartsWith(path, q)
  {
    assert path[0] == p[0];
  }

  /** Every consolidated file the uploader writes is accepted under `data.zarr/`. */
  lemma ConsolidatedFilesAccepted(i: nat)
    ensures ValidateFilePath("data.zarr/" + ZarrConsolidate.ConsolidatedName(i))
  {
    var base := ZarrConsolidate.ConsolidatedName(i);
    var path := "data.zarr/" + base;
    ConsolidatedNameValid(i);
    assert path[|path| - |base|..] == base;
    AfterLastUnique(path, '/', base);
    assert path[|path| - |base| - 1] == '/';
    assert StartsWith(path, "data.zarr/") by {
      assert path[..|"data.zarr/"|] == "data.zarr/";
    }
    assert DataZarrBaseValid(LastPiece(path, '/'));
  }

  lemma ConsolidatedNameValid(i: nat)
    ensures IsConsolidatedFile(ZarrConsolidate.ConsolidatedName(i))
    ensures '/' !in ZarrConsolidate.ConsolidatedName(i)
  {
    var base := ZarrConsolidate.ConsolidatedName(i);
    var digits := NatToString(i);
    var pre, post := "_consolidated_", ".dat";
    assert base == pre + digits + post;
    assert base[..|pre|] == pre;
    assert base[|base| - |post|..] == post;
    assert base[|pre|..|base| - |post|] == digits;
    assert JsSlice(base, |pre|, -|post|) == digits;
    forall k | 0 <= k < |base|
      ensures base[k] != '/'
    {
      if |pre| <= k < |base| - |post| {
        assert base[k] == digits[k - |pre|];
      }
    }
  }

  // ---------------------------------------------------------------------
  // Per-file checks in `handleUpload`
  // ---------------------------------------------------------------------

  /** The `size` field of a file entry: a JavaScript number, or something else. */
  datatype SizeField = NotANumber | Number(x: real)

  const MaxUploadBytes: real := (1024 * 1024 * 1024) as real

  /** The figure URL without a trailing `/index.html`. */
  function StripIndexHtml(figureUrl: string): (r: string)
    ensures EndsWith(figureUrl, "/index.html") ==> r + "/index.html" == figureUrl
    ensures !EndsWith(figureUrl, "/index.html") ==> r == figureUrl
  {
    if EndsWith(figureUrl, "/index.html") then
      var r := figureUrl[..|figureUrl| - |"/index.html"|];
      assert figureUrl == r + figureUrl[|figureUrl| - |"/index.html"|..];
      r
    else figureUrl
  }

  datatype FileCheck =
    | InvalidPath
    | InvalidSize
    | TooLarge
    | InvalidDestination
    | Accepted(fileKey: string)

  /** The checks made on one file entry, in source order, giving the bucket key on success. */
  function CheckFile(figureUrl: string, bucketBaseUrl: string, relativePath: string, size: SizeField): (r: FileCheck)
    ensures r == InvalidPath <==> !ValidateFilePath(relativePath)
    ensures r == InvalidSize <==> ValidateFilePath(relativePath) && (size.NotANumber? || size.x <= 0.0)
    ensures r == TooLarge <==> ValidateFilePath(relativePath) && size.Number? && size.x > MaxUploadBytes
    ensures r.Accepted? <==>
              ValidateFilePath(relativePath) && size.Number? && 0.0 < size.x <= MaxUploadBytes &&
              StartsWith(StripIndexHtml(figureUrl) + "/" + relativePath, bucketBaseUrl + "/")
    ensures r.Accepted? ==>
              bucketBaseUrl + "/" + r.fileKey == StripIndexHtml(figureUrl) + "/" + relativePath
    ensures r == InvalidDestination <==>
              ValidateFilePath(relativePath) && size.Number? && 0.0 < size.x <= MaxUploadBytes &&
              !StartsWith(StripIndexHtml(figureUrl) + "/" + relativePath, bucketBaseUrl + "/")
  {
    if !ValidateFilePath(relativePath) then InvalidPath
    else if size.NotANumber? || size.x <= 0.0 then InvalidSize
    else if size.x > MaxUploadBytes then TooLarge
    else
      var destinationUrl := StripIndexHtml(figureUrl) + "/" + relativePath;
      var prefix := bucketBaseUrl + "/";
      if !StartsWith(destinationUrl, prefix) then InvalidDestination
      else
        var key := destinationUrl[|prefix|..];
        assert destinationUrl == prefix + key;
        Accepted(key)
  }

  /** The signing loop: the first rejected file aborts the batch; otherwise one key per file, in order. */
  method SignFiles(figureUrl: string, bucketBaseUrl: string, files: seq<(string, SizeField)>)
    returns (keys: seq<string>, failure: Option<(nat, FileCheck)>)
    ensures failure.None? ==>
              |keys| == |files| &&
              forall i :: 0 <= i < |files| ==> CheckFile(figureUrl, bucketBaseUrl, files[i].0, files[i].1) == Accepted(keys[i])
    ensures failure.Some? ==>
              var (i, check) := failure.value;
              && i < |files| && !check.Accepted?
              && check == CheckFile(figureUrl, bucketBaseUrl, files[i].0, files[i].1)
              && forall j :: 0 <= j < i ==> CheckFile(figureUrl, bucketBaseUrl, files[j].0, files[j].1).Accepted?
  {
    keys := [];
    var i := 0;
    while i < |files|
      invariant 0 <= i <= |files| && |keys| == i
      invariant forall j :: 0 <= j < i ==> CheckFile(figureUrl, bucketBaseUrl, files[j].0, files[j].1) == Accepted(keys[j])
    {
      var check := CheckFile(figureUrl, bucketBaseUrl, files[i].0, files[i].1);
      if !check.Accepted? {
        return keys, Some((i, check));
      }
      keys := keys + [check.fileKey];
      i := i + 1;
    }
    failure := None;
  }
}
