// Storage bucket URIs of the cloud API, such as "r2://figures" or
// "s3://figures?region=us-east-1": the scheme names the storage service,
// the third '/'-separated segment is the bucket, and the query may carry a
// region. Bulk deletion sends the keys in batches of at most 1000, the
// most one delete request accepts. The storage client and its cache are
// not modelled; a batch stands for one delete request.

module BucketUri {
  import opened Common

  datatype ParsedBucketUri = ParsedBucketUri(service: string, region: string, bucketName: string)

  /** `parts[i] || ""`: a missing part and an empty one both give "". */
  function PartOr(parts: seq<string>, i: nat): string
  {
    if i < |parts| then parts[i] else ""
  }

  // ---------------------------------------------------------------------
  // The query
  // ---------------------------------------------------------------------

  /** The key and value of one query part split at "="; none when either is missing or empty. */
  function QueryPair(part: string): Option<(string, string)>
  {
    var kv := Split(part, "=");
    var key, value := kv[0], PartOr(kv, 1);
    if key != "" && value != "" then Some((key, value)) else None
  }

  /** The query record after storing the pairs of `parts` in order, a later key overwriting. */
  function QueryMap(parts: seq<string>): (m: map<string, string>)
    ensures forall k :: k in m ==> k != "" && m[k] != ""
  {
    if |parts| == 0 then map[]
    else
      var m := QueryMap(parts[..|parts| - 1]);
      match QueryPair(parts[|parts| - 1])
      case Some(kv) => m[kv.0 := kv.1]
      case None => m
  }

  /** The position of the first "?", or the length when there is none. */
  function QueryIndex(uri: string): (q: nat)
    ensures q <= |uri|
  {
    match Find(uri, "?")
    case Some(j) => j
    case None => |uri|
  }

  function QueryString(uri: string): string
  {
    JsSlice(uri, QueryIndex(uri) + 1, |uri|)
  }

  /** The query record of a URI: empty when the query string is. */
  function QueryOf(uri: string): map<string, string>
  {
    var qs := QueryString(uri);
    if qs == "" then map[] else QueryMap(Split(qs, "&"))
  }

  /** The loop that fills the query record. */
  method FillQuery(queryString: string) returns (query: map<string, string>)
    ensures query == if queryString == "" then map[] else QueryMap(Split(queryString, "&"))
  {
    query := map[];
    if queryString != "" {
      var parts := Split(queryString, "&");
      var i := 0;
      while i < |parts|
        invariant 0 <= i <= |parts|
        invariant query == QueryMap(parts[..i])
      {
        var kv := Split(parts[i], "=");
        var key := kv[0];
        var value := if |kv| > 1 then kv[1] else "";
        assert parts[..i + 1][..i] == parts[..i];
        if key != "" && value != "" {
          query := query[key := value];
        }
        i := i + 1;
      }
      assert parts[..|parts|] == parts;
    }
  }

  // ---------------------------------------------------------------------
  // The URI
  // ---------------------------------------------------------------------

  /** The service named by the scheme; an unknown scheme names itself. */
  function ServiceName(prefix: string): string
  {
    if prefix == "wasabi" then "wasabi"
    else if prefix == "gs" then "google"
    else if prefix == "s3" then "aws"
    else if prefix == "r2" then "r2"
    else prefix
  }

  function BaseUri(uri: string): string
  {
    uri[..QueryIndex(uri)]
  }

  /** What `parseBucketUri` returns. */
  function BucketUriOf(uri: string): ParsedBucketUri
  {
    var base := BaseUri(uri);
    var query := QueryOf(uri);
    var region := if "region" in query then query["region"] else "";
    var servicePrefix := Split(Split(base, "/")[0], ":")[0];
    ParsedBucketUri(ServiceName(servicePrefix), region, PartOr(Split(base, "/"), 2))
  }

  /** `parseBucketUri`. */
  method ParseBucketUri(uri: string) returns (r: ParsedBucketUri)
    ensures r == BucketUriOf(uri)
  {
    var queryIndex := QueryIndex(uri);
    var baseUri := uri[..queryIndex];
    var queryString := JsSlice(uri, queryIndex + 1, |uri|);
    var query := FillQuery(queryString);
    var region := if "region" in query then query["region"] else "";
    var servicePrefix := Split(Split(baseUri, "/")[0], ":")[0];
    r := ParsedBucketUri(ServiceName(servicePrefix), region, PartOr(Split(baseUri, "/"), 2));
  }

  /** `bucketNameFromUri`. */
  function BucketNameFromUri(uri: string): string
  {
    if uri == "" then "" else PartOr(Split(Split(uri, "?")[0], "/"), 2)
  }

  // ---------------------------------------------------------------------
  // What the parsers promise
  // ---------------------------------------------------------------------

  /** A query pair is read back from "key=value" when neither holds "=". */
  lemma QueryPairOf(key: string, value: string)
    requires key != "" && value != "" && '=' !in key && '=' !in value
    ensures QueryPair(key + "=" + value) == Some((key, value))
  {
    SplitAfter(key, '=', value);
    SplitFree(value, '=');
  }

  /** A part without "=" has no value and is dropped. */
  lemma QueryPairNeedsValue(part: string)
    requires '=' !in part
    ensures QueryPair(part).None?
  {
    SplitFree(part, '=');
  }

  /** The pair of `parts[j]` sets key `k` and no later part sets it. */
  ghost predicate LastPairFor(parts: seq<string>, j: int, k: string)
  {
    && 0 <= j < |parts| && QueryPair(parts[j]).Some? && QueryPair(parts[j]).value.0 == k
    && forall i :: j < i < |parts| ==> QueryPair(parts[i]).None? || QueryPair(parts[i]).value.0 != k
  }

  /** A key is in the record iff some part sets it. */
  lemma {:induction false} QueryMapKeys(parts: seq<string>, k: string)
    ensures k in QueryMap(parts) <==>
              exists i :: 0 <= i < |parts| && QueryPair(parts[i]).Some? && QueryPair(parts[i]).value.0 == k
  {
    if |parts| > 0 {
      var init := parts[..|parts| - 1];
      QueryMapKeys(init, k);
      assert forall i :: 0 <= i < |init| ==> init[i] == parts[i];
    }
  }

  /** The record holds, for each key, the value of the last part that sets it. */
  lemma {:induction false} QueryMapLastWins(parts: seq<string>, j: int, k: string)
    requires LastPairFor(parts, j, k)
    ensures k in QueryMap(parts) && QueryMap(parts)[k] == QueryPair(parts[j]).value.1
  {
    var n := |parts| - 1;
    if j < n {
      var init := parts[..n];
      assert init[j] == parts[j];
      assert LastPairFor(init, j, k) by {
        forall i | j < i < n
          ensures QueryPair(init[i]).None? || QueryPair(init[i]).value.0 != k
        {
          assert init[i] == parts[i];
        }
      }
      QueryMapLastWins(init, j, k);
    }
  }

  /** Without "?" there is no query and the region is empty. */
  lemma NoQuery(uri: string)
    requires '?' !in uri
    ensures QueryOf(uri) == map[] && BucketUriOf(uri).region == ""
    ensures BaseUri(uri) == uri
  {
    FindChar(uri, '?');
  }

  /** The first piece of a split at `c` is everything before the first `c`. */
  lemma SplitFirst(s: string, c: char)
    ensures Split(s, [c])[0] == match Find(s, [c]) case Some(j) => s[..j] case None => s
  {
  }

  /** `bucketNameFromUri` gives the bucket name `parseBucketUri` finds, for every URI. */
  lemma BucketNameAgrees(uri: string)
    ensures BucketNameFromUri(uri) == BucketUriOf(uri).bucketName
  {
    SplitFirst(uri, '?');
    if uri == "" {
      FindChar(uri, '?');
      assert BaseUri(uri) == "";
      SplitFree("", '/');
    } else {
      assert Split(uri, "?")[0] == BaseUri(uri);
    }
  }

  /** The URI "scheme://bucket", followed by "?region=..." when a region is given. */
  function ComposeUri(prefix: string, bucket: string, region: string): string
  {
    prefix + "://" + bucket + (if region == "" then "" else "?region=" + region)
  }

  /** Splitting "prefix://bucket" at "/" and at ":". */
  lemma BasePieces(prefix: string, bucket: string)
    requires ':' !in prefix && '/' !in prefix && '/' !in bucket
    ensures Split(prefix + "://" + bucket, "/") == [prefix + ":", "", bucket]
    ensures Split(prefix + ":", ":") == [prefix, ""]
  {
    SchemeSlashPieces(prefix + ":", bucket);
    assert prefix + "://" + bucket == (prefix + ":") + "//" + bucket;
    SplitFree("", ':');
    SplitAfter(prefix, ':', "");
    assert prefix + ":" + "" == prefix + ":";
  }

  lemma SchemeSlashPieces(scheme: string, bucket: string)
    requires '/' !in scheme && '/' !in bucket
    ensures Split(scheme + "//" + bucket, "/") == [scheme, "", bucket]
  {
    SplitFree(bucket, '/');
    SplitAfter("", '/', bucket);
    assert "" + "/" + bucket == "/" + bucket;
    SplitAfter(scheme, '/', "/" + bucket);
    assert scheme + "//" + bucket == scheme + "/" + ("/" + bucket);
  }


  /** A query without "&" is one part, and its record holds that part's pair. */
  lemma SinglePartQuery(qs: string)
    requires '&' !in qs && QueryPair(qs).Some?
    ensures QueryMap(Split(qs, "&")) == map[QueryPair(qs).value.0 := QueryPair(qs).value.1]
  {
    SplitFree(qs, '&');
    assert [qs][..0] == [];
  }

  /** The query "region=r" gives the record {region: r}. */
  lemma RegionQuery(region: string)
    requires region != "" && '&' !in region && '=' !in region
    ensures QueryMap(Split("region=" + region, "&")) == map["region" := region]
  {
    var qs := "region=" + region;
    assert qs == "region" + "=" + region;
    assert '&' !in qs by {
      forall k | 0 <= k < |qs|
        ensures qs[k] != '&'
      {
        if k >= 7 {
          assert qs[k] == region[k - 7];
        }
      }
    }
    QueryPairOf("region", region);
    SinglePartQuery(qs);
  }

  /**
   * A URI composed from a scheme, a bucket and a region parses back into the
   * service the scheme names, that region and that bucket.
   */
  lemma ParseComposed(prefix: string, bucket: string, region: string)
    requires ':' !in prefix && '/' !in prefix && '?' !in prefix
    requires '/' !in bucket && '?' !in bucket
    requires '&' !in region && '=' !in region
    ensures BucketUriOf(ComposeUri(prefix, bucket, region)) == ParsedBucketUri(ServiceName(prefix), region, bucket)
  {
    var base := prefix + "://" + bucket;
    var uri := ComposeUri(prefix, bucket, region);
    assert '?' !in base by {
      assert forall k :: 0 <= k < |base| ==>
        base[k] == if k < |prefix| then prefix[k] else if k < |prefix| + 3 then "://"[k - |prefix|] else bucket[k - |prefix| - 3];
    }
    var query: map<string, string> := if region == "" then map[] else map["region" := region];
    assert BaseUri(uri) == base && QueryOf(uri) == query by {
      if region == "" {
        assert uri == base;
        NoQuery(uri);
      } else {
        var qs := "region=" + region;
        assert uri == base + ['?'] + qs;
        FindAfterFree(base, '?', qs);
        assert BaseUri(uri) == base;
        assert QueryString(uri) == qs;
        RegionQuery(region);
      }
    }
    ParsedFromParts(uri, base, query);
    BasePieces(prefix, bucket);
  }

  /** `parseBucketUri` in terms of the URI's base and query record. */
  lemma ParsedFromParts(uri: string, base: string, query: map<string, string>)
    requires BaseUri(uri) == base && QueryOf(uri) == query
    ensures BucketUriOf(uri) == ParsedBucketUri(ServiceName(Split(Split(base, "/")[0], ":")[0]),
                                                 if "region" in query then query["region"] else "",
                                                 PartOr(Split(base, "/"), 2))
  {
  }


  // ---------------------------------------------------------------------
  // Bulk deletion
  // ---------------------------------------------------------------------

  const MaxDeleteBatch: nat := 1000

  /** `keys` cut into consecutive pieces of `size`, the last one possibly shorter. */
  function Chunks<T>(keys: seq<T>, size: nat): seq<seq<T>>
    requires size > 0
    decreases |keys|
  {
    if |keys| == 0 then []
    else if |keys| <= size then [keys]
    else [keys[..size]] + Chunks(keys[size..], size)
  }

  function Concat<T>(batches: seq<seq<T>>): seq<T>
  {
    if |batches| == 0 then [] else batches[0] + Concat(batches[1..])
  }

  /**
   * The batches cover the keys in order; each holds between 1 and `size`
   * keys, and every batch but the last holds exactly `size`.
   */
  lemma {:induction false} ChunksSpec<T>(keys: seq<T>, size: nat)
    requires size > 0
    ensures var b := Chunks(keys, size);
            && Concat(b) == keys
            && (forall i :: 0 <= i < |b| ==> 0 < |b[i]| <= size)
            && (forall i :: 0 <= i < |b| - 1 ==> |b[i]| == size)
    decreases |keys|
  {
    if |keys| > size {
      var rest := Chunks(keys[size..], size);
      ChunksSpec(keys[size..], size);
      var b := Chunks(keys, size);
      assert b == [keys[..size]] + rest;
      assert b[1..] == rest;
      assert forall i :: 1 <= i < |b| ==> b[i] == rest[i - 1];
    } else if |keys| > 0 {
      assert Chunks(keys, size)[1..] == [];
    }
  }

  /** The number of batches is the number of keys divided by the batch size, rounded up. */
  lemma {:induction false} ChunksCount<T>(keys: seq<T>, size: nat)
    requires size > 0
    ensures |keys| <= |Chunks(keys, size)| * size < |keys| + size
    decreases |keys|
  {
    if |keys| > size {
      var c := |Chunks(keys[size..], size)|;
      ChunksCount(keys[size..], size);
      assert |Chunks(keys, size)| == c + 1;
      assert (c + 1) * size == c * size + size;
    }
  }

  /** `deleteObjects`: the bucket the requests go to and the keys of each request, in order. */
  method DeleteObjects(bucketUri: string, keys: seq<string>) returns (bucketName: string, batches: seq<seq<string>>)
    ensures bucketName == BucketNameFromUri(bucketUri)
    ensures batches == Chunks(keys, MaxDeleteBatch)
  {
    bucketName := BucketNameFromUri(bucketUri);
    batches := [];
    if |keys| == 0 {
      return;
    }
    var chunkSize := MaxDeleteBatch;
    var i := 0;
    while i < |keys|
      invariant 0 <= i
      invariant i < |keys| ==> batches + Chunks(keys[i..], chunkSize) == Chunks(keys, chunkSize)
      invariant i >= |keys| ==> batches == Chunks(keys, chunkSize)
      decreases |keys| - i
    {
      var chunk := JsSlice(keys, i, i + chunkSize);
      if i + chunkSize < |keys| {
        assert chunk == keys[i..][..chunkSize];
        assert keys[i..][chunkSize..] == keys[i + chunkSize..];
      } else {
        assert chunk == keys[i..];
      }
      batches := batches + [chunk];
      i := i + chunkSize;
    }
  }
}
