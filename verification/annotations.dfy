/**
 * Saved figure annotations: the annotation items (a map from key to text)
 * live in "annotations.json" beside the figure's "index.html". The viewer
 * compares the saved items with the items being edited to tell whether
 * there are unsaved changes. Loading, uploading and the editing state are
 * not part of this model.
 */
module Annotations {
  import opened Common

  type Items = map<string, string>

  /** `!a || Object.keys(a).length === 0`: no items, or none at all. */
  predicate IsEmpty(items: Option<Items>)
  {
    items.None? || |items.value| == 0
  }

  /** The comparison of `annotationItemsAreEqual`, as a condition on the two item sets. */
  predicate ItemsEqual(a: Option<Items>, b: Option<Items>)
  {
    if IsEmpty(a) || IsEmpty(b) then IsEmpty(a) && IsEmpty(b)
    else |a.value.Keys| == |b.value.Keys| && forall k :: k in a.value ==> k in b.value && a.value[k] == b.value[k]
  }

  /**
   * `annotationItemsAreEqual`. The first test, `a === b`, compares object
   * identity; identical objects also pass the tests that follow, so it
   * changes no answer and is not modelled.
   */
  method AnnotationItemsAreEqual(a: Option<Items>, b: Option<Items>) returns (equal: bool)
    ensures equal == ItemsEqual(a, b)
  {
    var aIsEmpty := a.None? || |a.value.Keys| == 0;
    var bIsEmpty := b.None? || |b.value.Keys| == 0;
    if aIsEmpty && bIsEmpty {
      return true;
    }
    if aIsEmpty != bIsEmpty {
      return false;
    }
    var x, y := a.value, b.value;
    if |x.Keys| != |y.Keys| {
      return false;
    }
    var remaining := x.Keys;
    while remaining != {}
      invariant remaining <= x.Keys
      invariant forall k :: k in x && k !in remaining ==> k in y && x[k] == y[k]
      decreases |remaining|
    {
      var key :| key in remaining;
      if key !in y || x[key] != y[key] {
        return false;
      }
      remaining := remaining - {key};
    }
    return true;
  }

  /** The items a value stands for: none and no map both stand for no items. */
  function Normalize(items: Option<Items>): Items
  {
    if items.Some? then items.value else map[]
  }

  lemma SubsetSameSize(s: set<string>, t: set<string>)
    requires s <= t && |s| == |t|
    ensures s == t
  {
    assert t == s + (t - s);
    assert |t - s| == 0;
  }

  /**
   * Two item sets compare equal exactly when they hold the same keys with
   * the same texts, a missing set counting as an empty one. In particular
   * identical sets compare equal, no items equals an empty map, and an empty
   * set never equals a non-empty one.
   */
  lemma ItemsEqualSpec(a: Option<Items>, b: Option<Items>)
    ensures ItemsEqual(a, b) <==> Normalize(a) == Normalize(b)
  {
    if !IsEmpty(a) && !IsEmpty(b) && ItemsEqual(a, b) {
      SubsetSameSize(a.value.Keys, b.value.Keys);
    }
  }

  /** The comparison is an equivalence. */
  lemma ItemsEqualEquivalence(a: Option<Items>, b: Option<Items>, c: Option<Items>)
    ensures ItemsEqual(a, a)
    ensures ItemsEqual(a, b) ==> ItemsEqual(b, a)
    ensures ItemsEqual(a, b) && ItemsEqual(b, c) ==> ItemsEqual(a, c)
  {
    ItemsEqualSpec(a, a);
    ItemsEqualSpec(a, b);
    ItemsEqualSpec(b, a);
    ItemsEqualSpec(b, c);
    ItemsEqualSpec(a, c);
  }

  // ---------------------------------------------------------------------
  // Where the annotations are stored
  // ---------------------------------------------------------------------

  const AnnotationsFile: string := "/annotations.json"

  /** `figureUrl.slice(0, -"index.html".length)` when the URL ends in "/index.html". */
  function WithoutIndexHtml(figureUrl: string): string
  {
    if EndsWith(figureUrl, "/index.html") then figureUrl[..|figureUrl| - |"index.html"|] else figureUrl
  }

  /** Without one trailing "/". */
  function WithoutTrailingSlash(url: string): string
  {
    if EndsWith(url, "/") then url[..|url| - 1] else url
  }

  /** The URL the annotations are loaded from and saved to. */
  function AnnotationsUrl(figureUrl: string): string
  {
    WithoutTrailingSlash(WithoutIndexHtml(figureUrl)) + AnnotationsFile
  }

  /** One trailing "/" is stripped, and nothing else. */
  lemma StripSlash(dir: string)
    requires !EndsWith(dir, "/")
    ensures WithoutTrailingSlash(dir) == dir && WithoutTrailingSlash(dir + "/") == dir
  {
    var slash := dir + "/";
    assert slash[..|slash| - 1] == dir;
  }

  /** A URL ending in "/" does not end in "/index.html". */
  lemma SlashKeepsIndexHtml(dir: string)
    ensures WithoutIndexHtml(dir + "/") == dir + "/"
  {
    var slash := dir + "/";
    assert !EndsWith(slash, "/index.html") by {
      assert slash[|slash| - 1] == '/';
      assert "/index.html"[|"/index.html"| - 1] == 'l';
    }
  }

  /** A trailing "index.html" after a "/" is stripped, leaving the "/". */
  lemma StripIndexHtml(dir: string)
    ensures WithoutIndexHtml(dir + "/index.html") == dir + "/"
  {
    var page := dir + "/index.html";
    assert page[|page| - |"/index.html"|..] == "/index.html";
    assert page[..|page| - |"index.html"|] == dir + "/";
  }

  /**
   * A figure's directory, its directory with a trailing "/" and its
   * "index.html" all give the same annotations URL: the directory followed
   * by "/annotations.json".
   */
  lemma AnnotationsUrlSpec(dir: string)
    requires !EndsWith(dir, "/") && !EndsWith(dir, "/index.html")
    ensures AnnotationsUrl(dir) == dir + AnnotationsFile
    ensures AnnotationsUrl(dir + "/") == dir + AnnotationsFile
    ensures AnnotationsUrl(dir + "/index.html") == dir + AnnotationsFile
  {
    StripSlash(dir);
    SlashKeepsIndexHtml(dir);
    StripIndexHtml(dir);
  }
}
