// The wheel index page of the extension packages: each wheel file name is
// read as distribution, version, python tag, abi tag and platform tag
// (the name and version may themselves contain '-'), and the wheels are
// listed sorted by name, then version. Globbing the directory and writing
// the page are not modelled.

module WheelIndex {
  import opened Common

  const Unknown: string := "unknown"

  datatype WheelInfo = WheelInfo(name: string, version: string, pythonTag: string, abiTag: string, platformTag: string)

  /** The file name without a trailing ".whl". */
  function BaseName(fileName: string): (b: string)
    ensures EndsWith(fileName, ".whl") ==> b + ".whl" == fileName
    ensures !EndsWith(fileName, ".whl") ==> b == fileName
  {
    if EndsWith(fileName, ".whl") then fileName[..|fileName| - 4] else fileName
  }

  /** `re.match(r"^\d+", part)`: the part starts with a digit. */
  predicate StartsWithDigit(part: string)
  {
    |part| > 0 && IsDigit(part[0])
  }

  /** The first index from `i` on whose part starts with a digit, if any. */
  function DigitPartFrom(parts: seq<string>, i: nat): (r: Option<nat>)
    requires i <= |parts|
    ensures r.Some? ==> i <= r.value < |parts| && StartsWithDigit(parts[r.value])
    ensures r.Some? ==> forall k :: i <= k < r.value ==> !StartsWithDigit(parts[k])
    ensures r.None? ==> forall k :: i <= k < |parts| ==> !StartsWithDigit(parts[k])
    decreases |parts| - i
  {
    if i == |parts| then None
    else if StartsWithDigit(parts[i]) then Some(i)
    else DigitPartFrom(parts, i + 1)
  }

  /**
   * Where the version starts: the first part after the first that starts
   * with a digit, or index 1 when there is none.
   */
  function VersionStart(nameVersionParts: seq<string>): (v: nat)
    ensures |nameVersionParts| >= 2 ==> 1 <= v < |nameVersionParts|
  {
    if |nameVersionParts| <= 1 then 1
    else match DigitPartFrom(nameVersionParts, 1)
      case Some(i) => i
      case None => 1
  }

  /**
   * The version starts at the first part after the first that starts with a
   * digit; when no such part exists it starts at the second part.
   */
  lemma VersionStartSpec(nameVersionParts: seq<string>)
    requires |nameVersionParts| >= 2
    ensures var v := VersionStart(nameVersionParts);
            && (StartsWithDigit(nameVersionParts[v]) ==> forall k :: 1 <= k < v ==> !StartsWithDigit(nameVersionParts[k]))
            && (!StartsWithDigit(nameVersionParts[v]) ==>
                  v == 1 && forall k :: 1 <= k < |nameVersionParts| ==> !StartsWithDigit(nameVersionParts[k]))
  {
  }

  /** `parse_wheel_filename`. */
  function ParseWheelFileName(fileName: string): WheelInfo
  {
    ParseParts(Split(BaseName(fileName), "-"))
  }

  /** What `parse_wheel_filename` reads from the '-' parts of the base name. */
  function ParseParts(parts: seq<string>): WheelInfo
    requires |parts| >= 1
  {
    if |parts| < 5 then
      WheelInfo(parts[0], if |parts| > 1 then parts[1] else Unknown, Unknown, Unknown, Unknown)
    else
      var n := |parts|;
      var nameVersionParts := parts[..n - 3];
      var v := VersionStart(nameVersionParts);
      WheelInfo(Join(nameVersionParts[..v], "-"), Join(nameVersionParts[v..], "-"),
                parts[n - 3], parts[n - 2], parts[n - 1])
  }

  // ---------------------------------------------------------------------
  // What the parser promises
  // ---------------------------------------------------------------------

  /** A name without '-' is all name: no version and no tags are known. */
  lemma NoDashFallback(fileName: string)
    requires '-' !in BaseName(fileName)
    ensures ParseWheelFileName(fileName) == WheelInfo(BaseName(fileName), Unknown, Unknown, Unknown, Unknown)
  {
    SplitFree(BaseName(fileName), '-');
  }

  /** "name-version.whl" has a name and a version but no known tags. */
  lemma TwoPartFallback(name: string, version: string)
    requires '-' !in name && '-' !in version
    ensures ParseWheelFileName(name + "-" + version + ".whl") == WheelInfo(name, version, Unknown, Unknown, Unknown)
  {
    var base := name + "-" + version;
    assert BaseName(base + ".whl") == base by {
      assert EndsWith(base + ".whl", ".whl");
      assert (base + ".whl")[..|base|] == base;
    }
    SplitFree(version, '-');
    SplitAfter(name, '-', version);
  }

  lemma {:induction false} JoinAppend(a: seq<string>, b: seq<string>, sep: string)
    requires |a| > 0 && |b| > 0
    ensures Join(a + b, sep) == Join(a, sep) + sep + Join(b, sep)
    decreases |a|
  {
    if |a| == 1 {
      assert (a + b)[1..] == b;
    } else {
      assert (a + b)[1..] == a[1..] + b;
      JoinAppend(a[1..], b, sep);
    }
  }

  /** Joining five pieces is joining the first two, then the other three. */
  lemma JoinFive(a: string, b: string, c: string, d: string, e: string, sep: string)
    ensures Join([a, b, c, d, e], sep) == Join([a, b], sep) + sep + Join([c, d, e], sep)
  {
    JoinAppend([a, b], [c, d, e], sep);
    assert [a, b] + [c, d, e] == [a, b, c, d, e];
  }

  /** Cutting the parts in two and joining the joined halves gives the joined parts. */
  lemma JoinSlices(parts: seq<string>, k: nat, sep: string)
    requires 0 < k < |parts|
    ensures Join(parts[..k], sep) + sep + Join(parts[k..], sep) == Join(parts, sep)
  {
    JoinAppend(parts[..k], parts[k..], sep);
    assert parts[..k] + parts[k..] == parts;
  }

  lemma JoinTwo(a: string, b: string, sep: string)
    ensures Join([a, b], sep) == a + sep + b
  {
    assert [a, b][1..] == [b];
  }

  /** Joining the name parts, the version parts and the tags gives back the joined parts. */
  lemma RebuildJoin(parts: seq<string>, k: nat, v: nat)
    requires 1 <= v < k < |parts|
    ensures var nv := parts[..k];
            Join([Join(nv[..v], "-"), Join(nv[v..], "-")], "-") + "-" + Join(parts[k..], "-") == Join(parts, "-")
  {
    var nv := parts[..k];
    JoinSlices(nv, v, "-");
    JoinTwo(Join(nv[..v], "-"), Join(nv[v..], "-"), "-");
    JoinSlices(parts, k, "-");
  }

  /** Five fields cut from the parts at `v` and `k` join back into the joined parts. */
  lemma RebuildFields(parts: seq<string>, k: nat, v: nat, name: string, version: string, a: string, b: string, c: string)
    requires 1 <= v < k < |parts| && [a, b, c] == parts[k..]
    requires name == Join(parts[..k][..v], "-") && version == Join(parts[..k][v..], "-")
    ensures Join([name, version, a, b, c], "-") == Join(parts, "-")
  {
    RebuildJoin(parts, k, v);
    JoinFive(name, version, a, b, c, "-");
  }

  /** With five or more parts: where name, version and tags come from. */
  lemma PartsFields(parts: seq<string>)
    requires |parts| >= 5
    ensures var n, w := |parts|, ParseParts(parts);
            var nv := parts[..n - 3];
            && w.name == Join(nv[..VersionStart(nv)], "-") && w.version == Join(nv[VersionStart(nv)..], "-")
            && [w.pythonTag, w.abiTag, w.platformTag] == parts[n - 3..]
            && 1 <= VersionStart(nv) < n - 3
  {
  }

  /**
   * With five or more parts the last three are the tags, and name, version
   * and tags joined by '-' give back the name without ".whl".
   */
  lemma ManyPartsRebuild(fileName: string)
    requires |Split(BaseName(fileName), "-")| >= 5
    ensures var parts, w := Split(BaseName(fileName), "-"), ParseWheelFileName(fileName);
            && w.pythonTag == parts[|parts| - 3] && w.abiTag == parts[|parts| - 2] && w.platformTag == parts[|parts| - 1]
            && Join([w.name, w.version, w.pythonTag, w.abiTag, w.platformTag], "-") == BaseName(fileName)
  {
    var base := BaseName(fileName);
    var parts := Split(base, "-");
    var w := ParseParts(parts);
    PartsFields(parts);
    RebuildFields(parts, |parts| - 3, VersionStart(parts[..|parts| - 3]),
                  w.name, w.version, w.pythonTag, w.abiTag, w.platformTag);
    JoinSplit(base, "-");
  }

  // ---------------------------------------------------------------------
  // Sorting by (name, version)
  // ---------------------------------------------------------------------

  /** Python's string order: code point by code point, a proper prefix first. */
  predicate StrLess(a: string, b: string)
    decreases |a|
  {
    if |a| == 0 then |b| > 0
    else if |b| == 0 then false
    else if a[0] != b[0] then a[0] < b[0]
    else StrLess(a[1..], b[1..])
  }

  /** Of two different strings, one comes first. */
  lemma {:induction false} StrLessTotal(a: string, b: string)
    requires a != b
    ensures StrLess(a, b) || StrLess(b, a)
    decreases |a|
  {
    if |a| > 0 && |b| > 0 && a[0] == b[0] {
      assert a == [a[0]] + a[1..] && b == [b[0]] + b[1..];
      StrLessTotal(a[1..], b[1..]);
    }
  }

  /** No string comes before itself. */
  lemma {:induction false} StrLessIrreflexive(a: string)
    ensures !StrLess(a, a)
    decreases |a|
  {
    if |a| > 0 {
      StrLessIrreflexive(a[1..]);
    }
  }

  /** A wheel entry: the file name and what was read from it. */
  datatype WheelEntry = WheelEntry(fileName: string, info: WheelInfo)

  /** The tuple order on (name, version). */
  predicate KeyLe(a: WheelEntry, b: WheelEntry)
  {
    StrLess(a.info.name, b.info.name) ||
    (a.info.name == b.info.name && (a.info.version == b.info.version || StrLess(a.info.version, b.info.version)))
  }

  lemma KeyLeTotal(a: WheelEntry, b: WheelEntry)
    ensures KeyLe(a, b) || KeyLe(b, a)
  {
    if a.info.name != b.info.name {
      StrLessTotal(a.info.name, b.info.name);
    } else if a.info.version != b.info.version {
      StrLessTotal(a.info.version, b.info.version);
    }
  }

  predicate SortedByKey(s: seq<WheelEntry>)
  {
    forall i :: 0 <= i < |s| - 1 ==> KeyLe(s[i], s[i + 1])
  }

  /** `a` sorts strictly before `b`. */
  predicate KeyLt(a: WheelEntry, b: WheelEntry)
  {
    !KeyLe(b, a)
  }

  /** Two entries with the same (name, version) key. */
  predicate SameKey(a: WheelEntry, b: WheelEntry)
  {
    a.info.name == b.info.name && a.info.version == b.info.version
  }

  /** Insertion into a sorted listing, after every entry that does not sort strictly after `x`. */
  function Insert(x: WheelEntry, s: seq<WheelEntry>): (r: seq<WheelEntry>)
    ensures |r| == |s| + 1
  {
    if |s| == 0 then [x]
    else if KeyLt(x, s[0]) then [x] + s
    else [s[0]] + Insert(x, s[1..])
  }

  /** `wheels.sort(key=lambda x: (x[1]["name"], x[1]["version"]))`. */
  function SortWheels(s: seq<WheelEntry>): (r: seq<WheelEntry>)
    ensures |r| == |s|
  {
    if |s| == 0 then [] else Insert(s[|s| - 1], SortWheels(s[..|s| - 1]))
  }

  lemma {:induction false} InsertPerm(x: WheelEntry, s: seq<WheelEntry>)
    ensures multiset(Insert(x, s)) == multiset(s) + multiset{x}
    decreases |s|
  {
    if |s| > 0 && !KeyLt(x, s[0]) {
      InsertPerm(x, s[1..]);
      assert s == [s[0]] + s[1..];
    }
  }

  lemma {:induction false} InsertSorted(x: WheelEntry, s: seq<WheelEntry>)
    requires SortedByKey(s)
    ensures SortedByKey(Insert(x, s))
    ensures |s| > 0 ==> Insert(x, s)[0] == x || Insert(x, s)[0] == s[0]
    decreases |s|
  {
    if |s| > 0 && KeyLt(x, s[0]) {
      KeyLeTotal(x, s[0]);
    } else if |s| > 0 {
      var t := s[1..];
      assert SortedByKey(t) by {
        assert forall i :: 0 <= i < |t| ==> t[i] == s[i + 1];
      }
      InsertSorted(x, t);
      var r := Insert(x, s);
      var rt := Insert(x, t);
      assert r == [s[0]] + rt;
      assert forall i :: 1 <= i < |r| ==> r[i] == rt[i - 1];
    }
  }

  /** The listing is ordered by name, then version. */
  lemma {:induction false} SortWheelsSorted(s: seq<WheelEntry>)
    ensures SortedByKey(SortWheels(s))
  {
    if |s| > 0 {
      SortWheelsSorted(s[..|s| - 1]);
      InsertSorted(s[|s| - 1], SortWheels(s[..|s| - 1]));
    }
  }

  /** Python's string order is transitive. */
  lemma {:induction false} StrLessTrans(a: string, b: string, c: string)
    requires StrLess(a, b) && StrLess(b, c)
    ensures StrLess(a, c)
    decreases |a|
  {
    if |a| > 0 && a[0] == b[0] && b[0] == c[0] {
      StrLessTrans(a[1..], b[1..], c[1..]);
    }
  }

  lemma KeyLeTrans(a: WheelEntry, b: WheelEntry, c: WheelEntry)
    requires KeyLe(a, b) && KeyLe(b, c)
    ensures KeyLe(a, c)
  {
    if StrLess(a.info.name, b.info.name) && StrLess(b.info.name, c.info.name) {
      StrLessTrans(a.info.name, b.info.name, c.info.name);
    } else if a.info.name == b.info.name == c.info.name
              && StrLess(a.info.version, b.info.version) && StrLess(b.info.version, c.info.version) {
      StrLessTrans(a.info.version, b.info.version, c.info.version);
    }
  }

  /** The entries of `s` whose key is that of `k`, in order. */
  function KeyFilter(s: seq<WheelEntry>, k: WheelEntry): seq<WheelEntry>
  {
    if |s| == 0 then [] else (if SameKey(s[0], k) then [s[0]] else []) + KeyFilter(s[1..], k)
  }

  lemma {:induction false} KeyFilterSnoc(s: seq<WheelEntry>, y: WheelEntry, k: WheelEntry)
    ensures KeyFilter(s + [y], k) == KeyFilter(s, k) + (if SameKey(y, k) then [y] else [])
    decreases |s|
  {
    if |s| > 0 {
      assert (s + [y])[1..] == s[1..] + [y];
      KeyFilterSnoc(s[1..], y, k);
    }
  }

  /** In a sorted listing that starts strictly after `x`, no entry has the key of `x`. */
  lemma {:induction false} NoneWithKeyAbove(x: WheelEntry, s: seq<WheelEntry>, k: WheelEntry)
    requires SortedByKey(s) && |s| > 0 && KeyLt(x, s[0]) && SameKey(x, k)
    ensures KeyFilter(s, k) == []
    decreases |s|
  {
    var t := s[1..];
    if |t| > 0 {
      assert KeyLe(s[0], t[0]);
      if KeyLe(t[0], x) {
        KeyLeTrans(s[0], t[0], x);
      }
      assert SortedByKey(t) by {
        assert forall i :: 0 <= i < |t| ==> t[i] == s[i + 1];
      }
      NoneWithKeyAbove(x, t, k);
    }
  }

  /** Inserting `x` puts it after every entry with the same key. */
  lemma {:induction false} InsertStable(x: WheelEntry, s: seq<WheelEntry>, k: WheelEntry)
    requires SortedByKey(s)
    ensures KeyFilter(Insert(x, s), k) == KeyFilter(s, k) + (if SameKey(x, k) then [x] else [])
    decreases |s|
  {
    if |s| == 0 {
    } else if KeyLt(x, s[0]) {
      if SameKey(x, k) {
        NoneWithKeyAbove(x, s, k);
      }
      assert ([x] + s)[1..] == s;
    } else {
      var t := s[1..];
      assert SortedByKey(t) by {
        assert forall i :: 0 <= i < |t| ==> t[i] == s[i + 1];
      }
      InsertStable(x, t, k);
      assert ([s[0]] + Insert(x, t))[1..] == Insert(x, t);
    }
  }

  /**
   * The sort is stable, as Python's is: the wheels with one (name, version)
   * key keep the order the directory listing gave them.
   */
  lemma {:induction false} SortWheelsStable(s: seq<WheelEntry>, k: WheelEntry)
    ensures KeyFilter(SortWheels(s), k) == KeyFilter(s, k)
  {
    if |s| > 0 {
      var init := s[..|s| - 1];
      SortWheelsStable(init, k);
      SortWheelsSorted(init);
      InsertStable(s[|s| - 1], SortWheels(init), k);
      assert s == init + [s[|s| - 1]];
      KeyFilterSnoc(init, s[|s| - 1], k);
    }
  }

  /** The listing holds the same entries as the directory. */
  lemma {:induction false} SortWheelsPerm(s: seq<WheelEntry>)
    ensures multiset(SortWheels(s)) == multiset(s)
  {
    if |s| > 0 {
      var init := s[..|s| - 1];
      var last := s[|s| - 1];
      SortWheelsPerm(init);
      InsertPerm(last, SortWheels(init));
      MultisetSnoc(s);
    }
  }

  lemma MultisetSnoc<T>(s: seq<T>)
    requires |s| > 0
    ensures multiset(s) == multiset(s[..|s| - 1]) + multiset{s[|s| - 1]}
  {
    assert s == s[..|s| - 1] + [s[|s| - 1]];
  }

  /** Each file name with the information read from it, in listing order. */
  function Entries(fileNames: seq<string>): (r: seq<WheelEntry>)
    ensures |r| == |fileNames|
    ensures forall i :: 0 <= i < |fileNames| ==> r[i] == WheelEntry(fileNames[i], ParseWheelFileName(fileNames[i]))
  {
    seq(|fileNames|, i requires 0 <= i < |fileNames| => WheelEntry(fileNames[i], ParseWheelFileName(fileNames[i])))
  }

  /**
   * `get_wheel_info` on the names the directory listing gives: every wheel
   * once, with what was read from its name, ordered by name, then version.
   */
  function WheelInfos(fileNames: seq<string>): (r: seq<WheelEntry>)
    ensures |r| == |fileNames|
    ensures multiset(r) == multiset(Entries(fileNames))
    ensures SortedByKey(r)
    ensures forall k :: KeyFilter(r, k) == KeyFilter(Entries(fileNames), k)
  {
    var entries := Entries(fileNames);
    SortWheelsPerm(entries);
    SortWheelsSorted(entries);
    forall k ensures KeyFilter(SortWheels(entries), k) == KeyFilter(entries, k) {
      SortWheelsStable(entries, k);
    }
    SortWheels(entries)
  }
}
