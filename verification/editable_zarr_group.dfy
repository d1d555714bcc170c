/**
 * The edit overlay on a zarr group shown in the figure viewer: a reducer
 * that records attribute changes and created/removed groups and datasets
 * copy-on-write, the path helpers that relate a parent path and a child
 * name, and the `subgroups`/`datasets` getters that lay the overlay over the
 * base group's listing.
 *
 * Attribute values are JSON; they are modelled as text keyed by attribute
 * name. Iteration over `Object.entries(...)` of a created-items map is a
 * parameter sequence that lists the map's keys once each.
 */
module EditableZarrGroup {
  import opened Common

  type Attrs = map<string, string>

  datatype CreatedDataset = CreatedDataset(data: seq<real>, shape: seq<nat>, dtype: string, attrs: Attrs)

  datatype EditsState = EditsState(
    attrs: map<string, Attrs>,
    removedDatasets: set<string>,
    removedGroups: set<string>,
    createdGroups: map<string, Attrs>,
    createdDatasets: map<string, CreatedDataset>)

  datatype Action =
    | SetAttrs(path: string, newAttrs: Attrs)
    | RemoveDataset(path: string)
    | RemoveGroup(path: string)
    | CreateGroup(path: string, newAttrs: Attrs)
    | CreateDataset(path: string, dataset: CreatedDataset)
    | UnknownAction

  /** `createGroup` on a removed path throws instead of returning a state. */
  datatype ReduceResult = NewState(state: EditsState) | CreateOnRemovedPath

  const EmptyEdits := EditsState(map[], {}, {}, map[], map[])

  /** `zarrEditsReducer`. */
  function Reduce(s: EditsState, a: Action): (r: ReduceResult)
    ensures r.CreateOnRemovedPath? <==> a.CreateGroup? && a.path in s.removedGroups
    ensures a.SetAttrs? ==> r.NewState? && r.state == s.(
              attrs := s.attrs[a.path := a.newAttrs],
              createdGroups := if a.path in s.createdGroups then s.createdGroups[a.path := a.newAttrs] else s.createdGroups)
    ensures a.RemoveDataset? ==> r.NewState? && r.state == s.(
              removedDatasets := s.removedDatasets + {a.path},
              createdDatasets := s.createdDatasets - {a.path})
    ensures a.RemoveGroup? ==> r.NewState? && r.state == s.(
              attrs := s.attrs - {a.path},
              createdGroups := s.createdGroups - {a.path},
              removedGroups := if a.path in s.createdGroups then s.removedGroups else s.removedGroups + {a.path})
    ensures a.CreateGroup? && r.NewState? ==> r.state == s.(
              attrs := s.attrs[a.path := a.newAttrs],
              createdGroups := s.createdGroups[a.path := a.newAttrs])
    ensures a.CreateDataset? ==> r.NewState? && r.state == s.(
              removedDatasets := s.removedDatasets - {a.path},
              createdDatasets := s.createdDatasets[a.path := a.dataset])
    ensures a.UnknownAction? ==> r == NewState(s)
  {
    match a
    case SetAttrs(path, newAttrs) =>
      var created := if path in s.createdGroups then s.createdGroups[path := newAttrs] else s.createdGroups;
      NewState(s.(attrs := s.attrs[path := newAttrs], createdGroups := created))
    case RemoveDataset(path) =>
      var created := if path in s.createdDatasets then s.createdDatasets - {path} else s.createdDatasets;
      NewState(s.(createdDatasets := created, removedDatasets := s.removedDatasets + {path}))
    case RemoveGroup(path) =>
      var s1 := if path in s.createdGroups then s.(createdGroups := s.createdGroups - {path})
                else s.(removedGroups := s.removedGroups + {path});
      var attrs := if path in s1.attrs then s1.attrs - {path} else s1.attrs;
      NewState(s1.(attrs := attrs))
    case CreateGroup(path, newAttrs) =>
      if path in s.removedGroups then CreateOnRemovedPath
      else
        var s1 := s.(createdGroups := s.createdGroups[path := newAttrs], attrs := s.attrs[path := newAttrs]);
        // the source then drops `path` from removedGroups, which the throw above makes a no-op
        NewState(if path in s1.removedGroups then s1.(removedGroups := s1.removedGroups - {path}) else s1)
    case CreateDataset(path, dataset) =>
      var removed := if path in s.removedDatasets then s.removedDatasets - {path} else s.removedDatasets;
      NewState(s.(removedDatasets := removed, createdDatasets := s.createdDatasets[path := dataset]))
    case UnknownAction => NewState(s)
  }

  /** A removed dataset is listed as removed and no longer as created; re-creating it un-removes it. */
  lemma RemoveThenCreateDataset(s: EditsState, path: string, d: CreatedDataset)
    ensures var s1 := Reduce(s, RemoveDataset(path)).state;
            && path in s1.removedDatasets && path !in s1.createdDatasets
            && var s2 := Reduce(s1, CreateDataset(path, d)).state;
               path !in s2.removedDatasets && s2.createdDatasets[path] == d
  {
  }

  /** Removing a base group (one not created in this session) makes creating it again an error. */
  lemma RemovedBaseGroupCannotBeCreated(s: EditsState, path: string, attrs: Attrs)
    requires path !in s.createdGroups
    ensures Reduce(Reduce(s, RemoveGroup(path)).state, CreateGroup(path, attrs)).CreateOnRemovedPath?
  {
  }

  /**
   * Creating a fresh group and then removing it leaves no trace in the
   * created and removed sets, and drops its attribute override.
   */
  lemma CreateThenRemoveGroup(s: EditsState, path: string, attrs: Attrs)
    requires path !in s.createdGroups && path !in s.removedGroups
    ensures var s1 := Reduce(s, CreateGroup(path, attrs)).state;
            var s2 := Reduce(s1, RemoveGroup(path)).state;
            s2 == s.(attrs := s.attrs - {path})
  {
    var s1 := Reduce(s, CreateGroup(path, attrs)).state;
    assert s1.createdGroups - {path} == s.createdGroups;
    assert s1.attrs - {path} == s.attrs - {path};
  }

  // ---------------------------------------------------------------------
  // Path helpers
  // ---------------------------------------------------------------------

  /** `isDirectChild`: `childPath` is one level below `parentPath`. */
  predicate IsDirectChild(parentPath: string, childPath: string)
  {
    if parentPath == "/" then
      StartsWith(childPath, "/") && '/' !in childPath[1..] && childPath != "/"
    else
      var expectedPrefix := parentPath + "/";
      StartsWith(childPath, expectedPrefix) &&
      var remainder := childPath[|expectedPrefix|..];
      '/' !in remainder && |remainder| > 0
  }

  /** `getChildName`. */
  function GetChildName(parentPath: string, childPath: string): string
  {
    if parentPath == "/" then JsSlice(childPath, 1, |childPath|)
    else JsSlice(childPath, |parentPath| + 1, |childPath|)
  }

  /** The path of child `name` of a group (`getGroup`, `createGroup`, ...). */
  function ChildPath(parentPath: string, name: string): string
  {
    if parentPath == "/" then "/" + name else parentPath + "/" + name
  }

  /** A direct child's name is a non-empty '/'-free segment, and joining it back gives the child's path. */
  lemma DirectChildRoundTrip(parentPath: string, childPath: string)
    requires IsDirectChild(parentPath, childPath)
    ensures var name := GetChildName(parentPath, childPath);
            |name| > 0 && '/' !in name && ChildPath(parentPath, name) == childPath
  {
    if parentPath == "/" {
      assert childPath == "/" + childPath[1..];
    } else {
      var prefix := parentPath + "/";
      assert childPath == prefix + childPath[|prefix|..];
    }
  }

  /** A non-empty '/'-free name is a direct child of its parent and is recovered by `getChildName`. */
  lemma ChildPathRoundTrip(parentPath: string, name: string)
    requires |name| > 0 && '/' !in name
    ensures IsDirectChild(parentPath, ChildPath(parentPath, name))
    ensures GetChildName(parentPath, ChildPath(parentPath, name)) == name
  {
    var c := ChildPath(parentPath, name);
    if parentPath == "/" {
      assert c[1..] == name;
      assert c[..1] == "/";
    } else {
      var prefix := parentPath + "/";
      assert c == prefix + name;
      assert c[..|prefix|] == prefix;
      assert c[|prefix|..] == name;
    }
  }

  /** Two direct children with the same name are the same path. */
  lemma ChildNameDetermines(parentPath: string, c1: string, c2: string)
    requires IsDirectChild(parentPath, c1) && IsDirectChild(parentPath, c2)
    requires GetChildName(parentPath, c1) == GetChildName(parentPath, c2)
    ensures c1 == c2
  {
    DirectChildRoundTrip(parentPath, c1);
    DirectChildRoundTrip(parentPath, c2);
  }

  // ---------------------------------------------------------------------
  // The `subgroups` and `datasets` getters
  // ---------------------------------------------------------------------

  datatype Subgroup = Subgroup(name: string, path: string, attrs: Attrs)

  datatype Dataset = Dataset(name: string, path: string, shape: seq<nat>, dtype: string, attrs: Attrs)

  /** `keys` lists the keys of a map exactly once each, in `Object.entries` order. */
  ghost predicate Enumerates<V>(keys: seq<string>, m: map<string, V>)
  {
    (forall k :: k in keys <==> k in m) && (forall i, j :: 0 <= i < j < |keys| ==> keys[i] != keys[j])
  }

  /** The positions, in increasing order, of the paths that are not in `removed` (what `filter` keeps). */
  function KeptIndices(paths: seq<string>, removed: set<string>): (r: seq<nat>)
    ensures forall k :: 0 <= k < |r| ==> r[k] < |paths| && paths[r[k]] !in removed
    ensures forall k, l :: 0 <= k < l < |r| ==> r[k] < r[l]
    ensures forall i :: 0 <= i < |paths| && paths[i] !in removed ==> i in r
  {
    if |paths| == 0 then []
    else
      var rest := KeptIndices(paths[..|paths| - 1], removed);
      if paths[|paths| - 1] in removed then rest else rest + [|paths| - 1]
  }

  /** Keeping one more path appends its position unless it is removed. */
  lemma KeptIndicesSnoc(paths: seq<string>, removed: set<string>)
    requires |paths| > 0
    ensures var n := |paths| - 1;
            KeptIndices(paths, removed) ==
              KeptIndices(paths[..n], removed) + (if paths[n] in removed then [] else [n])
  {
  }

  function SubgroupPaths(base: seq<Subgroup>): (r: seq<string>)
    ensures |r| == |base| && forall i :: 0 <= i < |base| ==> r[i] == base[i].path
  {
    seq(|base|, i requires 0 <= i < |base| => base[i].path)
  }

  /** A subgroup with its attributes replaced by the edited ones, if any. */
  function OverrideSubgroup(sg: Subgroup, e: EditsState): Subgroup
  {
    if sg.path in e.attrs then sg.(attrs := e.attrs[sg.path]) else sg
  }

  /**
   * The base subgroups that were not removed, with attribute overrides
   * applied: exactly the kept base entries, in their base order.
   */
  function BaseSubgroupsView(base: seq<Subgroup>, e: EditsState): (r: seq<Subgroup>)
    ensures forall sg :: sg in r ==> sg.path !in e.removedGroups
    ensures forall sg :: sg in base && sg.path !in e.removedGroups ==> OverrideSubgroup(sg, e) in r
  {
    if |base| == 0 then []
    else
      var rest := BaseSubgroupsView(base[..|base| - 1], e);
      var sg := base[|base| - 1];
      assert forall x :: x in base ==> x in base[..|base| - 1] || x == sg;
      if sg.path in e.removedGroups then rest else rest + [OverrideSubgroup(sg, e)]
  }

  /** The view keeps the base order: its k-th entry is the k-th kept base subgroup, overridden. */
  lemma {:induction false} BaseSubgroupsOrder(base: seq<Subgroup>, e: EditsState)
    ensures var kept := KeptIndices(SubgroupPaths(base), e.removedGroups);
            var r := BaseSubgroupsView(base, e);
            |r| == |kept| && forall k :: 0 <= k < |r| ==> r[k] == OverrideSubgroup(base[kept[k]], e)
  {
    if |base| > 0 {
      var n := |base| - 1;
      BaseSubgroupsOrder(base[..n], e);
      var rest := BaseSubgroupsView(base[..n], e);
      var keptBefore := KeptIndices(SubgroupPaths(base[..n]), e.removedGroups);
      var kept := KeptIndices(SubgroupPaths(base), e.removedGroups);
      var r := BaseSubgroupsView(base, e);
      KeptIndicesSnoc(SubgroupPaths(base), e.removedGroups);
      assert SubgroupPaths(base[..n]) == SubgroupPaths(base)[..n];
      assert kept == keptBefore + (if base[n].path in e.removedGroups then [] else [n]);
      assert r == rest + (if base[n].path in e.removedGroups then [] else [OverrideSubgroup(base[n], e)]);
      forall k | 0 <= k < |r|
        ensures r[k] == OverrideSubgroup(base[kept[k]], e)
      {
        if k < |rest| {
          assert r[k] == rest[k] && kept[k] == keptBefore[k];
          assert base[..n][keptBefore[k]] == base[keptBefore[k]];
        }
      }
    }
  }

  /** The created groups that are direct children of `path` and not removed, in enumeration order. */
  function CreatedSubgroups(path: string, e: EditsState, order: seq<string>): (r: seq<Subgroup>)
    requires forall k :: k in order ==> k in e.createdGroups
    ensures forall sg :: sg in r ==>
              sg.path in order && IsDirectChild(path, sg.path) && sg.path !in e.removedGroups &&
              sg.name == GetChildName(path, sg.path) && sg.attrs == e.createdGroups[sg.path]
    ensures forall p :: p in order && IsDirectChild(path, p) && p !in e.removedGroups ==>
              Subgroup(GetChildName(path, p), p, e.createdGroups[p]) in r
  {
    if |order| == 0 then []
    else
      var rest := CreatedSubgroups(path, e, order[..|order| - 1]);
      var p := order[|order| - 1];
      assert forall x :: x in order ==> x in order[..|order| - 1] || x == p;
      if IsDirectChild(path, p) && p !in e.removedGroups
      then rest + [Subgroup(GetChildName(path, p), p, e.createdGroups[p])]
      else rest
  }

  /** The first index whose subgroup has the given name (`findIndex`). */
  function FindByName(all: seq<Subgroup>, name: string): (r: Option<nat>)
    ensures r.Some? ==> r.value < |all| && all[r.value].name == name
    ensures r.Some? ==> forall i :: 0 <= i < r.value ==> all[i].name != name
    ensures r.None? ==> forall i :: 0 <= i < |all| ==> all[i].name != name
  {
    if |all| == 0 then None
    else if all[0].name == name then Some(0)
    else match FindByName(all[1..], name)
      case None => None
      case Some(i) => Some(i + 1)
  }

  /** A created subgroup replaces the first listed subgroup with its name, or is appended. */
  function Upsert(all: seq<Subgroup>, sg: Subgroup): (r: seq<Subgroup>)
    ensures sg in r
    ensures forall x :: x in r ==> x in all || x == sg
    ensures forall x :: x in all && x.name != sg.name ==> x in r
  {
    match FindByName(all, sg.name)
    case Some(i) =>
      var r := all[i := sg];
      assert r[i] == sg;
      assert forall x :: x in all && x.name != sg.name ==> exists k :: 0 <= k < |all| && k != i && all[k] == x && r[k] == x;
      r
    case None => all + [sg]
  }

  /** Upserting each created subgroup in turn. */
  function UpsertAll(all: seq<Subgroup>, created: seq<Subgroup>): (r: seq<Subgroup>)
    ensures forall x :: x in r ==> x in all || x in created
  {
    if |created| == 0 then all
    else Upsert(UpsertAll(all, created[..|created| - 1]), created[|created| - 1])
  }

  /** The `subgroups` getter: the base listing overlaid with this session's edits. */
  method Subgroups(path: string, base: seq<Subgroup>, e: EditsState, order: seq<string>)
    returns (all: seq<Subgroup>)
    requires Enumerates(order, e.createdGroups)
    ensures all == UpsertAll(BaseSubgroupsView(base, e), CreatedSubgroups(path, e, order))
  {
    var baseSubgroups := BaseSubgroupsView(base, e);
    var created: seq<Subgroup> := [];
    var i := 0;
    while i < |order|
      invariant 0 <= i <= |order|
      invariant created == CreatedSubgroups(path, e, order[..i])
    {
      assert order[..i + 1][..i] == order[..i];
      var createdPath := order[i];
      if IsDirectChild(path, createdPath) && createdPath !in e.removedGroups {
        var name := GetChildName(path, createdPath);
        created := created + [Subgroup(name, createdPath, e.createdGroups[createdPath])];
      }
      i := i + 1;
    }
    assert order[..i] == order;
    all := baseSubgroups;
    var j := 0;
    while j < |created|
      invariant 0 <= j <= |created|
      invariant all == UpsertAll(baseSubgroups, created[..j])
    {
      assert created[..j + 1][..j] == created[..j];
      var createdSg := created[j];
      var existingIndex := FindByName(all, createdSg.name);
      if existingIndex.Some? {
        all := all[existingIndex.value := createdSg];
      } else {
        all := all + [createdSg];
      }
      j := j + 1;
    }
    assert created[..j] == created;
  }

  predicate NamesDistinct(all: seq<Subgroup>)
  {
    forall i, j :: 0 <= i < j < |all| ==> all[i].name != all[j].name
  }

  lemma UpsertKeepsDistinct(all: seq<Subgroup>, sg: Subgroup)
    requires NamesDistinct(all)
    ensures NamesDistinct(Upsert(all, sg))
  {
  }

  lemma UpsertKeepsOthers(all: seq<Subgroup>, sg: Subgroup, x: Subgroup)
    requires x in all && x.name != sg.name
    ensures x in Upsert(all, sg)
  {
  }

  /** Created entries with distinct names all survive the later upserts. */
  lemma UpsertAllContains(all: seq<Subgroup>, created: seq<Subgroup>, k: nat)
    requires k < |created| && NamesDistinct(created)
    ensures created[k] in UpsertAll(all, created)
  {
    UpsertAllKeepsLater(all, created, k);
  }

  /** A created entry survives when no later created entry takes its name. */
  lemma {:induction false} UpsertAllKeepsLater(all: seq<Subgroup>, created: seq<Subgroup>, k: nat)
    requires k < |created|
    requires forall j :: k < j < |created| ==> created[j].name != created[k].name
    ensures created[k] in UpsertAll(all, created)
    decreases |created|
  {
    var n := |created| - 1;
    var prefix := created[..n];
    if k < n {
      assert prefix[k] == created[k];
      assert forall j :: k < j < |prefix| ==> prefix[j] == created[j];
      UpsertAllKeepsLater(all, prefix, k);
      UpsertKeepsOthers(UpsertAll(all, prefix), created[n], created[k]);
    }
  }

  /** A listed subgroup whose name no created subgroup takes survives the upserts. */
  lemma {:induction false} UpsertAllKeeps(all: seq<Subgroup>, created: seq<Subgroup>, x: Subgroup)
    requires x in all && forall c :: c in created ==> c.name != x.name
    ensures x in UpsertAll(all, created)
    decreases |created|
  {
    if |created| > 0 {
      var n := |created| - 1;
      UpsertAllKeeps(all, created[..n], x);
      UpsertKeepsOthers(UpsertAll(all, created[..n]), created[n], x);
    }
  }

  lemma {:induction false} UpsertAllDistinct(all: seq<Subgroup>, created: seq<Subgroup>)
    requires NamesDistinct(all)
    ensures NamesDistinct(UpsertAll(all, created))
    decreases |created|
  {
    if |created| > 0 {
      UpsertAllDistinct(all, created[..|created| - 1]);
      UpsertKeepsDistinct(UpsertAll(all, created[..|created| - 1]), created[|created| - 1]);
    }
  }

  /** Created subgroups of one parent have distinct names, because distinct children have distinct names. */
  lemma CreatedNamesDistinct(path: string, e: EditsState, order: seq<string>)
    requires Enumerates(order, e.createdGroups)
    ensures NamesDistinct(CreatedSubgroups(path, e, order))
  {
    var cs := CreatedSubgroups(path, e, order);
    forall i, j | 0 <= i < j < |cs|
      ensures cs[i].name != cs[j].name
    {
      assert cs[i] in cs && cs[j] in cs;
      if cs[i].name == cs[j].name {
        ChildNameDetermines(path, cs[i].path, cs[j].path);
        CreatedPathsDistinct(path, e, order, i, j);
      }
    }
  }

  lemma {:induction false} CreatedPathsDistinct(path: string, e: EditsState, order: seq<string>, i: nat, j: nat)
    requires forall k :: k in order ==> k in e.createdGroups
    requires forall a, b :: 0 <= a < b < |order| ==> order[a] != order[b]
    requires i < j < |CreatedSubgroups(path, e, order)|
    ensures CreatedSubgroups(path, e, order)[i].path != CreatedSubgroups(path, e, order)[j].path
    decreases |order|
  {
    var n := |order| - 1;
    var init := order[..n];
    var rest := CreatedSubgroups(path, e, init);
    if j < |rest| {
      CreatedPathsDistinct(path, e, init, i, j);
    } else {
      assert rest[i] in rest;
      assert rest[i].path in init;
    }
  }

  /**
   * What the `subgroups` getter shows: every created, non-removed direct
   * child under its name; every non-removed base subgroup whose name no
   * created child takes, with its attribute override; nothing removed; and,
   * when the base names are distinct, no name twice.
   */
  lemma SubgroupsView(path: string, base: seq<Subgroup>, e: EditsState, order: seq<string>)
    requires Enumerates(order, e.createdGroups)
    ensures var all := UpsertAll(BaseSubgroupsView(base, e), CreatedSubgroups(path, e, order));
            && (forall p :: p in e.createdGroups && IsDirectChild(path, p) && p !in e.removedGroups ==>
                  Subgroup(GetChildName(path, p), p, e.createdGroups[p]) in all)
            && (forall sg :: sg in all ==> sg.path !in e.removedGroups)
            && (forall sg :: (sg in base && sg.path !in e.removedGroups &&
                               forall c :: c in CreatedSubgroups(path, e, order) ==> c.name != sg.name) ==>
                  (if sg.path in e.attrs then sg.(attrs := e.attrs[sg.path]) else sg) in all)
            && (NamesDistinct(BaseSubgroupsView(base, e)) ==> NamesDistinct(all))
  {
    var view := BaseSubgroupsView(base, e);
    var created := CreatedSubgroups(path, e, order);
    CreatedNamesDistinct(path, e, order);
    forall p | p in e.createdGroups && IsDirectChild(path, p) && p !in e.removedGroups
      ensures Subgroup(GetChildName(path, p), p, e.createdGroups[p]) in UpsertAll(view, created)
    {
      var sg := Subgroup(GetChildName(path, p), p, e.createdGroups[p]);
      var k :| 0 <= k < |created| && created[k] == sg;
      UpsertAllContains(view, created, k);
    }
    forall sg | sg in base && sg.path !in e.removedGroups && (forall c :: c in created ==> c.name != sg.name)
      ensures (if sg.path in e.attrs then sg.(attrs := e.attrs[sg.path]) else sg) in UpsertAll(view, created)
    {
      UpsertAllKeeps(view, created, if sg.path in e.attrs then sg.(attrs := e.attrs[sg.path]) else sg);
    }
    if NamesDistinct(view) {
      UpsertAllDistinct(view, created);
    }
  }

  function DatasetPaths(base: seq<Dataset>): (r: seq<string>)
    ensures |r| == |base| && forall i :: 0 <= i < |base| ==> r[i] == base[i].path
  {
    seq(|base|, i requires 0 <= i < |base| => base[i].path)
  }

  /** A dataset with its attributes replaced by the edited ones, if any. */
  function OverrideDataset(d: Dataset, e: EditsState): Dataset
  {
    if d.path in e.attrs then d.(attrs := e.attrs[d.path]) else d
  }

  /**
   * The base datasets that were not removed, with attribute overrides
   * applied: exactly the kept base entries, in their base order.
   */
  function BaseDatasetsView(base: seq<Dataset>, e: EditsState): (r: seq<Dataset>)
    ensures forall d :: d in r ==> d.path !in e.removedDatasets
    ensures forall d :: d in base && d.path !in e.removedDatasets ==> OverrideDataset(d, e) in r
  {
    if |base| == 0 then []
    else
      var rest := BaseDatasetsView(base[..|base| - 1], e);
      var d := base[|base| - 1];
      assert forall x :: x in base ==> x in base[..|base| - 1] || x == d;
      if d.path in e.removedDatasets then rest else rest + [OverrideDataset(d, e)]
  }

  /** The view keeps the base order: its k-th entry is the k-th kept base dataset, overridden. */
  lemma {:induction false} BaseDatasetsOrder(base: seq<Dataset>, e: EditsState)
    ensures var kept := KeptIndices(DatasetPaths(base), e.removedDatasets);
            var r := BaseDatasetsView(base, e);
            |r| == |kept| && forall k :: 0 <= k < |r| ==> r[k] == OverrideDataset(base[kept[k]], e)
  {
    if |base| > 0 {
      var n := |base| - 1;
      BaseDatasetsOrder(base[..n], e);
      var rest := BaseDatasetsView(base[..n], e);
      var keptBefore := KeptIndices(DatasetPaths(base[..n]), e.removedDatasets);
      var kept := KeptIndices(DatasetPaths(base), e.removedDatasets);
      var r := BaseDatasetsView(base, e);
      KeptIndicesSnoc(DatasetPaths(base), e.removedDatasets);
      assert DatasetPaths(base[..n]) == DatasetPaths(base)[..n];
      assert kept == keptBefore + (if base[n].path in e.removedDatasets then [] else [n]);
      assert r == rest + (if base[n].path in e.removedDatasets then [] else [OverrideDataset(base[n], e)]);
      forall k | 0 <= k < |r|
        ensures r[k] == OverrideDataset(base[kept[k]], e)
      {
        if k < |rest| {
          assert r[k] == rest[k] && kept[k] == keptBefore[k];
          assert base[..n][keptBefore[k]] == base[keptBefore[k]];
        }
      }
    }
  }

  /** The created datasets that are direct children of `path` and not removed, in enumeration order. */
  function CreatedDatasets(path: string, e: EditsState, order: seq<string>): (r: seq<Dataset>)
    requires forall k :: k in order ==> k in e.createdDatasets
    ensures forall d :: d in r ==> d.path in order && IsDirectChild(path, d.path) && d.path !in e.removedDatasets
    ensures forall p :: p in order && IsDirectChild(path, p) && p !in e.removedDatasets ==>
              var c := e.createdDatasets[p];
              Dataset(GetChildName(path, p), p, c.shape, c.dtype, c.attrs) in r
  {
    if |order| == 0 then []
    else
      var rest := CreatedDatasets(path, e, order[..|order| - 1]);
      var p := order[|order| - 1];
      assert forall x :: x in order ==> x in order[..|order| - 1] || x == p;
      if IsDirectChild(path, p) && p !in e.removedDatasets then
        var c := e.createdDatasets[p];
        rest + [Dataset(GetChildName(path, p), p, c.shape, c.dtype, c.attrs)]
      else rest
  }

  /** The `datasets` getter: the kept base datasets, then the created ones (no de-duplication). */
  method Datasets(path: string, base: seq<Dataset>, e: EditsState, order: seq<string>)
    returns (ret: seq<Dataset>)
    requires Enumerates(order, e.createdDatasets)
    ensures ret == BaseDatasetsView(base, e) + CreatedDatasets(path, e, order)
    ensures forall d :: d in ret ==> d.path !in e.removedDatasets
    ensures forall p :: p in e.createdDatasets && IsDirectChild(path, p) && p !in e.removedDatasets ==>
              exists d :: d in ret && d.path == p && d.name == GetChildName(path, p)
  {
    ret := BaseDatasetsView(base, e);
    var i := 0;
    while i < |order|
      invariant 0 <= i <= |order|
      invariant ret == BaseDatasetsView(base, e) + CreatedDatasets(path, e, order[..i])
    {
      assert order[..i + 1][..i] == order[..i];
      var createdPath := order[i];
      if IsDirectChild(path, createdPath) && createdPath !in e.removedDatasets {
        var c := e.createdDatasets[createdPath];
        ret := ret + [Dataset(GetChildName(path, createdPath), createdPath, c.shape, c.dtype, c.attrs)];
      }
      i := i + 1;
    }
    assert order[..i] == order;
    forall d | d in ret
      ensures d.path !in e.removedDatasets
    {
      if d in BaseDatasetsView(base, e) {
      } else {
        assert d in CreatedDatasets(path, e, order);
      }
    }
    forall p | p in e.createdDatasets && IsDirectChild(path, p) && p !in e.removedDatasets
      ensures exists d :: d in ret && d.path == p && d.name == GetChildName(path, p)
    {
      var c := e.createdDatasets[p];
      var d := Dataset(GetChildName(path, p), p, c.shape, c.dtype, c.attrs);
      assert d in CreatedDatasets(path, e, order);
      assert d in ret;
    }
  }

  /** The `attrs` getter: the override if there is one, else the base attributes. */
  function GroupAttrs(path: string, baseAttrs: Attrs, e: EditsState): (r: Attrs)
    ensures path in e.attrs ==> r == e.attrs[path]
    ensures path !in e.attrs ==> r == baseAttrs
  {
    if path in e.attrs then e.attrs[path] else baseAttrs
  }

  /** After `setAttrs`, the group reads back the new attributes. */
  lemma SetAttrsReadBack(path: string, baseAttrs: Attrs, e: EditsState, a: Attrs)
    ensures GroupAttrs(path, baseAttrs, Reduce(e, SetAttrs(path, a)).state) == a
  {
  }
}
