// The mountain layout of the figure viewer: the items are split into
// control items (shown stacked at the left) and regular items (opened as
// tabs). There are two tab workspaces, north and south; opening an item
// adds a tab to the focused workspace (or activates the tab already open
// for it), and closing a tab picks a new active tab. Rendering is not
// modelled; the state updaters are.

module MountainLayout {
  import opened Common

  const LeftPanelWidth: int := 200
  const DefaultControlHeight: int := 200

  datatype Item = Item(name: string, itemLabel: string, isControl: bool, controlHeight: Option<int>)

  // ---------------------------------------------------------------------
  // Control and regular items
  // ---------------------------------------------------------------------

  function ControlItems(items: seq<Item>): seq<Item>
  {
    if |items| == 0 then []
    else ControlItems(items[..|items| - 1]) + (if items[|items| - 1].isControl then [items[|items| - 1]] else [])
  }

  function RegularItems(items: seq<Item>): seq<Item>
  {
    if |items| == 0 then []
    else RegularItems(items[..|items| - 1]) + (if items[|items| - 1].isControl then [] else [items[|items| - 1]])
  }

  /** Every control item is flagged as one, and no regular item is. */
  lemma {:induction false} PartitionFlags(items: seq<Item>)
    ensures forall k :: 0 <= k < |ControlItems(items)| ==> ControlItems(items)[k].isControl
    ensures forall k :: 0 <= k < |RegularItems(items)| ==> !RegularItems(items)[k].isControl
  {
    if |items| > 0 {
      PartitionFlags(items[..|items| - 1]);
    }
  }

  /** Every item lands in exactly one of the two lists. */
  lemma {:induction false} PartitionCount(items: seq<Item>)
    ensures multiset(ControlItems(items)) + multiset(RegularItems(items)) == multiset(items)
  {
    if |items| > 0 {
      var init, x := items[..|items| - 1], items[|items| - 1];
      PartitionCount(init);
      assert items == init + [x];
      if x.isControl {
        assert ControlItems(items) == ControlItems(init) + [x];
        assert RegularItems(items) == RegularItems(init) + [];
      } else {
        assert ControlItems(items) == ControlItems(init) + [];
        assert RegularItems(items) == RegularItems(init) + [x];
      }
    }
  }

  /** Splitting keeps the order: the lists of a concatenation are the concatenated lists. */
  lemma {:induction false} PartitionOrder(a: seq<Item>, b: seq<Item>)
    ensures ControlItems(a + b) == ControlItems(a) + ControlItems(b)
    ensures RegularItems(a + b) == RegularItems(a) + RegularItems(b)
    decreases |b|
  {
    if |b| == 0 {
      assert a + b == a;
    } else {
      var init := b[..|b| - 1];
      assert (a + b)[..|a + b| - 1] == a + init;
      PartitionOrder(a, init);
    }
  }

  /** The first control item's height (200 when absent or zero), or 0 without control items. */
  function ControlPanelHeight(items: seq<Item>): (h: int)
    ensures |ControlItems(items)| == 0 ==> h == 0
    ensures |ControlItems(items)| > 0 ==>
              var first := ControlItems(items)[0];
              h == if first.controlHeight.Some? && first.controlHeight.value != 0 then first.controlHeight.value
                   else DefaultControlHeight
  {
    var control := ControlItems(items);
    if |control| > 0 then
      (if control[0].controlHeight.None? || control[0].controlHeight.value == 0 then DefaultControlHeight
       else control[0].controlHeight.value)
    else 0
  }

  // ---------------------------------------------------------------------
  // Workspaces
  // ---------------------------------------------------------------------

  datatype OpenTab = OpenTab(itemName: string, itemLabel: string, isActive: bool)

  datatype Workspace = North | South

  datatype WorkspaceState = WorkspaceState(
    northTabs: seq<OpenTab>,
    southTabs: seq<OpenTab>,
    activeNorthTab: int,
    activeSouthTab: int,
    focusedWorkspace: Workspace)

  const InitialState: WorkspaceState := WorkspaceState([], [], -1, -1, North)

  function Tabs(st: WorkspaceState, w: Workspace): seq<OpenTab>
  {
    if w == North then st.northTabs else st.southTabs
  }

  function Active(st: WorkspaceState, w: Workspace): int
  {
    if w == North then st.activeNorthTab else st.activeSouthTab
  }

  /** The state with one workspace's tabs and active index replaced. */
  function WithWorkspace(st: WorkspaceState, w: Workspace, tabs: seq<OpenTab>, active: int): (r: WorkspaceState)
    ensures Tabs(r, w) == tabs && Active(r, w) == active
    ensures var o := if w == North then South else North; Tabs(r, o) == Tabs(st, o) && Active(r, o) == Active(st, o)
    ensures r.focusedWorkspace == st.focusedWorkspace
  {
    if w == North then st.(northTabs := tabs, activeNorthTab := active)
    else st.(southTabs := tabs, activeSouthTab := active)
  }

  /** `findIndex` on the item name: the first tab with that name, or -1. */
  function FindTab(tabs: seq<OpenTab>, itemName: string): (r: int)
    ensures -1 <= r < |tabs|
    ensures r >= 0 ==> tabs[r].itemName == itemName && forall k :: 0 <= k < r ==> tabs[k].itemName != itemName
    ensures r == -1 ==> forall k :: 0 <= k < |tabs| ==> tabs[k].itemName != itemName
  {
    if |tabs| == 0 then -1
    else if tabs[0].itemName == itemName then 0
    else
      var r := FindTab(tabs[1..], itemName);
      if r < 0 then -1 else r + 1
  }

  /** `openView`: in the focused workspace, activate the item's tab, adding it if needed. */
  function OpenView(prev: WorkspaceState, itemName: string, itemLabel: string): WorkspaceState
  {
    var w := prev.focusedWorkspace;
    var tabs := Tabs(prev, w);
    var existingIndex := FindTab(tabs, itemName);
    if existingIndex >= 0 then WithWorkspace(prev, w, tabs, existingIndex)
    else
      var newTabs := tabs + [OpenTab(itemName, itemLabel, true)];
      WithWorkspace(prev, w, newTabs, |newTabs| - 1)
  }

  /** `tabs.filter((_, index) => index !== tabIndex)`. */
  function Without(tabs: seq<OpenTab>, tabIndex: int): (r: seq<OpenTab>)
    ensures 0 <= tabIndex < |tabs| ==> r == tabs[..tabIndex] + tabs[tabIndex + 1..]
    ensures !(0 <= tabIndex < |tabs|) ==> r == tabs
  {
    if |tabs| == 0 then []
    else
      var rest := Without(tabs[1..], tabIndex - 1);
      if tabIndex == 0 then rest else [tabs[0]] + rest
  }

  /** `closeTab`. */
  function CloseTab(prev: WorkspaceState, w: Workspace, tabIndex: int): WorkspaceState
  {
    var tabs := Tabs(prev, w);
    var activeTab := Active(prev, w);
    var newTabs := Without(tabs, tabIndex);
    var newActiveTab :=
      if tabIndex == activeTab then
        (if |newTabs| == 0 then -1 else Max(0, Min(tabIndex - 1, |newTabs| - 1)))
      else if tabIndex < activeTab then activeTab - 1
      else activeTab;
    WithWorkspace(prev, w, newTabs, newActiveTab)
  }

  /** `setWorkspaceFocus`: only the focus moves; both workspaces keep their tabs and active tab. */
  function SetWorkspaceFocus(prev: WorkspaceState, w: Workspace): (r: WorkspaceState)
    ensures r.focusedWorkspace == w
    ensures forall v :: Tabs(r, v) == Tabs(prev, v) && Active(r, v) == Active(prev, v)
    ensures Valid(prev) ==> Valid(r)
  {
    prev.(focusedWorkspace := w)
  }

  // ---------------------------------------------------------------------
  // What the updaters promise
  // ---------------------------------------------------------------------

  function Other(w: Workspace): Workspace { if w == North then South else North }

  /**
   * Opening an item touches only the focused workspace. If the item is
   * already open there its tab becomes active and the tabs are unchanged;
   * otherwise a new active tab for it is appended.
   */
  lemma OpenViewSpec(prev: WorkspaceState, itemName: string, itemLabel: string)
    ensures var w, r := prev.focusedWorkspace, OpenView(prev, itemName, itemLabel);
            && Tabs(r, Other(w)) == Tabs(prev, Other(w)) && Active(r, Other(w)) == Active(prev, Other(w))
            && r.focusedWorkspace == w
            && ((exists k :: 0 <= k < |Tabs(prev, w)| && Tabs(prev, w)[k].itemName == itemName) ==>
                  Tabs(r, w) == Tabs(prev, w) && 0 <= Active(r, w) < |Tabs(r, w)| &&
                  Tabs(r, w)[Active(r, w)].itemName == itemName)
            && ((forall k :: 0 <= k < |Tabs(prev, w)| ==> Tabs(prev, w)[k].itemName != itemName) ==>
                  Tabs(r, w) == Tabs(prev, w) + [OpenTab(itemName, itemLabel, true)] &&
                  Active(r, w) == |Tabs(prev, w)|)
  {
    var w := prev.focusedWorkspace;
    assert Other(w) == (if w == North then South else North);
  }

  /** No two tabs of a workspace are open for the same item. */
  ghost predicate UniqueNames(tabs: seq<OpenTab>)
  {
    forall i, j :: 0 <= i < j < |tabs| ==> tabs[i].itemName != tabs[j].itemName
  }

  /** A workspace's active index is -1 when it is empty, else one of its tabs. */
  ghost predicate ActiveValid(tabs: seq<OpenTab>, active: int)
  {
    if |tabs| == 0 then active == -1 else 0 <= active < |tabs|
  }

  ghost predicate Valid(st: WorkspaceState)
  {
    && UniqueNames(st.northTabs) && UniqueNames(st.southTabs)
    && ActiveValid(st.northTabs, st.activeNorthTab) && ActiveValid(st.southTabs, st.activeSouthTab)
  }

  lemma OpenViewValid(prev: WorkspaceState, itemName: string, itemLabel: string)
    requires Valid(prev)
    ensures Valid(OpenView(prev, itemName, itemLabel))
  {
    var w := prev.focusedWorkspace;
    var tabs := Tabs(prev, w);
    var r := OpenView(prev, itemName, itemLabel);
    assert UniqueNames(Tabs(r, w)) && ActiveValid(Tabs(r, w), Active(r, w)) by {
      if FindTab(tabs, itemName) < 0 {
        var newTabs := tabs + [OpenTab(itemName, itemLabel, true)];
        assert forall k :: 0 <= k < |tabs| ==> newTabs[k] == tabs[k];
      }
    }
    assert Tabs(r, Other(w)) == Tabs(prev, Other(w)) && Active(r, Other(w)) == Active(prev, Other(w));
  }

  /**
   * After the focus moves to a workspace, opening an item acts on that
   * workspace and leaves the other one as it was.
   */
  lemma FocusThenOpen(prev: WorkspaceState, w: Workspace, itemName: string, itemLabel: string)
    ensures var r := OpenView(SetWorkspaceFocus(prev, w), itemName, itemLabel);
            && r.focusedWorkspace == w
            && Tabs(r, Other(w)) == Tabs(prev, Other(w)) && Active(r, Other(w)) == Active(prev, Other(w))
            && exists k :: 0 <= k < |Tabs(r, w)| && Tabs(r, w)[k].itemName == itemName && Active(r, w) == k
  {
    var focused := SetWorkspaceFocus(prev, w);
    OpenViewSpec(focused, itemName, itemLabel);
    var r := OpenView(focused, itemName, itemLabel);
    var i := FindTab(Tabs(focused, w), itemName);
    if i >= 0 {
      assert Tabs(r, w)[i].itemName == itemName && Active(r, w) == i;
    } else {
      var n := |Tabs(focused, w)|;
      assert Tabs(r, w)[n].itemName == itemName && Active(r, w) == n;
    }
  }

  /**
   * Closing a tab of a valid state removes exactly that tab and keeps the
   * state valid. Closing the active tab selects the one before it (the
   * first when it was the first), or none when the workspace is now empty;
   * closing one before the active tab shifts the active index down.
   */
  lemma CloseTabSpec(prev: WorkspaceState, w: Workspace, tabIndex: int)
    requires Valid(prev) && 0 <= tabIndex < |Tabs(prev, w)|
    ensures var r, tabs, active := CloseTab(prev, w, tabIndex), Tabs(prev, w), Active(prev, w);
            && Valid(r)
            && Tabs(r, w) == tabs[..tabIndex] + tabs[tabIndex + 1..]
            && Tabs(r, Other(w)) == Tabs(prev, Other(w)) && Active(r, Other(w)) == Active(prev, Other(w))
            && (tabIndex == active ==>
                  Active(r, w) == if |tabs| == 1 then -1 else Max(0, Min(tabIndex - 1, |tabs| - 2)))
            && (tabIndex < active ==> Active(r, w) == active - 1)
            && (tabIndex > active ==> Active(r, w) == active)
  {
    var tabs := Tabs(prev, w);
    var newTabs := tabs[..tabIndex] + tabs[tabIndex + 1..];
    assert forall k :: 0 <= k < |newTabs| ==> newTabs[k] == if k < tabIndex then tabs[k] else tabs[k + 1];
    assert UniqueNames(newTabs);
    assert Other(w) == (if w == North then South else North);
  }
}
