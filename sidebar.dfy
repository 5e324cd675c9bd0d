/**
 * The explorer sidebar (src/components/Sidebar.tsx): the set of expanded
 * folder ids, toggled by clicks, and the rows `renderFileTree` shows for a
 * tree of files and folders.
 */
module Sidebar {

  datatype ItemKind = Folder | File

  /**
   * A node of the file tree. `hasChildren` says whether its `children`
   * property is an array (truthy, even when empty) rather than absent.
   */
  datatype TreeItem = TreeItem(id: string, name: string, kind: ItemKind, hasChildren: bool, children: seq<TreeItem>)

  /**
   * One rendered row: the item, its nesting level, the `paddingLeft` of its
   * own `div`, and its `offset`, the distance in pixels from the tree's left
   * edge to its content. A child list is rendered inside its parent's `div`,
   * so the offset adds up the paddings of every enclosing item `div`.
   */
  datatype Row = Row(id: string, name: string, kind: ItemKind, level: nat, paddingLeft: nat, offset: nat)

  const IndentPerLevel: nat := 16

  /** The row of `item` at `level`, inside item `div`s whose paddings add up to `outer`. */
  function RowOf(item: TreeItem, level: nat, outer: nat): (r: Row)
    ensures r.id == item.id && r.name == item.name && r.kind == item.kind && r.level == level
    ensures r.paddingLeft == IndentPerLevel * level && r.offset == outer + r.paddingLeft
  {
    Row(item.id, item.name, item.kind, level, IndentPerLevel * level, outer + IndentPerLevel * level)
  }

  /** Where the content of a row at `level` sits when the tree is rendered from level 0: 0 + 16 + ... + 16 * level. */
  function Offset(level: nat): (offset: nat) {
    if level == 0 then 0 else Offset(level - 1) + IndentPerLevel * level
  }

  /** The paddings add up to 8 * d * (d + 1): 0, 16, 48, 96, ... */
  lemma {:induction false} OffsetClosedForm(level: nat)
    ensures Offset(level) == 8 * level * (level + 1)
  {
    if level > 0 {
      OffsetClosedForm(level - 1);
      assert 8 * (level - 1) * level + 16 * level == 8 * level * (level + 1);
    }
  }

  /** The set after `toggleFolder(id)`: `id` removed if present, added otherwise. */
  function Toggle(expanded: set<string>, id: string): (r: set<string>)
    ensures id in r <==> id !in expanded
    ensures forall x :: x != id ==> (x in r <==> x in expanded)
  {
    if id in expanded then expanded - {id} else expanded + {id}
  }

  /** Toggling the same id twice restores the set. */
  lemma ToggleTwice(expanded: set<string>, id: string)
    ensures Toggle(Toggle(expanded, id), id) == expanded
  {
  }

  /** Toggles of different ids commute. */
  lemma TogglesCommute(expanded: set<string>, a: string, b: string)
    ensures Toggle(Toggle(expanded, a), b) == Toggle(Toggle(expanded, b), a)
  {
  }

  /** The children of `item` are rendered: a folder, expanded, with a `children` array. */
  predicate ShowsChildren(item: TreeItem, expanded: set<string>) {
    item.kind == Folder && item.id in expanded && item.hasChildren
  }

  /**
   * `renderFileTree(items, level)`, placed `outer` pixels in by the item
   * `div`s it is nested in: each item's row, followed by its children's
   * rows when shown, nested inside the item's `div`.
   */
  function Render(items: seq<TreeItem>, expanded: set<string>, level: nat, outer: nat): (rows: seq<Row>)
    ensures |rows| >= |items|
    ensures forall r :: r in rows ==> r.level >= level && r.paddingLeft == IndentPerLevel * r.level
    decreases items
  {
    if items == [] then []
    else
      var item := items[0];
      var nested := if ShowsChildren(item, expanded) then Render(item.children, expanded, level + 1, outer + IndentPerLevel * level) else [];
      [RowOf(item, level, outer)] + nested + Render(items[1..], expanded, level, outer)
  }

  /**
   * Every row's offset is the `outer` offset plus the paddings of the levels
   * from `level` down to the row's own: seen from level 0, `Offset(r.level)`.
   */
  predicate Placed(rows: seq<Row>, level: nat, outer: nat) {
    forall r :: r in rows ==> r.offset + Offset(level) == outer + IndentPerLevel * level + Offset(r.level)
  }

  /** An item's row, followed by placed rows, makes placed rows. */
  lemma PlacedParts(all: seq<Row>, own: Row, nested: seq<Row>, rest: seq<Row>, level: nat, outer: nat)
    requires all == [own] + nested + rest
    requires Placed([own], level, outer) && Placed(nested, level, outer) && Placed(rest, level, outer)
    ensures Placed(all, level, outer)
  {
  }

  /** Rows placed inside a `div` at `level` are placed, seen from that `div`'s parent. */
  lemma PlacedInside(rows: seq<Row>, level: nat, outer: nat)
    requires Placed(rows, level + 1, outer + IndentPerLevel * level)
    ensures Placed(rows, level, outer)
  {
    assert Offset(level + 1) == Offset(level) + IndentPerLevel * (level + 1);
  }

  lemma {:induction false} RenderOffsets(items: seq<TreeItem>, expanded: set<string>, level: nat, outer: nat)
    ensures Placed(Render(items, expanded, level, outer), level, outer)
    decreases items
  {
    if items != [] {
      var item := items[0];
      var inner := outer + IndentPerLevel * level;
      var nested := if ShowsChildren(item, expanded) then Render(item.children, expanded, level + 1, inner) else [];
      if ShowsChildren(item, expanded) {
        RenderOffsets(item.children, expanded, level + 1, inner);
        PlacedInside(nested, level, outer);
      }
      RenderOffsets(items[1..], expanded, level, outer);
      var rest := Render(items[1..], expanded, level, outer);
      RenderCons(items, expanded, level, outer);
      OwnRowPlaced(item, level, outer);
      PlacedParts(Render(items, expanded, level, outer), RowOf(item, level, outer), nested, rest, level, outer);
    }
  }

  /** `Render` of a non-empty list: the first item's row, its shown children, then the other items. */
  lemma RenderCons(items: seq<TreeItem>, expanded: set<string>, level: nat, outer: nat)
    requires items != []
    ensures Render(items, expanded, level, outer) == [RowOf(items[0], level, outer)]
      + (if ShowsChildren(items[0], expanded) then Render(items[0].children, expanded, level + 1, outer + IndentPerLevel * level) else [])
      + Render(items[1..], expanded, level, outer)
  {
  }

  lemma OwnRowPlaced(item: TreeItem, level: nat, outer: nat)
    ensures Placed([RowOf(item, level, outer)], level, outer)
  {
  }

  /** In a tree rendered from level 0, a row at depth `d` is `Offset(d)` = 8 * d * (d + 1) pixels in. */
  lemma RowOffsets(items: seq<TreeItem>, expanded: set<string>)
    ensures forall r :: r in Render(items, expanded, 0, 0) ==> r.offset == Offset(r.level) == 8 * r.level * (r.level + 1)
  {
    RenderOffsets(items, expanded, 0, 0);
    forall r | r in Render(items, expanded, 0, 0) ensures r.offset == Offset(r.level) == 8 * r.level * (r.level + 1) {
      OffsetClosedForm(r.level);
    }
  }

  /** The rows at exactly `level`. */
  function AtLevel(rows: seq<Row>, level: nat): (picked: seq<Row>) {
    if rows == [] then []
    else (if rows[0].level == level then [rows[0]] else []) + AtLevel(rows[1..], level)
  }

  lemma {:induction false} AtLevelAppend(a: seq<Row>, b: seq<Row>, level: nat)
    ensures AtLevel(a + b, level) == AtLevel(a, level) + AtLevel(b, level)
  {
    if a != [] {
      assert (a + b)[0] == a[0];
      assert (a + b)[1..] == a[1..] + b;
      AtLevelAppend(a[1..], b, level);
    } else {
      assert a + b == b;
    }
  }

  /** A row at another level adds nothing to the rows at `level`. */
  lemma AtLevelSkip(row: Row, rows: seq<Row>, level: nat, all: seq<Row>, picked: seq<Row>)
    requires all == [row] + rows && row.level != level && AtLevel(rows, level) == picked
    ensures AtLevel(all, level) == picked
  {
    assert all[1..] == rows;
  }

  lemma {:induction false} AtLevelNone(rows: seq<Row>, level: nat)
    requires forall r :: r in rows ==> r.level > level
    ensures AtLevel(rows, level) == []
  {
    if rows != [] {
      AtLevelNone(rows[1..], level);
    }
  }

  /** The row of each item, with nothing of its subtree. */
  function OwnRows(items: seq<TreeItem>, level: nat, outer: nat): (rows: seq<Row>)
    ensures |rows| == |items|
  {
    if items == [] then []
    else
      [RowOf(items[0], level, outer)] + OwnRows(items[1..], level, outer)
  }

  /**
   * The rows at the starting level are exactly the items themselves, in
   * order; everything shown beneath a folder is at a deeper level.
   */
  lemma {:induction false} TopLevelRowsAreItems(items: seq<TreeItem>, expanded: set<string>, level: nat, outer: nat)
    ensures AtLevel(Render(items, expanded, level, outer), level) == OwnRows(items, level, outer)
    decreases items
  {
    if items != [] {
      var item := items[0];
      var own := [RowOf(item, level, outer)];
      var nested := if ShowsChildren(item, expanded) then Render(item.children, expanded, level + 1, outer + IndentPerLevel * level) else [];
      var rest := Render(items[1..], expanded, level, outer);
      assert Render(items, expanded, level, outer) == own + nested + rest;
      assert AtLevel(own, level) == own;
      AtLevelAppend(own + nested, rest, level);
      AtLevelAppend(own, nested, level);
      AtLevelNone(nested, level);
      TopLevelRowsAreItems(items[1..], expanded, level, outer);
      assert OwnRows(items, level, outer) == own + OwnRows(items[1..], level, outer);
    }
  }

  /** With no folder expanded, only the items themselves are shown. */
  lemma {:induction false} CollapsedShowsOnlyItems(items: seq<TreeItem>, level: nat, outer: nat)
    ensures Render(items, {}, level, outer) == OwnRows(items, level, outer)
  {
    if items != [] {
      CollapsedShowsOnlyItems(items[1..], level, outer);
    }
  }

  /** A file, a collapsed folder, or a folder without a `children` array shows only its own row. */
  lemma HiddenUnlessShown(item: TreeItem, expanded: set<string>, level: nat, outer: nat)
    requires item.kind == File || item.id !in expanded || !item.hasChildren
    ensures Render([item], expanded, level, outer) == OwnRows([item], level, outer)
  {
  }

  /** `Render` of a single shown folder: its own row, then its children's rows one level deeper. */
  lemma RenderShown(item: TreeItem, expanded: set<string>, level: nat, outer: nat)
    requires ShowsChildren(item, expanded)
    ensures Render([item], expanded, level, outer) ==
      [RowOf(item, level, outer)] + Render(item.children, expanded, level + 1, outer + IndentPerLevel * level)
  {
    var own := RowOf(item, level, outer);
    var nested := Render(item.children, expanded, level + 1, outer + IndentPerLevel * level);
    assert [item][1..] == [];
    assert Render([item], expanded, level, outer) == [own] + nested + Render([], expanded, level, outer);
    assert [own] + nested + [] == [own] + nested;
  }

  /** The rows one level below an expanded folder are exactly its children, in order. */
  lemma ExpandedFolderChildRows(item: TreeItem, expanded: set<string>, level: nat, outer: nat)
    requires item.kind == Folder && item.id in expanded && item.hasChildren
    ensures AtLevel(Render([item], expanded, level, outer), level + 1) ==
      OwnRows(item.children, level + 1, outer + IndentPerLevel * level)
  {
    var inner := outer + IndentPerLevel * level;
    var nested := Render(item.children, expanded, level + 1, inner);
    RenderShown(item, expanded, level, outer);
    TopLevelRowsAreItems(item.children, expanded, level + 1, inner);
    AtLevelSkip(RowOf(item, level, outer), nested, level + 1, Render([item], expanded, level, outer), OwnRows(item.children, level + 1, inner));
  }

  /** The component's `expandedFolders` state. */
  class ExplorerState {
    var expandedFolders: set<string>

    /** Initially only the root folder is expanded. */
    constructor ()
      ensures expandedFolders == {"root"}
    {
      expandedFolders := {"root"};
    }

    /** `toggleFolder(folderId)`: copy the set, add or delete the id, store the copy. */
    method ToggleFolder(folderId: string)
      modifies this
      ensures expandedFolders == Toggle(old(expandedFolders), folderId)
    {
      var newExpanded := expandedFolders;
      if folderId in newExpanded {
        newExpanded := newExpanded - {folderId};
      } else {
        newExpanded := newExpanded + {folderId};
      }
      expandedFolders := newExpanded;
    }

    /** The rows the sidebar shows for `fileTree` in the current state. */
    function Visible(fileTree: seq<TreeItem>): (rows: seq<Row>)
      reads this
      ensures AtLevel(rows, 0) == OwnRows(fileTree, 0, 0)
      ensures forall r :: r in rows ==> r.offset == 8 * r.level * (r.level + 1)
    {
      TopLevelRowsAreItems(fileTree, expandedFolders, 0, 0);
      RowOffsets(fileTree, expandedFolders);
      Render(fileTree, expandedFolders, 0, 0)
    }
  }
}
