/** Panels laid out on a grid of 24 columns. */
module Grid {
  import opened Integers
  import opened Wrappers

  const COLUMNS: nat := 24

  datatype Size = Size(width: nat, height: nat)

  datatype Item = Item(name: string, x: nat, y: nat, size: Size) {
    predicate Covers(column: nat, row: nat) {
      x <= column < x + size.width && y <= row < y + size.height
    }

    /** Where the next panel of the same row starts. */
    function Right(): nat { x + size.width }
  }

  /** The lowest edge of all the items. */
  function Bottom(items: seq<Item>): nat {
    if items == [] then 0 else
    var last := items[|items| - 1];
    Max(Bottom(items[..|items| - 1]), last.y + last.size.height)
  }

  ghost predicate NoOverlap(items: seq<Item>) {
    forall i, j, column, row :: 0 <= i < j < |items| && items[i].Covers(column, row) ==> !items[j].Covers(column, row)
  }

  /** An item stands right after the last one if it still fits in that row; otherwise it
      opens a row just below everything placed so far. */
  ghost predicate Next(items: seq<Item>, item: Item) {
    if items != [] && items[|items| - 1].Right() + item.size.width <= COLUMNS
    then item.x == items[|items| - 1].Right() && item.y == items[|items| - 1].y
    else item.x == 0 && item.y == Bottom(items)
  }

  ghost predicate Flows(items: seq<Item>) {
    items != [] ==>
      var before := items[..|items| - 1];
      Flows(before) && Next(before, items[|items| - 1])
  }

  /** One item is above the other or to its left. */
  ghost predicate Before(a: Item, b: Item) {
    a.y + a.size.height <= b.y || (a.y == b.y && a.Right() <= b.x)
  }

  lemma {:induction false} BottomIsLowest(items: seq<Item>, j: nat)
    requires j < |items|
    ensures items[j].y + items[j].size.height <= Bottom(items)
  {
    if j < |items| - 1 {
      BottomIsLowest(items[..|items| - 1], j);
    }
  }

  lemma {:induction false} AllBefore(items: seq<Item>, j: nat, i: nat)
    requires Flows(items) && j < i < |items|
    ensures Before(items[j], items[i])
    decreases |items|
  {
    var before := items[..|items| - 1];
    if i < |items| - 1 {
      AllBefore(before, j, i);
    } else if before[i - 1].Right() + items[i].size.width > COLUMNS {
      BottomIsLowest(before, j);
    } else if j < i - 1 {
      AllBefore(before, j, i - 1);
    }
  }

  /** The flow keeps the items apart. */
  lemma FlowsApart(items: seq<Item>)
    requires Flows(items)
    ensures NoOverlap(items)
  {
    forall i, j, column, row | 0 <= i < j < |items| && items[i].Covers(column, row) ensures !items[j].Covers(column, row) {
      AllBefore(items, i, j);
    }
  }

  /** An item of the flow is within the columns exactly when it is no wider than they. */
  lemma {:induction false} FlowsWithin(items: seq<Item>)
    requires Flows(items)
    ensures forall i :: 0 <= i < |items| ==> (items[i].Right() <= COLUMNS <==> items[i].size.width <= COLUMNS)
  {
    if items == [] {
    } else {
      FlowsWithin(items[..|items| - 1]);
    }
  }

  /** The flow alone fixes the layout of a list of panels. */
  lemma {:induction false} FlowIsUnique(a: seq<Item>, b: seq<Item>)
    requires |a| == |b| && forall i :: 0 <= i < |a| ==> a[i].name == b[i].name && a[i].size == b[i].size
    requires Flows(a) && Flows(b)
    ensures a == b
  {
    if a == [] {
    } else {
      var n := |a| - 1;
      FlowIsUnique(a[..n], b[..n]);
      assert a == a[..n] + [a[n]] && b == b[..n] + [b[n]];
    }
  }

  /** Panel i is the first without a size. */
  predicate FirstUnknown(names: seq<string>, size: map<string, Size>, i: nat, name: string) {
    i < |names| && names[i] == name && name !in size && forall j :: 0 <= j < i ==> names[j] in size
  }

  /** Places the panels in order, each once, with no two overlapping; a panel stays within
      the columns exactly when it is no wider than the grid. A panel without a size is an
      error. */
  method Place(names: seq<string>, size: map<string, Size>) returns (r: Result<seq<Item>, string>)
    ensures r.Ok? <==> forall i :: 0 <= i < |names| ==> names[i] in size
    ensures r.Err? ==> exists i :: FirstUnknown(names, size, i, r.error)
    ensures r.Ok? ==> |r.value| == |names|
    ensures r.Ok? ==> forall i :: 0 <= i < |names| ==> r.value[i].name == names[i] && r.value[i].size == size[names[i]]
    ensures r.Ok? ==> NoOverlap(r.value)
    ensures r.Ok? ==> forall i :: 0 <= i < |names| ==> (r.value[i].Right() <= COLUMNS <==> size[names[i]].width <= COLUMNS)
    ensures r.Ok? ==> Flows(r.value)
  {
    var items: seq<Item> := [];
    var x: nat, y: nat, rowHeight: nat := 0, 0, 0;
    var i := 0;
    while i < |names|
      invariant 0 <= i <= |names| && |items| == i && Flows(items) && At(items, x, y, rowHeight)
      invariant forall j :: 0 <= j < i ==> names[j] in size && items[j].name == names[j] && items[j].size == size[names[j]]
    {
      if names[i] !in size {
        assert FirstUnknown(names, size, i, names[i]);
        return Err(names[i]);
      }
      var panel := size[names[i]];
      if x + panel.width > COLUMNS {
        x := 0;
        y := y + rowHeight;
        rowHeight := 0;
      }
      var item := Item(names[i], x, y, panel);
      FlowsOn(items, item, rowHeight);
      items := items + [item];
      x := x + panel.width;
      rowHeight := Max(rowHeight, panel.height);
      i := i + 1;
    }
    FlowsApart(items);
    FlowsWithin(items);
    return Ok(items);
  }

  /** Where the next item of this row would go, and how high the row is so far. */
  ghost predicate At(items: seq<Item>, x: nat, y: nat, rowHeight: nat) {
    && y + rowHeight == Bottom(items)
    && if items == [] then x == 0 && y == 0 else x == items[|items| - 1].Right() && y == items[|items| - 1].y
  }

  lemma FlowsOn(items: seq<Item>, item: Item, rowHeight: nat)
    requires Flows(items) && Next(items, item) && item.y + rowHeight == Bottom(items)
    ensures Flows(items + [item])
    ensures At(items + [item], item.Right(), item.y, Max(rowHeight, item.size.height))
  {
    assert (items + [item])[..|items|] == items;
  }
}
