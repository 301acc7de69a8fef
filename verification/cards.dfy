/** The card composition and layout engine. A card (MaterialCardView) owns an
    ordered list of cells (MaterialCardCell): headers go in front, footers and
    body cells at the end. Every add or remove adjusts the card's height by the
    cell's height and then lays the cells out again: each cell is placed at the
    running total of the heights above it, and every cell but the last gets a
    one-point divider at its bottom edge.

    Cells are objects and are compared by identity, so the same cell can sit
    in the list twice. A cell's final position and divider are then those of its
    LAST occurrence, which is how the layout predicate below is phrased; for a
    list without repetitions `DistinctLayout` gives the plain prefix-sum form. */
module Cards {
  import opened Optional
  import opened Geometry
  import opened Sequences
  import opened Labels

  /** A colour by its red, green, blue and alpha components. */
  datatype Color = Rgba(red: real, green: real, blue: real, alpha: real)

  function Gray(level: real, alpha: real): Color
  {
    Rgba(level, level, level, alpha)
  }

  /** The colours and timing a card and its cells are drawn with. Fonts are not modelled. */
  datatype Appearance = Appearance(
    headerBackgroundColor: Color,
    cellBackgroundColor: Color,
    borderColor: Color,
    titleColor: Color,
    textColor: Color,
    shadowColor: Color,
    rippleColor: Color,
    rippleDuration: real)

  const CardRadius: real := 3.0
  const RippleDuration: real := 0.9
  const ShadowOpacity: real := 0.5
  const ShadowRadius: real := 1.5
  const EstimatedRowHeight: real := 53.0
  const EstimatedHeaderHeight: real := 40.0
  const ItemPadding: real := 16.0

  /** The appearance a card gets when none is given. */
  function DefaultAppearance(): Appearance
  {
    Appearance(
      Gray(242.0, 1.0), Gray(249.0, 1.0), Gray(200.0, 1.0),
      Gray(51.0, 1.0), Gray(144.0, 1.0),
      Gray(51.0, 1.0), Gray(51.0, 0.1), RippleDuration)
  }

  /** A child stacked in a cell: a text label, or a view supplied by the caller. */
  datatype Child = TextLabel(frame: Rect, text: string, color: Color) | Embedded(frame: Rect)

  /** A divider line: its frame inside the cell and its colour. */
  datatype Line = Line(frame: Rect, color: Color)

  /** The shadow `materialize` gives the card's layer; the shadow path is a
      rounded rectangle over the card's bounds. */
  datatype Shadow = Shadow(
    offset: Size, radius: real, color: Color, opacity: real,
    pathBounds: Size, pathCornerRadius: real)

  /** What layout does not touch in a cell: everything but its offset and divider. */
  datatype CellContent = CellContent(w: real, h: real, backgroundColor: Option<Color>, children: seq<Child>)

  /** A new cell of a card of the given width holding one padded text label: the
      label is as tall as the measured text plus padding above and below, and
      the cell at least `minimum`. */
  function LabelCell(width: real, text: string, measured: real, color: Color, background: Color, minimum: real): CellContent
    requires measured >= 0.0
  {
    CellContent(
      width, Max(measured + 2.0 * ItemPadding, minimum), Some(background),
      [TextLabel(PaddedLabelFrame(ItemPadding, 0.0, width - 2.0 * ItemPadding, ItemPadding, measured), text, color)])
  }

  /** A new cell of a card of the given width holding the given view, exactly as tall as the view. */
  function ViewCell(width: real, view: Rect, background: Color): CellContent
  {
    CellContent(width, view.h, Some(background), [Embedded(view)])
  }

  /** The divider of cell c: a one-point strip across the full width of the
      cell at its bottom edge, in the border colour of the cell's card. */
  function DividerOf(c: Cell): Line
    reads c
  {
    Line(Rect(0.0, c.h - 1.0, c.w, 1.0), c.parent.appearance.borderColor)
  }

  /** The contents of the cells, in order. */
  ghost function ContentsOf(cs: seq<Cell>): seq<CellContent>
    reads cs
  {
    seq(|cs|, i requires 0 <= i < |cs| reads cs => cs[i].Content())
  }

  /** The heights recorded in a list of contents. */
  function HeightsIn(ks: seq<CellContent>): seq<real>
  {
    seq(|ks|, i requires 0 <= i < |ks| => ks[i].h)
  }

  /** The heights of the cells, in order. */
  ghost function HeightsOf(cs: seq<Cell>): seq<real>
    reads cs
  {
    HeightsIn(ContentsOf(cs))
  }

  /** Cell c is laid out as the cell at index k of a list of n cells with heights hs:
      its offset is the sum of the heights above it and it carries a divider
      exactly when it is not the last. */
  ghost predicate Placed(c: Cell, k: int, hs: seq<real>, n: nat)
    reads c
  {
    && 0 <= k <= |hs|
    && c.y == Sum(hs[..k])
    && c.bottomLine == (if k + 1 < n then Some(DividerOf(c)) else None)
  }

  /** No entry of cs after index i and before index k is the same cell as cs[i]. */
  ghost predicate LastBefore(cs: seq<Cell>, i: nat, k: nat)
    requires i < k <= |cs|
  {
    forall j :: i < j < k ==> cs[j] != cs[i]
  }

  /** The first k cells of cs are laid out as in a list of |cs| cells with
      heights hs, each cell by its last occurrence among them. */
  ghost predicate StackedUpTo(cs: seq<Cell>, k: nat, hs: seq<real>)
    requires k <= |cs|
    reads cs
  {
    forall i :: 0 <= i < k && LastBefore(cs, i, k) ==> Placed(cs[i], i, hs, |cs|)
  }

  /** Every cell of cs is laid out by its last occurrence in cs. */
  ghost predicate Stacked(cs: seq<Cell>)
    reads cs
  {
    StackedUpTo(cs, |cs|, HeightsOf(cs))
  }

  class Cell {
    const parent: Card
    var y: real
    var w: real
    var h: real
    var backgroundColor: Option<Color>
    var children: seq<Child>
    var bottomLine: Option<Line>

    /** A new, empty cell at the top of the card, as wide as the card. */
    constructor (card: Card)
      ensures parent == card
      ensures y == 0.0 && w == card.w && h == 0.0
      ensures backgroundColor == None && children == [] && bottomLine == None
    {
      parent := card;
      y, w, h := 0.0, card.w, 0.0;
      backgroundColor := None;
      children := [];
      bottomLine := None;
    }

    ghost function Content(): CellContent
      reads this
    {
      CellContent(w, h, backgroundColor, children)
    }

    /** Stacks a child below the existing ones: the cell grows by exactly the child's height. */
    method AddView(view: Child)
      modifies this
      ensures children == old(children) + [view]
      ensures h == old(h) + view.frame.h
      ensures y == old(y) && w == old(w) && backgroundColor == old(backgroundColor) && bottomLine == old(bottomLine)
    {
      children := children + [view];
      h := h + view.frame.h;
    }

    /** Stacks a title label: padded by ItemPadding on the sides, placed at the
        cell's current bottom, as tall as the measured text plus padding above
        and below. `measured` is the text height the foreign text measurement
        returns for the label's width and font. */
    method AddTitle(title: string, measured: real)
      requires measured >= 0.0
      modifies this
      ensures children == old(children) + [TextLabel(
                PaddedLabelFrame(ItemPadding, old(h), parent.w - 2.0 * ItemPadding, ItemPadding, measured),
                title, parent.appearance.titleColor)]
      ensures h == old(h) + measured + 2.0 * ItemPadding
      ensures y == old(y) && w == old(w) && backgroundColor == old(backgroundColor) && bottomLine == old(bottomLine)
    {
      var titleLabel := TextLabel(
        PaddedLabelFrame(ItemPadding, h, parent.w - 2.0 * ItemPadding, ItemPadding, measured),
        title, parent.appearance.titleColor);
      AddView(titleLabel);
    }

    /** As AddTitle, in the text colour of the card. */
    method AddText(text: string, measured: real)
      requires measured >= 0.0
      modifies this
      ensures children == old(children) + [TextLabel(
                PaddedLabelFrame(ItemPadding, old(h), parent.w - 2.0 * ItemPadding, ItemPadding, measured),
                text, parent.appearance.textColor)]
      ensures h == old(h) + measured + 2.0 * ItemPadding
      ensures y == old(y) && w == old(w) && backgroundColor == old(backgroundColor) && bottomLine == old(bottomLine)
    {
      var textLabel := TextLabel(
        PaddedLabelFrame(ItemPadding, h, parent.w - 2.0 * ItemPadding, ItemPadding, measured),
        text, parent.appearance.textColor);
      AddView(textLabel);
    }

    /** Draws the divider at the cell's current bottom edge; a cell that already
        has one keeps it as it is. */
    method DrawBottomLine()
      modifies this
      ensures old(bottomLine).Some? ==> bottomLine == old(bottomLine)
      ensures old(bottomLine).None? ==> bottomLine == Some(DividerOf(this))
      ensures y == old(y) && Content() == old(Content())
    {
      if bottomLine.Some? {
        return;
      }
      bottomLine := Some(DividerOf(this));
    }

    /** Removes the divider, if there is one. */
    method RemoveBottomLine()
      modifies this
      ensures bottomLine == None
      ensures y == old(y) && Content() == old(Content())
    {
      if bottomLine.Some? {
        bottomLine := None;
      }
    }

    /** One step of the card's layout pass: the cell moves to the given offset and
        loses its divider, then gets a fresh one when another cell follows. */
    method Place(offset: real, followed: bool)
      modifies this
      ensures y == offset
      ensures bottomLine == if followed then Some(DividerOf(this)) else None
      ensures Content() == old(Content())
    {
      y := offset;
      RemoveBottomLine();
      if followed {
        DrawBottomLine();
      }
    }
  }

  class Card {
    var w: real
    var h: real
    const appearance: Appearance
    var items: seq<Cell>
    var backgroundColor: Option<Color>
    var contentSize: Size
    var contentBackgroundColor: Option<Color>
    var contentCornerRadius: real
    var contentClipsToBounds: bool
    var shadow: Option<Shadow>

    /** A card with the given frame's width, height 0, no cells, and the given
        appearance or else the default one. */
    constructor (frame: Rect, value: Option<Appearance>)
      ensures w == frame.w && h == 0.0 && items == []
      ensures appearance == if value.Some? then value.value else DefaultAppearance()
      ensures backgroundColor == None && contentSize == Size(frame.w, 0.0)
      ensures contentBackgroundColor == None && contentCornerRadius == 0.0 && !contentClipsToBounds
      ensures shadow == None
      ensures Valid()
    {
      w, h := frame.w, 0.0;
      appearance := if value.Some? then value.value else DefaultAppearance();
      items := [];
      backgroundColor := None;
      contentSize := Size(frame.w, 0.0);
      contentBackgroundColor, contentCornerRadius, contentClipsToBounds := None, 0.0, false;
      shadow := None;
    }

    ghost function Heights(): seq<real>
      reads this, items
    {
      HeightsOf(items)
    }

    /** The card is as tall as its cells together. */
    ghost predicate HeightConsistent()
      reads this, items
    {
      h == Sum(Heights())
    }

    ghost predicate LaidOut()
      reads this, items
    {
      Stacked(items)
    }

    ghost predicate Valid()
      reads this, items
    {
      HeightConsistent() && LaidOut()
    }

    /** The styling `materialize` applies. */
    ghost predicate Materialized()
      reads this
    {
      && contentBackgroundColor == backgroundColor
      && contentCornerRadius == CardRadius
      && contentClipsToBounds
      && shadow == Some(Shadow(Size(0.0, 1.0), ShadowRadius, Gray(51.0, 1.0), ShadowOpacity, Size(w, h), CardRadius))
    }

    /** The state every structural change ends in. */
    ghost predicate Settled()
      reads this, items
    {
      LaidOut() && Materialized() && contentSize == Size(w, h)
    }

    /** Gives the content surface the card's background and the corner radius with
        clipping, and gives the card itself the fixed shadow over its bounds. */
    method Materialize()
      modifies this
      ensures Materialized()
      ensures w == old(w) && h == old(h) && items == old(items)
      ensures backgroundColor == old(backgroundColor) && contentSize == old(contentSize)
    {
      contentBackgroundColor := backgroundColor;
      shadow := Some(Shadow(Size(0.0, 1.0), ShadowRadius, Gray(51.0, 1.0), ShadowOpacity, Size(w, h), CardRadius));
      contentCornerRadius := CardRadius;
      contentClipsToBounds := true;
    }

    /** Lays the cells out again and refreshes the content surface and its
        styling. The card's own height is not recomputed. */
    method UpdateFrame()
      modifies this, items
      ensures items == old(items) && w == old(w) && h == old(h) && backgroundColor == old(backgroundColor)
      ensures ContentsOf(items) == old(ContentsOf(items))
      ensures forall c :: c in items ==> c.Content() == old(c.Content())
      ensures HeightConsistent() == old(HeightConsistent())
      ensures Settled()
    {
      StackCells(items);
      contentSize := Size(w, h);
      Materialize();
    }

    /** Adds the cell's height to the card's and lays the card out again. */
    method Add(cell: Cell)
      modifies this, items
      ensures items == old(items) && w == old(w) && h == old(h) + old(cell.h)
      ensures backgroundColor == old(backgroundColor)
      ensures ContentsOf(items) == old(ContentsOf(items))
      ensures Settled()
    {
      h := h + cell.h;
      UpdateFrame();
    }

    /** The cell addHeader and addFooter build: a new cell of this card on the
        header background holding the title, at least EstimatedHeaderHeight tall. */
    method TitleCell(title: string, measured: real) returns (cell: Cell)
      requires measured >= 0.0
      ensures fresh(cell) && cell.parent == this
      ensures cell.Content() == LabelCell(w, title, measured, appearance.titleColor, appearance.headerBackgroundColor, EstimatedHeaderHeight)
    {
      cell := new Cell(this);
      cell.backgroundColor := Some(appearance.headerBackgroundColor);
      cell.AddTitle(title, measured);
      cell.h := Max(cell.h, EstimatedHeaderHeight);
    }

    /** The cell addCell builds: a new cell of this card on the cell background
        holding the text, at least EstimatedRowHeight tall. */
    method TextCell(text: string, measured: real) returns (cell: Cell)
      requires measured >= 0.0
      ensures fresh(cell) && cell.parent == this
      ensures cell.Content() == LabelCell(w, text, measured, appearance.textColor, appearance.cellBackgroundColor, EstimatedRowHeight)
    {
      cell := new Cell(this);
      cell.backgroundColor := Some(appearance.cellBackgroundColor);
      cell.AddText(text, measured);
      cell.h := Max(cell.h, EstimatedRowHeight);
    }

    /** The cell the view variants build: a new cell of this card on the given
        background holding the view, exactly as tall as the view. */
    method ViewHolder(view: Rect, background: Color) returns (cell: Cell)
      ensures fresh(cell) && cell.parent == this
      ensures cell.Content() == ViewCell(w, view, background)
    {
      cell := new Cell(this);
      cell.backgroundColor := Some(background);
      cell.AddView(Embedded(view));
    }

    /** Swift's `items.insert(cell, at: k)`: the cell's contents join the list's at
        index k, and the card is now short of its cells by exactly the cell's height. */
    method Link(cell: Cell, k: nat)
      requires k <= |items|
      modifies this`items
      ensures items == old(items[..k]) + [cell] + old(items[k..])
      ensures forall o :: o in items ==> o == cell || o in old(items)
      ensures ContentsOf(items) == old(ContentsOf(items)[..k] + [cell.Content()] + ContentsOf(items)[k..])
      ensures old(HeightConsistent()) ==> h + cell.h == Sum(Heights())
    {
      ContentsOfInsert(items, k, cell);
      SumHeightsInsert(items, k, cell);
      InsertMembers(items, k, cell);
      items := items[..k] + [cell] + items[k..];
    }

    /** `items.insert(cell, at: k)` followed by `add(cell)`: the card grows by the
        cell's height and, if it was as tall as its cells before, it still is. */
    method Insert(cell: Cell, k: nat)
      requires k <= |items|
      modifies this, items, cell
      ensures items == old(items[..k]) + [cell] + old(items[k..])
      ensures ContentsOf(items) == old(ContentsOf(items)[..k] + [cell.Content()] + ContentsOf(items)[k..])
      ensures w == old(w) && h == old(h) + old(cell.h) && backgroundColor == old(backgroundColor)
      ensures Settled()
      ensures old(HeightConsistent()) ==> HeightConsistent()
    {
      Link(cell, k);
      Add(cell);
    }

    /** `items.append(cell)` (or `items.insert(cell, at: items.count)`) followed by
        `add(cell)`: Insert at the end of the list, stated as an append. */
    method Append(cell: Cell)
      modifies this, items, cell
      ensures items == old(items) + [cell]
      ensures ContentsOf(items) == old(ContentsOf(items) + [cell.Content()])
      ensures w == old(w) && h == old(h) + old(cell.h) && backgroundColor == old(backgroundColor)
      ensures Settled()
      ensures old(HeightConsistent()) ==> HeightConsistent()
      ensures Distinct(old(items)) && cell !in old(items) ==> Distinct(items)
    {
      assert items[..|items|] == items && items[|items|..] == [];
      assert ContentsOf(items)[..|items|] == ContentsOf(items) && ContentsOf(items)[|items|..] == [];
      Insert(cell, |items|);
    }

    /** A new header cell in front of all others: the title on the header
        background, at least EstimatedHeaderHeight tall. */
    method AddHeader(title: string, measured: real)
      requires measured >= 0.0
      modifies this, items
      ensures |items| == |old(items)| + 1 && items[1..] == old(items)
      ensures fresh(items[0]) && items[0].parent == this
      ensures ContentsOf(items) == [LabelCell(w, title, measured, appearance.titleColor, appearance.headerBackgroundColor, EstimatedHeaderHeight)] + old(ContentsOf(items))
      ensures w == old(w) && h == old(h) + Max(measured + 2.0 * ItemPadding, EstimatedHeaderHeight) && backgroundColor == old(backgroundColor)
      ensures Settled()
      ensures old(HeightConsistent()) ==> HeightConsistent()
      ensures Distinct(old(items)) ==> Distinct(items)
    {
      var cell := TitleCell(title, measured);
      assert ContentsOf(items) == old(ContentsOf(items));
      Insert(cell, 0);
      assert items[1..] == old(items);
    }

    /** A new header cell in front of all others, holding the given view; the
        cell is exactly as tall as the view. */
    method AddHeaderView(view: Rect)
      modifies this, items
      ensures |items| == |old(items)| + 1 && items[1..] == old(items)
      ensures fresh(items[0]) && items[0].parent == this
      ensures ContentsOf(items) == [ViewCell(w, view, appearance.headerBackgroundColor)] + old(ContentsOf(items))
      ensures w == old(w) && h == old(h) + view.h && backgroundColor == old(backgroundColor)
      ensures Settled()
      ensures old(HeightConsistent()) ==> HeightConsistent()
      ensures Distinct(old(items)) ==> Distinct(items)
    {
      var cell := ViewHolder(view, appearance.headerBackgroundColor);
      assert ContentsOf(items) == old(ContentsOf(items));
      Insert(cell, 0);
      assert items[1..] == old(items);
    }

    /** A new footer cell after all others; built like a header. */
    method AddFooter(title: string, measured: real)
      requires measured >= 0.0
      modifies this, items
      ensures |items| == |old(items)| + 1 && items[..|old(items)|] == old(items)
      ensures fresh(items[|old(items)|]) && items[|old(items)|].parent == this
      ensures ContentsOf(items) == old(ContentsOf(items)) + [LabelCell(w, title, measured, appearance.titleColor, appearance.headerBackgroundColor, EstimatedHeaderHeight)]
      ensures w == old(w) && h == old(h) + Max(measured + 2.0 * ItemPadding, EstimatedHeaderHeight) && backgroundColor == old(backgroundColor)
      ensures Settled()
      ensures old(HeightConsistent()) ==> HeightConsistent()
      ensures Distinct(old(items)) ==> Distinct(items)
    {
      var cell := TitleCell(title, measured);
      assert ContentsOf(items) == old(ContentsOf(items));
      Append(cell);
    }

    /** A new footer cell after all others, holding the given view. */
    method AddFooterView(view: Rect)
      modifies this, items
      ensures |items| == |old(items)| + 1 && items[..|old(items)|] == old(items)
      ensures fresh(items[|old(items)|]) && items[|old(items)|].parent == this
      ensures ContentsOf(items) == old(ContentsOf(items)) + [ViewCell(w, view, appearance.headerBackgroundColor)]
      ensures w == old(w) && h == old(h) + view.h && backgroundColor == old(backgroundColor)
      ensures Settled()
      ensures old(HeightConsistent()) ==> HeightConsistent()
      ensures Distinct(old(items)) ==> Distinct(items)
    {
      var cell := ViewHolder(view, appearance.headerBackgroundColor);
      assert ContentsOf(items) == old(ContentsOf(items));
      Append(cell);
    }

    /** A new body cell after all others: the text on the cell background, at
        least EstimatedRowHeight tall. */
    method AddCell(text: string, measured: real)
      requires measured >= 0.0
      modifies this, items
      ensures |items| == |old(items)| + 1 && items[..|old(items)|] == old(items)
      ensures fresh(items[|old(items)|]) && items[|old(items)|].parent == this
      ensures ContentsOf(items) == old(ContentsOf(items)) + [LabelCell(w, text, measured, appearance.textColor, appearance.cellBackgroundColor, EstimatedRowHeight)]
      ensures w == old(w) && h == old(h) + Max(measured + 2.0 * ItemPadding, EstimatedRowHeight) && backgroundColor == old(backgroundColor)
      ensures Settled()
      ensures old(HeightConsistent()) ==> HeightConsistent()
      ensures Distinct(old(items)) ==> Distinct(items)
    {
      var cell := TextCell(text, measured);
      assert ContentsOf(items) == old(ContentsOf(items));
      Append(cell);
    }

    /** A new body cell after all others, holding the given view. */
    method AddCellView(view: Rect)
      modifies this, items
      ensures |items| == |old(items)| + 1 && items[..|old(items)|] == old(items)
      ensures fresh(items[|old(items)|]) && items[|old(items)|].parent == this
      ensures ContentsOf(items) == old(ContentsOf(items)) + [ViewCell(w, view, appearance.cellBackgroundColor)]
      ensures w == old(w) && h == old(h) + view.h && backgroundColor == old(backgroundColor)
      ensures Settled()
      ensures old(HeightConsistent()) ==> HeightConsistent()
      ensures Distinct(old(items)) ==> Distinct(items)
    {
      var cell := ViewHolder(view, appearance.cellBackgroundColor);
      assert ContentsOf(items) == old(ContentsOf(items));
      Append(cell);
    }

    /** Appends a cell made elsewhere, repainted with the cell background. The cell
        may already be in the list, or belong to another card; it keeps its parent. */
    method AddExistingCell(cell: Cell)
      modifies this, items, cell
      ensures items == old(items) + [cell]
      ensures cell !in old(items) ==>
        ContentsOf(items) == old(ContentsOf(items) + [cell.Content().(backgroundColor := Some(appearance.cellBackgroundColor))])
      ensures w == old(w) && h == old(h) + old(cell.h) && backgroundColor == old(backgroundColor)
      ensures Settled()
      ensures old(HeightConsistent()) ==> HeightConsistent()
    {
      ghost var contents := ContentsOf(items);
      cell.backgroundColor := Some(appearance.cellBackgroundColor);
      ghost var repainted := ContentsOf(items);
      assert forall i :: 0 <= i < |items| ==> repainted[i].h == contents[i].h;
      assert HeightsIn(repainted) == HeightsIn(contents);
      assert cell !in items ==> repainted == contents;
      Append(cell);
    }

    /** The part of removeCell before the new layout: the LAST occurrence of the
        cell leaves the list and the cell's height comes off the card's, even
        when the cell is not in the list. */
    method Detach(cell: Cell)
      modifies this
      ensures items == RemoveLast(old(items), cell)
      ensures w == old(w) && h == old(h) - cell.h && backgroundColor == old(backgroundColor)
      ensures cell in old(items) && old(HeightConsistent()) ==> HeightConsistent()
      ensures cell !in old(items) && old(HeightConsistent()) && cell.h != 0.0 ==> !HeightConsistent()
      ensures Distinct(old(items)) ==> Distinct(items)
    {
      ghost var before := items;
      items := RemoveObject(items, cell);
      h := h - cell.h;
      SumAfterRemoveLast(before, cell);
      assert HeightsOf(before) == old(HeightsOf(items));
      if Distinct(before) {
        RemoveLastKeepsDistinct(before, cell);
      }
    }

    /** Removes the LAST occurrence of the cell, takes the cell's height off the
        card's and lays the card out again. The height is taken off even when the
        cell is not in the list, which leaves the card's height out of step with
        its cells. */
    method RemoveCell(cell: Cell)
      modifies this, RemoveLast(items, cell)
      ensures items == RemoveLast(old(items), cell)
      ensures ContentsOf(items) == old(ContentsOf(RemoveLast(items, cell)))
      ensures forall c :: c in old(items) ==> c.Content() == old(c.Content())
      ensures cell !in items ==> unchanged(cell)
      ensures w == old(w) && h == old(h) - old(cell.h) && backgroundColor == old(backgroundColor)
      ensures Settled()
      ensures cell in old(items) && old(HeightConsistent()) ==> HeightConsistent()
      ensures cell !in old(items) && old(HeightConsistent()) && old(cell.h) != 0.0 ==> !HeightConsistent()
      ensures Distinct(old(items)) ==> Distinct(items)
    {
      Detach(cell);
      UpdateFrame();
    }

    /** Removes the cell at the given index, if there is one; an index past the
        end changes nothing. With repetitions it is the last occurrence of that
        cell that goes. */
    method RemoveCellAtIndex(index: int)
      requires index >= 0
      modifies this, items
      ensures index >= |old(items)| ==> unchanged(this) && unchanged(items)
      ensures index < |old(items)| ==> items == RemoveLast(old(items), old(items)[index])
      ensures index < |old(items)| && Distinct(old(items)) ==> items == RemoveAt(old(items), index)
      ensures index < |old(items)| ==> h == old(h) - old(items[index].h) && Settled()
      ensures index < |old(items)| && old(HeightConsistent()) ==> HeightConsistent()
      ensures w == old(w) && backgroundColor == old(backgroundColor)
      ensures index < |old(items)| ==> ContentsOf(items) == old(ContentsOf(RemoveLast(items, items[index])))
      ensures forall c :: c in old(items) ==> c.Content() == old(c.Content())
      ensures index < |old(items)| && old(items[index]) !in items ==> unchanged(old(items[index]))
    {
      if index < |items| {
        if Distinct(items) {
          RemoveLastDistinct(items, index);
        }
        var cell := items[index];
        RemoveCell(cell);
      }
    }
  }

  /** The layout pass of a card: one walk over the cells, top to bottom, moves
      each to the running total of the heights above it, drops its divider,
      and draws a fresh one unless it is the last. */
  method StackCells(cs: seq<Cell>)
    modifies cs
    ensures ContentsOf(cs) == old(ContentsOf(cs))
    ensures forall c :: c in cs ==> c.Content() == old(c.Content())
    ensures Stacked(cs)
  {
    ghost var contents := ContentsOf(cs);
    ghost var hs := HeightsIn(contents);
    var current := 0;
    var currentY := 0.0;
    while current < |cs|
      invariant 0 <= current <= |cs|
      invariant forall i :: 0 <= i < |cs| ==> cs[i].Content() == contents[i]
      invariant currentY == Sum(hs[..current])
      invariant StackedUpTo(cs, current, hs)
    {
      var item := cs[current];
      SumPrefixStep(hs, current);
      item.Place(currentY, current + 1 < |cs|);
      currentY := currentY + item.h;
      current := current + 1;
      forall i | 0 <= i < current && LastBefore(cs, i, current)
        ensures Placed(cs[i], i, hs, |cs|)
      {
        if i < current - 1 {
          assert LastBefore(cs, i, current - 1);
        }
      }
    }
    assert ContentsOf(cs) == contents;
  }

  /** Inserting a cell's contents inserts its height. */
  lemma HeightsInInsert(ks: seq<CellContent>, k: nat, x: CellContent)
    requires k <= |ks|
    ensures HeightsIn(ks[..k] + [x] + ks[k..]) == HeightsIn(ks)[..k] + [x.h] + HeightsIn(ks)[k..]
  {
  }

  /** The contents of two lists of cells put together. */
  lemma ContentsOfConcat(a: seq<Cell>, b: seq<Cell>)
    ensures ContentsOf(a + b) == ContentsOf(a) + ContentsOf(b)
  {
  }

  /** Inserting a cell into a list inserts its contents at the same index. */
  lemma ContentsOfInsert(cs: seq<Cell>, k: nat, c: Cell)
    requires k <= |cs|
    ensures ContentsOf(cs[..k] + [c] + cs[k..]) == ContentsOf(cs)[..k] + [c.Content()] + ContentsOf(cs)[k..]
  {
    var front, back := cs[..k], cs[k..];
    assert cs == front + back;
    ContentsOfConcat(front, back);
    ContentsOfConcat(front + [c], back);
    ContentsOfConcat(front, [c]);
  }

  /** Inserting a cell into a list adds its height to the list's total. */
  lemma SumHeightsInsert(cs: seq<Cell>, k: nat, c: Cell)
    requires k <= |cs|
    ensures Sum(HeightsOf(cs[..k] + [c] + cs[k..])) == Sum(HeightsOf(cs)) + c.h
  {
    ContentsOfInsert(cs, k, c);
    HeightsInInsert(ContentsOf(cs), k, c.Content());
    SumInsert(HeightsOf(cs), k, c.h);
  }

  /** Removing a cell removes its contents. */
  lemma ContentsOfRemoveAt(cs: seq<Cell>, k: nat)
    requires k < |cs|
    ensures ContentsOf(RemoveAt(cs, k)) == RemoveAt(ContentsOf(cs), k)
  {
  }

  /** Removing a cell's contents removes its height. */
  lemma HeightsInRemoveAt(ks: seq<CellContent>, k: nat)
    requires k < |ks|
    ensures HeightsIn(RemoveAt(ks, k)) == RemoveAt(HeightsIn(ks), k)
  {
  }

  /** Removing the last occurrence of a cell takes exactly its height off the
      total; removing a cell that is not there removes nothing. */
  lemma SumAfterRemoveLast(cs: seq<Cell>, c: Cell)
    ensures c in cs ==> Sum(HeightsOf(RemoveLast(cs, c))) == Sum(HeightsOf(cs)) - c.h
    ensures c !in cs ==> RemoveLast(cs, c) == cs
  {
    var k := LastIndex(cs, c);
    if k >= 0 {
      assert RemoveLast(cs, c) == RemoveAt(cs, k);
      ContentsOfRemoveAt(cs, k);
      HeightsInRemoveAt(ContentsOf(cs), k);
      SumRemoveAt(HeightsOf(cs), k);
    }
  }

  /** In a list without repetitions every cell is laid out at its own index: it
      sits at the sum of the heights above it and has a divider exactly when it
      is not the last. */
  lemma DistinctLayout(cs: seq<Cell>, i: nat)
    requires Stacked(cs) && Distinct(cs) && i < |cs|
    ensures cs[i].y == Sum(HeightsOf(cs)[..i])
    ensures cs[i].bottomLine == if i + 1 < |cs| then Some(DividerOf(cs[i])) else None
  {
    assert LastBefore(cs, i, |cs|);
  }

  /** Neighbouring cells leave no gap and do not overlap: each cell starts where
      the one above it ends. */
  lemma NextCellBelow(cs: seq<Cell>, i: nat)
    requires Stacked(cs) && Distinct(cs) && i + 1 < |cs|
    ensures cs[i + 1].y == cs[i].y + cs[i].h
  {
    DistinctLayout(cs, i);
    DistinctLayout(cs, i + 1);
    SumPrefixStep(HeightsOf(cs), i);
  }

  /** On a valid card the last cell ends exactly at the card's bottom edge. */
  lemma LastCellEndsAtHeight(card: Card)
    requires card.Valid() && Distinct(card.items) && |card.items| > 0
    ensures card.items[|card.items| - 1].y + card.items[|card.items| - 1].h == card.h
  {
    var n := |card.items| - 1;
    var hs := HeightsOf(card.items);
    DistinctLayout(card.items, n);
    SumPrefixStep(hs, n);
    assert hs[..n + 1] == hs;
  }
}
