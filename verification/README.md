# MaterialCardView in Dafny

A model of MaterialCardView, a small iOS library that draws Material Design
cards. A card (`MaterialCardView`) holds an ordered list of cells
(`MaterialCardCell`). Headers are inserted in front. Footers and body cells are
appended at the end. A cell grows by the height of every label or view stacked
into it. Each add or remove adjusts the card's height by the cell's height and
then runs the layout pass `updateFrame`:

- each cell moves to the running total of the heights above it;
- every cell except the last gets a one-point divider at its bottom edge;
- the content surface is resized;
- the content surface gets the card's background, the corner radius and clipping, and the card itself gets its shadow.

The model also covers the helpers from the UIKit extension file (`CEMKit.swift`)
that the card relies on:

- the frame accessors `x`, `y`, `w`, `h`, `right` and `bottom`;
- `Array.removeObject`;
- `clamp` and `convertNormalizedValue`;
- the point and size operators;
- the attributed-string list that `UILabel` keeps beside its text.

Files:

- `optional.dfy`: the `Option` type.
- `geometry.dfy`: points, sizes, rectangles, the numeric helpers, and a `View`
  class for the frame accessors.
- `sequences.dfy`: sums and prefix sums of heights, removal by index, and
  removal of the last match (the `removeObject` loop).
- `labels.dfy`: the padded label frame and the `Label` class with its list of
  attributed strings.
- `cards.dfy`: the `Cell` and `Card` classes.
  - Cells are objects compared by identity, as Swift's `==` on `NSObject` does.
  - The same cell may occur in a card twice, through `addCell(_ cell:)`. A
    cell's layout is then the layout of its last occurrence.
  - `DistinctLayout` gives the plain prefix-sum form for lists without
    repeated cells.
- `demo.dfy`: the sample screen, a card with two text cells.

Text measurement (`sizeThatFits`) is outside the model. The height it returns is
a parameter, `measured`, of every operation that builds a text label, and it is
assumed to be non-negative. Heights are `real`; floating-point rounding is not
modelled.

The model follows the code as written, including three behaviours a reader may
not expect:

- `removeCell` takes the cell's height off the card even when the cell is not in
  the card. The card's height then no longer equals the sum of its cells'
  heights; `Cards.Card.RemoveCell` states this.
- `removeObject` removes the last element equal to the object, not the first
  one.
- `updateFrame` does not recompute the card's height. It is kept up to date only
  by the `+=` and `-=` in `add` and `removeCell`.

## Model

| member | source | states |
|---|---|---|
| Geometry.Add | MaterialCardView/CEMKit.swift:1271-1277 | `+` on points: subtracting either operand from the sum gives back the other |
| Geometry.SizeAdd | MaterialCardView/CEMKit.swift:1259-1261 | `+` on sizes: the componentwise difference takes either operand off again |
| Geometry.SizeSubtractAsWrittenUndoesAdd | MaterialCardView/CEMKit.swift:1263-1265 | `-` on sizes as written undoes `+` exactly when the size is as tall as it is wide; Size(1, 2) comes back as Size(1, 1) |
| Geometry.Clamp | MaterialCardView/CEMKit.swift:1334-1339 | the result never exceeds the maximum and is at least the minimum when the bounds are ordered; an in-range value is kept; values below and above are pinned to the nearer bound; with crossed bounds the maximum wins |
| Geometry.ConvertNormalizedValue | MaterialCardView/CEMKit.swift:1326-1331 | 0 maps to the minimum and 1 to the maximum |
| Geometry.ConvertNormalizedValueInRange | MaterialCardView/CEMKit.swift:1326-1331 | with ordered bounds, every value in [0, 1] maps into [minimum, maximum] |
| Geometry.ConvertNormalizedValueIsAffine | MaterialCardView/CEMKit.swift:1326-1331 | the map is affine: a weighted average of inputs goes to the same weighted average of outputs |
| Geometry.View.SetX | MaterialCardView/CEMKit.swift:47-53 | the setter of `x` changes x to the value and leaves y, width and height alone |
| Geometry.View.SetY | MaterialCardView/CEMKit.swift:55-61 | the setter of `y` changes only y |
| Geometry.View.SetW | MaterialCardView/CEMKit.swift:63-69 | the setter of `w` changes only the width |
| Geometry.View.SetH | MaterialCardView/CEMKit.swift:71-77 | the setter of `h` changes only the height |
| Geometry.View.SetRight | MaterialCardView/CEMKit.swift:88-94 | setting `right` moves the view so its right edge is at the value: x becomes value minus width, size and y unchanged |
| Geometry.View.SetBottom | MaterialCardView/CEMKit.swift:104-110 | setting `bottom` moves the view so its bottom edge is at the value: y becomes value minus height, size and x unchanged |
| Sequences.SumPrefixStep | MaterialCardView/MaterialCardView.swift:447-448 | the running offset after one more cell is the previous offset plus that cell's height |
| Sequences.RemoveAt | MaterialCardView/CEMKit.swift:1249-1251 | `remove(at:)` gives one element fewer, keeps the elements before k, shifts those after, and removes exactly one copy of s[k] from the multiset |
| Sequences.SumRemoveAt | MaterialCardView/MaterialCardView.swift:624-630 | removing the element at k takes exactly s[k] off the total |
| Sequences.SumInsert | MaterialCardView/MaterialCardView.swift:515-524 | inserting a height at any index adds it to the total |
| Sequences.InsertMembers | MaterialCardView/MaterialCardView.swift:522 | after an insertion every element is the new one or was there before |
| Sequences.LastIndex | MaterialCardView/CEMKit.swift:1240-1247 | the index the scan remembers: -1 exactly when the object is absent, otherwise an index holding the object with no match after it |
| Sequences.LastIndexAppend | MaterialCardView/CEMKit.swift:1241-1246 | one scan step: a match at the new element replaces the remembered index, otherwise the index is kept |
| Sequences.RemoveLast | MaterialCardView/CEMKit.swift:1239-1253 | the array is unchanged when nothing matches; otherwise exactly one copy of the object goes, the last one, and the rest keep their order |
| Sequences.RemoveLastDistinct | MaterialCardView/MaterialCardView.swift:617-622 | in a list without repetitions, removing the object found at index i removes index i |
| Sequences.RemoveLastKeepsDistinct | MaterialCardView/CEMKit.swift:1239-1253 | removing an element keeps a list free of repetitions |
| Sequences.RemoveObject | MaterialCardView/CEMKit.swift:1239-1253 | the loop over the array returns the array with the last match removed (RemoveLast) |
| Labels.ConcatAppend | MaterialCardView/CEMKit.swift:632-645 | joining one more piece appends it to the joined text |
| Labels.Label.constructor | MaterialCardView/CEMKit.swift:614-621 | a new label has no text and no list, which is consistent |
| Labels.Label.AddAttributedString | MaterialCardView/CEMKit.swift:632-645 | a label without text gets text `s` and list `[s]`; otherwise `s` is appended to the text and also to the list if one exists; text equal to the joined list stays so |
| Labels.Label.UpdateAttributedStringAtIndex | MaterialCardView/CEMKit.swift:649-663 | without a list nothing changes; with one, only entry `index` is replaced, and the text becomes the join of the whole list |
| Cards.Cell.constructor | MaterialCardView/MaterialCardView.swift:312-315 | a new cell belongs to the card, is as wide as the card, has height 0 at offset 0, and has no children, background or divider |
| Cards.Cell.AddView | MaterialCardView/MaterialCardView.swift:347-350 | the view is stacked last and the cell grows by exactly its height |
| Cards.Cell.AddTitle | MaterialCardView/MaterialCardView.swift:321-332 | a title label is stacked at the cell's old bottom, inset by the item padding, in the title colour; the cell grows by the measured height plus twice the padding |
| Cards.Cell.AddText | MaterialCardView/MaterialCardView.swift:334-345 | as AddTitle, in the text colour |
| Cards.Cell.DrawBottomLine | MaterialCardView/MaterialCardView.swift:353-361 | an existing divider is kept; otherwise a one-point divider in the border colour is drawn at the bottom edge; nothing else changes |
| Cards.Cell.RemoveBottomLine | MaterialCardView/MaterialCardView.swift:363-368 | the divider is gone and nothing else changes |
| Cards.Cell.Place | MaterialCardView/MaterialCardView.swift:447-454 | one step of the layout loop: the cell is at the given offset, has a fresh divider exactly when another cell follows, and keeps its contents |
| Cards.Card.constructor | MaterialCardView/MaterialCardView.swift:407-419 | a new card has the frame's width, height 0, no cells, and the given appearance or the default one; it is valid |
| Cards.Card.Materialize | MaterialCardView/MaterialCardView.swift:461-473 | the content surface takes the card's background, the corner radius 3 and clipping; the card itself gets the shadow (offset (0, 1), radius 1.5, opacity 0.5) on a rounded path over its size; nothing else changes |
| Cards.Card.UpdateFrame | MaterialCardView/MaterialCardView.swift:443-459 | the cells are laid out, the content surface matches the card's size and is styled; no cell's contents change (the list's nor any single cell's), and the card's height is not recomputed |
| Cards.StackCells | MaterialCardView/MaterialCardView.swift:444-455 | the layout loop: every cell sits at the sum of the heights above its last occurrence and has a divider exactly when that occurrence is not last; contents are untouched |
| Cards.Card.Add | MaterialCardView/MaterialCardView.swift:606-611 | the card grows by the cell's height and is laid out again; the list is untouched |
| Cards.Card.TitleCell | MaterialCardView/MaterialCardView.swift:516-520 | the cell a header or footer gets: the title on the header background, at least 40 tall |
| Cards.Card.TextCell | MaterialCardView/MaterialCardView.swift:560-564 | the cell a body row gets: the text on the cell background, at least 53 tall |
| Cards.Card.ViewHolder | MaterialCardView/MaterialCardView.swift:527-530 | the cell a view gets: the view on the given background, exactly as tall as the view |
| Cards.Card.Link | MaterialCardView/MaterialCardView.swift:522 | `items.insert(cell, at: k)`: the cell's contents join the list at k, and the card is short of its cells by exactly the cell's height |
| Cards.Card.Insert | MaterialCardView/MaterialCardView.swift:522-523 | insert followed by `add`: the card grows by the cell's height, is laid out, and stays as tall as its cells if it was |
| Cards.Card.Append | MaterialCardView/MaterialCardView.swift:575-576 | `items.append(cell)` followed by `add`: as Insert at the end; a new cell keeps the list free of repetitions |
| Cards.Card.AddHeader | MaterialCardView/MaterialCardView.swift:515-524 | a fresh title cell goes in front of the others, which are unchanged; the card grows by max(measured + 32, 40), is laid out and stays as tall as its cells |
| Cards.Card.AddHeaderView | MaterialCardView/MaterialCardView.swift:526-534 | a fresh cell holding the view goes in front; the card grows by the view's height |
| Cards.Card.AddFooter | MaterialCardView/MaterialCardView.swift:537-546 | a fresh title cell goes after the others; the card grows by max(measured + 32, 40) |
| Cards.Card.AddFooterView | MaterialCardView/MaterialCardView.swift:548-556 | a fresh cell holding the view goes after the others; the card grows by the view's height |
| Cards.Card.AddCell | MaterialCardView/MaterialCardView.swift:559-577 | a fresh text cell on the cell background goes last; the card grows by max(measured + 32, 53) |
| Cards.Card.AddCellView | MaterialCardView/MaterialCardView.swift:579-596 | a fresh cell holding the view on the cell background goes last; the card grows by the view's height |
| Cards.Card.AddExistingCell | MaterialCardView/MaterialCardView.swift:598-603 | the given cell is repainted with the cell background and appended; the card grows by its height and stays as tall as its cells if it was; a cell new to the card only changes by its background |
| Cards.Card.Detach | MaterialCardView/MaterialCardView.swift:625-628 | the last occurrence of the cell leaves the list and its height comes off the card's; height consistency is kept when the cell was there and lost when it was not (and has a height) |
| Cards.Card.RemoveCell | MaterialCardView/MaterialCardView.swift:624-630 | as Detach, then laid out again; the remaining cells' contents are those of the list minus that occurrence; no cell of the card changes its contents, and a cell that has left the card is untouched (its offset, height, children and divider stay as they were) |
| Cards.Card.RemoveCellAtIndex | MaterialCardView/MaterialCardView.swift:617-622 | an index past the end changes nothing; otherwise the cell found there is removed (the entry at that index when the list has no repetitions), the card shrinks by its height and stays consistent; no cell changes its contents and the removed cell, once out of the list, is untouched |
| Cards.ContentsOfInsert | MaterialCardView/MaterialCardView.swift:522 | inserting a cell inserts its contents at the same index |
| Cards.SumHeightsInsert | MaterialCardView/MaterialCardView.swift:522-523 | inserting a cell adds its height to the total height of the list |
| Cards.SumAfterRemoveLast | MaterialCardView/MaterialCardView.swift:624-630 | removing a cell that is present takes exactly its height off the total; removing an absent cell changes nothing |
| Cards.DistinctLayout | MaterialCardView/MaterialCardView.swift:444-455 | in a list without repetitions, cell i sits at the sum of the heights of cells 0..i-1 and has a divider exactly when it is not last |
| Cards.NextCellBelow | MaterialCardView/MaterialCardView.swift:447-448 | neighbouring cells neither overlap nor leave a gap |
| Cards.LastCellEndsAtHeight | MaterialCardView/MaterialCardView.swift:606-611 | on a valid card the last cell ends exactly at the card's height |
| Demo.MaterialDemo | MaterialCardView/ViewController.swift:18-31 | the sample card: two distinct cells at least 53 tall, the first at the top with a divider, the second right below it without one, and the card exactly as tall as both |

## Left out

- The ripple (`RippleLayer`, `addRipple`, the tap handler, `shadowRadiusAnimation`) and the `action` closures of `addCell` and `addCellView`: these only configure and schedule CoreAnimation with floating-point timing, and they change nothing the layout reads.
- Text measurement (`sizeThatFits`, `getEstimatedHeight`) is a call into UIKit. Its result is the parameter `measured`, assumed non-negative.
- Fonts, text alignment and the attributes of attributed strings: an attributed string is a plain string, and a label keeps no font.
- The view hierarchy (`addSubview`, `removeFromSuperview`, the content view as a separate view): the model keeps the content surface's size and styling as fields of the card.
- `UIColor` values: the default colours are the grey levels of the colour helpers, as RGBA components.
- The NSCoding initializers (which call `fatalError` or do nothing) and the plain `init(frame:)`: only `init(frame:value:)` builds a usable card.
- `MaterialCardCell.parentCard` is an implicitly unwrapped optional. It is never nil for a cell built by `init(card:)`, which is the only way the model builds one.
- The second `updateAttributedStringAtIndex` overload, which takes only new text: it copies the attributes of the existing piece, over all but its last character, onto the new text and then calls the first overload. Attributes are not modelled, so this overload is left out. It traps with a range exception when the new text is shorter than the copied ranges, or when the existing piece is empty, since the range length is then -1.
- The `addAttributedString` overload that takes text, colour and font: it builds an attributed string and calls the one modelled.
- `normalizeValue` returns `(max - min) / value`, which is not the inverse of `convertNormalizedValue`; it is not used by the card and is not modelled.
- `removeCellAtIndex` with a negative index traps on the array subscript in Swift. `Cards.Card.RemoveCellAtIndex` requires a non-negative index.
- `updateAttributedStringAtIndex` with an index outside an existing list traps on the subscript. `Labels.Label.UpdateAttributedStringAtIndex` requires an index in range when there is a list.
- Cards.Card.AddExistingCell: states the full new contents only for a cell not yet in the card. For a cell already in the card, it states only the new list, the height change and that height consistency is kept. The repainted cell's earlier occurrences change too.
- Floating-point rounding of `CGFloat`: heights and offsets are exact reals.
- The rest of the UIKit extension file (networking, JSON, alerts, gesture and web-view wrappers, screen accessors, transforms, drawing helpers, random colours): not used by the card.

## Findings

| source | as written | input that shows it | evidently intended | confidence | as-written member | corrected member |
|---|---|---|---|---|---|---|
| MaterialCardView/CEMKit.swift:1263-1265 | `-` on CGSize computes the height as `left.width - right.width` | Size(1, 2) + Size(0, 0) - Size(0, 0) gives Size(1, 1) | a componentwise difference, `left.height - right.height` for the height, which undoes `+` | high (not executed) | Geometry.SizeSubtractAsWrittenUndoesAdd | Geometry.SizeAdd |
