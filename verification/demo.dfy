/** The sample screen of the application: one card, on the default appearance,
    holding two text cells. */
module Demo {
  import opened Optional
  import opened Geometry
  import opened Sequences
  import opened Cards

  /** `materialDemo`: a card 40 points narrower than the screen, ten points below
      the status bar, with the cells "Item 1" and "Item 2" whose text measures
      `measured1` and `measured2` points. The first cell starts at the top of the
      card and carries a divider, the second starts where the first ends and
      carries none, and the card is exactly as tall as the two together. */
  method MaterialDemo(screenWidth: real, statusBarHeight: real, measured1: real, measured2: real)
    returns (card: Card)
    requires measured1 >= 0.0 && measured2 >= 0.0
    ensures card.w == screenWidth - 40.0 && card.appearance == DefaultAppearance()
    ensures |card.items| == 2 && card.items[0] != card.items[1]
    ensures card.items[0].h == Max(measured1 + 2.0 * ItemPadding, EstimatedRowHeight)
    ensures card.items[1].h == Max(measured2 + 2.0 * ItemPadding, EstimatedRowHeight)
    ensures card.items[0].y == 0.0 && card.items[1].y == card.items[0].h
    ensures card.items[0].bottomLine.Some? && card.items[1].bottomLine == None
    ensures card.h == card.items[0].h + card.items[1].h
    ensures card.Valid()
  {
    card := new Card(Rect(10.0, statusBarHeight + 10.0, screenWidth - 40.0, 40.0), None);
    card.AddCell("Item 1", measured1);
    card.AddCell("Item 2", measured2);
    var cs := card.items;
    assert Distinct(cs);
    var hs := HeightsOf(cs);
    assert hs == [cs[0].h, cs[1].h];
    DistinctLayout(cs, 0);
    DistinctLayout(cs, 1);
    SumPrefixStep(hs, 0);
  }
}
