/** The UILabel extension: a label built with padding, and the list of
    attributed-string pieces a label keeps beside its attributed text. Text
    attributes (font, colour, underline) are not modelled, so a piece is a
    plain string; the list is an explicit field of the label instead of an
    associated object. */
module Labels {
  import opened Optional
  import opened Geometry
  import opened Sequences

  /** The frame of a label created with `padding`: `measured` is the height the
      text needs at the given width (the foreign `sizeThatFits`), and the label
      keeps `padding` above and below it. */
  function PaddedLabelFrame(x: real, y: real, width: real, padding: real, measured: real): Rect
  {
    Rect(x, y, width, measured + 2.0 * padding)
  }

  /** The pieces joined in order. */
  function Concat(pieces: seq<string>): string
  {
    if pieces == [] then [] else Concat(pieces[..|pieces| - 1]) + pieces[|pieces| - 1]
  }

  /** Joining one more piece appends it to the joined text. */
  lemma ConcatAppend(pieces: seq<string>, s: string)
    ensures Concat(pieces + [s]) == Concat(pieces) + s
  {
    assert (pieces + [s])[..|pieces|] == pieces;
  }

  class Label {
    var attributedText: Option<string>
    var attributedStrings: Option<seq<string>>

    /** The label's text is the concatenation of its pieces whenever it keeps a list. */
    ghost predicate Consistent()
      reads this
    {
      attributedStrings.Some? ==> attributedText == Some(Concat(attributedStrings.value))
    }

    constructor ()
      ensures attributedText == None && attributedStrings == None
      ensures Consistent()
    {
      attributedText := None;
      attributedStrings := None;
    }

    /** Appends `s` to the text. A label without text starts a new list `[s]`;
        otherwise `s` joins the list only when a list already exists. */
    method AddAttributedString(s: string)
      modifies this
      ensures old(attributedText).None? ==> attributedText == Some(s) && attributedStrings == Some([s])
      ensures old(attributedText).Some? ==> attributedText == Some(old(attributedText).value + s)
      ensures old(attributedText).Some? && old(attributedStrings).Some? ==>
                attributedStrings == Some(old(attributedStrings).value + [s])
      ensures old(attributedText).Some? && old(attributedStrings).None? ==> attributedStrings == None
      ensures old(Consistent()) ==> Consistent()
    {
      var att: string;
      if attributedText.Some? {
        att := attributedText.value + s;
      } else {
        att := s;
        attributedStrings := Some([]);
        assert [] + [s] == [s];
        assert Concat([]) + s == s;
      }
      if attributedStrings.Some? {
        ConcatAppend(attributedStrings.value, s);
        attributedStrings := Some(attributedStrings.value + [s]);
      }
      attributedText := Some(att);
    }

    /** Replaces piece `index` by `s` and rebuilds the text from the whole list.
        Without a list nothing happens. */
    method UpdateAttributedStringAtIndex(index: int, s: string)
      requires attributedStrings.Some? ==> 0 <= index < |attributedStrings.value|
      modifies this
      ensures old(attributedStrings).None? ==>
                attributedStrings == None && attributedText == old(attributedText)
      ensures old(attributedStrings).Some? ==>
                attributedStrings == Some(old(attributedStrings).value[index := s])
      ensures Consistent()
    {
      if attributedStrings.Some? {
        var pieces := attributedStrings.value;
        pieces := RemoveAt(pieces, index);
        pieces := pieces[..index] + [s] + pieces[index..];
        assert pieces == old(attributedStrings).value[index := s];
        attributedStrings := Some(pieces);
        var updated: string := [];
        var i := 0;
        while i < |pieces|
          invariant 0 <= i <= |pieces|
          invariant updated == Concat(pieces[..i])
          invariant attributedStrings == Some(pieces)
        {
          ConcatAppend(pieces[..i], pieces[i]);
          assert pieces[..i + 1] == pieces[..i] + [pieces[i]];
          updated := updated + pieces[i];
          i := i + 1;
        }
        assert pieces[..i] == pieces;
        attributedText := Some(updated);
      }
    }
  }
}
