/** Swift's optional values (`T?`), used for a label's text and piece list,
    a cell's bottom line and a card's colours and shadow. */
module Optional {

  datatype Option<+T> = None | Some(value: T)
}
