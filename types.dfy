/** The data the caller hands to the book viewer: one record per page. */
module Types {

  datatype Option<+T> = None | Some(value: T)

  /** One page of the book. Its front and back content are rendered but never
      inspected by the widget, so they are not part of this record. */
  datatype PageContent = PageContent(
    id: string,
    title: string,
    subtitle: Option<string>,
    tabColor: Option<string>,
    tabLabel: Option<string>)
}
