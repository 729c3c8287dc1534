/** The values shared by the contact store and the contact list view. */
module ContactModel {

  datatype Option<+T> = None | Some(value: T)

  /** The two columns the list can be ordered by. */
  datatype SortField = Birthday | Name

  datatype SortDirection = Asc | Desc

  /** A row of the remote `contact` table, restricted to the columns the views read.
      `birthday` is the string the remote sends, which may carry a time part. */
  datatype Contact = Contact(
    id: int,
    name: string,
    email: Option<string>,
    phone: Option<string>,
    birthday: Option<string>)

  /** The payload sent to the remote for an insert or an update: every column but `id`. */
  datatype ContactData = ContactData(
    name: string,
    email: Option<string>,
    phone: Option<string>,
    birthday: Option<string>)

  /** The payload part of a row. */
  function DataOf(c: Contact): ContactData
  {
    ContactData(c.name, c.email, c.phone, c.birthday)
  }

  /** The row the remote stores for a payload under a given id. */
  function RowOf(id: int, data: ContactData): (c: Contact)
    ensures c.id == id && DataOf(c) == data
  {
    Contact(id, data.name, data.email, data.phone, data.birthday)
  }

  /** `s || null` for a string: the empty string is falsy and becomes null. */
  function OrNull(s: string): (r: Option<string>)
    ensures r.None? <==> s == []
    ensures r.Some? ==> r.value == s
  {
    if s == [] then None else Some(s)
  }

  /** `x || ''` for a nullable string. */
  function OrEmpty(x: Option<string>): (s: string)
    ensures x.Some? ==> s == x.value
    ensures x.None? ==> s == []
  {
    match x
    case None => []
    case Some(v) => v
  }
}
