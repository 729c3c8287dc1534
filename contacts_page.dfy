/** The contact list view: the rules that decide what reaches the store (the sort toggle,
    validation and normalisation of the add/edit form, the date part of a birthday) and the
    view's own dialog state. */
module ContactsPage {
  import opened ContactModel
  import opened Text
  import ContactsContext

  // ---------------------------------------------------------------------------
  // Sorting

  /** `handleSort(field)`: the settings the view passes to `setSorting` when the header of
      column `field` is clicked. */
  function NextSort(field: SortField, sortField: SortField, sortDirection: SortDirection): (r: (SortField, SortDirection))
    ensures r.0 == field
    ensures field == sortField ==> r.1 != sortDirection
    ensures field != sortField ==> r.1 == Asc
  {
    if sortField == field then (field, if sortDirection == Asc then Desc else Asc)
    else (field, Asc)
  }

  /** Two clicks on the same header: on the current sort column they give back the
      original direction; on another column they end at descending. */
  lemma SortTwice(field: SortField, sortField: SortField, sortDirection: SortDirection)
    ensures var first := NextSort(field, sortField, sortDirection);
      NextSort(field, first.0, first.1) == (field, if field == sortField then sortDirection else Desc)
  {
  }

  /** The icon drawn beside a column header. */
  datatype Icon = ArrowUpDown | ArrowUp | ArrowDown

  /** `SortIcon`: neutral on a column the list is not sorted by, otherwise up for
      ascending and down for descending. */
  function SortIcon(field: SortField, sortField: SortField, sortDirection: SortDirection): (icon: Icon)
    ensures icon == ArrowUpDown <==> field != sortField
    ensures icon == ArrowUp <==> field == sortField && sortDirection == Asc
    ensures icon == ArrowDown <==> field == sortField && sortDirection == Desc
  {
    if sortField != field then ArrowUpDown
    else match sortDirection
      case Asc => ArrowUp
      case Desc => ArrowDown
  }

  /** After a click on `clicked`, its header shows an arrow (up when it was not the sort
      column, the other arrow when it was) and every other header is neutral. */
  lemma IconsAfterSort(clicked: SortField, other: SortField, sortField: SortField, sortDirection: SortDirection)
    requires other != clicked
    ensures var next := NextSort(clicked, sortField, sortDirection);
      && SortIcon(other, next.0, next.1) == ArrowUpDown
      && SortIcon(clicked, next.0, next.1) ==
           (if clicked != sortField then ArrowUp
            else if SortIcon(clicked, sortField, sortDirection) == ArrowUp then ArrowDown
            else ArrowUp)
  {
  }

  // ---------------------------------------------------------------------------
  // The add/edit form

  /** The form's fields: three text inputs and the date picker's `yyyy-MM-dd` string. */
  datatype FormData = FormData(name: string, email: string, phone: string, birthday: Option<string>)

  const EmptyForm: FormData := FormData("", "", "", None)

  /** `s.trim() || null`: the trimmed text, or null when nothing but whitespace is left. */
  function TrimOrNull(s: string): (r: Option<string>)
    ensures r.None? <==> AllWhitespace(s)
    ensures r.Some? ==> r.value == Trim(s) && r.value != [] && IsTrimmed(r.value)
  {
    OrNull(Trim(s))
  }

  /** A payload as `handleSubmit` sends it: a non-empty trimmed name, each optional text
      either null or non-empty and trimmed, and no empty birthday. */
  predicate IsNormalData(d: ContactData)
  {
    && d.name != [] && IsTrimmed(d.name)
    && (d.email.Some? ==> d.email.value != [] && IsTrimmed(d.email.value))
    && (d.phone.Some? ==> d.phone.value != [] && IsTrimmed(d.phone.value))
    && (d.birthday.Some? ==> d.birthday.value != [])
  }

  /** The validation and normalisation in `handleSubmit`: none when the name is blank
      after trimming (the submit is refused), otherwise the payload for the store. */
  function SubmittedData(form: FormData): (r: Option<ContactData>)
    ensures r.None? <==> AllWhitespace(form.name)
    ensures r.Some? ==> IsNormalData(r.value)
    ensures r.Some? ==>
      && r.value.name == Trim(form.name)
      && r.value.email == TrimOrNull(form.email)
      && r.value.phone == TrimOrNull(form.phone)
      && r.value.birthday == (if form.birthday == Some([]) then None else form.birthday)
  {
    var name := Trim(form.name);
    if name == [] then None
    else
      Some(ContactData(
        name,
        TrimOrNull(form.email),
        TrimOrNull(form.phone),
        match form.birthday
        case None => None
        case Some(b) => OrNull(b)))
  }

  /** `birthday?.split('T')[0] || null`: the date part of a stored birthday, or null when
      there is none or it is empty. */
  function DateOnly(birthday: Option<string>): (r: Option<string>)
    ensures r.Some? ==> birthday.Some? && r.value == DatePrefix(birthday.value)
    ensures r.Some? ==> r.value != [] && 'T' !in r.value
    ensures r.None? <==> birthday.None? || DatePrefix(birthday.value) == []
  {
    match birthday
    case None => None
    case Some(b) => OrNull(DatePrefix(b))
  }

  /** The form `openEditDialog` fills in from a contact. */
  function EditForm(c: Contact): FormData
  {
    FormData(c.name, OrEmpty(c.email), OrEmpty(c.phone), DateOnly(c.birthday))
  }

  /** A trimmed, non-empty string survives `s.trim() || null` unchanged. */
  lemma TrimOrNullKeeps(s: string)
    requires s != [] && IsTrimmed(s)
    ensures TrimOrNull(s) == Some(s)
  {
    assert [] + s + [] == s;
    TrimUnique([], s, []);
  }

  /** Opening a contact for editing and submitting the form untouched sends back the
      contact's own data, except that the birthday is cut to its date part. */
  lemma ResubmitUnchanged(c: Contact)
    requires IsNormalData(DataOf(c))
    ensures SubmittedData(EditForm(c)) == Some(DataOf(c).(birthday := DateOnly(c.birthday)))
  {
    var f := EditForm(c);
    TrimOrNullKeeps(c.name);
    assert Trim(f.name) == c.name;
    assert TrimOrNull(f.email) == c.email by {
      if c.email.Some? { TrimOrNullKeeps(c.email.value); } else { assert AllWhitespace(f.email); }
    }
    assert TrimOrNull(f.phone) == c.phone by {
      if c.phone.Some? { TrimOrNullKeeps(c.phone.value); } else { assert AllWhitespace(f.phone); }
    }
    var birthday := match f.birthday case None => None case Some(b) => OrNull(b);
    assert birthday == DateOnly(c.birthday);
    assert SubmittedData(f) == Some(ContactData(c.name, c.email, c.phone, birthday));
  }

  /** For a contact whose birthday is already date-only, that round trip is exact. */
  lemma ResubmitDateOnlyUnchanged(c: Contact)
    requires IsNormalData(DataOf(c))
    requires c.birthday.Some? ==> 'T' !in c.birthday.value
    ensures SubmittedData(EditForm(c)) == Some(DataOf(c))
  {
    ResubmitUnchanged(c);
    if c.birthday.Some? {
      DatePrefixIdempotent(c.birthday.value);
    }
  }

  // ---------------------------------------------------------------------------
  // The birthday column

  /** What the birthday cell shows: '-' or a date that date-fns formats. */
  datatype DateCell = Dash | Formatted(date: string)

  /** `formatDate`: '-' for a missing or empty birthday, otherwise the date part before
      the first 'T'. */
  function BirthdayCell(birthday: Option<string>): (cell: DateCell)
    ensures cell == Dash <==> birthday.None? || birthday.value == []
    ensures cell.Formatted? ==> birthday.Some? && cell.date == DatePrefix(birthday.value) && 'T' !in cell.date
  {
    match birthday
    case None => Dash
    case Some(b) => if b == [] then Dash else Formatted(DatePrefix(b))
  }

  /** The cell ignores any time part: a timestamp shows as its date. */
  lemma BirthdayCellIgnoresTime(date: string, time: string)
    requires date != [] && 'T' !in date
    ensures BirthdayCell(Some(date + "T" + time)) == BirthdayCell(Some(date)) == Formatted(date)
  {
    DatePrefixOfTimestamp(date, time);
    DatePrefixIdempotent(date);
  }

  // ---------------------------------------------------------------------------
  // The view's state

  /** What a view handler asks of the store. */
  datatype Command =
    | NoCommand
    | Create(data: ContactData)
    | Update(id: int, data: ContactData)
    | Delete(id: int)

  class ContactsView {
    var dialogOpen: bool
    var editingContact: Option<Contact>
    var deleteConfirmOpen: bool
    var contactToDelete: Option<Contact>
    var formData: FormData

    /** Both dialogs closed, nothing being edited or deleted, the form empty. */
    constructor ()
      ensures !dialogOpen && editingContact == None
      ensures !deleteConfirmOpen && contactToDelete == None
      ensures formData == EmptyForm
    {
      dialogOpen := false;
      editingContact := None;
      deleteConfirmOpen := false;
      contactToDelete := None;
      formData := EmptyForm;
    }

    /** `handleSort`: flip the direction on the current column, otherwise sort the clicked
        column ascending. */
    method HandleSort(store: ContactsContext.ContactsProvider, field: SortField)
      modifies store`sortField, store`sortDirection
      ensures (store.sortField, store.sortDirection) == NextSort(field, old(store.sortField), old(store.sortDirection))
    {
      if store.sortField == field {
        store.SetSorting(field, if store.sortDirection == Asc then Desc else Asc);
      } else {
        store.SetSorting(field, Asc);
      }
    }

    /** `openAddDialog`: nothing being edited, an empty form, the dialog open. */
    method OpenAddDialog()
      modifies this`editingContact, this`formData, this`dialogOpen
      ensures editingContact == None && formData == EmptyForm && dialogOpen
    {
      editingContact := None;
      formData := EmptyForm;
      dialogOpen := true;
    }

    /** `openEditDialog`: edit this contact, its fields in the form (missing texts as '',
        the birthday cut to its date part), the dialog open. */
    method OpenEditDialog(c: Contact)
      modifies this`editingContact, this`formData, this`dialogOpen
      ensures editingContact == Some(c) && dialogOpen
      ensures formData == EditForm(c)
    {
      editingContact := Some(c);
      formData := EditForm(c);
      dialogOpen := true;
    }

    /** `openDeleteDialog`: remember the contact and ask for confirmation. */
    method OpenDeleteDialog(c: Contact)
      modifies this`contactToDelete, this`deleteConfirmOpen
      ensures contactToDelete == Some(c) && deleteConfirmOpen
    {
      contactToDelete := Some(c);
      deleteConfirmOpen := true;
    }

    /** `handleSubmit`. A blank name issues nothing and leaves the dialog as it is.
        Otherwise it asks for an update of the contact being edited, or a create, with the
        normalised payload, then closes the dialog and empties the form, whatever the
        store's answer will be. */
    method HandleSubmit() returns (cmd: Command)
      modifies this`dialogOpen, this`formData
      ensures SubmittedData(old(formData)).None? ==> cmd == NoCommand && unchanged(this)
      ensures SubmittedData(old(formData)).Some? ==>
        && cmd == (if editingContact.Some? then Update(editingContact.value.id, SubmittedData(old(formData)).value)
                   else Create(SubmittedData(old(formData)).value))
        && !dialogOpen && formData == EmptyForm
      ensures cmd.Create? || cmd.Update? ==> IsNormalData(cmd.data)
    {
      var submitted := SubmittedData(formData);
      if submitted.None? {
        return NoCommand;
      }
      var data := submitted.value;
      if editingContact.Some? {
        cmd := Update(editingContact.value.id, data);
      } else {
        cmd := Create(data);
      }
      dialogOpen := false;
      formData := EmptyForm;
    }

    /** `handleDelete`: nothing when no contact is selected; otherwise close the
        confirmation, clear the selection and delete exactly the selected id. */
    method HandleDelete() returns (cmd: Command)
      modifies this`deleteConfirmOpen, this`contactToDelete
      ensures old(contactToDelete).None? ==> cmd == NoCommand && unchanged(this)
      ensures old(contactToDelete).Some? ==>
        && cmd == Delete(old(contactToDelete).value.id)
        && !deleteConfirmOpen && contactToDelete == None
    {
      if contactToDelete.None? {
        return NoCommand;
      }
      var id := contactToDelete.value.id;
      deleteConfirmOpen := false;
      contactToDelete := None;
      cmd := Delete(id);
    }
  }

  /** Hands a command to the store: `createContact`, `updateContact` or `deleteContact`,
      each with the remote's answer to its write and to the re-fetch. */
  method Dispatch(store: ContactsContext.ContactsProvider, cmd: Command,
                  write: ContactsContext.WriteReply, reply: ContactsContext.SelectReply)
    returns (outcome: Option<ContactsContext.Outcome>)
    requires store.Valid()
    modifies store
    ensures store.Valid()
    ensures cmd.NoCommand? ==> outcome == None && unchanged(store)
    ensures !cmd.NoCommand? && write.Written? ==> outcome == Some(ContactsContext.Resolved)
    ensures !cmd.NoCommand? && write.WriteFailed? ==>
      outcome == Some(ContactsContext.Rejected(write.error)) && unchanged(store)
    ensures cmd.Create? && write.Written? ==>
      store.remote == old(store.remote)[old(store.nextId) := RowOf(old(store.nextId), cmd.data)]
    ensures cmd.Update? && write.Written? ==>
      store.remote == ContactsContext.UpdatedTable(old(store.remote), cmd.id, cmd.data)
    ensures cmd.Delete? && write.Written? ==>
      store.remote == ContactsContext.DeletedTable(old(store.remote), cmd.id)
    ensures !cmd.NoCommand? && write.Written? ==>
      && !store.loading
      && store.contacts == ContactsContext.AfterSelect(old(store.contacts), reply)
      && store.sortField == old(store.sortField) && store.sortDirection == old(store.sortDirection)
    ensures cmd.Create? && write.Written? ==> store.nextId == old(store.nextId) + 1
    ensures cmd.Update? || cmd.Delete? ==> store.nextId == old(store.nextId)
  {
    match cmd {
      case NoCommand =>
        outcome := None;
      case Create(data) =>
        var o, _, _ := store.CreateContact(data, write, reply);
        outcome := Some(o);
      case Update(id, data) =>
        var o, _ := store.UpdateContact(id, data, write, reply);
        outcome := Some(o);
      case Delete(id) =>
        var o, _ := store.DeleteContact(id, write, reply);
        outcome := Some(o);
    }
  }
}
