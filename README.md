# Contacts client: the contact store and the list view's rules, in Dafny

This project models the client-side core of a React contacts app whose data lives in a
remote `contact` table.

- **The contact store** (`ContactsProvider`). The class `ContactsContext.ContactsProvider`
  has the store's four cells as fields: `contacts`, `loading`, `sortField` and
  `sortDirection`. The remote table is a ghost map from id to row (`remote`). The
  table's identity sequence is a ghost counter (`nextId`). The answer to each remote
  call is a value the caller supplies: a `SelectReply` (rows, null data, or an error) or a
  `WriteReply` (written, or an error). Each `async` operation is one sequential method.
  `FetchContacts` is split at its `await` into `BeginFetch` and `FinishFetch`: the first
  raises `loading` and returns the ordering it asks for; the second replaces or keeps the
  list and lowers `loading`. Each mutation returns how its promise settles (`Outcome`)
  and, when it re-fetched, the ordering of that re-fetch. A select reply is "faithful"
  (`Reflects`) when it lists exactly the table's rows, each id once. After a faithful
  re-fetch, `GetContact` agrees with the remote table.
- **The list view** (`ContactsPage`). It holds the pure rules that decide what reaches the
  store:
  - the sort toggle (`NextSort`) and the header icon (`SortIcon`);
  - validation and normalisation of the add/edit form (`SubmittedData`, built on
    ECMAScript `trim` in module `Text`);
  - the date part of a stored birthday, `split('T')[0]` (`DatePrefix`, `DateOnly`,
    `BirthdayCell`).

  The class `ContactsView` holds the view's dialog state. Its handlers return the
  `Command` they send to the store. `Dispatch` passes a command to the store.

What the code does, and so what the model does:

- There is no client-side sort. Ordering is requested from the remote with
  `.order(sortField, { ascending, nullsFirst: false })`. The model records that request
  and does not constrain the order of the rows the remote sends back. There is no
  "days until next birthday" ordering either. The store defines no archive operation and
  no show-archived filter; the detail view's archive calls are listed under "Left out".
- The store raises only the error the remote reports. An `.update().eq('id', id)` that
  matches no row reports no error, so a successful update of an unknown id leaves the
  table unchanged (`UpdatedTable`).
- The date part of a stored birthday is the text before the first `'T'` (`DatePrefix`).

## Model

| member | source | states |
|---|---|---|
| `ContactsContext.ContactsProvider.constructor` | frontend/src/contexts/ContactsContext.tsx:35-38 | the initial state is an empty list, `loading` true, sort by birthday ascending |
| `ContactsContext.ContactsProvider.BeginFetch` | frontend/src/contexts/ContactsContext.tsx:42-46 | before the request `loading` is true; the select is ordered by the current sort field, ascending iff the direction is `asc`, nulls last |
| `ContactsContext.ContactsProvider.FinishFetch` | frontend/src/contexts/ContactsContext.tsx:48-53 | on success the list becomes exactly the returned rows (empty when the data is null); on error the list is unchanged; `loading` is false afterwards in every case |
| `ContactsContext.ContactsProvider.FetchContacts` | frontend/src/contexts/ContactsContext.tsx:40-55 | a fetch never rejects, leaves `loading` false, replaces or keeps the list as above; after a faithful reply every lookup agrees with the remote table |
| `ContactsContext.ContactsProvider.RefreshContacts` | frontend/src/contexts/ContactsContext.tsx:109-111 | a refresh is a fetch |
| `ContactsContext.ContactsProvider.CreateContact` | frontend/src/contexts/ContactsContext.tsx:61-70 | on a write error the promise rejects with that error, no re-fetch is issued and nothing changes; on success the row is inserted under an id above every existing one, the list is re-fetched and the promise resolves |
| `ContactsContext.ContactsProvider.UpdateContact` | frontend/src/contexts/ContactsContext.tsx:72-84 | on a write error it rejects with no re-fetch and no change; on success exactly the row with that id takes the new values, then it re-fetches; a faithful re-fetch then shows the updated row |
| `ContactsContext.ContactsProvider.DeleteContact` | frontend/src/contexts/ContactsContext.tsx:86-98 | on a write error it rejects with no re-fetch and no change; on success exactly the row with that id is removed, then it re-fetches; after a faithful re-fetch the id is no longer found |
| `ContactsContext.ContactsProvider.GetContact` | frontend/src/contexts/ContactsContext.tsx:100-102 | the result, when present, is a listed contact with that id; it is absent exactly when no listed contact has that id; it never fails |
| `ContactsContext.Find` | frontend/src/contexts/ContactsContext.tsx:101 | `find` returns the first contact with the id: a match with no earlier match is the result; absent iff no match |
| `ContactsContext.FindReflects` | frontend/src/contexts/ContactsContext.tsx:43-49 | looking an id up in a faithful select answer gives the table's row for it, or nothing when the table lacks it |
| `ContactsContext.ContactsProvider.SetSorting` | frontend/src/contexts/ContactsContext.tsx:104-107 | sets both sort cells to the arguments and changes nothing else |
| `ContactsContext.OrderFor` | frontend/src/contexts/ContactsContext.tsx:46 | the requested ordering names the sort field, is ascending iff the direction is `asc`, and puts nulls last |
| `ContactsContext.OrderForInjective` | frontend/src/contexts/ContactsContext.tsx:46 | two sort settings request the same ordering iff they are equal |
| `ContactsContext.UpdatedTable` | frontend/src/contexts/ContactsContext.tsx:74-77 | an update filtered on `id` changes only the row with that id (if present) and keeps every other row and the set of ids |
| `ContactsContext.DeletedTable` | frontend/src/contexts/ContactsContext.tsx:88-91 | a delete filtered on `id` removes exactly that id and keeps every other row |
| `ContactModel.RowOf` | frontend/src/contexts/ContactsContext.tsx:63 | the inserted row carries the assigned id and exactly the payload's fields |
| `ContactsPage.NextSort` | frontend/src/routes/contacts/index.tsx:54-60 | the clicked column becomes the sort column; on the current column the direction flips, on another it is `asc` |
| `ContactsPage.SortTwice` | frontend/src/routes/contacts/index.tsx:54-60 | two clicks on the current column restore the original direction; two clicks on another column end at `desc` |
| `ContactsPage.ContactsView.HandleSort` | frontend/src/routes/contacts/index.tsx:54-60 | the store's sort cells become `NextSort` of the old ones |
| `ContactsPage.SortIcon` | frontend/src/routes/contacts/index.tsx:23-36 | neutral iff the column is not the sort column; up iff it is and the direction is `asc`; down iff it is and the direction is `desc` |
| `ContactsPage.IconsAfterSort` | frontend/src/routes/contacts/index.tsx:23-36 | after a click the other column's icon is neutral and the clicked column shows up, or the opposite arrow when it was already the sort column |
| `Text.FirstNonBlank` | frontend/src/routes/contacts/index.tsx:95 | the scan from the left skips only whitespace and stops at the first non-whitespace character or the end |
| `Text.EndNonBlank` | frontend/src/routes/contacts/index.tsx:95 | the scan from the right cuts off only whitespace and stops after the last non-whitespace character or at its lower bound |
| `Text.Trim` | frontend/src/routes/contacts/index.tsx:95 | `trim` leaves no whitespace at either end and is empty iff the input is all whitespace |
| `Text.TrimKeepsCore` | frontend/src/routes/contacts/index.tsx:101-103 | the input is the trimmed string with a whitespace-only string on each side |
| `Text.TrimUnique` | frontend/src/routes/contacts/index.tsx:101-103 | padding a trimmed string with whitespace and trimming gives it back |
| `Text.TrimIdempotent` | frontend/src/routes/contacts/index.tsx:101-103 | trimming twice is trimming once |
| `ContactsPage.TrimOrNull` | frontend/src/routes/contacts/index.tsx:102-103 | `s.trim() \|\| null` is null iff `s` is all whitespace, otherwise the non-empty trimmed text |
| `ContactsPage.TrimOrNullKeeps` | frontend/src/routes/contacts/index.tsx:102-103 | a non-empty trimmed string comes through unchanged |
| `ContactsPage.SubmittedData` | frontend/src/routes/contacts/index.tsx:95-105 | the submit is refused iff the name is blank after trimming; otherwise the payload has the trimmed name, each trimmed email and phone or null when empty, a null birthday for an empty one, and is normal |
| `ContactModel.OrNull` | frontend/src/routes/contacts/index.tsx:104 | `s \|\| null` is null iff `s` is empty |
| `Text.DatePrefix` | frontend/src/routes/contacts/index.tsx:65 | `split('T')[0]` is a prefix without a 'T', either the whole string or followed by a 'T' |
| `Text.DatePrefixOfTimestamp` | frontend/src/routes/contacts/index.tsx:65 | for a timestamp `date + "T" + time` the prefix is the date |
| `Text.DatePrefixIdempotent` | frontend/src/routes/contacts/index.tsx:82 | a string without a 'T' is its own prefix, so taking the prefix twice changes nothing |
| `ContactsPage.DateOnly` | frontend/src/routes/contacts/index.tsx:82 | the edit form's birthday is null for a missing birthday or an empty date part, otherwise the non-empty date part |
| `ContactModel.OrEmpty` | frontend/src/routes/contacts/index.tsx:80-81 | a missing email or phone is prefilled as the empty string |
| `ContactsPage.ResubmitUnchanged` | frontend/src/routes/contacts/index.tsx:78-83 | submitting an untouched edit form sends back the contact's data, with the birthday cut to its date part |
| `ContactsPage.ResubmitDateOnlyUnchanged` | frontend/src/routes/contacts/index.tsx:78-83 | for a date-only birthday that round trip is exact |
| `ContactsPage.BirthdayCell` | frontend/src/routes/contacts/index.tsx:62-65 | the cell is '-' iff the birthday is missing or empty; otherwise it is the date part, which has no 'T' |
| `ContactsPage.BirthdayCellIgnoresTime` | frontend/src/routes/contacts/index.tsx:62-65 | a timestamp and its date show the same cell |
| `ContactsPage.ContactsView.constructor` | frontend/src/routes/contacts/index.tsx:42-52 | both dialogs start closed, with nothing being edited or deleted and an empty form |
| `ContactsPage.ContactsView.OpenAddDialog` | frontend/src/routes/contacts/index.tsx:69-73 | nothing is being edited, the form is empty and the dialog is open |
| `ContactsPage.ContactsView.OpenEditDialog` | frontend/src/routes/contacts/index.tsx:75-85 | the contact is being edited; the form is `EditForm(c)`: its name, its email and phone or '', and its birthday's date part or null (`DateOnly`); the dialog is open |
| `ContactsPage.ContactsView.OpenDeleteDialog` | frontend/src/routes/contacts/index.tsx:87-91 | the contact is selected for deletion and the confirmation is open |
| `ContactsPage.ContactsView.HandleSubmit` | frontend/src/routes/contacts/index.tsx:93-114 | a blank name issues nothing and changes nothing; otherwise it issues an update of the edited contact's id, or a create, with the normalised payload, then closes the dialog and empties the form |
| `ContactsPage.ContactsView.HandleDelete` | frontend/src/routes/contacts/index.tsx:126-134 | with nothing selected it does nothing; otherwise it closes the confirmation, clears the selection and deletes exactly the previously selected id |
| `ContactsPage.Dispatch` | frontend/src/routes/contacts/index.tsx:107-110 | a command reaches the matching store operation; its promise resolves iff the write succeeds, and a failed write changes nothing in the store; after a successful write the table changes as that operation states, the list is the re-fetch's result, `loading` is false, the sort settings are kept, and only a create advances the id sequence |

## Left out

- Remote calls: the select, insert, update and delete are not executed. Their answers are
  parameters of the store's methods. The remote's ordering of rows is not modelled; only
  the requested ordering is. Only the columns the views read (id, name, email, phone,
  birthday) are modelled; any other column of the table is not part of this model.
- Scheduling: the `useEffect` re-fetch on mount and after every sort change, overlapping
  fetches and last-response-wins races are not modelled. Each operation is one sequential
  step, and a sort change does not fetch by itself.
- Error logging with `console.error`, the `toast` messages and `toast.promise`, and
  navigation on a row click are not modelled.
- Text: JavaScript strings are sequences of UTF-16 code units; the model's `string` is a
  sequence of Unicode scalar values. `trim` and `split('T')` agree on well-formed text,
  because every character they strip or split on is one code unit, but a string holding a
  lone surrogate cannot be represented.
- date-fns: `parse`/`format` and the `'MMM d, yyyy'` output are not modelled.
  `BirthdayCell` stops at the date part that is passed to them. A birthday whose date part
  is empty or not `yyyy-MM-dd` is an invalid date, and `format` throws on it. That case is
  not modelled either.
- Typing into the form fields, the Cancel button and the dialogs' own open/close handlers
  are plain field assignments and are not modelled. So are the email and phone cells of
  the table (`x || '-'`).
- `UpdateContact` and `Dispatch`: the store's update payload may be partial. The only
  caller modelled here sends all four fields, so the model merges all four.
- The detail view (`frontend/src/routes/contacts/[id]/index.tsx`) calls archive and
  unarchive operations that the store does not define. They are not part of this model,
  and neither are the authentication guard and the context hook.
- Pending promises: `HandleSubmit` and `HandleDelete` return their command, and the store
  settles it afterwards, through `Dispatch`. In the program, the dialog closes while the
  request is still in flight.
