/** The contact store: the provider that owns the list of contacts, the loading flag and
    the sort settings, and mediates every write to the remote `contact` table.

    The remote is not run. Its table is the ghost map `remote` (id to row), and the answer
    to each remote call is a value the caller supplies: a `SelectReply` for the ordered
    select, a `WriteReply` for an insert, update or delete. Each `async` operation is one
    sequential method; `FetchContacts` is split at its `await` into `BeginFetch` and
    `FinishFetch`. */
module ContactsContext {
  import opened ContactModel

  datatype RemoteError = RemoteError(message: string)

  /** What the remote answers to the ordered select: its rows (`data`, which may be
      null), or an error. */
  datatype SelectReply = Rows(data: Option<seq<Contact>>) | SelectFailed(error: RemoteError)

  /** What the remote answers to an insert, update or delete. */
  datatype WriteReply = Written | WriteFailed(error: RemoteError)

  /** How a mutation's promise settles: it resolves, or rejects with the remote's error. */
  datatype Outcome = Resolved | Rejected(error: RemoteError)

  /** The ordering the select asks the remote for: `.order(column, { ascending, nullsFirst })`. */
  datatype OrderQuery = OrderQuery(column: SortField, ascending: bool, nullsFirst: bool)

  /** The ordering requested for the current sort settings. */
  function OrderFor(field: SortField, direction: SortDirection): (q: OrderQuery)
    ensures q.column == field
    ensures q.ascending <==> direction == Asc
    ensures !q.nullsFirst
  {
    OrderQuery(field, direction == Asc, false)
  }

  /** Distinct sort settings request distinct orderings, so every change of the settings
      is visible in the next request. */
  lemma OrderForInjective(f1: SortField, d1: SortDirection, f2: SortField, d2: SortDirection)
    ensures OrderFor(f1, d1) == OrderFor(f2, d2) <==> f1 == f2 && d1 == d2
  {
  }

  /** The list after a select reply: the rows on success (the empty list when the remote
      sends null), the previous list on error. */
  function AfterSelect(previous: seq<Contact>, reply: SelectReply): seq<Contact>
  {
    match reply
    case Rows(Some(rows)) => rows
    case Rows(None) => []
    case SelectFailed(_) => previous
  }

  /** `contacts.find(c => c.id === id)`: the first contact with that id, or none. */
  function Find(rows: seq<Contact>, id: int): (r: Option<Contact>)
    ensures r.Some? ==> r.value in rows && r.value.id == id
    ensures r.None? <==> forall k :: 0 <= k < |rows| ==> rows[k].id != id
    ensures forall k :: 0 <= k < |rows| && rows[k].id == id && NoneBefore(rows, id, k) ==> r == Some(rows[k])
  {
    if rows == [] then None
    else if rows[0].id == id then Some(rows[0])
    else
      var r := Find(rows[1..], id);
      assert forall k :: 1 <= k < |rows| && NoneBefore(rows, id, k) ==> NoneBefore(rows[1..], id, k - 1);
      r
  }

  /** No contact before position `k` has this id. */
  predicate NoneBefore(rows: seq<Contact>, id: int, k: int)
    requires k <= |rows|
  {
    forall j :: 0 <= j < k ==> rows[j].id != id
  }

  /** The remote table is keyed by each row's own id. */
  ghost predicate KeyedById(table: map<int, Contact>)
  {
    forall id :: id in table ==> table[id].id == id
  }

  /** `rows` is a faithful answer to a select of the whole table: every row is the
      table's row for its id, every table row is listed, and no id is listed twice. The
      order is the remote's and is not constrained. */
  ghost predicate Reflects(rows: seq<Contact>, table: map<int, Contact>)
  {
    && (forall k :: 0 <= k < |rows| ==> rows[k].id in table && table[rows[k].id] == rows[k])
    && (forall id :: id in table ==> exists k :: 0 <= k < |rows| && rows[k].id == id)
    && (forall i, j :: 0 <= i < j < |rows| ==> rows[i].id != rows[j].id)
  }

  /** Looking up an id in a faithful answer is looking it up in the table itself. */
  lemma FindReflects(rows: seq<Contact>, table: map<int, Contact>, id: int)
    requires Reflects(rows, table)
    ensures Find(rows, id) == if id in table then Some(table[id]) else None
  {
  }

  /** The table after a successful `.update(data).eq('id', id)`: the row with that id, if
      there is one, takes the new values; no other row changes. */
  function UpdatedTable(table: map<int, Contact>, id: int, data: ContactData): (t: map<int, Contact>)
    ensures t.Keys == table.Keys
    ensures forall k :: k in table && k != id ==> t[k] == table[k]
    ensures id in table ==> t[id] == RowOf(id, data)
  {
    if id in table then table[id := RowOf(id, data)] else table
  }

  /** The table after a successful `.delete().eq('id', id)`: exactly that row is gone. */
  function DeletedTable(table: map<int, Contact>, id: int): (t: map<int, Contact>)
    ensures t.Keys == table.Keys - {id}
    ensures forall k :: k in t ==> t[k] == table[k]
  {
    table - {id}
  }

  class ContactsProvider {
    var contacts: seq<Contact>
    var loading: bool
    var sortField: SortField
    var sortDirection: SortDirection
    /** The remote `contact` table. */
    ghost var remote: map<int, Contact>
    /** The next value of the table's identity sequence: the id the next insert gets. */
    ghost var nextId: int

    ghost predicate Valid()
      reads this
    {
      && KeyedById(remote)
      && forall id :: id in remote ==> id < nextId
    }

    /** The provider's initial state: no contacts, loading, birthday ascending. */
    constructor (ghost table: map<int, Contact>, ghost sequence: int)
      requires KeyedById(table)
      requires forall id :: id in table ==> id < sequence
      ensures Valid() && remote == table && nextId == sequence
      ensures contacts == [] && loading
      ensures sortField == Birthday && sortDirection == Asc
    {
      contacts := [];
      loading := true;
      sortField := Birthday;
      sortDirection := Asc;
      remote := table;
      nextId := sequence;
    }

    /** The part of a fetch before its `await`: raise `loading` and issue the select,
        ordered by the current sort settings with nulls last. */
    method BeginFetch() returns (query: OrderQuery)
      modifies this`loading
      ensures loading
      ensures query == OrderFor(sortField, sortDirection)
    {
      loading := true;
      query := OrderFor(sortField, sortDirection);
    }

    /** The part of a fetch after its `await`: take the rows on success, keep the old list
        on error (the error is only logged), and lower `loading` in every case. */
    method FinishFetch(reply: SelectReply)
      modifies this`contacts, this`loading
      ensures !loading
      ensures reply.Rows? && reply.data.Some? ==> contacts == reply.data.value
      ensures reply.Rows? && reply.data.None? ==> contacts == []
      ensures reply.SelectFailed? ==> contacts == old(contacts)
      ensures contacts == AfterSelect(old(contacts), reply)
    {
      match reply {
        case Rows(data) =>
          contacts := if data.Some? then data.value else [];
        case SelectFailed(_) =>
      }
      loading := false;
    }

    /** `fetchContacts`. It never rejects. When the remote answers faithfully, every
        lookup afterwards agrees with the remote table. */
    method FetchContacts(reply: SelectReply) returns (query: OrderQuery)
      requires Valid()
      modifies this`contacts, this`loading
      ensures Valid()
      ensures query == OrderFor(sortField, sortDirection)
      ensures !loading
      ensures contacts == AfterSelect(old(contacts), reply)
      ensures reply.Rows? && reply.data.Some? && Reflects(reply.data.value, remote) ==>
        forall id :: GetContact(id) == if id in remote then Some(remote[id]) else None
    {
      query := BeginFetch();
      FinishFetch(reply);
      if reply.Rows? && reply.data.Some? && Reflects(reply.data.value, remote) {
        forall id ensures GetContact(id) == if id in remote then Some(remote[id]) else None {
          FindReflects(contacts, remote, id);
        }
      }
    }

    /** `refreshContacts`: a fetch. */
    method RefreshContacts(reply: SelectReply) returns (query: OrderQuery)
      requires Valid()
      modifies this`contacts, this`loading
      ensures Valid()
      ensures query == OrderFor(sortField, sortDirection)
      ensures !loading
      ensures contacts == AfterSelect(old(contacts), reply)
    {
      query := FetchContacts(reply);
    }

    /** `createContact`: insert, and re-fetch only once the insert succeeded. On error the
        promise rejects and nothing local changes. `id` is the id the remote's identity
        sequence assigned: larger than every id in the table. */
    method CreateContact(data: ContactData, write: WriteReply, reply: SelectReply)
      returns (outcome: Outcome, refetch: Option<OrderQuery>, ghost id: int)
      requires Valid()
      modifies this
      ensures Valid()
      ensures write.WriteFailed? ==> outcome == Rejected(write.error) && refetch == None && unchanged(this)
      ensures write.Written? ==>
        && outcome == Resolved
        && id == old(nextId) && nextId == id + 1
        && (forall k :: k in old(remote) ==> k < id)
        && remote == old(remote)[id := RowOf(id, data)]
        && refetch == Some(OrderFor(sortField, sortDirection))
        && !loading
        && contacts == AfterSelect(old(contacts), reply)
      ensures write.Written? && reply.Rows? && reply.data.Some? && Reflects(reply.data.value, remote) ==>
        GetContact(id) == Some(RowOf(id, data))
      ensures sortField == old(sortField) && sortDirection == old(sortDirection)
    {
      id := nextId;
      match write {
        case WriteFailed(e) =>
          outcome, refetch := Rejected(e), None;
        case Written =>
          remote := remote[id := RowOf(id, data)];
          nextId := nextId + 1;
          var query := FetchContacts(reply);
          outcome, refetch := Resolved, Some(query);
      }
    }

    /** `updateContact`: update the row with exactly this id, and re-fetch only once the
        update succeeded. On error the promise rejects and nothing local changes. */
    method UpdateContact(id: int, data: ContactData, write: WriteReply, reply: SelectReply)
      returns (outcome: Outcome, refetch: Option<OrderQuery>)
      requires Valid()
      modifies this
      ensures Valid()
      ensures write.WriteFailed? ==> outcome == Rejected(write.error) && refetch == None && unchanged(this)
      ensures write.Written? ==>
        && outcome == Resolved
        && remote == UpdatedTable(old(remote), id, data)
        && refetch == Some(OrderFor(sortField, sortDirection))
        && !loading
        && contacts == AfterSelect(old(contacts), reply)
      ensures write.Written? && id in old(remote) && reply.Rows? && reply.data.Some? && Reflects(reply.data.value, remote) ==>
        GetContact(id) == Some(RowOf(id, data))
      ensures sortField == old(sortField) && sortDirection == old(sortDirection) && nextId == old(nextId)
    {
      match write {
        case WriteFailed(e) =>
          outcome, refetch := Rejected(e), None;
        case Written =>
          remote := UpdatedTable(remote, id, data);
          var query := FetchContacts(reply);
          outcome, refetch := Resolved, Some(query);
      }
    }

    /** `deleteContact`: delete the row with exactly this id, and re-fetch only once the
        delete succeeded. On error the promise rejects and nothing local changes. */
    method DeleteContact(id: int, write: WriteReply, reply: SelectReply)
      returns (outcome: Outcome, refetch: Option<OrderQuery>)
      requires Valid()
      modifies this
      ensures Valid()
      ensures write.WriteFailed? ==> outcome == Rejected(write.error) && refetch == None && unchanged(this)
      ensures write.Written? ==>
        && outcome == Resolved
        && remote == DeletedTable(old(remote), id)
        && refetch == Some(OrderFor(sortField, sortDirection))
        && !loading
        && contacts == AfterSelect(old(contacts), reply)
      ensures write.Written? && reply.Rows? && reply.data.Some? && Reflects(reply.data.value, remote) ==>
        GetContact(id) == None
      ensures sortField == old(sortField) && sortDirection == old(sortDirection) && nextId == old(nextId)
    {
      match write {
        case WriteFailed(e) =>
          outcome, refetch := Rejected(e), None;
        case Written =>
          remote := DeletedTable(remote, id);
          var query := FetchContacts(reply);
          outcome, refetch := Resolved, Some(query);
      }
    }

    /** `getContact`: the first contact in the current list with this id, or none; it
        never fails. */
    function GetContact(id: int): (r: Option<Contact>)
      reads this
      ensures r.Some? ==> r.value in contacts && r.value.id == id
      ensures r.None? <==> forall k :: 0 <= k < |contacts| ==> contacts[k].id != id
    {
      Find(contacts, id)
    }

    /** `setSorting`: overwrite both sort settings; nothing else changes. */
    method SetSorting(field: SortField, direction: SortDirection)
      modifies this`sortField, this`sortDirection
      ensures sortField == field && sortDirection == direction
    {
      sortField := field;
      sortDirection := direction;
    }
  }
}
