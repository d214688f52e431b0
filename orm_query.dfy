/**
 * The queries of the note store: two read-only lookups, written as functions
 * of the table, and the three statements that change the table, written as
 * methods of `NoteTable`. Each statement runs atomically.
 */
module OrmQuery {
  import opened Wrappers
  import opened Models

  // ---------------------------------------------------------------------------
  // The effect of each changing statement on the table

  /**
   * The table after `orm_add_note(u, {'note': d})`: the hook numbers the new
   * row, which is the only row added; every existing row is kept.
   */
  ghost function Inserted(t: Table, u: int, d: string): (r: Table)
    ensures Key(u, NextId(t, u)) !in t
    ensures r.Keys == t.Keys + {Key(u, NextId(t, u))}
    ensures r[Key(u, NextId(t, u))] == d
    ensures forall k :: k in t ==> r[k] == t[k]
    ensures |r| == |t| + 1
  {
    t[Key(u, NextId(t, u)) := d]
  }

  /**
   * The table after `update(Notes).where(id == k, user_id == u).values(description = d)`:
   * same keys; the matching row, if any, gets the new description.
   */
  function Updated(t: Table, u: int, k: int, d: string): (r: Table)
    ensures r.Keys == t.Keys
    ensures Key(u, k) in t ==> r[Key(u, k)] == d
    ensures forall key :: key in t && key != Key(u, k) ==> r[key] == t[key]
  {
    if Key(u, k) in t then t[Key(u, k) := d] else t
  }

  /**
   * The table after `delete(Notes).where(id == k, user_id == u)`: at most the
   * one matching row is gone.
   */
  function Deleted(t: Table, u: int, k: int): (r: Table)
    ensures Key(u, k) !in r
    ensures forall key :: key != Key(u, k) ==> (key in r <==> key in t)
    ensures forall key :: key in r ==> r[key] == t[key]
    ensures |r| == if Key(u, k) in t then |t| - 1 else |t|
  {
    t - {Key(u, k)}
  }

  // ---------------------------------------------------------------------------
  // Read-only queries

  /** Row `n` is in the table and belongs to user `u`. */
  predicate IsRowOf(t: Table, u: int, n: Note)
  {
    n.userId == u && Key(u, n.id) in t && t[Key(u, n.id)] == n.description
  }

  /**
   * `orm_get_note`: the row matching both `id` and `user_id`, or `None`. A
   * note of another user with the same id is never returned.
   */
  function GetNote(t: Table, u: int, k: int): (r: Option<Note>)
    ensures r.Some? <==> Key(u, k) in t
    ensures r.Some? ==> r.value.id == k && IsRowOf(t, u, r.value)
  {
    if Key(u, k) in t then Some(Note(u, k, t[Key(u, k)])) else None
  }

  /** The notes `orm_get_notes` may return for user `u`: each of the user's rows once, in any order. */
  ghost predicate IsListing(notes: seq<Note>, t: Table, u: int)
  {
    (forall n :: n in notes <==> IsRowOf(t, u, n)) &&
    (forall i, j :: 0 <= i < j < |notes| ==> notes[i].id != notes[j].id)
  }

  /**
   * `orm_get_notes`: a scan of the table keeping the rows of user `u`. The
   * result holds each of them exactly once and nothing else; the query has
   * no `order_by`, so nothing is promised about the order.
   */
  method GetNotes(t: Table, u: int) returns (notes: seq<Note>)
    ensures IsListing(notes, t, u)
  {
    notes := [];
    var pending := t.Keys;
    while pending != {}
      invariant pending <= t.Keys
      invariant forall n :: n in notes <==> IsRowOf(t, u, n) && Key(u, n.id) !in pending
      invariant forall i, j :: 0 <= i < j < |notes| ==> notes[i].id != notes[j].id
      decreases pending
    {
      var k :| k in pending;
      if k.userId == u {
        notes := notes + [Note(u, k.id, t[k])];
      }
      pending := pending - {k};
    }
  }

  // ---------------------------------------------------------------------------
  // The table as an object the statements change in place

  class NoteTable {
    var rows: Table

    constructor ()
      ensures rows == map[]
    {
      rows := map[];
    }

    /** `orm_add_note`: the `before_insert` hook picks the id, then the row is inserted. */
    method AddNote(u: int, description: string)
      modifies this
      ensures rows == Inserted(old(rows), u, description)
    {
      var id := SetNoteId(rows, u);
      rows := rows[Key(u, id) := description];
    }

    /** `orm_update_note`: only the matching row's description changes. */
    method UpdateNote(u: int, k: int, description: string)
      modifies this
      ensures rows == Updated(old(rows), u, k, description)
    {
      if Key(u, k) in rows {
        rows := rows[Key(u, k) := description];
      }
    }

    /**
     * The renumbering `update` of the delete handler, run once row (u, k) is
     * gone: `u`'s notes above k each move one id down.
     */
    method Renumber(u: int, k: int)
      requires Key(u, k) !in rows
      modifies this
      ensures rows == Renumbered(old(rows), u, k)
    {
      rows := Renumbered(rows, u, k);
    }

    /** `orm_delete_note`: removes the row keyed (u, k), if there is one. */
    method DeleteNote(u: int, k: int)
      modifies this
      ensures rows == Deleted(old(rows), u, k)
    {
      rows := rows - {Key(u, k)};
    }
  }

  // ---------------------------------------------------------------------------
  // Properties of the statements

  /** A user's first note gets id 1, whatever notes other users hold. */
  lemma FirstNoteGetsOne(t: Table, u: int, d: string)
    requires forall i :: Key(u, i) !in t
    ensures GetNote(Inserted(t, u, d), u, 1) == Some(Note(u, 1, d))
    ensures UserIds(Inserted(t, u, d), u) == {1}
  {
    assert UserIds(t, u) == {};
    var r := Inserted(t, u, d);
    assert forall i :: Key(u, i) in r <==> i == 1;
  }

  /** Adding a note for one user leaves every other user's rows and next id as they were. */
  lemma InsertedOtherUsers(t: Table, u: int, v: int, d: string)
    requires u != v
    ensures forall i :: Key(v, i) in Inserted(t, u, d) <==> Key(v, i) in t
    ensures NextId(Inserted(t, u, d), v) == NextId(t, v)
  {
    NextIdOwnRowsOnly(Inserted(t, u, d), t, v);
  }

  /** Adding to ids 1..n gives ids 1..n+1, the new note being n+1. */
  lemma InsertedKeepsRange(t: Table, u: int, n: int, d: string)
    requires n >= 0 && Contiguous(t, u, n)
    ensures Contiguous(Inserted(t, u, d), u, n + 1)
    ensures Inserted(t, u, d)[Key(u, n + 1)] == d
  {
    NextIdAfterRange(t, u, n);
  }

  /** The table after a sequence of `orm_add_note` calls for user `u`, in call order. */
  ghost function AddAll(t: Table, u: int, ds: seq<string>): Table
  {
    if ds == [] then t else Inserted(AddAll(t, u, ds[..|ds| - 1]), u, ds[|ds| - 1])
  }

  /**
   * Starting from ids 1..n, adding the descriptions `ds` one by one numbers
   * them n+1, n+2, ... in call order. With n == 0 this is "N adds give ids
   * 1..N".
   */
  lemma {:induction false} AddAllNumbersInCallOrder(t: Table, u: int, n: int, ds: seq<string>)
    requires n >= 0 && Contiguous(t, u, n)
    ensures Contiguous(AddAll(t, u, ds), u, n + |ds|)
    ensures forall i :: 0 <= i < |ds| ==> AddAll(t, u, ds)[Key(u, n + 1 + i)] == ds[i]
  {
    if ds != [] {
      var front := ds[..|ds| - 1];
      var before := AddAll(t, u, front);
      var after := AddAll(t, u, ds);
      AddAllNumbersInCallOrder(t, u, n, front);
      InsertedKeepsRange(before, u, n + |front|, ds[|ds| - 1]);
      assert after == Inserted(before, u, ds[|ds| - 1]);
      forall i | 0 <= i < |ds|
        ensures after[Key(u, n + 1 + i)] == ds[i]
      {
        if i < |front| {
          assert front[i] == ds[i];
          assert Key(u, n + 1 + i) in before;
        }
      }
    }
  }

  /** A sequence of adds for user `u` keeps every earlier row and never touches another user's rows. */
  lemma {:induction false} AddAllKeepsRows(t: Table, u: int, ds: seq<string>)
    ensures forall key :: key in t ==> key in AddAll(t, u, ds) && AddAll(t, u, ds)[key] == t[key]
    ensures forall key: Key :: key.userId != u ==> (key in AddAll(t, u, ds) <==> key in t)
  {
    if ds != [] {
      AddAllKeepsRows(t, u, ds[..|ds| - 1]);
    }
  }

  /** After an update of an existing note, `orm_get_note` reads back the new description. */
  lemma UpdateThenGet(t: Table, u: int, k: int, d: string)
    requires Key(u, k) in t
    ensures GetNote(Updated(t, u, k, d), u, k) == Some(Note(u, k, d))
    ensures forall v :: UserIds(Updated(t, u, k, d), v) == UserIds(t, v)
  {
    forall v ensures UserIds(Updated(t, u, k, d), v) == UserIds(t, v) {
      assert forall i :: i in UserIds(Updated(t, u, k, d), v) <==> i in UserIds(t, v);
    }
  }

  /** Deleting the same (user_id, id) a second time changes nothing. */
  lemma DeleteTwice(t: Table, u: int, k: int)
    ensures Deleted(Deleted(t, u, k), u, k) == Deleted(t, u, k)
    ensures GetNote(Deleted(t, u, k), u, k) == None
  {
  }

  // ---------------------------------------------------------------------------
  // Renumbering after a delete: the statement the private-chat delete
  // handler issues right after `orm_delete_note`

  /**
   * Where a row of user `u` at `key` came from, for the renumbering
   * `update(Notes).where(user_id == u, id > k).values(id = id - 1)`: ids from
   * k upwards were one higher before; every other row did not move.
   */
  function SourceKey(key: Key, u: int, k: int): Key
  {
    if key.userId == u && key.id >= k then Key(u, key.id + 1) else key
  }

  function Lowered(key: Key): Key
  {
    Key(key.userId, key.id - 1)
  }

  /**
   * The renumbering, applied as one statement to a table that no longer holds
   * (u, k): each row either keeps its key or, when it belongs to `u` and its
   * id is above `k`, moves one id down, keeping its description. Other
   * users' rows and `u`'s ids below k are not touched.
   */
  function Renumbered(t: Table, u: int, k: int): (r: Table)
    requires Key(u, k) !in t
    ensures forall key: Key :: key.userId != u ==> (key in r <==> key in t)
    ensures forall key: Key :: key.userId != u && key in t ==> r[key] == t[key]
    ensures forall j :: j < k ==> (Key(u, j) in r <==> Key(u, j) in t)
    ensures forall j :: j < k && Key(u, j) in t ==> r[Key(u, j)] == t[Key(u, j)]
  {
    var candidates := t.Keys + set x | x in t :: Lowered(x);
    map key | key in candidates && SourceKey(key, u, k) in t :: t[SourceKey(key, u, k)]
  }

  /**
   * `r` is what the delete flow for id `k` of user `u` leaves of `t`: note k
   * is gone, every id of `u` above k has moved down by one with its
   * description, and lower ids and other users' rows are as they were.
   */
  ghost predicate DeleteFlowResult(t: Table, u: int, k: int, r: Table)
  {
    (forall key: Key :: key.userId != u ==> (key in r <==> key in t)) &&
    (forall key: Key :: key.userId != u && key in t ==> r[key] == t[key]) &&
    (forall j :: j < k ==> (Key(u, j) in r <==> Key(u, j) in t)) &&
    (forall j :: j < k && Key(u, j) in t ==> r[Key(u, j)] == t[Key(u, j)]) &&
    (forall j :: j >= k ==> (Key(u, j) in r <==> Key(u, j + 1) in t)) &&
    (forall j :: j >= k && Key(u, j + 1) in t ==> r[Key(u, j)] == t[Key(u, j + 1)])
  }

  /** Id j >= k of `u` after the renumbering is the row that was at j + 1. */
  lemma RenumberedAt(d: Table, u: int, k: int, j: int)
    requires Key(u, k) !in d && j >= k
    ensures Key(u, j) in Renumbered(d, u, k) <==> Key(u, j + 1) in d
    ensures Key(u, j + 1) in d ==> Renumbered(d, u, k)[Key(u, j)] == d[Key(u, j + 1)]
  {
    assert SourceKey(Key(u, j), u, k) == Key(u, j + 1);
    if Key(u, j + 1) in d {
      assert Lowered(Key(u, j + 1)) == Key(u, j);
    }
  }

  lemma RenumberedAbove(d: Table, u: int, k: int)
    requires Key(u, k) !in d
    ensures forall j :: j >= k ==> (Key(u, j) in Renumbered(d, u, k) <==> Key(u, j + 1) in d)
  {
    forall j | j >= k ensures Key(u, j) in Renumbered(d, u, k) <==> Key(u, j + 1) in d {
      RenumberedAt(d, u, k, j);
    }
  }

  lemma RenumberedAboveMoved(d: Table, u: int, k: int)
    requires Key(u, k) !in d
    ensures forall j :: j >= k && Key(u, j + 1) in d ==> Renumbered(d, u, k)[Key(u, j)] == d[Key(u, j + 1)]
  {
    forall j | j >= k && Key(u, j + 1) in d ensures Renumbered(d, u, k)[Key(u, j)] == d[Key(u, j + 1)] {
      RenumberedAt(d, u, k, j);
    }
  }

  /** On a table without (u, k), the renumbering alone already is the delete flow. */
  lemma RenumberedShiftsDown(d: Table, u: int, k: int)
    requires Key(u, k) !in d
    ensures DeleteFlowResult(d, u, k, Renumbered(d, u, k))
  {
    RenumberedAbove(d, u, k);
    RenumberedAboveMoved(d, u, k);
  }

  /** The delete flow only looks at rows other than (u, k), so deleting that row first changes nothing. */
  lemma DeleteFlowIgnoresDeletedRow(t: Table, u: int, k: int, r: Table)
    requires DeleteFlowResult(Deleted(t, u, k), u, k, r)
    ensures DeleteFlowResult(t, u, k, r)
  {
    var d := Deleted(t, u, k);
    assert forall j :: j != k ==> (Key(u, j) in d <==> Key(u, j) in t);
  }

  /**
   * `orm_delete_note` followed by the renumbering statement is the delete
   * flow, whether or not note k existed.
   */
  lemma DeleteThenRenumber(t: Table, u: int, k: int)
    ensures DeleteFlowResult(t, u, k, Renumbered(Deleted(t, u, k), u, k))
  {
    RenumberedShiftsDown(Deleted(t, u, k), u, k);
    DeleteFlowIgnoresDeletedRow(t, u, k, Renumbered(Deleted(t, u, k), u, k));
  }

}
