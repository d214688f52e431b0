/**
 * The `note` table's schema and the `before_insert` hook that numbers a
 * user's notes.
 */
module Models {
  import opened Wrappers

  /** The composite primary key (user_id, id) of a row. */
  datatype Key = Key(userId: int, id: int)

  /**
   * A row of the `note` table. `description` is a required text column: a
   * value of this type always has one. The `created`/`updated` timestamps are
   * not modelled.
   */
  datatype Note = Note(userId: int, id: int, description: string)

  /**
   * The table: each primary key maps to its row's description. Being a map,
   * it can never hold two rows with the same (user_id, id).
   */
  type Table = map<Key, string>

  /** The ids of user `u`'s notes. */
  function UserIds(t: Table, u: int): (ids: set<int>)
    ensures forall i :: i in ids <==> Key(u, i) in t
  {
    set k | k in t && k.userId == u :: k.id
  }

  /** User `u`'s ids are exactly 1..n. */
  ghost predicate Contiguous(t: Table, u: int, n: int)
  {
    forall i :: Key(u, i) in t <==> 1 <= i <= n
  }

  ghost function PickFrom<T>(s: set<T>): (x: T)
    requires s != {}
    ensures x in s
  {
    var x :| x in s; x
  }

  ghost function MaxOf(s: set<int>): (m: int)
    requires s != {}
    ensures m in s && forall i :: i in s ==> i <= m
  {
    var x := PickFrom(s);
    if s == {x} then x
    else
      var rest := MaxOf(s - {x});
      assert forall i :: i in s ==> i == x || i in s - {x};
      if rest < x then x else rest
  }

  /**
   * The id the hook gives a new note of user `u`: one more than the user's
   * largest id, or 1 for the user's first note. It is above every id the
   * user already has, so it never collides with an existing row.
   */
  ghost function NextId(t: Table, u: int): (r: int)
    ensures forall i :: Key(u, i) in t ==> i < r
    ensures UserIds(t, u) == {} ==> r == 1
    ensures UserIds(t, u) != {} ==> Key(u, r - 1) in t
  {
    var ids := UserIds(t, u);
    if ids == {} then 1 else MaxOf(ids) + 1
  }

  /**
   * `set_note_id`: the `select max(id) where user_id = u` scan over the
   * table, then `last_id + 1`, or 1 when the scan found no row.
   */
  method SetNoteId(t: Table, u: int) returns (id: int)
    ensures id == NextId(t, u)
  {
    var lastId: Option<int> := None;
    var pending := t.Keys;
    while pending != {}
      invariant pending <= t.Keys
      invariant lastId.None? ==> forall k :: k in t && k !in pending ==> k.userId != u
      invariant lastId.Some? ==> Key(u, lastId.value) in t
      invariant lastId.Some? ==> forall k :: k in t && k !in pending && k.userId == u ==> k.id <= lastId.value
      decreases pending
    {
      var k :| k in pending;
      if k.userId == u && (lastId.None? || lastId.value < k.id) {
        lastId := Some(k.id);
      }
      pending := pending - {k};
    }
    id := if lastId.None? then 1 else lastId.value + 1;
    if lastId.None? {
      assert UserIds(t, u) == {};
    } else {
      NextIdIsOneAboveMax(t, u, lastId.value);
    }
  }

  /** Whatever id is the user's largest decides the next id. */
  lemma NextIdIsOneAboveMax(t: Table, u: int, m: int)
    requires Key(u, m) in t
    requires forall i :: Key(u, i) in t ==> i <= m
    ensures NextId(t, u) == m + 1
  {
    assert m in UserIds(t, u);
    var r := NextId(t, u);
    assert Key(u, r - 1) in t;
  }

  /** When a user's ids are 1..n, the next note gets id n + 1. */
  lemma NextIdAfterRange(t: Table, u: int, n: int)
    requires n >= 0 && Contiguous(t, u, n)
    ensures NextId(t, u) == n + 1
  {
    if n == 0 {
      assert UserIds(t, u) == {};
    } else {
      NextIdIsOneAboveMax(t, u, n);
    }
  }

  /**
   * Only the rows of user `u` decide `u`'s next id: two tables that agree on
   * which ids `u` has give the same id, whatever other users hold.
   */
  lemma NextIdOwnRowsOnly(t: Table, t': Table, u: int)
    requires forall i :: Key(u, i) in t <==> Key(u, i) in t'
    ensures NextId(t, u) == NextId(t', u)
  {
    assert UserIds(t, u) == UserIds(t', u);
  }
}
