/**
 * Repository<T>: the generic soft-delete repository over one database table.
 *
 * `Table` is the table's content: rows by key plus the order in which they
 * were inserted, which stands for the order an unordered query returns rows
 * in. Its functions are the repository's queries. `Repository` is the table
 * as the database keeps it: each of its methods is one repository call
 * followed by SaveChangesAsync, which the database refuses (DbUpdateException)
 * when a unique index would hold two equal keys. The unique indexes are not
 * filtered on IsDeleted, so soft-deleted rows keep their keys.
 */
module GenericRepository {
  import opened Wrappers
  import opened Entities
  import opened Seqs

  datatype Table<D> = Table(rows: map<Guid, Row<D>>, order: seq<Guid>) {

    ghost predicate WellFormed() {
      && (forall i, j :: 0 <= i < j < |order| ==> order[i] != order[j])
      && (forall id :: id in rows <==> id in order)
      && (forall id :: id in rows ==> rows[id].id == id)
    }

    function RowsIn(ids: seq<Guid>): (r: seq<Row<D>>)
      ensures (forall i :: 0 <= i < |ids| ==> ids[i] in rows) ==> |r| == |ids|
    {
      if ids == [] then []
      else (if ids[0] in rows then [rows[ids[0]]] else []) + RowsIn(ids[1..])
    }

    /** Every row, soft-deleted ones included, in insertion order. */
    function All(): seq<Row<D>> { RowsIn(order) }

    /** GetByIdAsync (FindAsync): looks the key up whether or not the row is soft-deleted. */
    function GetById(id: Guid): (r: Option<Row<D>>)
      ensures r.Some? <==> id in rows
      ensures r.Some? ==> r.value == rows[id]
    {
      if id in rows then Some(rows[id]) else None
    }

    /** GetAllAsync: the rows that are not soft-deleted. */
    function GetAll(): seq<Row<D>> { Filter(All(), (r: Row<D>) => !r.isDeleted) }

    /** FindAsync(predicate): matching rows that are not soft-deleted. */
    function Find(p: Row<D> -> bool): seq<Row<D>> { Filter(All(), (r: Row<D>) => p(r) && !r.isDeleted) }

    /** ExistsAsync(predicate): note that soft-deleted rows are not excluded. */
    predicate Exists(p: Row<D> -> bool) { Any(All(), p) }

    /** CountAsync(): rows that are not soft-deleted. */
    function Count(): nat { |GetAll()| }

    /** CountAsync(predicate). */
    function CountWhere(p: Row<D> -> bool): nat { |Find(p)| }

    /** FirstOrDefault(x => field(x) == k && !x.IsDeleted): the first active row with that column value. */
    function FirstActive<K(==)>(field: D -> K, k: K): (r: Option<Row<D>>)
      ensures r.Some? ==> r.value in All() && field(r.value.data) == k && !r.value.isDeleted
      ensures r.None? <==> forall i :: 0 <= i < |All()| ==> !(field(All()[i].data) == k && !All()[i].isDeleted)
    {
      First(All(), (x: Row<D>) => field(x.data) == k && !x.isDeleted)
    }

    /** AnyAsync(x => field(x) == k && !x.IsDeleted). */
    predicate AnyActive<K(==)>(field: D -> K, k: K) {
      Any(All(), (x: Row<D>) => field(x.data) == k && !x.isDeleted)
    }

    /** Where(x => field(x) == k && !x.IsDeleted).ToList(). */
    function AllActive<K(==)>(field: D -> K, k: K): (r: seq<Row<D>>)
      ensures forall i :: 0 <= i < |r| ==> r[i] in All() && field(r[i].data) == k && !r[i].isDeleted
      ensures forall i :: 0 <= i < |All()| && field(All()[i].data) == k && !All()[i].isDeleted ==> All()[i] in r
    {
      Filter(All(), (x: Row<D>) => field(x.data) == k && !x.isDeleted)
    }

    /** No two rows, soft-deleted ones included, agree on the column. */
    ghost predicate UniqueOn<K>(field: D -> K) {
      forall a, b | a in rows && b in rows :: a != b ==> field(rows[a].data) != field(rows[b].data)
    }

    /** A key no row has: the Guid a new entity receives. */
    function NextId(): (id: Guid)
      ensures WellFormed() ==> id !in rows
    {
      var m := MaxOf(order);
      assert forall i :: 0 <= i < |order| ==> order[i] < m + 1;
      m + 1
    }

    /** The table with a new row appended. */
    function Inserted(row: Row<D>): Table<D> {
      if row.id in rows then this else Table(rows[row.id := row], order + [row.id])
    }

    /** The table with an existing row replaced by a new version of it. */
    function Replaced(row: Row<D>): Table<D> {
      if row.id in rows then Table(rows[row.id := row], order) else this
    }

    /** DeleteAsync: the row is kept, flagged deleted and stamped. */
    function SoftDeleted(id: Guid, now: Time): Table<D> {
      if id in rows then Replaced(rows[id].(isDeleted := true, updatedAt := Some(now))) else this
    }

    /** DeleteAsync on each of the rows `ids`, staged in one unit of work. */
    function SoftDeletedAll(ids: set<Guid>, now: Time): (u: Table<D>)
      ensures u.order == order && u.rows.Keys == rows.Keys
    {
      Table(map id | id in rows :: if id in ids then rows[id].(isDeleted := true, updatedAt := Some(now)) else rows[id], order)
    }

    /** The unique index of key function `keysOf` holds: no two rows share a key. */
    predicate IsUnique<K(==)>(keysOf: D -> set<K>) {
      forall a, b | a in rows && b in rows :: a != b ==> keysOf(rows[a].data) !! keysOf(rows[b].data)
    }

    /** Storing `d` under `id` would share a key with another row. */
    predicate Clashes<K(==)>(keysOf: D -> set<K>, id: Guid, d: D) {
      exists other | other in rows :: other != id && !(keysOf(rows[other].data) !! keysOf(d))
    }
  }

  function MaxOf(ids: seq<Guid>): (m: Guid)
    ensures forall i :: 0 <= i < |ids| ==> ids[i] <= m
  {
    if ids == [] then 0
    else var rest := MaxOf(ids[1..]); if ids[0] > rest then ids[0] else rest
  }

  /** In a well-formed table, All lists exactly the rows, one per key in insertion order. */
  lemma {:induction false} AllAt<D>(t: Table<D>)
    requires t.WellFormed()
    ensures |t.All()| == |t.order|
    ensures forall k :: 0 <= k < |t.order| ==> t.All()[k] == t.rows[t.order[k]]
  {
    RowsInAt(t, t.order);
  }

  lemma {:induction false} RowsInAt<D>(t: Table<D>, ids: seq<Guid>)
    requires forall i :: 0 <= i < |ids| ==> ids[i] in t.rows
    ensures |t.RowsIn(ids)| == |ids|
    ensures forall k :: 0 <= k < |ids| ==> t.RowsIn(ids)[k] == t.rows[ids[k]]
  {
    if ids != [] {
      RowsInAt(t, ids[1..]);
      assert t.RowsIn(ids) == [t.rows[ids[0]]] + t.RowsIn(ids[1..]);
    }
  }

  /** All lists no row twice. */
  lemma {:induction false} AllNoDuplicates<D>(t: Table<D>)
    requires t.WellFormed()
    ensures NoDuplicates(t.All())
  {
    AllAt(t);
    forall i, j | 0 <= i < j < |t.All()| ensures t.All()[i] != t.All()[j] {
      assert t.All()[i].id == t.order[i] && t.All()[j].id == t.order[j];
    }
  }

  /** A row is listed by All exactly when it is the stored row of its key. */
  lemma {:induction false} AllMembers<D>(t: Table<D>, r: Row<D>)
    requires t.WellFormed()
    ensures r in t.All() <==> r.id in t.rows && t.rows[r.id] == r
  {
    AllAt(t);
    if r.id in t.rows && t.rows[r.id] == r {
      var k :| 0 <= k < |t.order| && t.order[k] == r.id;
      assert t.All()[k] == r;
    }
  }

  /** GetAll lists exactly the stored rows that are not flagged deleted. */
  lemma {:induction false} GetAllMembers<D>(t: Table<D>, r: Row<D>)
    requires t.WellFormed()
    ensures r in t.GetAll() <==> r.id in t.rows && t.rows[r.id] == r && !r.isDeleted
  {
    AllMembers(t, r);
    if r in t.All() && !r.isDeleted {
      var k :| 0 <= k < |t.All()| && t.All()[k] == r;
    }
  }

  /** FindAsync keeps exactly the stored rows that match and are not flagged deleted. */
  lemma {:induction false} FindMembers<D>(t: Table<D>, p: Row<D> -> bool, r: Row<D>)
    requires t.WellFormed()
    ensures r in t.Find(p) <==> r.id in t.rows && t.rows[r.id] == r && p(r) && !r.isDeleted
  {
    AllMembers(t, r);
    FilterMembers(t.All(), (x: Row<D>) => p(x) && !x.isDeleted);
  }

  /** CountAsync(predicate) never exceeds CountAsync(), which counts what GetAllAsync lists. */
  lemma {:induction false} CountWhereAtMostCount<D>(t: Table<D>, p: Row<D> -> bool)
    ensures t.CountWhere(p) <= t.Count() == |t.GetAll()|
  {
    FilterStronger(t.All(), (r: Row<D>) => p(r) && !r.isDeleted, (r: Row<D>) => !r.isDeleted);
  }

  /** ExistsAsync sees soft-deleted rows: it holds iff some stored row, deleted or not, matches. */
  lemma {:induction false} ExistsSeesDeleted<D>(t: Table<D>, p: Row<D> -> bool)
    requires t.WellFormed()
    ensures t.Exists(p) <==> exists id :: id in t.rows && p(t.rows[id])
  {
    AllAt(t);
    if exists id :: id in t.rows && p(t.rows[id]) {
      var id :| id in t.rows && p(t.rows[id]);
      var k :| 0 <= k < |t.order| && t.order[k] == id;
      assert p(t.All()[k]);
    }
  }

  lemma {:induction false} InsertedWellFormed<D>(t: Table<D>, row: Row<D>)
    requires t.WellFormed() && row.id !in t.rows
    ensures t.Inserted(row).WellFormed()
    ensures t.Inserted(row).All() == t.All() + [row]
  {
    var u := t.Inserted(row);
    AllAt(t);
    AllAt(u);
  }

  lemma {:induction false} ReplacedWellFormed<D>(t: Table<D>, row: Row<D>)
    requires t.WellFormed() && row.id in t.rows
    ensures t.Replaced(row).WellFormed()
    ensures |t.Replaced(row).All()| == |t.All()|
    ensures forall k :: 0 <= k < |t.All()| ==>
      t.Replaced(row).All()[k] == if t.order[k] == row.id then row else t.All()[k]
  {
    AllAt(t);
    AllAt(t.Replaced(row));
  }

  /** Soft deletion keeps the row for GetById and hides it from GetAll; no other row changes. */
  lemma {:induction false} SoftDeleteHides<D>(t: Table<D>, id: Guid, now: Time)
    requires t.WellFormed() && id in t.rows
    ensures t.SoftDeleted(id, now).WellFormed()
    ensures t.SoftDeleted(id, now).GetById(id) == Some(t.rows[id].(isDeleted := true, updatedAt := Some(now)))
    ensures forall r :: r in t.SoftDeleted(id, now).GetAll() <==> r in t.GetAll() && r.id != id
  {
    var u := t.SoftDeleted(id, now);
    ReplacedWellFormed(t, t.rows[id].(isDeleted := true, updatedAt := Some(now)));
    forall r ensures r in u.GetAll() <==> r in t.GetAll() && r.id != id {
      GetAllMembers(t, r);
      GetAllMembers(u, r);
    }
  }

  /** Any and FirstOrDefault over the same condition agree. */
  lemma {:induction false} AnyActiveIffFirstActive<D, K>(t: Table<D>, field: D -> K, k: K)
    ensures t.AnyActive(field, k) <==> t.FirstActive(field, k).Some?
  {
    if t.FirstActive(field, k).Some? {
      var x := t.FirstActive(field, k).value;
      var i :| 0 <= i < |t.All()| && t.All()[i] == x;
    }
  }

  /** Under a unique column, the active row holding a value is the one FirstOrDefault finds. */
  lemma {:induction false} FirstActiveIsTheRow<D, K>(t: Table<D>, field: D -> K, r: Row<D>)
    requires t.WellFormed() && t.UniqueOn(field)
    requires r.id in t.rows && t.rows[r.id] == r && !r.isDeleted
    ensures t.FirstActive(field, field(r.data)) == Some(r)
  {
    AllMembers(t, r);
    var x := t.FirstActive(field, field(r.data)).value;
    AllMembers(t, x);
  }

  /** Once the row holding a unique value is soft-deleted, no active row holds it. */
  lemma {:induction false} SoftDeletedValueGone<D, K>(t: Table<D>, field: D -> K, id: Guid, now: Time)
    requires t.WellFormed() && t.UniqueOn(field) && id in t.rows
    ensures !t.SoftDeleted(id, now).AnyActive(field, field(t.rows[id].data))
  {
    var u := t.SoftDeleted(id, now);
    SoftDeleteHides(t, id, now);
    AnyActiveIffFirstActive(u, field, field(t.rows[id].data));
    if u.FirstActive(field, field(t.rows[id].data)).Some? {
      var x := u.FirstActive(field, field(t.rows[id].data)).value;
      AllMembers(u, x);
      assert false;
    }
  }

  /** Deleting one more row extends the staged set. */
  lemma {:induction false} SoftDeletedAllStep<D>(t: Table<D>, ids: set<Guid>, id: Guid, now: Time)
    requires t.WellFormed() && id in t.rows
    ensures t.SoftDeletedAll(ids, now).SoftDeleted(id, now) == t.SoftDeletedAll(ids + {id}, now)
  {
    var a := t.SoftDeletedAll(ids, now).SoftDeleted(id, now);
    var b := t.SoftDeletedAll(ids + {id}, now);
    assert a.rows.Keys == b.rows.Keys;
    forall k | k in a.rows ensures a.rows[k] == b.rows[k] { }
    assert a.rows == b.rows;
  }

  lemma {:induction false} SoftDeletedAllNone<D>(t: Table<D>, now: Time)
    ensures t.SoftDeletedAll({}, now) == t
  {
  }

  /** Staged soft deletion keeps the table well formed and its unique indexes, and hides exactly those rows. */
  lemma {:induction false} SoftDeletedAllFacts<D, K>(t: Table<D>, keysOf: D -> set<K>, ids: set<Guid>, now: Time)
    requires t.WellFormed()
    ensures t.SoftDeletedAll(ids, now).WellFormed()
    ensures t.IsUnique(keysOf) ==> t.SoftDeletedAll(ids, now).IsUnique(keysOf)
    ensures forall r :: r in t.SoftDeletedAll(ids, now).GetAll() <==> r in t.GetAll() && r.id !in ids
  {
    var u := t.SoftDeletedAll(ids, now);
    forall r ensures r in u.GetAll() <==> r in t.GetAll() && r.id !in ids {
      GetAllMembers(t, r);
      GetAllMembers(u, r);
    }
  }

  /** A row replaced by one whose keys clash with no other row keeps the index unique. */
  lemma {:induction false} ReplacedUnique<D, K>(t: Table<D>, keysOf: D -> set<K>, row: Row<D>)
    requires t.IsUnique(keysOf) && !t.Clashes(keysOf, row.id, row.data)
    ensures t.Replaced(row).IsUnique(keysOf)
  {
  }

  lemma {:induction false} InsertedUnique<D, K>(t: Table<D>, keysOf: D -> set<K>, row: Row<D>)
    requires t.IsUnique(keysOf) && !t.Clashes(keysOf, row.id, row.data)
    ensures t.Inserted(row).IsUnique(keysOf)
  {
  }

  /** DeleteAsync on each of the listed rows in turn, staged in one unit of work. */
  method SoftDeleteEach<D>(t: Table<D>, rows: seq<Row<D>>, now: Time) returns (staged: Table<D>)
    requires t.WellFormed()
    requires forall i :: 0 <= i < |rows| ==> rows[i].id in t.rows
    ensures staged == t.SoftDeletedAll(set k | 0 <= k < |rows| :: rows[k].id, now)
  {
    staged := t;
    ghost var done: set<Guid> := {};
    SoftDeletedAllNone(t, now);
    var i := 0;
    while i < |rows|
      invariant 0 <= i <= |rows|
      invariant done == set k | 0 <= k < i :: rows[k].id
      invariant staged == t.SoftDeletedAll(done, now)
    {
      SoftDeletedAllStep(t, done, rows[i].id, now);
      staged := staged.SoftDeleted(rows[i].id, now);
      done := done + {rows[i].id};
      i := i + 1;
    }
  }

  /** Keys appended to a well-formed table are pairwise distinct, new, and the only new keys. */
  lemma {:induction false} AppendedKeysAreNew<D>(t: Table<D>, u: Table<D>, added: seq<Guid>)
    requires t.WellFormed() && u.WellFormed() && u.order == t.order + added
    ensures forall i :: 0 <= i < |added| ==> added[i] !in t.rows
    ensures forall i, j :: 0 <= i < j < |added| ==> added[i] != added[j]
    ensures forall id :: id in u.rows && id !in t.rows ==> id in added
  {
    var m := |t.order|;
    forall i | 0 <= i < |added| ensures added[i] !in t.rows {
      forall k | 0 <= k < m ensures t.order[k] != added[i] {
        assert u.order[k] == t.order[k] && u.order[m + i] == added[i];
      }
    }
    forall i, j | 0 <= i < j < |added| ensures added[i] != added[j] {
      assert u.order[m + i] == added[i] && u.order[m + j] == added[j];
    }
    forall id | id in u.rows && id !in t.rows ensures id in added {
      var k :| 0 <= k < |u.order| && u.order[k] == id;
      if k < m {
        assert t.order[k] == id;
      } else {
        assert added[k - m] == id;
      }
    }
  }

  class Repository<D, K(==)> {
    var table: Table<D>
    const keysOf: D -> set<K>

    ghost predicate Valid() reads this {
      table.WellFormed() && table.IsUnique(keysOf)
    }

    constructor (keysOf: D -> set<K>)
      ensures Valid() && this.keysOf == keysOf && table == Table(map[], [])
    {
      this.keysOf := keysOf;
      table := Table(map[], []);
    }

    /** AddAsync + SaveChangesAsync: a fresh key, CreatedAt = now; refused on a unique-index clash. */
    method AddAsync(data: D, now: Time) returns (row: Row<D>, ok: bool)
      requires Valid()
      modifies this
      ensures Valid()
      ensures row.id !in old(table.rows) && row == Row(row.id, now, None, false, data)
      ensures ok <==> !old(table).Clashes(keysOf, row.id, data)
      ensures table == if ok then old(table).Inserted(row) else old(table)
    {
      row := Row(table.NextId(), now, None, false, data);
      ok := !table.Clashes(keysOf, row.id, data);
      if ok {
        InsertedWellFormed(table, row);
        InsertedUnique(table, keysOf, row);
        table := table.Inserted(row);
      }
    }

    /** UpdateAsync + SaveChangesAsync: the new version with UpdatedAt = now; refused on a clash. */
    method UpdateAsync(row: Row<D>, now: Time) returns (updated: Row<D>, ok: bool)
      requires Valid() && row.id in table.rows
      modifies this
      ensures Valid()
      ensures updated == row.(updatedAt := Some(now))
      ensures ok <==> !old(table).Clashes(keysOf, row.id, row.data)
      ensures table == if ok then old(table).Replaced(updated) else old(table)
    {
      updated := row.(updatedAt := Some(now));
      ok := !table.Clashes(keysOf, row.id, row.data);
      if ok {
        ReplacedWellFormed(table, updated);
        ReplacedUnique(table, keysOf, updated);
        table := table.Replaced(updated);
      }
    }

    /** DeleteAsync + SaveChangesAsync: soft deletion never clashes, since the keys stay. */
    method DeleteAsync(id: Guid, now: Time)
      requires Valid() && id in table.rows
      modifies this
      ensures Valid()
      ensures table == old(table).SoftDeleted(id, now)
    {
      SoftDeleteHides(table, id, now);
      assert !table.Clashes(keysOf, id, table.rows[id].data);
      ReplacedUnique(table, keysOf, table.rows[id].(isDeleted := true, updatedAt := Some(now)));
      table := table.SoftDeleted(id, now);
    }

    /** SaveChangesAsync of a unit of work staged on the table: all of it or none of it. */
    method SaveChangesAsync(staged: Table<D>) returns (ok: bool)
      requires Valid() && staged.WellFormed()
      modifies this
      ensures Valid()
      ensures ok <==> staged.IsUnique(keysOf)
      ensures table == if ok then staged else old(table)
    {
      ok := staged.IsUnique(keysOf);
      if ok {
        table := staged;
      }
    }
  }
}
