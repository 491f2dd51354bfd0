/**
 Queries over the Reservations table, which the model holds as a sequence of
 rows. The queries have no ordering, so which row `FirstOrDefaultAsync`
 returns among several matches is not defined; the model takes the first in
 sequence order. This matters only when two rows share a slot; keys are
 unique because `Id` is the primary key.
 */
module Store {
  import opened Domain

  /** The position of the first element satisfying `p`, or |s| when there is none. */
  function FirstIndex<T>(s: seq<T>, p: T -> bool): (i: nat)
    ensures i <= |s|
    ensures i < |s| ==> p(s[i])
    ensures forall j :: 0 <= j < i ==> !p(s[j])
  {
    if s == [] then 0
    else if p(s[0]) then 0
    else 1 + FirstIndex(s[1..], p)
  }

  predicate AtSlot(r: Reservation, date: Date, hour: int)
  {
    r.date == date && r.hour == hour
  }

  /** The row FirstOrDefaultAsync finds for the slot date+hour: its index, or |rows| for null. */
  function FindSlot(rows: seq<Reservation>, date: Date, hour: int): (i: nat)
    ensures i <= |rows|
    ensures i < |rows| ==> AtSlot(rows[i], date, hour)
    ensures forall j :: 0 <= j < i ==> !AtSlot(rows[j], date, hour)
  {
    FirstIndex(rows, (r: Reservation) => AtSlot(r, date, hour))
  }

  /** GetById: the first row with key `id`, or None. */
  function FindById(rows: seq<Reservation>, id: int): (r: Option<Reservation>)
    ensures r.Some? ==> r.value in rows && r.value.id == id
    ensures r.None? <==> forall x :: x in rows ==> x.id != id
  {
    var i := FirstIndex(rows, (x: Reservation) => x.id == id);
    if i < |rows| then Some(rows[i]) else None
  }

  /**
   The key the database gives the next inserted row: one more than the
   largest key, or 1 for an empty table (rows are never deleted, so this is
   also SQLite's AUTOINCREMENT value).
   */
  function NextId(rows: seq<Reservation>): (id: int)
    ensures forall r :: r in rows ==> r.id < id
    ensures rows != [] ==> exists r :: r in rows && r.id == id - 1
  {
    if rows == [] then 1
    else if |rows| == 1 then rows[0].id + 1
    else
      var rest := NextId(rows[1..]);
      assert forall r :: r in rows ==> r == rows[0] || r in rows[1..];
      if rows[0].id + 1 > rest then rows[0].id + 1 else rest
  }

  /** No two rows share a slot (the store does not enforce this itself). */
  ghost predicate UniqueSlots(rows: seq<Reservation>)
  {
    forall i, j :: 0 <= i < j < |rows| ==> !AtSlot(rows[j], rows[i].date, rows[i].hour)
  }

  /** No two rows share a key. */
  ghost predicate UniqueIds(rows: seq<Reservation>)
  {
    forall i, j :: 0 <= i < j < |rows| ==> rows[i].id != rows[j].id
  }

  /** Under UniqueSlots the row FindSlot returns is the only one at its slot. */
  lemma FindSlotUnique(rows: seq<Reservation>, date: Date, hour: int, k: nat)
    requires UniqueSlots(rows)
    requires k < |rows| && AtSlot(rows[k], date, hour)
    ensures FindSlot(rows, date, hour) == k
  {
    assert forall j :: 0 <= j < k ==> !AtSlot(rows[k], rows[j].date, rows[j].hour);
  }

  /** Appending a row does not move the row found at any slot that already had one. */
  lemma {:induction false} FindSlotAppend(rows: seq<Reservation>, x: Reservation, date: Date, hour: int)
    ensures FindSlot(rows + [x], date, hour) ==
              if FindSlot(rows, date, hour) < |rows| then FindSlot(rows, date, hour)
              else if AtSlot(x, date, hour) then |rows|
              else |rows| + 1
  {
    var i := FindSlot(rows + [x], date, hour);
    var k := FindSlot(rows, date, hour);
    assert forall j :: 0 <= j < |rows| ==> (rows + [x])[j] == rows[j];
    assert (rows + [x])[|rows|] == x;
    assert k < |rows| ==> AtSlot((rows + [x])[k], date, hour);
  }

  /** Replacing a row by one at the same slot does not change where any slot is found. */
  lemma FindSlotUpdate(rows: seq<Reservation>, k: nat, x: Reservation, date: Date, hour: int)
    requires k < |rows|
    requires x.date == rows[k].date && x.hour == rows[k].hour
    ensures FindSlot(rows[k := x], date, hour) == FindSlot(rows, date, hour)
  {
    var i := FindSlot(rows[k := x], date, hour);
    var i' := FindSlot(rows, date, hour);
    assert i < i' ==> AtSlot(rows[i], date, hour);
    assert i' < i ==> AtSlot(rows[k := x][i'], date, hour);
  }
}
