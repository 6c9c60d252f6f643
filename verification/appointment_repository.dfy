/**
 * The appointment queries and the conflict test of
 * Infrastructure/Data/Repositories/AppointmentRepository.cs. `rows` is the table in the order the
 * database enumerates it; the conflict test works on the store keyed by id.
 */
module AppointmentRepository {
  import opened Wrappers
  import opened Clock
  import opened Intervals
  import opened Model
  import opened Seqs
  import AppointmentEntity

  function DateKey(a: Appointment): int { a.date }

  /** `GetByPatientIdAsync`: the patient's appointments, latest first. */
  function GetByPatientId(rows: seq<Appointment>, patientId: int): (r: seq<Appointment>)
    ensures forall a :: multiset(r)[a] == if a.patientId == patientId then multiset(rows)[a] else 0
    ensures forall i, j :: 0 <= i < j < |r| ==> r[i].date >= r[j].date
  {
    SortedWhere(rows, (a: Appointment) => a.patientId == patientId, DateKey, true)
  }

  /** `GetByDoctorIdAsync`: the doctor's appointments, earliest first. */
  function GetByDoctorId(rows: seq<Appointment>, doctorId: int): (r: seq<Appointment>)
    ensures forall a :: multiset(r)[a] == if a.doctorId == doctorId then multiset(rows)[a] else 0
    ensures forall i, j :: 0 <= i < j < |r| ==> r[i].date <= r[j].date
  {
    SortedWhere(rows, (a: Appointment) => a.doctorId == doctorId, DateKey, false)
  }

  /** `GetByDateRangeAsync`: appointments starting within the closed range, earliest first. */
  function GetByDateRange(rows: seq<Appointment>, startDate: int, endDate: int): (r: seq<Appointment>)
    ensures forall a :: multiset(r)[a] == if startDate <= a.date <= endDate then multiset(rows)[a] else 0
    ensures forall i, j :: 0 <= i < j < |r| ==> r[i].date <= r[j].date
  {
    SortedWhere(rows, (a: Appointment) => startDate <= a.date <= endDate, DateKey, false)
  }

  /** `GetByStatusAsync`: appointments whose stored status string equals `status`, earliest first. */
  function GetByStatus(rows: seq<Appointment>, status: string): (r: seq<Appointment>)
    ensures forall a :: multiset(r)[a] == if StatusName(a.status) == status then multiset(rows)[a] else 0
    ensures forall i, j :: 0 <= i < j < |r| ==> r[i].date <= r[j].date
  {
    SortedWhere(rows, (a: Appointment) => StatusName(a.status) == status, DateKey, false)
  }

  /** `GetUpcomingAsync(days)`: non-cancelled appointments from now to `days` days ahead, earliest first. */
  function GetUpcoming(rows: seq<Appointment>, now: int, days: int): (r: seq<Appointment>)
    ensures forall a :: multiset(r)[a] == if now <= a.date <= now + Days(days) && a.status != Cancelled then multiset(rows)[a] else 0
    ensures forall i, j :: 0 <= i < j < |r| ==> r[i].date <= r[j].date
  {
    var endDate := now + Days(days);
    SortedWhere(rows, (a: Appointment) => now <= a.date <= endDate && a.status != Cancelled, DateKey, false)
  }

  /** `GetWithDetailsAsync`: the first row with the id, if any. */
  function GetWithDetails(rows: seq<Appointment>, id: int): (r: Option<Appointment>)
    ensures r.None? <==> forall i :: 0 <= i < |rows| ==> rows[i].id != id
    ensures r.Some? ==> r.value in rows && r.value.id == id
  {
    FirstMatch(rows, (a: Appointment) => a.id == id)
  }

  /** An appointment that keeps the doctor busy during part of `[start, start + duration)`. */
  predicate Blocks(a: Appointment, doctorId: int, start: int, duration: int)
  {
    a.doctorId == doctorId && a.status != Cancelled
    && a.date < start + duration && AppointmentEntity.EndTime(a) > start
  }

  /** The appointment is the one the caller asked to leave out. */
  predicate Excluded(a: Appointment, excludeId: Option<int>)
  {
    excludeId.Some? && a.id == excludeId.value
  }

  /**
   * `HasConflictAsync`: some stored appointment of the doctor that is not cancelled and not
   * excluded overlaps `[start, start + duration)`.
   */
  function HasConflict(store: map<int, Appointment>, doctorId: int, start: int, duration: int, excludeId: Option<int>): (r: bool)
    ensures r <==> exists k :: k in store && !Excluded(store[k], excludeId) && store[k].doctorId == doctorId
                      && store[k].status != Cancelled && Overlaps(store[k].date, store[k].duration, start, duration)
  {
    exists k :: k in store && !Excluded(store[k], excludeId) && Blocks(store[k], doctorId, start, duration)
  }

  /** The conflict test is the half-open interval overlap of the two appointments. */
  lemma BlocksIsOverlap(a: Appointment, doctorId: int, start: int, duration: int)
    ensures Blocks(a, doctorId, start, duration) <==>
      a.doctorId == doctorId && a.status != Cancelled && Overlaps(a.date, a.duration, start, duration)
  {
  }

  /** Back-to-back appointments do not conflict: a slot may start when another ends, or end when it starts. */
  lemma BackToBackNoConflict(store: map<int, Appointment>, doctorId: int, start: int, duration: int, excludeId: Option<int>)
    requires forall k :: k in store ==> AppointmentEntity.EndTime(store[k]) <= start || store[k].date >= start + duration
    ensures !HasConflict(store, doctorId, start, duration, excludeId)
  {
  }

  /** Conflict is symmetric between two live appointments of one doctor. */
  lemma ConflictSymmetric(a: Appointment, b: Appointment)
    requires a.doctorId == b.doctorId && a.status != Cancelled && b.status != Cancelled
    ensures HasConflict(map[a.id := a], a.doctorId, b.date, b.duration, None)
        <==> HasConflict(map[b.id := b], b.doctorId, a.date, a.duration, None)
  {
    if HasConflict(map[a.id := a], a.doctorId, b.date, b.duration, None) {
      assert Blocks(map[b.id := b][b.id], b.doctorId, a.date, a.duration);
    }
    if HasConflict(map[b.id := b], b.doctorId, a.date, a.duration, None) {
      assert Blocks(map[a.id := a][a.id], a.doctorId, b.date, b.duration);
    }
  }

  /** Adding or removing a cancelled appointment, or another doctor's, never changes the answer. */
  lemma NonBlockingIrrelevant(store: map<int, Appointment>, k: int, a: Appointment, doctorId: int, start: int, duration: int, excludeId: Option<int>)
    requires k !in store
    requires a.status == Cancelled || a.doctorId != doctorId
    ensures HasConflict(store[k := a], doctorId, start, duration, excludeId) == HasConflict(store, doctorId, start, duration, excludeId)
  {
    if HasConflict(store[k := a], doctorId, start, duration, excludeId) {
      var j :| j in store[k := a] && !Excluded(store[k := a][j], excludeId) && Blocks(store[k := a][j], doctorId, start, duration);
      assert j != k && j in store;
    }
    if HasConflict(store, doctorId, start, duration, excludeId) {
      var j :| j in store && !Excluded(store[j], excludeId) && Blocks(store[j], doctorId, start, duration);
      assert j in store[k := a] && store[k := a][j] == store[j];
    }
  }

  /** Excluding an id is the same as asking without that appointment in the store. */
  lemma ExcludeIsRemoval(store: map<int, Appointment>, x: int, doctorId: int, start: int, duration: int)
    requires KeyedById(store, AppointmentId)
    ensures HasConflict(store, doctorId, start, duration, Some(x)) == HasConflict(store - {x}, doctorId, start, duration, None)
  {
    if HasConflict(store, doctorId, start, duration, Some(x)) {
      var j :| j in store && !Excluded(store[j], Some(x)) && Blocks(store[j], doctorId, start, duration);
      assert AppointmentId(store[j]) == j;
      assert j in store - {x} && (store - {x})[j] == store[j];
    }
    if HasConflict(store - {x}, doctorId, start, duration, None) {
      var j :| j in store - {x} && Blocks((store - {x})[j], doctorId, start, duration);
      assert AppointmentId(store[j]) == j;
      assert !Excluded(store[j], Some(x));
    }
  }

  /** A longer request conflicts with everything a shorter one at the same start does. */
  lemma ConflictMonotone(store: map<int, Appointment>, doctorId: int, start: int, duration: int, longer: int, excludeId: Option<int>)
    requires duration <= longer
    requires HasConflict(store, doctorId, start, duration, excludeId)
    ensures HasConflict(store, doctorId, start, longer, excludeId)
  {
    var k :| k in store && !Excluded(store[k], excludeId) && Blocks(store[k], doctorId, start, duration);
    assert Blocks(store[k], doctorId, start, longer);
  }

  /** A free slot stays free when shortened. */
  lemma FreeForShorter(store: map<int, Appointment>, doctorId: int, start: int, duration: int, excludeId: Option<int>)
    requires !HasConflict(store, doctorId, start, duration, excludeId)
    ensures forall shorter :: shorter <= duration ==> !HasConflict(store, doctorId, start, shorter, excludeId)
  {
    forall shorter | shorter <= duration
      ensures !HasConflict(store, doctorId, start, shorter, excludeId)
    {
      if HasConflict(store, doctorId, start, shorter, excludeId) {
        ConflictMonotone(store, doctorId, start, shorter, duration, excludeId);
      }
    }
  }

  /** An appointment never conflicts with itself when the caller excludes its id. */
  lemma SelfExcluded(store: map<int, Appointment>, a: Appointment)
    requires KeyedById(store, AppointmentId)
    requires store.Keys == {a.id} && store[a.id] == a
    ensures !HasConflict(store, a.doctorId, a.date, a.duration, Some(a.id))
  {
  }

  /** A 30-minute booking at 10:00 leaves 10:30 free and makes 10:15 a conflict. */
  lemma ConflictExample(a: Appointment)
    requires a.doctorId == 7 && a.status == Scheduled
    requires a.date == Hours(10) && a.duration == Minutes(30)
    ensures !HasConflict(map[a.id := a], 7, Hours(10) + Minutes(30), Minutes(30), None)
    ensures HasConflict(map[a.id := a], 7, Hours(10) + Minutes(15), Minutes(30), None)
    ensures !HasConflict(map[a.id := a.(status := Cancelled)], 7, Hours(10) + Minutes(15), Minutes(30), None)
  {
    assert Blocks(map[a.id := a][a.id], 7, Hours(10) + Minutes(15), Minutes(30));
  }

  /** Two live appointments of one doctor whose intervals overlap: a double booking. */
  predicate Clash(a: Appointment, b: Appointment)
  {
    a.doctorId == b.doctorId && a.status != Cancelled && b.status != Cancelled
    && Overlaps(a.date, a.duration, b.date, b.duration)
  }

  /** The invariant the conflict checks protect: no two stored appointments clash. */
  predicate NoDoubleBooking(store: map<int, Appointment>)
  {
    forall k1, k2 :: k1 in store && k2 in store && k1 != k2 ==> !Clash(store[k1], store[k2])
  }

  /** Against a live appointment, clashing is being blocked by it. */
  lemma ClashIsBlocking(a: Appointment, b: Appointment)
    requires b.status != Cancelled
    ensures Clash(a, b) <==> Blocks(a, b.doctorId, b.date, b.duration)
    ensures Clash(a, b) <==> Clash(b, a)
  {
  }

  /**
   * Storing `a` under key `k` keeps the invariant when no other stored appointment blocks its
   * slot, or when it is cancelled.
   */
  lemma PutPreservesNoDoubleBooking(store: map<int, Appointment>, k: int, a: Appointment)
    requires NoDoubleBooking(store)
    requires a.status == Cancelled || forall j :: j in store && j != k ==> !Blocks(store[j], a.doctorId, a.date, a.duration)
    ensures NoDoubleBooking(store[k := a])
  {
    var s' := store[k := a];
    forall k1, k2 | k1 in s' && k2 in s' && k1 != k2
      ensures !Clash(s'[k1], s'[k2])
    {
      if k1 == k {
        if a.status != Cancelled {
          ClashIsBlocking(store[k2], a);
        }
      } else if k2 == k {
        if a.status != Cancelled {
          ClashIsBlocking(store[k1], a);
        }
      }
    }
  }

  /** A slot the conflict test finds free is free of every other stored appointment. */
  lemma FreeSlotBlocksNothing(store: map<int, Appointment>, k: int, doctorId: int, start: int, duration: int, excludeId: Option<int>)
    requires KeyedById(store, AppointmentId)
    requires excludeId.None? || excludeId == Some(k)
    requires !HasConflict(store, doctorId, start, duration, excludeId)
    ensures forall j :: j in store && j != k ==> !Blocks(store[j], doctorId, start, duration)
  {
    forall j | j in store && j != k
      ensures !Blocks(store[j], doctorId, start, duration)
    {
      assert AppointmentId(store[j]) == j;
      assert !Excluded(store[j], excludeId);
    }
  }
}
