/** The leave-request controller: a store of leave records keyed by id and the
    operations create, list own, list all, update status, get by id and delete.
    Dates and clock readings are integer milliseconds. */
module Leaves {
  import opened Common

  type LeaveId = nat

  /** `1000 * 3600 * 24`: milliseconds in a day. */
  const MS_PER_DAY: int := 1000 * 3600 * 24

  datatype Status = Pending | Approved | Rejected

  datatype LeaveRecord = LeaveRecord(
    id: LeaveId,
    owner: UserId,
    startDate: int,
    endDate: int,
    reason: string,
    status: Status,
    totalDays: int,
    createdAt: int,
    updatedAt: int)

  /** The `count` and `leaves` fields of a listing reply. */
  datatype Listing = Listing(count: nat, leaves: seq<LeaveRecord>)

  const MissingFields := Error(400, "Please provide all required fields")
  const EndBeforeStart := Error(400, "End date cannot be before start date")
  const InvalidStatus := Error(400, "Invalid status. Must be \"Approved\" or \"Rejected\"")
  const LeaveNotFound := Error(404, "Leave request not found")
  const ViewForbidden := Error(403, "Not authorized to view this leave request")
  const DeleteForbidden := Error(403, "Not authorized to delete this leave request")
  const NotPending := Error(400, "Cannot delete a leave request that is not pending")

  /** `Math.ceil(a / d)` on integers, with `d` positive. */
  function CeilDiv(a: int, d: int): (q: int)
    requires d > 0
    ensures (q - 1) * d < a <= q * d
  {
    if a % d == 0 then a / d else a / d + 1
  }

  /** The inclusive day count of a leave: whole days started between the two
      instants, plus one. */
  function DayCount(startDate: int, endDate: int): (n: int)
    ensures (n - 2) * MS_PER_DAY < endDate - startDate <= (n - 1) * MS_PER_DAY
    ensures endDate >= startDate ==> n >= 1
  {
    CeilDiv(endDate - startDate, MS_PER_DAY) + 1
  }

  /** Dates two whole days apart give three days, e.g. 2024-01-10 to
      2024-01-12 (UTC midnights). */
  lemma DayCountExampleThreeDays()
    ensures DayCount(1704844800000, 1705017600000) == 3
    ensures DayCount(0, 2 * MS_PER_DAY) == 3
  {
    assert 1705017600000 - 1704844800000 == 2 * MS_PER_DAY;
  }

  /** Equal dates are a one-day leave; a start of part of a day already counts
      as a second day. */
  lemma DayCountExamplePartialDay(t: int)
    ensures DayCount(t, t) == 1
    ensures DayCount(t, t + 1) == 2
    ensures DayCount(t, t + MS_PER_DAY) == 2
    ensures DayCount(t, t + MS_PER_DAY + 1) == 3
  {
  }

  /** A stored record satisfies the create-time rules: ordered dates, a
      non-empty reason and the day count derived from the dates. */
  predicate WellFormed(r: LeaveRecord)
  {
    && r.startDate <= r.endDate
    && r.reason != ""
    && r.totalDays == DayCount(r.startDate, r.endDate)
  }

  /** The string a status is stored and sent as. */
  function StatusName(s: Status): string
  {
    match s
    case Pending => "Pending"
    case Approved => "Approved"
    case Rejected => "Rejected"
  }

  /** The status value of an update request, when it is one the controller accepts. */
  function Decision(status: Option<string>): (d: Option<Status>)
    ensures d.Some? <==> status == Some("Approved") || status == Some("Rejected")
    ensures d.Some? ==> d.value != Pending && status == Some(StatusName(d.value))
  {
    if status == Some("Approved") then Some(Approved)
    else if status == Some("Rejected") then Some(Rejected)
    else None
  }

  /** Which records a listing returns: those of one owner, or all of them. */
  predicate Selected(r: LeaveRecord, owner: Option<UserId>)
  {
    owner.None? || r.owner == owner.value
  }

  /** Newest first: `createdAt` does not increase along the sequence. */
  predicate NewestFirst(s: seq<LeaveRecord>)
  {
    forall i, j :: 0 <= i < j < |s| ==> s[i].createdAt >= s[j].createdAt
  }

  /** No record appears twice. */
  ghost predicate NoDuplicates(s: seq<LeaveRecord>)
  {
    forall x :: multiset(s)[x] <= 1
  }

  /** Places `x` into a newest-first sequence. */
  function InsertNewestFirst(s: seq<LeaveRecord>, x: LeaveRecord): (r: seq<LeaveRecord>)
    requires NewestFirst(s)
    ensures NewestFirst(r)
    ensures multiset(r) == multiset(s) + multiset{x}
  {
    if s == [] || x.createdAt >= s[0].createdAt then [x] + s
    else
      TailNewestFirst(s);
      var rest := InsertNewestFirst(s[1..], x);
      assert s == [s[0]] + s[1..];
      HeadBoundsRest(s, x, rest);
      ConsNewestFirst(s[0], rest);
      [s[0]] + rest
  }

  /** The rest of a newest-first sequence is newest first. */
  lemma TailNewestFirst(s: seq<LeaveRecord>)
    requires NewestFirst(s) && s != []
    ensures NewestFirst(s[1..])
  {
    forall i, j | 0 <= i < j < |s| - 1 ensures s[1..][i].createdAt >= s[1..][j].createdAt {
      assert s[1..][i] == s[i + 1] && s[1..][j] == s[j + 1];
    }
  }

  /** A record at least as new as every element of a newest-first sequence
      may go in front of it. */
  lemma ConsNewestFirst(h: LeaveRecord, rest: seq<LeaveRecord>)
    requires NewestFirst(rest)
    requires forall j :: 0 <= j < |rest| ==> rest[j].createdAt <= h.createdAt
    ensures NewestFirst([h] + rest)
  {
    var r := [h] + rest;
    forall i, j | 0 <= i < j < |r| ensures r[i].createdAt >= r[j].createdAt {
      assert r[j] == rest[j - 1];
      if i > 0 {
        assert r[i] == rest[i - 1];
      }
    }
  }

  /** When `x` goes behind the head of `s`, the head is at least as new as
      every element of the rest. */
  lemma HeadBoundsRest(s: seq<LeaveRecord>, x: LeaveRecord, rest: seq<LeaveRecord>)
    requires NewestFirst(s) && s != [] && x.createdAt < s[0].createdAt
    requires multiset(rest) == multiset(s[1..]) + multiset{x}
    ensures forall j :: 0 <= j < |rest| ==> rest[j].createdAt <= s[0].createdAt
  {
    forall j | 0 <= j < |rest| ensures rest[j].createdAt <= s[0].createdAt {
      assert rest[j] in multiset(rest);
      if rest[j] != x {
        assert rest[j] in multiset(s[1..]);
        var k :| 0 <= k < |s[1..]| && s[1..][k] == rest[j];
        assert s[k + 1] == rest[j];
      }
    }
  }

  /** The elements after an insertion are the old ones and `x`. */
  lemma InsertMembers(s: seq<LeaveRecord>, x: LeaveRecord)
    requires NewestFirst(s)
    ensures forall y :: y in InsertNewestFirst(s, x) <==> y in s || y == x
  {
    var r := InsertNewestFirst(s, x);
    forall y ensures y in r <==> y in s || y == x {
      assert y in r <==> y in multiset(r);
      assert y in s <==> y in multiset(s);
    }
  }

  class LeaveStore {
    /** The leave collection, keyed by record id. */
    var leaves: map<LeaveId, LeaveRecord>
    /** The next id the store hands out; every stored id is below it. */
    var nextId: LeaveId

    ghost predicate Valid()
      reads this
    {
      forall id :: id in leaves ==> id < nextId && leaves[id].id == id && WellFormed(leaves[id])
    }

    constructor ()
      ensures Valid() && leaves == map[] && nextId == 0
    {
      leaves := map[];
      nextId := 0;
    }

    /** `createLeave`: validates the body, then stores a Pending record owned by
        the caller. Missing fields are reported before the dates are compared. */
    method Create(caller: Caller, startDate: Option<int>, endDate: Option<int>, reason: Option<string>, now: int)
      returns (r: Result<LeaveRecord>)
      requires Valid()
      modifies this
      ensures Valid()
      ensures startDate.None? || endDate.None? || !Present(reason) ==>
        r == Err(MissingFields) && leaves == old(leaves) && nextId == old(nextId)
      ensures startDate.Some? && endDate.Some? && Present(reason) && endDate.value < startDate.value ==>
        r == Err(EndBeforeStart) && leaves == old(leaves) && nextId == old(nextId)
      ensures startDate.Some? && endDate.Some? && Present(reason) && endDate.value >= startDate.value ==>
        && r.Ok?
        && r.value.id !in old(leaves)
        && r.value == LeaveRecord(r.value.id, caller.id, startDate.value, endDate.value, reason.value,
                                  Pending, DayCount(startDate.value, endDate.value), now, now)
        && leaves == old(leaves)[r.value.id := r.value]
        && nextId == r.value.id + 1
    {
      if startDate.None? || endDate.None? || !Present(reason) {
        return Err(MissingFields);
      }
      var start, end := startDate.value, endDate.value;
      if end < start {
        return Err(EndBeforeStart);
      }
      var totalDays := DayCount(start, end);
      var leave := LeaveRecord(nextId, caller.id, start, end, reason.value, Pending, totalDays, now, now);
      leaves := leaves[nextId := leave];
      nextId := nextId + 1;
      r := Ok(leave);
    }

    /** The records selected by `owner`, each once, newest first: the query
        `find(filter).sort({ createdAt: -1 })`. */
    method Query(owner: Option<UserId>) returns (r: seq<LeaveRecord>)
      requires Valid()
      ensures forall x :: x in r ==> x.id in leaves && leaves[x.id] == x && Selected(x, owner)
      ensures forall id :: id in leaves && Selected(leaves[id], owner) ==> leaves[id] in r
      ensures NoDuplicates(r)
      ensures NewestFirst(r)
    {
      r := [];
      var todo := leaves.Keys;
      while todo != {}
        invariant todo <= leaves.Keys
        invariant forall x :: x in r ==> x.id in leaves && x.id !in todo && leaves[x.id] == x && Selected(x, owner)
        invariant forall id :: id in leaves && id !in todo && Selected(leaves[id], owner) ==> leaves[id] in r
        invariant NoDuplicates(r)
        invariant NewestFirst(r)
        decreases todo
      {
        var id :| id in todo;
        var x := leaves[id];
        if Selected(x, owner) {
          assert x !in r;
          InsertMembers(r, x);
          r := InsertNewestFirst(r, x);
        }
        todo := todo - {id};
      }
    }

    /** `getMyLeaves`: exactly the caller's records, newest first. */
    method MyLeaves(caller: Caller) returns (l: Listing)
      requires Valid()
      ensures l.count == |l.leaves|
      ensures forall x :: x in l.leaves ==> x.id in leaves && leaves[x.id] == x && x.owner == caller.id
      ensures forall id :: id in leaves && leaves[id].owner == caller.id ==> leaves[id] in l.leaves
      ensures NoDuplicates(l.leaves) && NewestFirst(l.leaves)
    {
      var rs := Query(Some(caller.id));
      l := Listing(|rs|, rs);
    }

    /** `getAllLeaves`: every record, newest first. */
    method AllLeaves() returns (l: Listing)
      requires Valid()
      ensures l.count == |l.leaves|
      ensures forall x :: x in l.leaves ==> x.id in leaves && leaves[x.id] == x
      ensures forall id :: id in leaves ==> leaves[id] in l.leaves
      ensures NoDuplicates(l.leaves) && NewestFirst(l.leaves)
    {
      var rs := Query(None);
      l := Listing(|rs|, rs);
    }

    /** `updateLeaveStatus`: the status value is checked before the lookup, and a
        record in any status may be decided again. */
    method UpdateStatus(id: LeaveId, status: Option<string>, now: int) returns (r: Result<LeaveRecord>)
      requires Valid()
      modifies this
      ensures Valid() && nextId == old(nextId)
      ensures Decision(status).None? ==> r == Err(InvalidStatus) && leaves == old(leaves)
      ensures Decision(status).Some? && id !in old(leaves) ==> r == Err(LeaveNotFound) && leaves == old(leaves)
      ensures Decision(status).Some? && id in old(leaves) ==>
        && r == Ok(old(leaves)[id].(status := Decision(status).value, updatedAt := now))
        && leaves == old(leaves)[id := r.value]
    {
      var decision := Decision(status);
      if decision.None? {
        return Err(InvalidStatus);
      }
      if id !in leaves {
        return Err(LeaveNotFound);
      }
      var leave := leaves[id];
      leave := leave.(status := decision.value, updatedAt := now);
      leaves := leaves[id := leave];
      r := Ok(leave);
    }

    /** `getLeaveById`: unknown ids are not found whatever the role; an employee
        may read only their own records, any other role any record. */
    function GetById(caller: Caller, id: LeaveId): (r: Result<LeaveRecord>)
      reads this
      ensures id !in leaves ==> r == Err(LeaveNotFound)
      ensures r == Err(ViewForbidden) <==> id in leaves && caller.role == EMPLOYEE && leaves[id].owner != caller.id
      ensures r.Ok? <==> id in leaves && (caller.role == EMPLOYEE ==> leaves[id].owner == caller.id)
      ensures r.Ok? ==> r.value == leaves[id]
    {
      if id !in leaves then Err(LeaveNotFound)
      else if caller.role == EMPLOYEE && leaves[id].owner != caller.id then Err(ViewForbidden)
      else Ok(leaves[id])
    }

    /** `deleteLeave`: an employee may remove only their own Pending records
        (ownership is checked first); any other role may remove any record. */
    method Delete(caller: Caller, id: LeaveId) returns (r: Outcome)
      requires Valid()
      modifies this
      ensures Valid() && nextId == old(nextId)
      ensures id !in old(leaves) ==> r == Fail(LeaveNotFound) && leaves == old(leaves)
      ensures id in old(leaves) && caller.role == EMPLOYEE && old(leaves)[id].owner != caller.id ==>
        r == Fail(DeleteForbidden) && leaves == old(leaves)
      ensures id in old(leaves) && caller.role == EMPLOYEE && old(leaves)[id].owner == caller.id
              && old(leaves)[id].status != Pending ==>
        r == Fail(NotPending) && leaves == old(leaves)
      ensures id in old(leaves) && (caller.role == EMPLOYEE ==>
                                      old(leaves)[id].owner == caller.id && old(leaves)[id].status == Pending) ==>
        r == Pass && leaves == old(leaves) - {id}
    {
      if id !in leaves {
        return Fail(LeaveNotFound);
      }
      var leave := leaves[id];
      if caller.role == EMPLOYEE {
        if leave.owner != caller.id {
          return Fail(DeleteForbidden);
        }
        if leave.status != Pending {
          return Fail(NotPending);
        }
      }
      leaves := leaves - {id};
      r := Pass;
    }
  }

  /** A status update keeps a record well formed, and keeps its id, owner,
      dates, day count and creation time. */
  lemma UpdateKeepsRecord(before: LeaveRecord, d: Status, now: int)
    requires WellFormed(before)
    ensures var after := before.(status := d, updatedAt := now);
      && WellFormed(after)
      && after.owner == before.owner && after.id == before.id
      && after.startDate == before.startDate && after.endDate == before.endDate
      && after.totalDays == before.totalDays && after.createdAt == before.createdAt
  {
  }

  /** The lifecycle walk-through: employee A books 2024-01-10 to 2024-01-12,
      the admin approves, employee B may not read it, and A may no longer
      delete it. */
  method Scenario()
  {
    var store := new LeaveStore();
    var a := Caller(1, EMPLOYEE);
    var b := Caller(2, EMPLOYEE);
    var boss := Caller(3, ADMIN);
    var created := store.Create(a, Some(1704844800000), Some(1705017600000), Some("trip"), 1700000000000);
    DayCountExampleThreeDays();
    assert created.Ok? && created.value.totalDays == 3 && created.value.status == Pending;
    var id := created.value.id;
    var updated := store.UpdateStatus(id, Some("Approved"), 1700000001000);
    assert updated.Ok? && updated.value.status == Approved;
    assert store.GetById(b, id) == Err(ViewForbidden);
    assert store.GetById(boss, id).Ok?;
    var removed := store.Delete(a, id);
    assert removed == Fail(NotPending);
    assert id in store.leaves;
  }
}
