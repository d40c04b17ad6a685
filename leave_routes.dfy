/** The leave routes: which guard each route runs before its controller
    operation, and the composition of the two. `protect` needs an
    authenticated caller; `authorize('admin')` additionally needs the admin
    role. */
module LeaveRoutes {
  import opened Common
  import opened Leaves

  /** One request to the leave API, with the body and path fields the
      controller reads. */
  datatype Route =
    | CreateLeave(startDate: Option<int>, endDate: Option<int>, reason: Option<string>)  // POST /
    | MyLeaves                                                                        // GET /my-leaves
    | AllLeaves                                                                       // GET /all
    | UpdateStatus(id: LeaveId, status: Option<string>)                               // PUT /:id/status
    | GetLeave(id: LeaveId)                                                           // GET /:id
    | DeleteLeave(id: LeaveId)                                                        // DELETE /:id

  /** The middleware chain in front of a controller. */
  datatype Guard = Protect | ProtectAuthorize(roles: set<string>)

  /** What the router answers. */
  datatype Response =
    | Created(leave: LeaveRecord)
    | Listed(listing: Listing)
    | Found(leave: LeaveRecord)
    | Updated(leave: LeaveRecord)
    | Removed
    | Failed(error: Error)

  /** The replies of the middleware; their wording is not part of this model. */
  const NotAuthenticated := Error(401, "Not authorized")
  const RoleForbidden := Error(403, "Forbidden")

  /** The route table. */
  function GuardOf(route: Route): (g: Guard)
    ensures g.ProtectAuthorize? <==> route.AllLeaves? || route.UpdateStatus?
    ensures g.ProtectAuthorize? ==> g.roles == {ADMIN}
  {
    match route
    case CreateLeave(_, _, _) => Protect
    case MyLeaves => Protect
    case AllLeaves => ProtectAuthorize({ADMIN})
    case UpdateStatus(_, _) => ProtectAuthorize({ADMIN})
    case GetLeave(_) => Protect
    case DeleteLeave(_) => Protect
  }

  /** Runs a route's guard: no caller is a 401, a caller without one of the
      route's roles a 403. */
  function Gate(route: Route, auth: Option<Caller>): (o: Outcome)
    ensures o.Pass? <==> auth.Some? && (route.AllLeaves? || route.UpdateStatus? ==> auth.value.role == ADMIN)
    ensures o == Fail(NotAuthenticated) <==> auth.None?
    ensures o == Fail(RoleForbidden) <==>
      auth.Some? && (route.AllLeaves? || route.UpdateStatus?) && auth.value.role != ADMIN
  {
    if auth.None? then Fail(NotAuthenticated)
    else match GuardOf(route)
      case Protect => Pass
      case ProtectAuthorize(roles) => if auth.value.role in roles then Pass else Fail(RoleForbidden)
  }

  /** Creating and listing one's own requests only need authentication, so an
      admin may file a request too. */
  lemma AnyAuthenticatedCallerMayCreateAndListOwn(c: Caller, s: Option<int>, e: Option<int>, reason: Option<string>, id: LeaveId)
    ensures Gate(CreateLeave(s, e, reason), Some(c)) == Pass
    ensures Gate(MyLeaves, Some(c)) == Pass
    ensures Gate(GetLeave(id), Some(c)) == Pass && Gate(DeleteLeave(id), Some(c)) == Pass
  {
  }

  /** A non-admin never reaches the status update, whatever the status value
      and whether or not the record exists. */
  lemma NonAdminCannotDecide(c: Caller, id: LeaveId, status: Option<string>)
    requires c.role != ADMIN
    ensures Gate(UpdateStatus(id, status), Some(c)) == Fail(RoleForbidden)
    ensures Gate(AllLeaves, Some(c)) == Fail(RoleForbidden)
  {
  }

  /** The router: the guard first, then the controller operation. */
  method Handle(store: LeaveStore, route: Route, auth: Option<Caller>, now: int) returns (resp: Response)
    requires store.Valid()
    modifies store
    ensures store.Valid()
    ensures Gate(route, auth).Fail? ==>
      resp == Failed(Gate(route, auth).error) && store.leaves == old(store.leaves) && store.nextId == old(store.nextId)
    ensures route.MyLeaves? || route.AllLeaves? || route.GetLeave? ==>
      store.leaves == old(store.leaves) && store.nextId == old(store.nextId)
    ensures Gate(route, auth).Pass? && route.GetLeave? ==>
      resp == (match store.GetById(auth.value, route.id) case Ok(l) => Found(l) case Err(e) => Failed(e))
    ensures Gate(route, auth).Pass? && (route.MyLeaves? || route.AllLeaves?) ==>
      && resp.Listed?
      && resp.listing.count == |resp.listing.leaves|
      && NewestFirst(resp.listing.leaves) && NoDuplicates(resp.listing.leaves)
      && (forall x :: x in resp.listing.leaves <==>
            x.id in store.leaves && store.leaves[x.id] == x && (route.MyLeaves? ==> x.owner == auth.value.id))
    ensures Gate(route, auth).Pass? && route.UpdateStatus? ==>
      match Decision(route.status)
      case None => resp == Failed(InvalidStatus) && store.leaves == old(store.leaves) && store.nextId == old(store.nextId)
      case Some(d) =>
        && store.nextId == old(store.nextId)
        && if route.id in old(store.leaves) then
             && resp == Updated(old(store.leaves)[route.id].(status := d, updatedAt := now))
             && store.leaves == old(store.leaves)[route.id := resp.leave]
           else resp == Failed(LeaveNotFound) && store.leaves == old(store.leaves)
    ensures Gate(route, auth).Pass? && route.CreateLeave? ==>
      if route.startDate.None? || route.endDate.None? || !Present(route.reason) then
        resp == Failed(MissingFields) && store.leaves == old(store.leaves) && store.nextId == old(store.nextId)
      else if route.endDate.value < route.startDate.value then
        resp == Failed(EndBeforeStart) && store.leaves == old(store.leaves) && store.nextId == old(store.nextId)
      else
        && resp.Created?
        && resp.leave.id !in old(store.leaves)
        && resp.leave == LeaveRecord(resp.leave.id, auth.value.id, route.startDate.value, route.endDate.value,
                                     route.reason.value, Pending,
                                     DayCount(route.startDate.value, route.endDate.value), now, now)
        && store.leaves == old(store.leaves)[resp.leave.id := resp.leave]
        && store.nextId == resp.leave.id + 1
    ensures Gate(route, auth).Pass? && route.DeleteLeave? ==>
      && store.nextId == old(store.nextId)
      && if route.id !in old(store.leaves) then resp == Failed(LeaveNotFound) && store.leaves == old(store.leaves)
         else if auth.value.role == EMPLOYEE && old(store.leaves)[route.id].owner != auth.value.id then
           resp == Failed(DeleteForbidden) && store.leaves == old(store.leaves)
         else if auth.value.role == EMPLOYEE && old(store.leaves)[route.id].status != Pending then
           resp == Failed(NotPending) && store.leaves == old(store.leaves)
         else resp == Removed && store.leaves == old(store.leaves) - {route.id}
  {
    var gate := Gate(route, auth);
    if gate.Fail? {
      return Failed(gate.error);
    }
    var caller := auth.value;
    match route
    case CreateLeave(s, e, reason) =>
      var r := store.Create(caller, s, e, reason, now);
      resp := if r.Ok? then Created(r.value) else Failed(r.error);
    case MyLeaves =>
      var l := store.MyLeaves(caller);
      resp := Listed(l);
    case AllLeaves =>
      var l := store.AllLeaves();
      resp := Listed(l);
    case UpdateStatus(id, status) =>
      var r := store.UpdateStatus(id, status, now);
      resp := if r.Ok? then Updated(r.value) else Failed(r.error);
    case GetLeave(id) =>
      var r := store.GetById(caller, id);
      resp := if r.Ok? then Found(r.value) else Failed(r.error);
    case DeleteLeave(id) =>
      var r := store.Delete(caller, id);
      resp := if r.Pass? then Removed else Failed(r.error);
  }
}
