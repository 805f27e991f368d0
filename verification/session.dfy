/** A process lifetime: the catalog is set up once and then serves signup and
    unregister requests one after another, each an atomic step (src/app.py). */
module Session {
  import opened Directory

  datatype Request =
    | SignupRequest(name: string, email: Email)
    | UnregisterRequest(name: string, email: Email)

  /** Dispatches one request to its handler. */
  function Handle(d: Activities, req: Request): (r: Step)
    ensures OnlyRosterOf(d, r.after, req.name)
    ensures Valid(d) ==> Valid(r.after)
    ensures r.response.Err? ==> r.after == d
  {
    match req
    case SignupRequest(name, email) =>
      SignupKeepsValid(d, name, email);
      Signup(d, name, email)
    case UnregisterRequest(name, email) =>
      UnregisterKeepsValid(d, name, email);
      Unregister(d, name, email)
  }

  /** Two directories list the same activities with the same descriptions, schedules
      and capacities; only rosters may differ. */
  predicate SameCatalog(d: Activities, d': Activities)
  {
    && d'.Keys == d.Keys
    && forall k :: k in d ==>
         && d'[k].description == d[k].description
         && d'[k].schedule == d[k].schedule
         && d'[k].maxParticipants == d[k].maxParticipants
  }

  /** The directory after serving `reqs` in order: whatever the requests, no activity
      appears or disappears, no description, schedule or capacity changes, and no
      roster ever lists an email twice. */
  function Run(d: Activities, reqs: seq<Request>): (r: Activities)
    ensures SameCatalog(d, r)
    ensures Valid(d) ==> Valid(r)
    decreases |reqs|
  {
    if |reqs| == 0 then d
    else Run(Handle(d, reqs[0]).after, reqs[1..])
  }
}
