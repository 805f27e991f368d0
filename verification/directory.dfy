/** The activity directory: an in-memory map from activity name to its record, and the
    three request handlers that read and change it (src/app.py). Each handler is a pure
    transition from the directory before the request to a response and the directory
    after it; a failing request leaves the directory exactly as it was. */
module Directory {
  import opened Roster

  /** Participants are identified by an email address; no format is checked. */
  type Email = string

  /** One catalog entry. `maxParticipants` is stored but never enforced. */
  datatype Activity = Activity(
    description: string,
    schedule: string,
    maxParticipants: int,
    participants: seq<Email>)

  /** The whole directory, keyed by activity name. */
  type Activities = map<string, Activity>

  /** The two caller-facing failures, each with the detail text the handler reports. */
  datatype Error = NotFound(detail: string) | Conflict(detail: string)

  datatype Response = Ok(message: string) | Err(error: Error)
  {
    /** The HTTP status the handlers answer with: 200, 404 for NotFound, 400 for Conflict. */
    function Status(): int
    {
      match this
      case Ok(_) => 200
      case Err(NotFound(_)) => 404
      case Err(Conflict(_)) => 400
    }
  }

  /** The outcome of one request: what the caller is told and the directory afterwards. */
  datatype Step = Step(response: Response, after: Activities)

  const ActivityNotFound: Error := NotFound("Activity not found")
  const AlreadySignedUp: Error := Conflict("Student already signed up")
  const ParticipantNotFound: Error := NotFound("Participant not found")

  /** The signup confirmation: "Signed up ", the email, " for ", the activity name. */
  function SignupMessage(email: Email, name: string): (m: string)
    ensures |m| == 15 + |email| + |name|
    ensures m[..10] == "Signed up "
    ensures m[10..10 + |email|] == email
    ensures m[10 + |email|..15 + |email|] == " for "
    ensures m[15 + |email|..] == name
  {
    "Signed up " + email + " for " + name
  }

  /** The unregister confirmation: "Unregistered ", the email, " from ", the activity name. */
  function UnregisterMessage(email: Email, name: string): (m: string)
    ensures |m| == 19 + |email| + |name|
    ensures m[..13] == "Unregistered "
    ensures m[13..13 + |email|] == email
    ensures m[13 + |email|..19 + |email|] == " from "
    ensures m[19 + |email|..] == name
  {
    "Unregistered " + email + " from " + name
  }

  /** A caller can always tell the two confirmations apart, whatever emails and
      activity names they carry. */
  lemma MessagesDiffer(e1: Email, n1: string, e2: Email, n2: string)
    ensures SignupMessage(e1, n1) != UnregisterMessage(e2, n2)
  {
    assert SignupMessage(e1, n1)[1] == 'i';
    assert UnregisterMessage(e2, n2)[1] == 'n';
  }

  /** The directory invariant: no roster lists the same email twice. */
  predicate Valid(d: Activities)
  {
    forall name :: name in d ==> NoDup(d[name].participants)
  }

  /** Frame of a handler acting on `name`: no activity is added or removed, every other
      activity is untouched, and the named one keeps its description, schedule and
      capacity; only its roster may differ. */
  predicate OnlyRosterOf(d: Activities, d': Activities, name: string)
  {
    && d'.Keys == d.Keys
    && (forall k :: k in d && k != name ==> d'[k] == d[k])
    && (name in d ==>
          && d'[name].description == d[name].description
          && d'[name].schedule == d[name].schedule
          && d'[name].maxParticipants == d[name].maxParticipants)
  }

  /** `get_activities`: the directory is returned as it stands, so a listing shows every
      activity with its current record, every earlier roster change included. */
  function GetActivities(d: Activities): (r: Activities)
    ensures r.Keys == d.Keys
    ensures forall name :: name in d ==> r[name] == d[name]
  {
    d
  }

  /** `signup_for_activity`: reject an unknown activity, then an email already on its
      roster; otherwise append the email. Capacity is not consulted. */
  function Signup(d: Activities, name: string, email: Email): (r: Step)
    ensures OnlyRosterOf(d, r.after, name)
    ensures name !in d ==> r.response == Err(ActivityNotFound) && r.after == d
    ensures name in d && email in d[name].participants ==>
              r.response == Err(AlreadySignedUp) && r.after == d
    ensures r.response.Ok? <==> name in d && email !in d[name].participants
    ensures r.response.Ok? ==>
              && r.response.message == SignupMessage(email, name)
              && |r.after[name].participants| == |d[name].participants| + 1
              && r.after[name].participants[..|d[name].participants|] == d[name].participants
              && r.after[name].participants[|d[name].participants|] == email
  {
    if name !in d then
      Step(Err(ActivityNotFound), d)
    else
      var activity := d[name];
      if email in activity.participants then
        Step(Err(AlreadySignedUp), d)
      else
        var roster := activity.participants + [email];
        assert roster[..|activity.participants|] == activity.participants;
        Step(Ok(SignupMessage(email, name)), d[name := activity.(participants := roster)])
  }

  /** `unregister_from_activity`: reject an unknown activity, then an email not on its
      roster (also NotFound); otherwise remove the email's first occurrence. */
  function Unregister(d: Activities, name: string, email: Email): (r: Step)
    ensures OnlyRosterOf(d, r.after, name)
    ensures name !in d ==> r.response == Err(ActivityNotFound) && r.after == d
    ensures name in d && email !in d[name].participants ==>
              r.response == Err(ParticipantNotFound) && r.after == d
    ensures r.response.Ok? <==> name in d && email in d[name].participants
    ensures r.response.Ok? ==>
              && r.response.message == UnregisterMessage(email, name)
              && |r.after[name].participants| == |d[name].participants| - 1
              && (forall k :: 0 <= k < IndexOf(d[name].participants, email) ==>
                    r.after[name].participants[k] == d[name].participants[k])
              && (forall k :: IndexOf(d[name].participants, email) <= k < |r.after[name].participants| ==>
                    r.after[name].participants[k] == d[name].participants[k + 1])
  {
    if name !in d then
      Step(Err(ActivityNotFound), d)
    else
      var activity := d[name];
      if email !in activity.participants then
        Step(Err(ParticipantNotFound), d)
      else
        var roster := RemoveFirst(activity.participants, email);
        Step(Ok(UnregisterMessage(email, name)), d[name := activity.(participants := roster)])
  }

  /** A successful signup lists the email exactly once and keeps the invariant. */
  lemma SignupKeepsValid(d: Activities, name: string, email: Email)
    ensures Valid(d) ==> Valid(Signup(d, name, email).after)
    ensures Signup(d, name, email).response.Ok? ==>
              multiset(Signup(d, name, email).after[name].participants)[email] == 1
  {
  }

  /** A successful unregister keeps the invariant and, because of it, leaves the email
      off the roster altogether; every other participant stays, exactly once. */
  lemma UnregisterKeepsValid(d: Activities, name: string, email: Email)
    ensures Valid(d) ==> Valid(Unregister(d, name, email).after)
    ensures Valid(d) && Unregister(d, name, email).response.Ok? ==>
              email !in Unregister(d, name, email).after[name].participants
    ensures Unregister(d, name, email).response.Ok? ==>
              multiset(Unregister(d, name, email).after[name].participants)
                 == multiset(d[name].participants) - multiset{email}
  {
    var r := Unregister(d, name, email);
    if r.response.Ok? {
      if Valid(d) {
        RemoveFromNoDup(d[name].participants, email);
      }
      RemoveFirstMultiset(d[name].participants, email);
    }
  }

  /** Round trip: after a successful signup, unregistering the same email from the same
      activity succeeds and restores the directory exactly, roster order included. */
  lemma SignupThenUnregister(d: Activities, name: string, email: Email)
    requires Signup(d, name, email).response.Ok?
    ensures Unregister(Signup(d, name, email).after, name, email).response.Ok?
    ensures Unregister(Signup(d, name, email).after, name, email).after == d
  {
    var s := Signup(d, name, email).after;
    var u := Unregister(s, name, email).after;
    var roster := d[name].participants;
    assert s[name].participants == roster + [email];
    RemoveAppended(roster, email);
    assert u[name] == d[name];
  }

  /** The reverse trip on a valid directory: withdrawing and signing up again succeeds,
      brings back the same set of participants and the same directory elsewhere; the
      email moves to the end of the roster. */
  lemma UnregisterThenSignup(d: Activities, name: string, email: Email)
    requires Valid(d)
    requires Unregister(d, name, email).response.Ok?
    ensures Signup(Unregister(d, name, email).after, name, email).response.Ok?
    ensures OnlyRosterOf(d, Signup(Unregister(d, name, email).after, name, email).after, name)
    ensures multiset(Signup(Unregister(d, name, email).after, name, email).after[name].participants)
            == multiset(d[name].participants)
  {
    var u := Unregister(d, name, email).after;
    var s := Signup(u, name, email).after;
    UnregisterKeepsValid(d, name, email);
    assert s[name].participants == u[name].participants + [email];
    RemoveFirstMultiset(d[name].participants, email);
  }

  /** Signup never looks at capacity: whatever `maxParticipants` says, the response is
      the same, and a full or over-full activity still accepts a new email. */
  lemma SignupIgnoresCapacity(d: Activities, name: string, email: Email, cap: int)
    requires name in d
    ensures Signup(d[name := d[name].(maxParticipants := cap)], name, email).response
            == Signup(d, name, email).response
    ensures email !in d[name].participants && |d[name].participants| >= d[name].maxParticipants ==>
              && Signup(d, name, email).response.Ok?
              && |Signup(d, name, email).after[name].participants| > d[name].maxParticipants
  {
  }
}
