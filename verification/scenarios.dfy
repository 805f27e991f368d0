/** The request sequences the repository's tests walk through (tests/test_app.py),
    stated for every directory they apply to; further concrete requests on the
    initial catalog; and the catalog's stability over a whole process lifetime. */
module Scenarios {
  import opened Roster
  import opened Directory
  import opened Catalog
  import opened Session

  /** Listing the freshly started directory shows the built-in activities. */
  lemma ListingShowsCatalog()
    ensures "Chess Club" in GetActivities(Initial)
    ensures GetActivities(Initial).Keys == Names
  {
  }

  /** Signing up an email not yet on an activity's roster answers 200, and the next
      listing shows the email on that roster exactly once. */
  lemma SignupIsReflected(d: Activities, name: string, email: Email)
    requires name in d && email !in d[name].participants
    ensures Signup(d, name, email).response.Status() == 200
    ensures email in GetActivities(Signup(d, name, email).after)[name].participants
    ensures multiset(GetActivities(Signup(d, name, email).after)[name].participants)[email] == 1
  {
  }

  /** Signing up the same email twice: the second request answers 400 and changes
      nothing, the roster's length included. */
  lemma SignupTwice(d: Activities, name: string, email: Email)
    requires Signup(d, name, email).response.Ok?
    ensures Signup(Signup(d, name, email).after, name, email).response == Err(AlreadySignedUp)
    ensures Signup(Signup(d, name, email).after, name, email).response.Status() == 400
    ensures Signup(Signup(d, name, email).after, name, email).after == Signup(d, name, email).after
  {
  }

  /** Unregistering from an activity whose roster holds the email, after signing it up
      first when it is missing, answers 200 and leaves the email off the roster. */
  lemma UnregisterAfterEnsuredSignup(d: Activities, name: string, email: Email)
    requires Valid(d) && name in d
    ensures var d1 := if email in d[name].participants then d else Signup(d, name, email).after;
            && Unregister(d1, name, email).response.Status() == 200
            && email !in Unregister(d1, name, email).after[name].participants
  {
  }

  /** On the freshly started directory, a first signup of a new email to the chess club
      answers 200 and a repeat answers 400. */
  lemma ChessClubSignupTwice()
    ensures Signup(Initial, "Chess Club", "x@example.com").response.Status() == 200
    ensures Signup(Signup(Initial, "Chess Club", "x@example.com").after,
                   "Chess Club", "x@example.com").response.Status() == 400
  {
  }

  /** Signing up for an activity the catalog does not hold answers 404. */
  lemma UnknownClubSignup()
    ensures Signup(Initial, "Unknown Club", "x@example.com").response.Status() == 404
  {
  }

  /** Withdrawing from the chess club an email that never signed up answers 404. */
  lemma NotEnrolledUnregister()
    ensures Unregister(Initial, "Chess Club", "not-enrolled@example.com").response
            == Err(ParticipantNotFound)
  {
  }

  /** However many requests the process serves, the directory still holds exactly the
      nine built-in activities with their original descriptions, schedules and
      capacities, and no roster lists an email twice. */
  lemma CatalogIsStable(reqs: seq<Request>)
    ensures Run(Initial, reqs).Keys == Names
    ensures |Run(Initial, reqs)| == 9
    ensures Valid(Run(Initial, reqs))
    ensures forall name :: name in Initial ==>
              && Run(Initial, reqs)[name].description == Initial[name].description
              && Run(Initial, reqs)[name].schedule == Initial[name].schedule
              && Run(Initial, reqs)[name].maxParticipants == Initial[name].maxParticipants
  {
    InitialShape();
  }
}
