# Mergington High School activity directory, in Dafny

The system is a small API that lets students view extracurricular activities and sign
up for them. Its logic is one in-memory directory: a map from activity name to a
record holding a description, a schedule, a capacity (`max_participants`) and an
ordered roster of participant emails. The directory starts from a fixed catalog of nine
activities. Three handlers serve it:

- `get_activities` returns the directory as it stands.
- `signup_for_activity` rejects an unknown activity (404, "Activity not found") and an
  email already on the roster (400, "Student already signed up"). Otherwise it appends
  the email.
- `unregister_from_activity` rejects an unknown activity (404) and an email not on the
  roster (404, "Participant not found"). Otherwise it removes the first occurrence of
  the email.

The model treats each handler as a pure function from the directory before a request
to a `Step`: the response and the directory after the request.

- `roster.dfy` (module `Roster`): rosters as sequences. It defines the no-duplicates
  predicate and `RemoveFirst`, which models Python's `list.remove`. `RemoveFirst` is
  specified against `IndexOf`, an independent definition of the first occurrence.
- `directory.dfy` (module `Directory`): the `Activity` record, the `NotFound` and
  `Conflict` errors with the source's detail texts, and the three handlers. It also
  proves the invariant, frame and round-trip lemmas.
- `catalog.dfy` (module `Catalog`): the nine-entry built-in catalog as a constant, and
  its shape.
- `session.dfy` (module `Session`): a process lifetime as a sequence of requests served
  one after another.
- `scenarios.dfy` (module `Scenarios`): the tests' request sequences, stated for every
  directory they apply to, and further concrete requests on the initial catalog.

The confirmation messages are modelled as the same concatenations the handlers
format. HTTP status codes appear only as `Response.Status`, which maps `Ok` to 200,
`NotFound` to 404 and `Conflict` to 400. Capacity is stored and never consulted, as in
the source.

## Model

| member | source | states |
|---|---|---|
| Roster.IndexOf | src/app.py:121 | for a roster holding the email, a position where the email is and before which it does not occur: the occurrence `list.remove` deletes |
| Roster.RemoveFirst | src/app.py:121 | removing an email that is absent leaves the roster unchanged; otherwise the roster shrinks by one, entries before the first occurrence stay in place and entries after it shift down by one, so relative order is kept |
| Roster.RemoveFirstMultiset | src/app.py:121 | removal takes away exactly one copy of the email and no other participant |
| Roster.AppendFresh | src/app.py:105-108 | appending an email not yet listed keeps the roster duplicate-free, lists the email exactly once and keeps the earlier entries in order |
| Roster.RemoveFromNoDup | src/app.py:119-121 | removing from a duplicate-free roster keeps it duplicate-free and leaves the email absent |
| Roster.RemoveAppended | src/app.py:105-121 | removing an email just appended to a roster that lacked it gives back the original roster exactly |
| Directory.GetActivities | src/app.py:89-91 | the listing is the live directory itself: the same activities, each with its current record, so the next listing shows every roster change |
| Directory.SignupMessage | src/app.py:109 | the signup confirmation is "Signed up ", then the email, then " for ", then the activity name |
| Directory.UnregisterMessage | src/app.py:122 | the unregister confirmation is "Unregistered ", then the email, then " from ", then the activity name |
| Directory.MessagesDiffer | src/app.py:109-122 | no signup confirmation equals any unregister confirmation, whatever the emails and names |
| Directory.Signup | src/app.py:94-109 | unknown activity gives NotFound with the directory unchanged; an enrolled email gives Conflict with the directory unchanged; success happens exactly when the activity exists and the email is not enrolled, and then the message names both, the roster grows by one, keeps its old entries in order and ends with the email; no key is added or removed, other activities are untouched, description, schedule and capacity are kept |
| Directory.Unregister | src/app.py:113-122 | unknown activity gives NotFound and an email not enrolled gives NotFound, both with the directory unchanged; success happens exactly when the activity exists and the email is enrolled, and then the message names both and the roster loses the first occurrence of the email with the others in order; the same frame as signup |
| Directory.SignupKeepsValid | src/app.py:104-108 | signup preserves the no-duplicates invariant of every roster, and a successful signup lists the email exactly once on any directory |
| Directory.UnregisterKeepsValid | src/app.py:118-121 | unregister preserves the invariant; a successful unregister removes exactly one copy of the email and no other participant, and under the invariant leaves the email off the roster |
| Directory.SignupThenUnregister | src/app.py:94-122 | after a successful signup, unregistering the same email from the same activity succeeds and restores the whole directory exactly |
| Directory.UnregisterThenSignup | src/app.py:94-122 | on a valid directory, withdrawing and then signing up again succeeds and restores the same participants as a multiset, with every other activity and field unchanged |
| Directory.SignupIgnoresCapacity | src/app.py:94-109 | the signup response does not depend on the capacity, and a full activity still accepts a new email and goes over capacity |
| Catalog.InitialShape | src/app.py:23-81 | the built-in catalog holds exactly the nine named activities, each with a positive capacity and two distinct participants, so it satisfies the invariant |
| Session.Handle | src/app.py:94-122 | one request of either kind keeps the frame of its activity, preserves the invariant and changes nothing when it fails |
| Session.Run | src/app.py:94-122 | any sequence of requests keeps the same activities with the same descriptions, schedules and capacities, and preserves the invariant |
| Scenarios.ListingShowsCatalog | tests/test_app.py:8-14 | the listing of the freshly started directory contains "Chess Club" and exactly the nine built-in names |
| Scenarios.SignupIsReflected | tests/test_app.py:17-28 | on any directory whose roster lacks the email, signing it up answers 200 and the next listing shows it on the roster exactly once |
| Scenarios.SignupTwice | src/app.py:104-106 | a repeated signup answers Conflict (400) and leaves the directory, and so the roster length, unchanged |
| Scenarios.UnregisterAfterEnsuredSignup | tests/test_app.py:34-46 | signing up when missing and then unregistering answers 200 and leaves the email off the roster |
| Scenarios.ChessClubSignupTwice | src/app.py:98-108 | on the initial catalog, signing "x@example.com" up for "Chess Club" answers 200 and doing it again answers 400 |
| Scenarios.UnknownClubSignup | src/app.py:98-99 | on the initial catalog, signing up for "Unknown Club" answers 404 |
| Scenarios.NotEnrolledUnregister | src/app.py:116-120 | on the initial catalog, withdrawing "not-enrolled@example.com" from "Chess Club" answers NotFound with "Participant not found" |
| Scenarios.CatalogIsStable | src/app.py:23-122 | after any sequence of requests from the initial catalog, the directory still holds exactly the nine activities with their original descriptions, schedules and capacities, and no roster lists an email twice |

## Left out

- FastAPI wiring: building the app, the route decorators and binding the `email` query
  parameter. The handlers are modelled as functions of the directory, the activity
  name and the email.
- Turning `HTTPException` into an HTTP response. Errors are an `Error` value, and
  `Response.Status` only names the status code.
- The static file mount and the redirect from `/` to the landing page (src/app.py:17-20,
  src/app.py:84-86). They only deliver files.
- JSON serialisation of the listing, including the order in which activities are
  listed: the source's dict keeps the catalog's insertion order, while a Dafny map has
  none. `GetActivities` returns the directory itself.
- Concurrency. The source keeps a module-level dict without locking. Each request is
  modelled as one atomic step, and `Session.Run` serves requests strictly one after
  another.
- Integer width is not a concern: Python integers are unbounded, and so is the
  model's `int` capacity.
- Python's `ValueError` from `list.remove` on an absent value cannot occur, because
  the handler checks membership first. `Roster.RemoveFirst` returns such a roster
  unchanged.
- The tests' direct cleanup edits of the module-level dict, and the test client.
