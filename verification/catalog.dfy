/** The built-in catalog the directory starts from at every process start
    (src/app.py): nine activities, each with two participants. */
module Catalog {
  import opened Roster
  import opened Directory

  const Initial: Activities := map[
    "Chess Club" := Activity(
      "Learn strategies and compete in chess tournaments",
      "Fridays, 3:30 PM - 5:00 PM", 12,
      ["michael@mergington.edu", "daniel@mergington.edu"]),
    "Programming Class" := Activity(
      "Learn programming fundamentals and build software projects",
      "Tuesdays and Thursdays, 3:30 PM - 4:30 PM", 20,
      ["emma@mergington.edu", "sophia@mergington.edu"]),
    "Gym Class" := Activity(
      "Physical education and sports activities",
      "Mondays, Wednesdays, Fridays, 2:00 PM - 3:00 PM", 30,
      ["john@mergington.edu", "olivia@mergington.edu"]),
    "Soccer Team" := Activity(
      "Competitive soccer team, practices and inter-school matches",
      "Mondays, Wednesdays, 4:00 PM - 6:00 PM", 22,
      ["liam@mergington.edu", "noah@mergington.edu"]),
    "Basketball Club" := Activity(
      "Skill development, pickup games, and tournaments",
      "Tuesdays, Thursdays, 5:00 PM - 7:00 PM", 16,
      ["ava@mergington.edu", "isabella@mergington.edu"]),
    "Art Club" := Activity(
      "Explore painting, drawing, and mixed media projects",
      "Wednesdays, 3:30 PM - 5:00 PM", 18,
      ["charlotte@mergington.edu", "amelia@mergington.edu"]),
    "Drama Club" := Activity(
      "Acting workshops, rehearsals, and school productions",
      "Fridays, 4:00 PM - 6:00 PM", 25,
      ["lucas@mergington.edu", "mia@mergington.edu"]),
    "Debate Team" := Activity(
      "Practice debating skills and compete in tournaments",
      "Thursdays, 3:30 PM - 5:00 PM", 14,
      ["henry@mergington.edu", "grace@mergington.edu"]),
    "Math Club" := Activity(
      "Problem solving, math competitions, and enrichment",
      "Mondays, 3:30 PM - 4:30 PM", 20,
      ["oliver@mergington.edu", "eva@mergington.edu"])
  ]

  /** The activity names of the built-in catalog. */
  const Names: set<string> := {
    "Chess Club", "Programming Class", "Gym Class", "Soccer Team", "Basketball Club",
    "Art Club", "Drama Club", "Debate Team", "Math Club"
  }

  /** The nine catalog names are pairwise distinct. */
  lemma NamesCount()
    ensures |Names| == 9
  {
  }

  /** The catalog is keyed by exactly the nine names. */
  lemma InitialKeys()
    ensures Initial.Keys == Names
  {
  }

  /** Every built-in roster lists two different emails. */
  lemma InitialRosters()
    ensures Valid(Initial)
    ensures forall name :: name in Initial ==> |Initial[name].participants| == 2
  {
  }

  /** Every built-in capacity is positive. */
  lemma InitialCapacities()
    ensures forall name :: name in Initial ==> Initial[name].maxParticipants > 0
  {
  }

  /** The catalog holds exactly the nine named activities, each with a positive
      capacity and two distinct participants, so it satisfies the directory invariant. */
  lemma InitialShape()
    ensures Initial.Keys == Names
    ensures |Initial| == 9
    ensures Valid(Initial)
    ensures forall name :: name in Initial ==>
              Initial[name].maxParticipants > 0 && |Initial[name].participants| == 2
  {
    InitialKeys();
    NamesCount();
    InitialRosters();
    InitialCapacities();
  }
}
