/** The activity records of the Mergington High School registry, the
    invariants the registry is meant to keep, and the table it is seeded
    with when the process starts (src/app.py). */
module Catalog {

  type Email = string
  type Name = string

  /** One activity record. The source stores `max_participants` as a Python
      int, so it is an unconstrained `int` here; every seeded value is
      positive. `participants` is ordered by signup. */
  datatype Activity = Activity(
    description: string,
    schedule: string,
    maxParticipants: int,
    participants: seq<Email>)

  /** The registry: activity name to record. Names are keys, so unique. */
  type Activities = map<Name, Activity>

  /** No email appears twice on a roster. */
  predicate NoDuplicates(s: seq<Email>)
  {
    forall i, j :: 0 <= i < j < |s| ==> s[i] != s[j]
  }

  /** The roster is not longer than the capacity. */
  predicate WithinCapacity(a: Activity)
  {
    |a.participants| <= a.maxParticipants
  }

  /** The invariants the registry is meant to keep: positive capacity,
      roster within capacity, no duplicate email. */
  predicate WellFormed(a: Activity)
  {
    a.maxParticipants > 0 && WithinCapacity(a) && NoDuplicates(a.participants)
  }

  predicate AllWellFormed(t: Activities)
  {
    forall n :: n in t ==> WellFormed(t[n])
  }

  /** The weaker invariant that the signup as written does keep. */
  predicate AllRostersDistinct(t: Activities)
  {
    forall n :: n in t ==> NoDuplicates(t[n].participants)
  }

  /** `part` occurs in `s` as a contiguous piece. */
  predicate Contains(s: string, part: string)
  {
    exists i :: 0 <= i <= |s| - |part| && OccursAt(s, part, i)
  }

  predicate OccursAt(s: string, part: string, i: int)
    requires 0 <= i <= |s| - |part|
  {
    s[i..i + |part|] == part
  }

  // The fifteen activities the registry starts with (src/app.py:23-114).

  const ChessClub: Activity := Activity(
    "Learn strategies and compete in chess tournaments",
    "Fridays, 3:30 PM - 5:00 PM",
    12, ["michael@mergington.edu", "daniel@mergington.edu"])

  const ProgrammingClass: Activity := Activity(
    "Learn programming fundamentals and build software projects",
    "Tuesdays and Thursdays, 3:30 PM - 4:30 PM",
    20, ["emma@mergington.edu", "sophia@mergington.edu"])

  const GymClass: Activity := Activity(
    "Physical education and sports activities",
    "Mondays, Wednesdays, Fridays, 2:00 PM - 3:00 PM",
    30, ["john@mergington.edu", "olivia@mergington.edu"])

  const BasketballTeam: Activity := Activity(
    "Competitive basketball team with games and tournaments",
    "Tuesdays and Thursdays, 4:00 PM - 5:30 PM",
    15, ["james@mergington.edu"])

  const SoccerClub: Activity := Activity(
    "Soccer training and friendly matches",
    "Mondays and Wednesdays, 3:30 PM - 5:00 PM",
    18, ["alex@mergington.edu", "maya@mergington.edu"])

  const TennisTeam: Activity := Activity(
    "Tennis training, practice matches, and tournaments",
    "Tuesdays and Thursdays, 3:30 PM - 5:00 PM",
    12, ["lucas@mergington.edu"])

  const VolleyballClub: Activity := Activity(
    "Volleyball skills development and competitive play",
    "Mondays and Wednesdays, 4:00 PM - 5:30 PM",
    16, ["sarah@mergington.edu", "tyler@mergington.edu"])

  const DramaClub: Activity := Activity(
    "Theater productions and acting workshops",
    "Fridays, 4:00 PM - 6:00 PM",
    20, ["aria@mergington.edu"])

  const ArtStudio: Activity := Activity(
    "Painting, drawing, and visual arts",
    "Tuesdays and Thursdays, 3:30 PM - 5:00 PM",
    16, ["isabella@mergington.edu", "lucas@mergington.edu"])

  const MusicBand: Activity := Activity(
    "Instrument practice, ensemble performance, and concerts",
    "Wednesdays and Fridays, 3:30 PM - 5:00 PM",
    25, ["emily@mergington.edu", "jacob@mergington.edu"])

  const PhotographyClub: Activity := Activity(
    "Photography techniques, editing, and portfolio building",
    "Thursdays, 3:30 PM - 5:00 PM",
    14, ["grace@mergington.edu"])

  const MathClub: Activity := Activity(
    "Advanced mathematics, problem-solving, and competitions",
    "Wednesdays, 3:30 PM - 4:30 PM",
    15, ["ryan@mergington.edu"])

  const ScienceClub: Activity := Activity(
    "Hands-on experiments and STEM exploration",
    "Mondays and Fridays, 3:30 PM - 4:45 PM",
    18, ["zoe@mergington.edu", "noah@mergington.edu"])

  const DebateTeam: Activity := Activity(
    "Public speaking, argumentation, and debate competitions",
    "Tuesdays and Thursdays, 4:00 PM - 5:30 PM",
    10, ["andrew@mergington.edu", "jessica@mergington.edu"])

  const RoboticsClub: Activity := Activity(
    "Build and program robots for competitions and challenges",
    "Mondays and Wednesdays, 3:30 PM - 5:30 PM",
    12, ["kevin@mergington.edu", "sophia@mergington.edu"])

  /** The table the registry is seeded with. */
  const Seed: Activities :=
    map[
      "Chess Club" := ChessClub,
      "Programming Class" := ProgrammingClass,
      "Gym Class" := GymClass,
      "Basketball Team" := BasketballTeam,
      "Soccer Club" := SoccerClub,
      "Tennis Team" := TennisTeam,
      "Volleyball Club" := VolleyballClub,
      "Drama Club" := DramaClub,
      "Art Studio" := ArtStudio,
      "Music Band" := MusicBand,
      "Photography Club" := PhotographyClub,
      "Math Club" := MathClub,
      "Science Club" := ScienceClub,
      "Debate Team" := DebateTeam,
      "Robotics Club" := RoboticsClub
    ]

  /** The seeded table meets every intended invariant, and holds the
      entries the tests look up. */
  lemma SeedWellFormed()
    ensures AllWellFormed(Seed)
    ensures "Chess Club" in Seed && "Programming Class" in Seed
    ensures Seed["Chess Club"] == ChessClub
    ensures ChessClub.maxParticipants == 12
    ensures ChessClub.participants == ["michael@mergington.edu", "daniel@mergington.edu"]
  {
  }
}
