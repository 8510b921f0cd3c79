/** The registry object of src/app.py: the module-level `activities` table
    that every request reads and updates in place, as a class with that
    table as its one field. `GetActivities` returns the table; each of the
    three methods that change it is tied to the step function that
    specifies it (module Transitions). */
module App {
  import opened Catalog
  import opened Transitions

  class Registry {
    var activities: Activities

    /** The table as the process starts (src/app.py:23-114). */
    constructor ()
      ensures activities == Seed
      ensures AllWellFormed(activities)
    {
      activities := Seed;
      SeedWellFormed();
    }

    /** get_activities: hands back the table itself and changes nothing. */
    method GetActivities() returns (r: Activities)
      ensures r == activities
    {
      r := activities;
    }

    /** signup_for_activity as written. */
    method SignupForActivity(name: Name, email: Email) returns (response: Response)
      modifies this
      ensures response == Signup(old(activities), name, email).response
      ensures activities == Signup(old(activities), name, email).activities
      ensures old(AllRostersDistinct(activities)) ==> AllRostersDistinct(activities)
    {
      if name !in activities {
        return Failure(ActivityNotFound);
      }
      var activity := activities[name];
      if email in activity.participants {
        return Failure(AlreadySignedUp);
        // Unreachable, as in the source: it follows the return above.
        if |activity.participants| >= activity.maxParticipants {
          return Failure(AtMaxCapacity);
        }
      }
      activities := activities[name := activity.(participants := activity.participants + [email])];
      response := Ok(SignedUpMessage(email, name));
      if old(AllRostersDistinct(activities)) {
        SignupKeepsRostersDistinct(old(activities), name, email);
      }
    }

    /** signup_for_activity with the capacity test moved before the append:
        a full roster is refused, and every intended invariant is kept. */
    method SignupIntended(name: Name, email: Email) returns (response: Response)
      modifies this
      ensures response == Transitions.SignupIntended(old(activities), name, email).response
      ensures activities == Transitions.SignupIntended(old(activities), name, email).activities
      ensures old(AllWellFormed(activities)) ==> AllWellFormed(activities)
    {
      if name !in activities {
        return Failure(ActivityNotFound);
      }
      var activity := activities[name];
      if email in activity.participants {
        return Failure(AlreadySignedUp);
      }
      if |activity.participants| >= activity.maxParticipants {
        return Failure(AtMaxCapacity);
      }
      activities := activities[name := activity.(participants := activity.participants + [email])];
      response := Ok(SignedUpMessage(email, name));
      if old(AllWellFormed(activities)) {
        SignupIntendedKeepsWellFormed(old(activities), name, email);
      }
    }

    /** Unregistering, derived from tests/test_app.py:107-159 (src/app.py
        has no such endpoint). */
    method Unregister(name: Name, email: Email) returns (response: Response)
      modifies this
      ensures response == Transitions.Unregister(old(activities), name, email).response
      ensures activities == Transitions.Unregister(old(activities), name, email).activities
      ensures old(AllWellFormed(activities)) ==> AllWellFormed(activities)
    {
      if name !in activities {
        return Failure(ActivityNotFound);
      }
      var activity := activities[name];
      if email !in activity.participants {
        return Failure(NotRegistered);
      }
      activities := activities[name := activity.(participants := RemoveFirst(activity.participants, email))];
      response := Ok(UnregisteredMessage(email, name));
      if old(AllWellFormed(activities)) {
        UnregisterKeepsWellFormed(old(activities), name, email);
      }
    }
  }
}
