/** The situations tests/test_app.py exercises, and the capacity scenario
    on Chess Club, each stated on the seeded table. */
module Scenarios {
  import opened Catalog
  import opened Transitions
  import opened Requests
  import opened App

  /** Listing: a freshly started registry lists a non-empty table that
      holds both activities the test looks for (tests/test_app.py:9-17). */
  method SeededListing() returns (listing: Activities)
    ensures |listing| > 0
    ensures "Chess Club" in listing && "Programming Class" in listing
  {
    var registry := new Registry();
    listing := registry.GetActivities();
    SeedWellFormed();
  }

  /** A seeded participant signing up again for Chess Club is refused as a
      duplicate, the table is unchanged and the detail says so
      (tests/test_app.py:51-63). */
  lemma SeededDuplicateSignup()
    ensures Signup(Seed, "Chess Club", "michael@mergington.edu") == Step(Failure(AlreadySignedUp), Seed)
    ensures Contains(Detail(AlreadySignedUp), "already signed up")
  {
    SeedWellFormed();
    DuplicateSignupRejected(Seed, "Chess Club", "michael@mergington.edu");
  }

  /** An unknown activity is reported as not found, for signup and for
      unregister (tests/test_app.py:65-77, 147-159). */
  lemma SeededUnknownActivity(email: Email)
    ensures Signup(Seed, "Nonexistent Activity", email) == Step(Failure(ActivityNotFound), Seed)
    ensures Unregister(Seed, "Nonexistent Activity", email) == Step(Failure(ActivityNotFound), Seed)
    ensures Contains(Detail(ActivityNotFound), "not found")
  {
    assert "Nonexistent Activity" !in Seed;
  }

  /** One new student signs up for Chess Club and then for Programming
      Class; both succeed and both rosters list the student
      (tests/test_app.py:79-101). */
  lemma SeededSignupForTwoActivities()
    ensures var email := "newstudent@mergington.edu";
      var first := Signup(Seed, "Chess Club", email);
      var second := Signup(first.activities, "Programming Class", email);
      && first.response.Ok? && second.response.Ok?
      && email in second.activities["Chess Club"].participants
      && email in second.activities["Programming Class"].participants
  {
    var email := "newstudent@mergington.edu";
    SeedWellFormed();
    assert email !in ChessClub.participants;
    assert email !in ProgrammingClass.participants;
    SignupAppends(Seed, "Chess Club", email);
    var first := Signup(Seed, "Chess Club", email);
    assert first.activities["Programming Class"] == ProgrammingClass;
    SignupAppends(first.activities, "Programming Class", email);
  }

  /** Signing up and then unregistering a new email on Chess Club succeeds,
      leaves the email off the roster and gives back the seeded table
      (tests/test_app.py:107-131). */
  lemma SeededSignupThenUnregister()
    ensures var email := "test@mergington.edu";
      var after := Unregister(Signup(Seed, "Chess Club", email).activities, "Chess Club", email);
      && after.response.Ok?
      && Contains(after.response.message, "Unregistered")
      && email !in after.activities["Chess Club"].participants
      && after.activities == Seed
  {
    var email := "test@mergington.edu";
    SeedWellFormed();
    assert email !in ChessClub.participants;
    SignupAppends(Seed, "Chess Club", email);
    UnregisterUndoesSignup(Seed, "Chess Club", email);
  }

  /** An email that is not on the Chess Club roster cannot be unregistered
      (tests/test_app.py:133-145). */
  lemma SeededUnregisterNotRegistered()
    ensures Unregister(Seed, "Chess Club", "notregistered@mergington.edu") == Step(Failure(NotRegistered), Seed)
    ensures Contains(Detail(NotRegistered), "not registered")
  {
    SeedWellFormed();
    assert "notregistered@mergington.edu" !in ChessClub.participants;
  }

  /** Chess Club starts with 2 of 12 places taken. Ten distinct new emails
      fill it; with the capacity test hoisted an eleventh is refused and the
      roster stays at 12, while as written the eleventh is accepted and the
      roster reaches 13. */
  lemma {:induction false} ChessClubFillsUp(emails: seq<Email>, extra: Email)
    requires |emails| == 10 && FreshFor(emails + [extra], ChessClub.participants)
    ensures var tr := RunIntended(Seed, SignupsFor("Chess Club", emails + [extra]));
      && (forall i :: 0 <= i < 10 ==> tr.responses[i].Ok?)
      && tr.responses[10] == Failure(AtMaxCapacity)
      && "Chess Club" in tr.activities
      && tr.activities["Chess Club"].participants == ChessClub.participants + emails
      && |tr.activities["Chess Club"].participants| == 12
    ensures var tr := RunAsWritten(Seed, SignupsFor("Chess Club", emails + [extra]));
      && (forall i :: 0 <= i < 11 ==> tr.responses[i].Ok?)
      && "Chess Club" in tr.activities
      && |tr.activities["Chess Club"].participants| == 13 > ChessClub.maxParticipants
  {
    var name := "Chess Club";
    SeedWellFormed();
    var all := emails + [extra];
    assert SignupsFor(name, all) == SignupsFor(name, emails) + SignupsFor(name, [extra]);
    assert FreshFor(emails, ChessClub.participants) by {
      forall i, j | 0 <= i < j < |emails| ensures emails[i] != emails[j] {
        assert all[i] == emails[i] && all[j] == emails[j];
      }
      forall i | 0 <= i < |emails| ensures emails[i] !in ChessClub.participants {
        assert all[i] == emails[i];
      }
    }
    assert extra !in ChessClub.participants + emails by {
      assert all[10] == extra;
      forall i | 0 <= i < 10 ensures emails[i] != extra {
        assert all[i] == emails[i];
      }
    }

    FreshSignupsIntended(Seed, name, emails);
    RunIntendedAppend(Seed, SignupsFor(name, emails), SignupsFor(name, [extra]));
    var mid := RunIntended(Seed, SignupsFor(name, emails)).activities;
    SignupIntendedRejectsFull(mid, name, extra);
    assert SignupsFor(name, [extra])[1..] == [];

    FreshSignupsAsWritten(Seed, name, all);
  }
}
