/** The registry's state transitions as functions from the table before a
    request to the response and the table after it. Signup is given twice:
    `Signup` as src/app.py:126-144 is written, where the capacity test sits
    after the `raise` of the duplicate branch and never runs, and
    `SignupIntended`, with that test moved before the append. `Unregister`
    has no implementation in src/app.py; it is derived from the behaviour
    tests/test_app.py:107-159 expects. */
module Transitions {
  import opened Catalog

  /** The failures the source raises as HTTPException (404 for the first,
      400 for the rest). `NotRegistered` comes from the tests only. */
  datatype Error = ActivityNotFound | AlreadySignedUp | AtMaxCapacity | NotRegistered

  datatype Response = Ok(message: string) | Failure(error: Error)

  /** What one request returns and the table it leaves behind. */
  datatype Step = Step(response: Response, activities: Activities)

  /** The `detail` text sent with each error. The first three are the
      source's; the one for NotRegistered is chosen to carry the words the
      tests look for. Each detail carries the phrase that names its error. */
  function Detail(e: Error): (d: string)
    ensures e == ActivityNotFound ==> Contains(d, "not found")
    ensures e == AlreadySignedUp ==> Contains(d, "already signed up")
    ensures e == AtMaxCapacity ==> Contains(d, "max capacity")
    ensures e == NotRegistered ==> Contains(d, "not registered")
  {
    match e
    case ActivityNotFound =>
      ContainsMiddle("Activity ", "not found", "");
      assert "Activity " + "not found" + "" == "Activity not found";
      "Activity not found"
    case AlreadySignedUp =>
      ContainsMiddle("Student is ", "already signed up", " for this activity");
      "Student is " + "already signed up" + " for this activity"
    case AtMaxCapacity =>
      ContainsMiddle("Activity is at ", "max capacity", "");
      assert "Activity is at " + "max capacity" + "" == "Activity is at max capacity";
      "Activity is at max capacity"
    case NotRegistered =>
      ContainsMiddle("Student is ", "not registered", " for this activity");
      "Student is " + "not registered" + " for this activity"
  }

  lemma ContainsMiddle(a: string, b: string, c: string)
    ensures Contains(a + b + c, b)
  {
    assert OccursAt(a + b + c, b, |a|);
  }

  /** No two errors share a detail, so the detail identifies the error. */
  lemma DetailsDistinct(e: Error, e': Error)
    ensures Detail(e) == Detail(e') ==> e == e'
  {
  }

  /** The success message of a signup names the student and the activity. */
  function SignedUpMessage(email: Email, name: Name): (m: string)
    ensures Contains(m, email) && Contains(m, name)
  {
    var m := "Signed up " + email + " for " + name;
    assert OccursAt(m, email, 10);
    assert OccursAt(m, name, 15 + |email|);
    m
  }

  /** The success message of an unregister names the student and the
      activity. */
  function UnregisteredMessage(email: Email, name: Name): (m: string)
    ensures Contains(m, "Unregistered") && Contains(m, email) && Contains(m, name)
  {
    var m := "Unregistered " + email + " from " + name;
    assert OccursAt(m, "Unregistered", 0);
    assert OccursAt(m, email, 13);
    assert OccursAt(m, name, 19 + |email|);
    m
  }

  /** A step that leaves every name in place, every other activity as it
      was, and the description, schedule and capacity of `name` as they
      were: only the roster of `name` may change. */
  predicate OnlyRosterChanges(t: Activities, t': Activities, name: Name)
  {
    && t'.Keys == t.Keys
    && (forall n :: n in t && n != name ==> t'[n] == t[n])
    && (name in t ==>
          && t'[name].description == t[name].description
          && t'[name].schedule == t[name].schedule
          && t'[name].maxParticipants == t[name].maxParticipants)
  }

  /** `a` with `email` added at the end of its roster. */
  function Enrol(a: Activity, email: Email): Activity
  {
    a.(participants := a.participants + [email])
  }

  /** signup_for_activity as written: unknown activity, then duplicate
      email, then an unconditional append. */
  function Signup(t: Activities, name: Name, email: Email): (r: Step)
    ensures OnlyRosterChanges(t, r.activities, name)
    ensures r.response.Failure? ==> r.activities == t
  {
    if name !in t then Step(Failure(ActivityNotFound), t)
    else if email in t[name].participants then
      // The capacity test that follows this raise in the source is never reached.
      Step(Failure(AlreadySignedUp), t)
    else
      Step(Ok(SignedUpMessage(email, name)), t[name := Enrol(t[name], email)])
  }

  /** The same operation with the capacity test moved out of the duplicate
      branch, so that it runs before the append. */
  function SignupIntended(t: Activities, name: Name, email: Email): (r: Step)
    ensures OnlyRosterChanges(t, r.activities, name)
    ensures r.response.Failure? ==> r.activities == t
  {
    if name !in t then Step(Failure(ActivityNotFound), t)
    else if email in t[name].participants then Step(Failure(AlreadySignedUp), t)
    else if |t[name].participants| >= t[name].maxParticipants then Step(Failure(AtMaxCapacity), t)
    else Step(Ok(SignedUpMessage(email, name)), t[name := Enrol(t[name], email)])
  }

  /** `s` without its first occurrence of `x`, if it has one. */
  function RemoveFirst(s: seq<Email>, x: Email): (r: seq<Email>)
    ensures x !in s ==> r == s
    ensures x in s ==> |r| == |s| - 1
    ensures multiset(r) == multiset(s) - multiset{x}
  {
    if s == [] then []
    else
      assert s == [s[0]] + s[1..];
      if s[0] == x then s[1..] else [s[0]] + RemoveFirst(s[1..], x)
  }

  /** Unregistering, as the tests expect it: unknown activity, then an
      email not on the roster, then removal of that email. */
  function Unregister(t: Activities, name: Name, email: Email): (r: Step)
    ensures OnlyRosterChanges(t, r.activities, name)
    ensures r.response.Failure? ==> r.activities == t
  {
    if name !in t then Step(Failure(ActivityNotFound), t)
    else if email !in t[name].participants then Step(Failure(NotRegistered), t)
    else
      var a := t[name];
      Step(Ok(UnregisteredMessage(email, name)),
           t[name := a.(participants := RemoveFirst(a.participants, email))])
  }

  // ---------------------------------------------------------------------
  // Signup as written

  /** An unknown activity is reported and nothing changes, in every variant
      of signup and in unregister. */
  lemma UnknownActivityRejected(t: Activities, name: Name, email: Email)
    requires name !in t
    ensures Signup(t, name, email) == Step(Failure(ActivityNotFound), t)
    ensures SignupIntended(t, name, email) == Step(Failure(ActivityNotFound), t)
    ensures Unregister(t, name, email) == Step(Failure(ActivityNotFound), t)
  {
  }

  /** An email already on the roster is reported and nothing changes, in
      both variants of signup, whatever the capacity. */
  lemma DuplicateSignupRejected(t: Activities, name: Name, email: Email)
    requires name in t && email in t[name].participants
    ensures Signup(t, name, email) == Step(Failure(AlreadySignedUp), t)
    ensures SignupIntended(t, name, email) == Step(Failure(AlreadySignedUp), t)
  {
  }

  /** A signup as written succeeds exactly when the activity exists and the
      email is not yet on it; it never reports a full roster. */
  lemma SignupSucceedsIff(t: Activities, name: Name, email: Email)
    ensures Signup(t, name, email).response.Ok? <==>
              name in t && email !in t[name].participants
    ensures Signup(t, name, email).response != Failure(AtMaxCapacity)
  {
  }

  /** A successful signup appends the email at the end of the roster: the
      old roster is a prefix, the roster is one longer, the email is on it,
      and the message names both the student and the activity. */
  lemma SignupAppends(t: Activities, name: Name, email: Email)
    requires name in t && email !in t[name].participants
    ensures var s := Signup(t, name, email);
      && name in s.activities
      && s.activities[name].participants == t[name].participants + [email]
      && |s.activities[name].participants| == |t[name].participants| + 1
      && t[name].participants <= s.activities[name].participants
      && email in s.activities[name].participants
      && s.response.Ok?
      && Contains(s.response.message, email) && Contains(s.response.message, name)
  {
  }

  /** The membership test comes before the append, so a signup as written
      never puts a duplicate on a roster. */
  lemma SignupKeepsRostersDistinct(t: Activities, name: Name, email: Email)
    requires AllRostersDistinct(t)
    ensures AllRostersDistinct(Signup(t, name, email).activities)
  {
    if name in t && email !in t[name].participants {
      AppendFreshKeepsDistinct(t[name].participants, email);
    }
  }

  /** Appending an email that is not on a roster keeps it duplicate-free. */
  lemma AppendFreshKeepsDistinct(s: seq<Email>, x: Email)
    requires NoDuplicates(s) && x !in s
    ensures NoDuplicates(s + [x])
  {
  }

  /** As written, a fresh email is appended to a roster that is already at
      or over capacity, and the roster then exceeds the capacity. */
  lemma SignupIgnoresCapacity(t: Activities, name: Name, email: Email)
    requires name in t && email !in t[name].participants
    requires |t[name].participants| >= t[name].maxParticipants
    ensures Signup(t, name, email).response.Ok?
    ensures !WithinCapacity(Signup(t, name, email).activities[name])
  {
  }

  /** A concrete table that meets every intended invariant and that one
      signup as written takes out of them: one activity of capacity 1 that
      is full. */
  lemma SignupBreaksCapacityExample()
    ensures exists t: Activities, name: Name, email: Email ::
      AllWellFormed(t) && !AllWellFormed(Signup(t, name, email).activities)
  {
    var full := Activity("d", "s", 1, ["a@x.edu"]);
    var t := map["Club" := full];
    assert AllWellFormed(t);
    var after := Signup(t, "Club", "b@x.edu").activities;
    assert after["Club"].participants == ["a@x.edu", "b@x.edu"];
    assert !WellFormed(after["Club"]);
  }

  // ---------------------------------------------------------------------
  // Signup with the capacity test hoisted

  /** With the capacity test hoisted, a fresh email on a full roster is
      rejected and nothing changes. */
  lemma SignupIntendedRejectsFull(t: Activities, name: Name, email: Email)
    requires name in t && email !in t[name].participants
    requires |t[name].participants| >= t[name].maxParticipants
    ensures SignupIntended(t, name, email) == Step(Failure(AtMaxCapacity), t)
  {
  }

  /** The hoisted signup succeeds exactly when the activity exists, the
      email is not on it and the roster has room. */
  lemma SignupIntendedSucceedsIff(t: Activities, name: Name, email: Email)
    ensures SignupIntended(t, name, email).response.Ok? <==>
              name in t && email !in t[name].participants &&
              |t[name].participants| < t[name].maxParticipants
  {
  }

  /** The two variants differ exactly on a fresh email for a roster that
      is at or over capacity; everywhere else they agree. */
  lemma VariantsDifferIff(t: Activities, name: Name, email: Email)
    ensures Signup(t, name, email) != SignupIntended(t, name, email) <==>
              name in t && email !in t[name].participants &&
              |t[name].participants| >= t[name].maxParticipants
  {
    if name in t && email !in t[name].participants &&
       |t[name].participants| >= t[name].maxParticipants {
      assert Signup(t, name, email).response.Ok?;
    }
  }

  /** The hoisted signup keeps every intended invariant. */
  lemma SignupIntendedKeepsWellFormed(t: Activities, name: Name, email: Email)
    requires AllWellFormed(t)
    ensures AllWellFormed(SignupIntended(t, name, email).activities)
  {
    if name in t && email !in t[name].participants &&
       |t[name].participants| < t[name].maxParticipants {
      AppendFreshKeepsDistinct(t[name].participants, email);
    }
  }

  // ---------------------------------------------------------------------
  // Unregister (derived from tests/test_app.py only)

  /** Unregister succeeds exactly when the activity exists and the email is
      on its roster; an absent email is reported and nothing changes. */
  lemma UnregisterSucceedsIff(t: Activities, name: Name, email: Email)
    ensures Unregister(t, name, email).response.Ok? <==>
              name in t && email in t[name].participants
    ensures name in t && email !in t[name].participants ==>
              Unregister(t, name, email) == Step(Failure(NotRegistered), t)
  {
  }

  /** The index of the first occurrence of `x` in `s`. */
  function FirstIndex(s: seq<Email>, x: Email): (i: nat)
    requires x in s
    ensures i < |s| && s[i] == x && x !in s[..i]
  {
    if s[0] == x then 0
    else
      var j := FirstIndex(s[1..], x);
      assert s[..j + 1] == [s[0]] + s[1..][..j];
      j + 1
  }

  /** What is removed is the first occurrence of the email, and the rest
      of the roster keeps its order: the result is the roster with the
      entry at the first index holding the email cut out. */
  lemma {:induction false} RemoveFirstCutsFirstOccurrence(s: seq<Email>, x: Email)
    requires x in s
    ensures RemoveFirst(s, x) == s[..FirstIndex(s, x)] + s[FirstIndex(s, x) + 1..]
  {
    if s[0] != x {
      var t := s[1..];
      RemoveFirstCutsFirstOccurrence(t, x);
      var j := FirstIndex(t, x);
      assert s == [s[0]] + t;
      ConsKeepsCut(s[0], t, j);
    }
  }

  /** Cutting the entry at `j` out of `t` and then putting `h` in front is
      cutting the entry at `j + 1` out of `[h] + t`. */
  lemma ConsKeepsCut(h: Email, t: seq<Email>, j: nat)
    requires j < |t|
    ensures [h] + (t[..j] + t[j + 1..]) == ([h] + t)[..j + 1] + ([h] + t)[j + 2..]
  {
    assert ([h] + t)[..j + 1] == [h] + t[..j];
    assert ([h] + t)[j + 2..] == t[j + 1..];
  }

  /** Removing from a duplicate-free roster leaves it duplicate-free and
      without the removed email. */
  lemma {:induction false} RemoveFirstKeepsDistinct(s: seq<Email>, x: Email)
    requires NoDuplicates(s)
    ensures NoDuplicates(RemoveFirst(s, x)) && x !in RemoveFirst(s, x)
  {
    if s != [] && s[0] != x {
      assert NoDuplicates(s[1..]);
      RemoveFirstKeepsDistinct(s[1..], x);
      var r := RemoveFirst(s[1..], x);
      assert s[0] !in s[1..];
      assert s[0] !in multiset(r);
    }
  }

  /** A successful unregister on a duplicate-free roster takes the email
      off it entirely and shortens it by one. */
  lemma UnregisterRemoves(t: Activities, name: Name, email: Email)
    requires name in t && email in t[name].participants
    requires NoDuplicates(t[name].participants)
    ensures var s := Unregister(t, name, email);
      && name in s.activities
      && email !in s.activities[name].participants
      && |s.activities[name].participants| == |t[name].participants| - 1
      && multiset(s.activities[name].participants) == multiset(t[name].participants) - multiset{email}
  {
    RemoveFirstKeepsDistinct(t[name].participants, email);
  }

  /** Unregister keeps every intended invariant. */
  lemma UnregisterKeepsWellFormed(t: Activities, name: Name, email: Email)
    requires AllWellFormed(t)
    ensures AllWellFormed(Unregister(t, name, email).activities)
  {
    if name in t && email in t[name].participants {
      RemoveFirstKeepsDistinct(t[name].participants, email);
    }
  }

  /** Unregister keeps every roster duplicate-free. */
  lemma UnregisterKeepsRostersDistinct(t: Activities, name: Name, email: Email)
    requires AllRostersDistinct(t)
    ensures AllRostersDistinct(Unregister(t, name, email).activities)
  {
    if name in t && email in t[name].participants {
      RemoveFirstKeepsDistinct(t[name].participants, email);
    }
  }

  /** Removing the email just appended gives back the roster before. */
  lemma {:induction false} RemoveFirstAfterAppend(s: seq<Email>, x: Email)
    requires x !in s
    ensures RemoveFirst(s + [x], x) == s
  {
    if s != [] {
      assert (s + [x])[1..] == s[1..] + [x];
      RemoveFirstAfterAppend(s[1..], x);
    }
  }

  /** A successful signup followed by an unregister of the same email
      gives back the table before the signup. */
  lemma UnregisterUndoesSignup(t: Activities, name: Name, email: Email)
    requires name in t && email !in t[name].participants
    ensures Unregister(Signup(t, name, email).activities, name, email).activities == t
  {
    RemoveFirstAfterAppend(t[name].participants, email);
    var a := t[name];
    assert a.(participants := a.participants) == a;
  }
}
