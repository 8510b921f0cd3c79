/** Sequences of requests against the registry: what holds of the table
    after any number of signups and unregisters, and what a run of signups
    for one activity does to its roster. */
module Requests {
  import opened Catalog
  import opened Transitions

  datatype Request = SignupRequest(name: Name, email: Email) | UnregisterRequest(name: Name, email: Email)

  /** The responses to a run of requests, in order, and the table after it. */
  datatype Trace = Trace(responses: seq<Response>, activities: Activities)

  function HandleAsWritten(t: Activities, r: Request): Step
  {
    match r
    case SignupRequest(name, email) => Signup(t, name, email)
    case UnregisterRequest(name, email) => Unregister(t, name, email)
  }

  function HandleIntended(t: Activities, r: Request): Step
  {
    match r
    case SignupRequest(name, email) => SignupIntended(t, name, email)
    case UnregisterRequest(name, email) => Unregister(t, name, email)
  }

  /** Serve the requests one after the other, signup as written. */
  function RunAsWritten(t: Activities, rs: seq<Request>): (tr: Trace)
    ensures |tr.responses| == |rs|
    decreases |rs|
  {
    if rs == [] then Trace([], t)
    else
      var s := HandleAsWritten(t, rs[0]);
      var rest := RunAsWritten(s.activities, rs[1..]);
      Trace([s.response] + rest.responses, rest.activities)
  }

  /** Serve the requests one after the other, capacity test hoisted. */
  function RunIntended(t: Activities, rs: seq<Request>): (tr: Trace)
    ensures |tr.responses| == |rs|
    decreases |rs|
  {
    if rs == [] then Trace([], t)
    else
      var s := HandleIntended(t, rs[0]);
      var rest := RunIntended(s.activities, rs[1..]);
      Trace([s.response] + rest.responses, rest.activities)
  }

  /** One signup request per email, all for `name`. */
  function SignupsFor(name: Name, emails: seq<Email>): (rs: seq<Request>)
    ensures |rs| == |emails|
    ensures forall i :: 0 <= i < |emails| ==> rs[i] == SignupRequest(name, emails[i])
  {
    seq(|emails|, i requires 0 <= i < |emails| => SignupRequest(name, emails[i]))
  }

  /** With the capacity test hoisted, every intended invariant holds after
      any sequence of signups and unregisters that starts from a table
      where it holds: in particular no roster ever exceeds its capacity. */
  lemma {:induction false} RunIntendedKeepsWellFormed(t: Activities, rs: seq<Request>)
    requires AllWellFormed(t)
    ensures AllWellFormed(RunIntended(t, rs).activities)
    decreases |rs|
  {
    if rs != [] {
      match rs[0] {
        case SignupRequest(name, email) => SignupIntendedKeepsWellFormed(t, name, email);
        case UnregisterRequest(name, email) => UnregisterKeepsWellFormed(t, name, email);
      }
      RunIntendedKeepsWellFormed(HandleIntended(t, rs[0]).activities, rs[1..]);
    }
  }

  /** As written, rosters stay duplicate-free over any sequence of
      requests. */
  lemma {:induction false} RunAsWrittenKeepsRostersDistinct(t: Activities, rs: seq<Request>)
    requires AllRostersDistinct(t)
    ensures AllRostersDistinct(RunAsWritten(t, rs).activities)
    decreases |rs|
  {
    if rs != [] {
      match rs[0] {
        case SignupRequest(name, email) => SignupKeepsRostersDistinct(t, name, email);
        case UnregisterRequest(name, email) => UnregisterKeepsRostersDistinct(t, name, email);
      }
      RunAsWrittenKeepsRostersDistinct(HandleAsWritten(t, rs[0]).activities, rs[1..]);
    }
  }

  /** Emails that are pairwise distinct and none of them on `roster`. */
  predicate FreshFor(emails: seq<Email>, roster: seq<Email>)
  {
    NoDuplicates(emails) && forall i :: 0 <= i < |emails| ==> emails[i] !in roster
  }

  lemma FreshForTail(emails: seq<Email>, roster: seq<Email>)
    requires |emails| > 0 && FreshFor(emails, roster)
    ensures FreshFor(emails[1..], roster + [emails[0]])
  {
    forall i | 0 <= i < |emails| - 1
      ensures emails[1..][i] !in roster + [emails[0]]
    {
      assert emails[1..][i] == emails[i + 1];
    }
  }

  /** Two steps that each change only the roster of `name` together
      change only that roster. */
  lemma OnlyRosterChangesTrans(t: Activities, t': Activities, t'': Activities, name: Name)
    requires OnlyRosterChanges(t, t', name) && OnlyRosterChanges(t', t'', name)
    ensures OnlyRosterChanges(t, t'', name)
  {
  }

  /** As written, signing up fresh emails one by one appends them all, in
      order, whatever the capacity; each request succeeds and no other
      activity changes. */
  lemma {:induction false} FreshSignupsAsWritten(t: Activities, name: Name, emails: seq<Email>)
    requires name in t && FreshFor(emails, t[name].participants)
    ensures var tr := RunAsWritten(t, SignupsFor(name, emails));
      && (forall i :: 0 <= i < |emails| ==> tr.responses[i].Ok?)
      && OnlyRosterChanges(t, tr.activities, name)
      && tr.activities[name].participants == t[name].participants + emails
    decreases |emails|
  {
    if emails != [] {
      var rs := SignupsFor(name, emails);
      assert rs[1..] == SignupsFor(name, emails[1..]);
      var s := Signup(t, name, emails[0]);
      FreshForTail(emails, t[name].participants);
      SignupAppends(t, name, emails[0]);
      FreshSignupsAsWritten(s.activities, name, emails[1..]);
      OnlyRosterChangesTrans(t, s.activities, RunAsWritten(s.activities, rs[1..]).activities, name);
      assert t[name].participants + [emails[0]] + emails[1..] == t[name].participants + emails;
    }
  }

  /** With the capacity test hoisted, fresh emails that fit are likewise
      all appended in order, each request succeeding. */
  lemma {:induction false} FreshSignupsIntended(t: Activities, name: Name, emails: seq<Email>)
    requires name in t && FreshFor(emails, t[name].participants)
    requires |t[name].participants| + |emails| <= t[name].maxParticipants
    ensures var tr := RunIntended(t, SignupsFor(name, emails));
      && (forall i :: 0 <= i < |emails| ==> tr.responses[i].Ok?)
      && OnlyRosterChanges(t, tr.activities, name)
      && tr.activities[name].participants == t[name].participants + emails
    decreases |emails|
  {
    if emails != [] {
      var rs := SignupsFor(name, emails);
      assert rs[1..] == SignupsFor(name, emails[1..]);
      var s := SignupIntended(t, name, emails[0]);
      FreshForTail(emails, t[name].participants);
      FreshSignupsIntended(s.activities, name, emails[1..]);
      OnlyRosterChangesTrans(t, s.activities, RunIntended(s.activities, rs[1..]).activities, name);
      assert t[name].participants + [emails[0]] + emails[1..] == t[name].participants + emails;
    }
  }

  /** Running two request sequences back to back is running their
      concatenation. */
  lemma {:induction false} RunAsWrittenAppend(t: Activities, a: seq<Request>, b: seq<Request>)
    ensures var first := RunAsWritten(t, a);
      RunAsWritten(t, a + b) ==
        Trace(first.responses + RunAsWritten(first.activities, b).responses,
              RunAsWritten(first.activities, b).activities)
    decreases |a|
  {
    if a == [] {
      assert a + b == b;
    } else {
      assert (a + b)[1..] == a[1..] + b;
      RunAsWrittenAppend(HandleAsWritten(t, a[0]).activities, a[1..], b);
    }
  }

  lemma {:induction false} RunIntendedAppend(t: Activities, a: seq<Request>, b: seq<Request>)
    ensures var first := RunIntended(t, a);
      RunIntended(t, a + b) ==
        Trace(first.responses + RunIntended(first.activities, b).responses,
              RunIntended(first.activities, b).activities)
    decreases |a|
  {
    if a == [] {
      assert a + b == b;
    } else {
      assert (a + b)[1..] == a[1..] + b;
      RunIntendedAppend(HandleIntended(t, a[0]).activities, a[1..], b);
    }
  }
}
