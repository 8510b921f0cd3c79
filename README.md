# Mergington High School activity registry, in Dafny

This project models the core of the Mergington High School activities API
(`src/app.py`). The state is one in-memory table. It maps an activity name to
a record with a description, a schedule, a capacity (`max_participants`) and
an ordered roster of participant emails. The process seeds the table with
fifteen activities at start-up. Requests are served against it: list the
activities (`get_activities`), and sign a student up for one
(`signup_for_activity`). Signup checks that the activity exists, then that
the email is not already on the roster. It then appends the email in place.

The capacity test in `signup_for_activity` is written inside the
"already signed up" branch, after its `raise`, so it never runs. The model
keeps both readings:

- `Transitions.Signup` is the code as written.
- `Transitions.SignupIntended` has the capacity test moved before the append.

The lemmas show where the two differ. They also show which invariants each
reading keeps (see "## Findings").

The tests also exercise an unregister endpoint, but `src/app.py` has no
implementation of it. `Transitions.Unregister` and `App.Registry.Unregister`
are derived from what `tests/test_app.py` expects, and nothing else.

Layout:

- `catalog.dfy` (module `Catalog`): the record type `Activity`, the table
  type `Activities`, the intended invariants (`WellFormed`, `AllWellFormed`,
  `NoDuplicates`, `WithinCapacity`), the weaker `AllRostersDistinct`, and
  the seed table `Seed`, one named constant per activity.
- `transitions.dfy` (module `Transitions`): one step function per request
  kind. Each maps the table before to a `Step`, which holds the `Response`
  (success message, or an `Error`) and the table after. The module also
  holds the lemmas about one step.
- `requests.dfy` (module `Requests`): runs of many requests one after
  another, and the invariants that hold over any such run.
- `registry.dfy` (module `App`): the class `Registry`, whose field
  `activities` is the shared table. Its methods update the table in place.
  `GetActivities` returns the table. Each of the three methods that change
  it (`SignupForActivity`, `SignupIntended`, `Unregister`) is proved equal
  to its step function and to keep its invariant.
- `scenarios.dfy` (module `Scenarios`): the situations the tests exercise,
  stated on the seeded table.

`Transitions.Signup`, `Transitions.SignupIntended` and
`Transitions.Unregister` are the step functions that specify the methods.
Their own contracts say that a step changes at most the roster of the
activity it names, and that a refused request changes nothing. What else
they mean is stated by the lemmas listed below.

## Model

| member | source | states |
|---|---|---|
| `Catalog.SeedWellFormed` | src/app.py:23-114 | every seeded activity has a positive capacity, a roster within it and no duplicate email; Chess Club has capacity 12 and exactly michael and daniel |
| `App.Registry.constructor` | src/app.py:22-23 | a new registry holds exactly the seed table, which meets every intended invariant |
| `App.Registry.GetActivities` | src/app.py:121-123 | returns the table itself and changes nothing |
| `App.Registry.SignupForActivity` | src/app.py:126-144 | the response and the new table are those of the signup as written; duplicate-free rosters stay duplicate-free |
| `App.Registry.SignupIntended` | src/app.py:137-143 | the response and the new table are those of the hoisted signup; a table meeting every intended invariant still meets them afterwards |
| `App.Registry.Unregister` | tests/test_app.py:107-159 | (from the tests only) the response and the new table are those of `Transitions.Unregister`; every intended invariant is kept |
| `Transitions.Detail` | src/app.py:130-141 | the not-found detail contains "not found", the duplicate detail contains "already signed up", the full-roster detail contains "max capacity", the not-registered detail contains "not registered" |
| `Transitions.DetailsDistinct` | src/app.py:130-141 | different errors carry different details, so the detail identifies the error |
| `Transitions.SignedUpMessage` | src/app.py:144 | the success message contains both the email and the activity name |
| `Transitions.UnregisteredMessage` | tests/test_app.py:124-126 | (from the tests only) the unregister message contains "Unregistered", the email and the activity name |
| `Transitions.Signup` | src/app.py:126-144 | signup as written keeps the set of names, every other activity, and the named activity's description, schedule and capacity; a refused signup leaves the table unchanged |
| `Transitions.SignupIntended` | src/app.py:126-144 | the same two facts for the signup with the capacity test hoisted |
| `Transitions.Unregister` | tests/test_app.py:107-159 | (from the tests only) the same two facts for unregister |
| `Transitions.UnknownActivityRejected` | src/app.py:130-131 | a name not in the table gives ActivityNotFound and leaves the whole table unchanged, for both signups and for unregister |
| `Transitions.DuplicateSignupRejected` | src/app.py:137-138 | an email already on the roster gives AlreadySignedUp and leaves the table unchanged, for both signups, whatever the capacity |
| `Transitions.SignupSucceedsIff` | src/app.py:130-143 | as written, signup succeeds if and only if the activity exists and the email is not on it; it never answers AtMaxCapacity |
| `Transitions.SignupAppends` | src/app.py:143-144 | on success the roster is the old roster with the email appended at the end: one longer, old roster a prefix, email a member; the message names both |
| `Transitions.SignupKeepsRostersDistinct` | src/app.py:137-143 | the membership test precedes the append, so duplicate-free rosters stay duplicate-free |
| `Transitions.SignupIgnoresCapacity` | src/app.py:137-143 | as written, a fresh email on a roster at or over capacity is accepted and the roster then exceeds its capacity |
| `Transitions.SignupBreaksCapacityExample` | src/app.py:137-143 | there is a table meeting every intended invariant that one signup as written takes out of them |
| `Transitions.SignupIntendedRejectsFull` | src/app.py:140-141 | hoisted: a fresh email on a full roster gives AtMaxCapacity and leaves the table unchanged |
| `Transitions.SignupIntendedSucceedsIff` | src/app.py:130-143 | hoisted: signup succeeds if and only if the activity exists, the email is not on it and the roster is below capacity |
| `Transitions.VariantsDifferIff` | src/app.py:137-143 | the two signups give different results if and only if the email is fresh and the roster is at or over capacity |
| `Transitions.SignupIntendedKeepsWellFormed` | tests/test_app.py:183-198 | hoisted signup keeps positive capacities, rosters within capacity and duplicate-free rosters |
| `Transitions.UnregisterSucceedsIff` | tests/test_app.py:133-159 | (from the tests only) unregister succeeds if and only if the activity exists and the email is on it; an absent email gives NotRegistered and no change |
| `Transitions.RemoveFirst` | tests/test_app.py:128-131 | the result has the contents of the roster minus one occurrence of the email, is one shorter when the email is present, and is the roster itself when it is absent |
| `Transitions.FirstIndex` | tests/test_app.py:128-131 | the index returned holds the email and no earlier entry does: it is the first occurrence |
| `Transitions.RemoveFirstCutsFirstOccurrence` | tests/test_app.py:128-131 | removal cuts out exactly the entry at the first occurrence of the email; the entries before and after it keep their order |
| `Transitions.RemoveFirstKeepsDistinct` | tests/test_app.py:128-131 | removing from a duplicate-free roster leaves it duplicate-free and without the email |
| `Transitions.UnregisterRemoves` | tests/test_app.py:107-131 | (from the tests only) on a duplicate-free roster a successful unregister takes the email off entirely and shortens the roster by one |
| `Transitions.UnregisterKeepsWellFormed` | tests/test_app.py:183-198 | unregister keeps every intended invariant |
| `Transitions.UnregisterKeepsRostersDistinct` | tests/test_app.py:128-131 | unregister keeps every roster duplicate-free |
| `Transitions.RemoveFirstAfterAppend` | tests/test_app.py:107-131 | removing the email just appended to a roster that lacked it gives back that roster |
| `Transitions.UnregisterUndoesSignup` | tests/test_app.py:107-131 | a successful signup followed by an unregister of the same email gives back the table before the signup |
| `Requests.RunAsWritten` | src/app.py:126-144 | serving requests one after another, signup as written, gives exactly one response per request |
| `Requests.RunIntended` | src/app.py:126-144 | serving requests one after another, signup hoisted, gives exactly one response per request |
| `Requests.RunIntendedKeepsWellFormed` | tests/test_app.py:183-198 | with the hoisted signup, every intended invariant (so the capacity bound) holds after any sequence of signups and unregisters |
| `Requests.RunAsWrittenKeepsRostersDistinct` | src/app.py:137-143 | as written, rosters stay duplicate-free after any sequence of requests |
| `Requests.FreshSignupsAsWritten` | src/app.py:137-143 | as written, distinct fresh emails signed up one by one all succeed, are appended in order whatever the capacity, and change only that roster |
| `Requests.FreshSignupsIntended` | src/app.py:137-143 | hoisted, distinct fresh emails that fit the capacity all succeed and are appended in order, changing only that roster |
| `Requests.RunAsWrittenAppend` | src/app.py:126-144 | running two request sequences back to back is running their concatenation |
| `Requests.RunIntendedAppend` | src/app.py:126-144 | the same for the hoisted signup |
| `Scenarios.SeededListing` | tests/test_app.py:9-17 | listing a newly constructed registry gives a non-empty table that contains Chess Club and Programming Class |
| `Scenarios.SeededDuplicateSignup` | tests/test_app.py:51-63 | michael signing up again for Chess Club gives AlreadySignedUp, leaves the table unchanged, and the detail says "already signed up" |
| `Scenarios.SeededUnknownActivity` | tests/test_app.py:65-77 | "Nonexistent Activity" gives ActivityNotFound for signup and unregister, the table is unchanged, and the detail says "not found" |
| `Scenarios.SeededSignupForTwoActivities` | tests/test_app.py:79-101 | one new student signs up for Chess Club and then Programming Class; both succeed and both rosters list the student |
| `Scenarios.SeededSignupThenUnregister` | tests/test_app.py:107-131 | signup then unregister of a new email on Chess Club succeeds, says "Unregistered", leaves the email off and restores the seed table |
| `Scenarios.SeededUnregisterNotRegistered` | tests/test_app.py:133-145 | unregistering an email not on Chess Club gives NotRegistered with "not registered" in the detail and no change |
| `Scenarios.ChessClubFillsUp` | src/app.py:24-29 | Chess Club (2 of 12 taken) accepts 10 distinct new emails; hoisted, the 11th is refused with AtMaxCapacity and the roster stays at 12; as written, the 11th is accepted and the roster reaches 13 |

## Left out

- FastAPI wiring is not modelled, because it is framework glue. This covers the `app` object, the static-file mount (src/app.py:14-20) and the root redirect (src/app.py:116-118).
- HTTP status codes and JSON serialisation are not modelled. A 404 or 400 `HTTPException` becomes the matching `Error` value, and a response is `Ok(message)` or `Failure(error)`.
- Aliasing is not modelled. `get_activities` returns the live dict, so a caller could mutate the registry through it. `App.Registry.GetActivities` returns the table as a value.
- The in-place `append` is modelled as reassigning the activity's entry in the `activities` map field. The new entry has the longer roster. No other object shares the list in the model.
- The order of the table's entries is not modelled. `activities` is a Dafny `map`, which has no order, while the Python dict keeps the seed's insertion order and the JSON listing shows it. No operation of the core depends on that order. The order within each roster is modelled.
- Concurrency and request interleaving are not modelled. Requests are served one at a time, in order (module `Requests`).
- Python's dynamic typing is not modelled. `max_participants` is an `int` and emails and names are strings. A request whose `email` is missing or of another type is rejected by the framework before the handler runs.
- Unregister: src/app.py does not implement it. Its behaviour comes from tests/test_app.py:107-159 only. It removes the first occurrence of the email, as Python's `list.remove` would. Its `NotRegistered` detail text and its success message text are chosen to contain the words the tests check for.
- Strings are compared as plain character sequences. There is no case folding or normalisation of emails, as in the source.
- Each scenario in module `Scenarios` starts from the seed table `Seed`. The test fixture (`client`) is outside this model.

## Findings

| source | as written | input that shows it | evidently intended | confidence | as-written member | corrected member |
|---|---|---|---|---|---|---|
| src/app.py:137-143 | the capacity test (lines 140-141) is indented under the duplicate branch, after its `raise`, so it never runs and a full roster still accepts a fresh email | Chess Club after 10 distinct new signups (12 of 12 taken), then an 11th new email: accepted, roster 13 > 12 | the capacity test runs after the duplicate test and before the append, refusing a full roster with "Activity is at max capacity" | high; not executed | `Transitions.SignupIgnoresCapacity` | `Transitions.SignupIntendedKeepsWellFormed` |

The as-written half is also shown concretely by
`Transitions.SignupBreaksCapacityExample` and by the second postcondition of
`Scenarios.ChessClubFillsUp`. The corrected half is `Transitions.SignupIntended`.
Every intended invariant is proved to hold after one request
(`Transitions.SignupIntendedKeepsWellFormed`) and after any sequence of
requests (`Requests.RunIntendedKeepsWellFormed`). The registry exposes it as
`App.Registry.SignupIntended`.
