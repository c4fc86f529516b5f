# jfriend: canonical persons and a symmetric friendship graph

The system keeps one canonical `Person` object per identity triple: first name, last name and date of birth. The Java code holds these in a static cache. Persons befriend each other, and a friendship is always mutual and never reflexive. A person can ask for its friends, the friends it shares with another person, and the friends whose birthday (the month and day of the date of birth) falls on a given day.

The model has three modules:

- `Dates` (`dates.dfy`): `LocalDate` and `MonthDay` as datatypes, and the month-and-day projection `MonthDayFrom`.
- `JFriend` (`jfriend.dfy`): the `Person` class and the `Registry` class.
  - `Person` has the identity triple as `const` fields and `friends: set<Person>` as its one mutable field.
  - `Registry` replaces the static `PERSON_CACHE`. It is an explicit object whose `cache: map<Identity, Person>` field `Get` updates.
  - `FriendGraph(world)` is the friendship invariant over a set of persons. Every friend set stays inside `world`, nobody is their own friend, and `q in p.friends <==> p in q.friends`.
  - `DistinctIdentities(world)` says that no two persons of `world` share an identity triple. Inside such a set, comparing persons by reference (as Dafny sets do) agrees with comparing them by `equals` (as the Java `HashSet` does). The persons of a valid registry have this property (`RegisteredIdentitiesDistinct`).
  - `AddFriend`, `RemoveFriend` and `ClearFriends` change friend sets in place (`modifies this, arg` and `modifies this, friends`). Each one requires `DistinctIdentities(world)` and requires and ensures `FriendGraph(world)` for a ghost `world`, which callers pass as `reg.cache.Values`.
  - The Java `assert`s that the two one-sided outcomes agree are `assert` statements here, proved from the invariant.
  - Because of the `modifies` clauses, no other person's friend set can change.
  - `Registry.Valid()` says that every cached person is stored under its own identity and that the registered persons form a `FriendGraph`.
- `Scenarios` (`scenarios.dfy`): client methods that use only the contracts above. They cover lookup dedup, idempotent befriending, add-then-remove as an inverse, and the situations the unit tests build, each on a fresh registry.

The queries return a `seq<Person>` in place of the Java array. Each query is specified as duplicate-free and as holding exactly the stated set of friends. The order is left open, as with `HashSet` iteration.

## Model

| member | source | states |
|---|---|---|
| `Dates.MonthDayFrom` | src/main/com/palmeroo/kata/jfriend/Person.java:44 | The month-and-day of a date keeps its month and its day. |
| `Dates.MonthDayFromIgnoresYear` | src/main/com/palmeroo/kata/jfriend/Person.java:43-45 | Two dates have the same birthday exactly when their months and days agree. Changing the year never changes the birthday. |
| `JFriend.Person.constructor` | src/main/com/palmeroo/kata/jfriend/Person.java:15-19 | A new person has exactly the given identity fields and no friends. |
| `JFriend.Person.Key` | src/main/com/palmeroo/kata/jfriend/Person.java:101-116 | The identity triple of a person is its first name, last name and date of birth: the fields `equals` compares and `hashCode` hashes. |
| `JFriend.Person.Birthday` | src/main/com/palmeroo/kata/jfriend/Person.java:43-45 | `getBirthday` has the month and the day of the date of birth. |
| `JFriend.Person.GetFriends` | src/main/com/palmeroo/kata/jfriend/Person.java:47-49 | `getFriends` is the current friend set, returned as a value that the caller cannot change. |
| `JFriend.Person.HasFriend` | src/main/com/palmeroo/kata/jfriend/Person.java:77-80 | `hasFriend` is true exactly when the argument is in `getFriends`. |
| `JFriend.Person.Equals` | src/main/com/palmeroo/kata/jfriend/Person.java:101-111 | `equals` holds exactly when the argument is present and has the same identity triple. |
| `JFriend.EqualsIsEquivalence` | src/main/com/palmeroo/kata/jfriend/Person.java:101-111 | `equals` is reflexive, symmetric and transitive. |
| `JFriend.Registry.constructor` | src/main/com/palmeroo/kata/jfriend/Person.java:9 | The cache starts empty and valid. |
| `JFriend.Registry.Get` | src/main/com/palmeroo/kata/jfriend/Person.java:21-29 | Returns the person with the given identity. It is the cached instance when that identity was cached. Otherwise it is a fresh friendless person added under that key. No entry is ever dropped or replaced, and the registry stays valid. |
| `JFriend.EqualsIsIdentity` | src/main/com/palmeroo/kata/jfriend/Person.java:21-29 | In a valid registry, two registered persons are `equals` exactly when they are the same object. |
| `JFriend.RegisteredIdentitiesDistinct` | src/main/com/palmeroo/kata/jfriend/Person.java:21-29 | No two persons of a valid registry share an identity triple. |
| `JFriend.Person.AddFriend` | src/main/com/palmeroo/kata/jfriend/Person.java:51-60 | Befriending oneself fails and changes nothing. Otherwise each person is added to the other's set, and the result is true exactly when they were not friends before. The friend graph stays symmetric and irreflexive. Requires the persons to be canonical (distinct identities). |
| `JFriend.Person.RemoveFriend` | src/main/com/palmeroo/kata/jfriend/Person.java:62-70 | Each person is removed from the other's set. The result is true exactly when they were friends before. The friend graph stays valid. |
| `JFriend.Person.ClearFriends` | src/main/com/palmeroo/kata/jfriend/Person.java:72-75 | Afterwards this person has no friends, and every former friend has lost exactly this person. Everyone else is untouched, and the friend graph stays valid. |
| `JFriend.HasFriendSymmetric` | src/main/com/palmeroo/kata/jfriend/Person.java:77-80 | In a friend graph, `a.hasFriend(b) == b.hasFriend(a)`, and nobody has themselves as a friend. |
| `JFriend.Person.FilterFriends` | src/main/com/palmeroo/kata/jfriend/Person.java:97-99 | Returns every friend that the filter accepts and no one else, each exactly once. |
| `JFriend.Person.GetMutualFriends` | src/main/com/palmeroo/kata/jfriend/Person.java:82-85 | Returns exactly the intersection of the two friend sets, with no duplicates. Nothing changes. |
| `JFriend.MutualFriendsBefriendBoth` | src/main/com/palmeroo/kata/jfriend/Person.java:82-85 | In a friend graph, the mutual friends of a and b are exactly the persons who have both a and b as friends, and they never include a or b. |
| `JFriend.Person.GetFriendsWithThisBirthday` | src/main/com/palmeroo/kata/jfriend/Person.java:92-95 | Returns exactly the friends whose month-and-day birthday equals the argument, with no duplicates. |
| `JFriend.Person.GetFriendsWithBirthdayToday` | src/main/com/palmeroo/kata/jfriend/Person.java:87-90 | Returns exactly the friends whose birthday is the given "today". |
| `Scenarios.GetIsCanonical` | src/main/com/palmeroo/kata/jfriend/Person.java:21-29 | Two lookups return the same object exactly when their identity triples are equal. |
| `Scenarios.AddFriendTwice` | src/test/com/palmeroo/kata/jfriend/PersonTests.java:63-67 | Befriending a non-friend twice returns true and then false. The friend set grows by exactly one. |
| `Scenarios.AddThenRemove` | src/main/com/palmeroo/kata/jfriend/Person.java:51-70 | Removing a friendship that was just added restores both friend sets. Both calls return true. |
| `Scenarios.OnlyElement` | src/test/com/palmeroo/kata/jfriend/PersonTests.java:112 | A duplicate-free result whose only member is `c` is the one-element array `[c]`. |
| `Scenarios.BirthdayScenario` | src/test/com/palmeroo/kata/jfriend/PersonTests.java:33-36 | A person born 2000-01-01 has the birthday January 1. |
| `Scenarios.FriendshipScenario` | src/test/com/palmeroo/kata/jfriend/PersonTests.java:45-91 | Adding returns true, and each person then has the other as a friend. Removing returns true, and both friend sets are then empty. |
| `Scenarios.SelfFriendScenario` | src/test/com/palmeroo/kata/jfriend/PersonTests.java:57-61 | Befriending oneself fails, and the friend set stays empty. |
| `Scenarios.ClearFriendsScenario` | src/test/com/palmeroo/kata/jfriend/PersonTests.java:93-105 | After `clearFriends` the person has no friends, and the former friend no longer has them. |
| `Scenarios.MutualFriendScenario` | src/test/com/palmeroo/kata/jfriend/PersonTests.java:107-113 | When a and b both befriend c, their mutual friends are exactly `[c]`. |
| `Scenarios.FriendsWithBirthdayScenario` | src/test/com/palmeroo/kata/jfriend/PersonTests.java:115-119 | a has two friends, born 2001-02-02 and 1999-01-01. The match for February 2 is exactly the first of them. |

## Left out

- `hashCode` (`Objects.hash`) is not modelled. The registry is a Dafny `map` keyed by the `Identity` value, which gives the structural equality the hash table relies on.
- `Collections.unmodifiableCollection` is not modelled. `GetFriends` returns the set value, which no caller can change.
- The `Person[]` arrays are not modelled. Queries return a sequence, and its order is left open, as the order of `HashSet` iteration is.
- `Objects.requireNonNull` checks are not modelled. Dafny's non-null reference types exclude absent arguments. Only `equals` takes a possibly absent argument (`Person?`). Its Java argument may be any `Object`, and a non-`Person` gives false (Person.java:103-105). The model takes only `Person?` arguments.
- Calendar validity of `LocalDate` (month and day ranges, leap years) is not modelled. Every date is taken as valid.
- The clock is not modelled. `GetFriendsWithBirthdayToday` takes today's month and day as a parameter instead of calling `MonthDay.now()`.
- Concurrency is not modelled. The Java cache and the two-object updates have no synchronisation, and the model is sequential.
- JFriend.Person.AddFriend requires the friend graph to be valid beforehand. This is the state that the assertion at Person.java:57 checks. The model says nothing about a call on a graph that is already asymmetric, where the Java code runs with assertions disabled.
- JFriend.Person.RemoveFriend requires the friend graph to be valid beforehand. This is the state that the assertion at Person.java:67 checks, and the same limit applies.
- JFriend.Person.ClearFriends requires the friend graph to be valid beforehand. In particular the person must not be its own friend, which the Java `forEach` would otherwise meet while it changes that same set.
- JFriend.Person.AddFriend, JFriend.Person.RemoveFriend and JFriend.Person.ClearFriends also require the persons involved to have distinct identities. Dafny sets compare persons by reference, whereas the Java `HashSet` compares them with `equals` and `hashCode`. The two agree only on canonical persons. In Java these are guaranteed by the private constructor, which only `get` calls. The Dafny constructor is public, so the model does not cover friend sets that hold two distinct objects with the same identity.
