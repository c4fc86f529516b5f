/**
 * People identified by (first name, last name, date of birth), kept as
 * one canonical object per identity by a registry, and a symmetric,
 * irreflexive friendship relation between those objects, changed in
 * place two friend sets at a time.
 */
module JFriend {
  import opened Dates

  /** The one kind of failure: a caller passed an argument the operation refuses. */
  datatype Error = IllegalArgument(message: string)

  datatype Result<T> = Ok(value: T) | Err(error: Error)

  /** The identity triple: it decides equality of persons and keys the registry. */
  datatype Identity = Identity(firstName: string, lastName: string, dateOfBirth: LocalDate)

  /** No person appears twice in `s`. */
  predicate Distinct(s: seq<Person>)
  {
    forall i, j :: 0 <= i < j < |s| ==> s[i] != s[j]
  }

  /**
   * No two persons of `world` share an identity triple, so inside `world`
   * comparing persons by reference, as the friend sets here do, agrees with
   * comparing them by `equals`, as a Java `HashSet` does.
   */
  ghost predicate DistinctIdentities(world: set<Person>)
  {
    forall p, q :: p in world && q in world && p.Key() == q.Key() ==> p == q
  }

  /**
   * The friendship invariant over a set of persons: each friend set stays
   * inside the set, nobody is their own friend, and friendship is mutual.
   */
  ghost predicate FriendGraph(world: set<Person>)
    reads world
  {
    (forall p :: p in world ==> p.friends <= world && p !in p.friends) &&
    (forall p, q :: p in world && q in world ==> (q in p.friends <==> p in q.friends))
  }

  class Person {
    const firstName: string
    const lastName: string
    const dateOfBirth: LocalDate
    var friends: set<Person>

    /** A person with the given identity and no friends; only the registry creates persons. */
    constructor (firstName: string, lastName: string, dateOfBirth: LocalDate)
      ensures this.firstName == firstName && this.lastName == lastName
      ensures this.dateOfBirth == dateOfBirth
      ensures friends == {}
    {
      this.firstName := firstName;
      this.lastName := lastName;
      this.dateOfBirth := dateOfBirth;
      friends := {};
    }

    /** The identity triple of this person: the fields `equals` compares and `hashCode` hashes. */
    function Key(): (k: Identity)
      ensures k.firstName == firstName && k.lastName == lastName && k.dateOfBirth == dateOfBirth
    {
      Identity(firstName, lastName, dateOfBirth)
    }

    /** getBirthday: the month and day of the date of birth. */
    function Birthday(): (md: MonthDay)
      ensures md.month == dateOfBirth.month && md.day == dateOfBirth.day
    {
      MonthDayFrom(dateOfBirth)
    }

    /** getFriends: the current friend set, as a value the caller cannot change. */
    function GetFriends(): (s: set<Person>)
      reads this
      ensures s == friends
    {
      friends
    }

    /** hasFriend: whether `arg` is currently a friend. */
    function HasFriend(arg: Person): (r: bool)
      reads this
      ensures r <==> arg in GetFriends()
    {
      arg in friends
    }

    /**
     * equals: field-wise comparison of the three identity fields; an
     * absent argument is never equal.
     */
    function Equals(arg: Person?): (r: bool)
      ensures r <==> arg != null && arg.Key() == Key()
    {
      arg != null && arg.firstName == firstName && arg.lastName == lastName
      && arg.dateOfBirth == dateOfBirth
    }

    /**
     * addFriend: refuses `this` itself; otherwise makes the two persons
     * friends in both directions and reports whether they were not friends
     * before. The two one-sided outcomes agree because the invariant held.
     */
    method AddFriend(arg: Person, ghost world: set<Person>) returns (r: Result<bool>)
      requires this in world && arg in world && FriendGraph(world) && DistinctIdentities(world)
      modifies this, arg
      ensures FriendGraph(world)
      ensures arg == this ==> r.Err? && friends == old(friends)
      ensures arg != this ==> r == Ok(arg !in old(friends))
      ensures arg != this ==> friends == old(friends) + {arg} && arg.friends == old(arg.friends) + {this}
    {
      if arg == this {
        return Err(IllegalArgument("Cannot add person as its own friend."));
      }
      var addedToThis := arg !in friends;
      friends := friends + {arg};
      var addedToArg := this !in arg.friends;
      arg.friends := arg.friends + {this};
      assert addedToThis == addedToArg;
      r := Ok(addedToThis);
    }

    /**
     * removeFriend: ends the friendship in both directions and reports
     * whether there was one. Removing a non-friend, or oneself, changes nothing.
     */
    method RemoveFriend(arg: Person, ghost world: set<Person>) returns (r: bool)
      requires this in world && arg in world && FriendGraph(world) && DistinctIdentities(world)
      modifies this, arg
      ensures FriendGraph(world)
      ensures r == (arg in old(friends))
      ensures friends == old(friends) - {arg} && arg.friends == old(arg.friends) - {this}
    {
      var removedFromThis := arg in friends;
      friends := friends - {arg};
      var removedFromArg := this in arg.friends;
      arg.friends := arg.friends - {this};
      assert removedFromThis == removedFromArg;
      r := removedFromThis;
    }

    /**
     * clearFriends: removes this person from every friend's set, one
     * friend at a time, then empties its own set.
     */
    method ClearFriends(ghost world: set<Person>)
      requires this in world && FriendGraph(world) && DistinctIdentities(world)
      modifies this, friends
      ensures FriendGraph(world)
      ensures friends == {}
      ensures forall f :: f in old(friends) ==> f.friends == old(f.friends) - {this}
      ensures forall p :: p in world && p != this && p !in old(friends) ==> p.friends == old(p.friends)
    {
      var rest := friends;
      while rest != {}
        invariant rest <= friends == old(friends)
        invariant forall f :: f in friends && f !in rest ==> f.friends == old(f.friends) - {this}
        invariant forall f :: f in rest ==> f.friends == old(f.friends)
        decreases rest
      {
        var f :| f in rest;
        f.friends := f.friends - {this};
        rest := rest - {f};
      }
      friends := {};
    }

    /**
     * filterFriends: the friends that `keep` accepts, each once, in an
     * order left open (the order of a walk over the set).
     */
    method FilterFriends(keep: Person -> bool) returns (r: seq<Person>)
      ensures Distinct(r)
      ensures forall p :: p in r <==> p in friends && keep(p)
    {
      r := [];
      var rest := friends;
      while rest != {}
        invariant rest <= friends
        invariant Distinct(r)
        invariant forall p :: p in r <==> p in friends && p !in rest && keep(p)
        decreases rest
      {
        var f :| f in rest;
        if keep(f) {
          r := r + [f];
        }
        rest := rest - {f};
      }
    }

    /** getMutualFriends: exactly the friends this person shares with `arg`. */
    method GetMutualFriends(arg: Person) returns (r: seq<Person>)
      ensures Distinct(r)
      ensures forall p :: p in r <==> p in friends && p in arg.friends
    {
      var theirs := arg.friends;
      r := FilterFriends((p: Person) => p in theirs);
    }

    /** getFriendsWithThisBirthday: exactly the friends whose birthday is `md`. */
    method GetFriendsWithThisBirthday(md: MonthDay) returns (r: seq<Person>)
      ensures Distinct(r)
      ensures forall p :: p in r <==> p in friends && p.Birthday() == md
    {
      r := FilterFriends((p: Person) => p.Birthday() == md);
    }

    /**
     * getFriendsWithBirthdayToday, with today's month and day passed in
     * instead of read from the clock.
     */
    method GetFriendsWithBirthdayToday(today: MonthDay) returns (r: seq<Person>)
      ensures Distinct(r)
      ensures forall p :: p in r <==> p in friends && p.Birthday() == today
    {
      r := GetFriendsWithThisBirthday(today);
    }
  }

  /** The cache of canonical persons, one per identity triple. */
  class Registry {
    var cache: map<Identity, Person>

    /**
     * Every cached person is stored under its own identity, and the
     * registered persons form a friend graph.
     */
    ghost predicate Valid()
      reads this, cache.Values
    {
      (forall k :: k in cache ==> cache[k].Key() == k) && FriendGraph(cache.Values)
    }

    /** An empty registry. */
    constructor ()
      ensures Valid() && cache == map[]
    {
      cache := map[];
    }

    /**
     * get: the cached person with this identity, or else a new friendless
     * person with it, cached from now on.
     */
    method Get(firstName: string, lastName: string, dateOfBirth: LocalDate) returns (p: Person)
      requires Valid()
      modifies this
      ensures Valid()
      ensures p.Key() == Identity(firstName, lastName, dateOfBirth)
      ensures p.Key() in cache && cache[p.Key()] == p && p in cache.Values
      ensures forall k :: k in old(cache) ==> k in cache && cache[k] == old(cache)[k]
      ensures old(cache).Values <= cache.Values
      ensures p.Key() in old(cache) ==> cache == old(cache) && p == old(cache)[p.Key()]
      ensures p.Key() !in old(cache) ==> fresh(p) && p.friends == {} && cache == old(cache)[p.Key() := p]
    {
      var candidate := new Person(firstName, lastName, dateOfBirth);
      var key := candidate.Key();
      if key in cache {
        p := cache[key];
      } else {
        ghost var before := cache;
        cache := cache[key := candidate];
        assert cache[key] == candidate;
        forall q | q in cache.Values ensures q in before.Values || q == candidate {
          var k :| k in cache && cache[k] == q;
          if k != key {
            assert before[k] == q;
          }
        }
        forall q | q in before.Values ensures q in cache.Values {
          var k :| k in before && before[k] == q;
          assert cache[k] == q;
        }
        p := candidate;
      }
    }
  }

  /** The persons of a valid registry have pairwise distinct identities. */
  lemma RegisteredIdentitiesDistinct(reg: Registry)
    requires reg.Valid()
    ensures DistinctIdentities(reg.cache.Values)
  {
  }

  /**
   * In a valid registry equality and identity coincide: two registered
   * persons are equal exactly when they are the same object.
   */
  lemma EqualsIsIdentity(reg: Registry, p: Person, q: Person)
    requires reg.Valid() && p in reg.cache.Values && q in reg.cache.Values
    ensures p.Equals(q) <==> p == q
  {
  }

  /** equals is reflexive, symmetric and transitive. */
  lemma EqualsIsEquivalence(a: Person, b: Person, c: Person)
    ensures a.Equals(a)
    ensures a.Equals(b) ==> b.Equals(a)
    ensures a.Equals(b) && b.Equals(c) ==> a.Equals(c)
  {
  }

  /** In a friend graph, hasFriend holds in one direction exactly when it holds in the other. */
  lemma HasFriendSymmetric(world: set<Person>, a: Person, b: Person)
    requires FriendGraph(world) && a in world && b in world
    ensures a.HasFriend(b) == b.HasFriend(a)
    ensures !a.HasFriend(a)
  {
  }

  /**
   * In a friend graph the mutual friends of a and b are exactly the persons
   * who count both a and b among their own friends, and never a or b.
   */
  lemma MutualFriendsBefriendBoth(world: set<Person>, a: Person, b: Person)
    requires FriendGraph(world) && a in world && b in world
    ensures forall c :: c in world ==> (c in a.friends * b.friends <==> a in c.friends && b in c.friends)
    ensures a !in a.friends * b.friends && b !in a.friends * b.friends
  {
  }
}
