/**
 * Callers of the friend model: what follows for a client from the
 * contracts of the registry and of the friendship operations alone,
 * including the concrete situations the repository's unit tests set up.
 */
module Scenarios {
  import opened Dates
  import opened JFriend

  /**
   * Two lookups return the very same object exactly when their identity
   * triples are equal.
   */
  method GetIsCanonical(reg: Registry, x: Identity, y: Identity) returns (p: Person, q: Person)
    requires reg.Valid()
    modifies reg
    ensures reg.Valid()
    ensures p.Key() == x && q.Key() == y
    ensures p == q <==> x == y
  {
    p := reg.Get(x.firstName, x.lastName, x.dateOfBirth);
    q := reg.Get(y.firstName, y.lastName, y.dateOfBirth);
  }

  /**
   * Befriending a non-friend twice answers true, then false, and the
   * friend set grows by exactly one.
   */
  method AddFriendTwice(a: Person, b: Person, ghost world: set<Person>)
      returns (first: Result<bool>, second: Result<bool>)
    requires FriendGraph(world) && DistinctIdentities(world) && a in world && b in world
    requires a != b && !a.HasFriend(b)
    modifies a, b
    ensures FriendGraph(world)
    ensures first == Ok(true) && second == Ok(false)
    ensures a.friends == old(a.friends) + {b} && b.friends == old(b.friends) + {a}
    ensures |a.friends| == |old(a.friends)| + 1
  {
    first := a.AddFriend(b, world);
    second := a.AddFriend(b, world);
  }

  /** Removing a friendship just added gives back both friend sets as they were. */
  method AddThenRemove(a: Person, b: Person, ghost world: set<Person>)
      returns (added: Result<bool>, removed: bool)
    requires FriendGraph(world) && DistinctIdentities(world) && a in world && b in world
    requires a != b && !a.HasFriend(b)
    modifies a, b
    ensures FriendGraph(world)
    ensures added == Ok(true) && removed
    ensures a.friends == old(a.friends) && b.friends == old(b.friends)
  {
    added := a.AddFriend(b, world);
    removed := a.RemoveFriend(b, world);
  }

  /** A distinct-element sequence whose only member is `c` is `[c]`. */
  lemma OnlyElement(s: seq<Person>, c: Person)
    requires Distinct(s)
    requires forall p :: p in s <==> p == c
    ensures s == [c]
  {
    assert c in s;
    if |s| > 1 {
      assert s[0] == c by { assert s[0] in s; }
      assert s[1] == c by { assert s[1] in s; }
    }
  }

  /** A person born on 2000-01-01 has the birthday January 1. */
  method BirthdayScenario() returns (md: MonthDay)
    ensures md == MonthDay(1, 1)
  {
    var reg := new Registry();
    var a := reg.Get("a", "b", LocalDate(2000, 1, 1));
    md := a.Birthday();
  }

  /**
   * a befriends b: both see the friendship; a removes b: both friend
   * sets are empty again.
   */
  method FriendshipScenario()
      returns (added: Result<bool>, aHasB: bool, bHasA: bool, removed: bool,
               aFriends: set<Person>, bFriends: set<Person>)
    ensures added == Ok(true) && aHasB && bHasA && removed
    ensures aFriends == {} && bFriends == {}
  {
    var reg := new Registry();
    var a := reg.Get("a", "b", LocalDate(2000, 1, 1));
    var b := reg.Get("c", "d", LocalDate(2001, 2, 2));
    RegisteredIdentitiesDistinct(reg);
    added := a.AddFriend(b, reg.cache.Values);
    aHasB := a.HasFriend(b);
    bHasA := b.HasFriend(a);
    removed := a.RemoveFriend(b, reg.cache.Values);
    aFriends := a.GetFriends();
    bFriends := b.GetFriends();
  }

  /** A person cannot befriend themselves, and the attempt changes nothing. */
  method SelfFriendScenario() returns (r: Result<bool>, aFriends: set<Person>)
    ensures r.Err? && aFriends == {}
  {
    var reg := new Registry();
    var a := reg.Get("a", "b", LocalDate(2000, 1, 1));
    RegisteredIdentitiesDistinct(reg);
    r := a.AddFriend(a, reg.cache.Values);
    aFriends := a.GetFriends();
  }

  /** After a clears their friends, a has none and b no longer counts a as a friend. */
  method ClearFriendsScenario() returns (aFriends: set<Person>, bHasA: bool)
    ensures aFriends == {} && !bHasA
  {
    var reg := new Registry();
    var a := reg.Get("a", "b", LocalDate(2000, 1, 1));
    var b := reg.Get("c", "d", LocalDate(2001, 2, 2));
    RegisteredIdentitiesDistinct(reg);
    var _ := a.AddFriend(b, reg.cache.Values);
    a.ClearFriends(reg.cache.Values);
    aFriends := a.GetFriends();
    bHasA := b.HasFriend(a);
  }

  /** a and b both befriend c, and c is then their one mutual friend. */
  method MutualFriendScenario() returns (mutual: seq<Person>, c: Person)
    ensures mutual == [c]
  {
    var reg := new Registry();
    var a := reg.Get("a", "b", LocalDate(2000, 1, 1));
    var b := reg.Get("c", "d", LocalDate(2001, 2, 2));
    c := reg.Get("e", "f", LocalDate(2002, 3, 31));
    RegisteredIdentitiesDistinct(reg);
    var _ := a.AddFriend(c, reg.cache.Values);
    var _ := b.AddFriend(c, reg.cache.Values);
    mutual := a.GetMutualFriends(b);
    OnlyElement(mutual, c);
  }

  /**
   * a has two friends, b born on 2001-02-02 and c born on 1999-01-01; only
   * b matches the birthday 2 February.
   */
  method FriendsWithBirthdayScenario() returns (matches: seq<Person>, b: Person)
    ensures matches == [b]
  {
    var reg := new Registry();
    var a := reg.Get("a", "b", LocalDate(2000, 1, 1));
    b := reg.Get("c", "d", LocalDate(2001, 2, 2));
    var c := reg.Get("e", "f", LocalDate(1999, 1, 1));
    RegisteredIdentitiesDistinct(reg);
    var _ := a.AddFriend(b, reg.cache.Values);
    var _ := a.AddFriend(c, reg.cache.Values);
    matches := a.GetFriendsWithThisBirthday(MonthDay(2, 2));
    OnlyElement(matches, b);
  }
}
