/**
 * The identity record (src/User.java): a username, the join time and an
 * online flag. Equality and hashing look at the username alone.
 */
module Users {

  const TwoTo31: int := 0x8000_0000
  const TwoTo32: int := 0x1_0000_0000

  /** Java `int` arithmetic: the value congruent to `x` modulo 2^32 in [-2^31, 2^31). */
  function Wrap32(x: int): (w: int)
    ensures -TwoTo31 <= w < TwoTo31
    ensures (w - x) % TwoTo32 == 0
  {
    (x + TwoTo31) % TwoTo32 - TwoTo31
  }

  /** `String.hashCode`: h = 31 * h + c over the chars, in 32-bit arithmetic. */
  function JavaHash(s: string): (h: int)
    ensures -TwoTo31 <= h < TwoTo31
  {
    if s == [] then 0 else Wrap32(31 * JavaHash(s[..|s| - 1]) + s[|s| - 1] as int)
  }

  const OnlineSuffix: string := " (Online)"
  const OfflineSuffix: string := " (Offline)"

  /** `User.toString`: the username, then the status in parentheses. */
  function Describe(username: string, online: bool): (d: string)
    ensures username <= d
    ensures d[|username|..] == OnlineSuffix || d[|username|..] == OfflineSuffix
    ensures online <==> d[|username|..] == OnlineSuffix
  {
    username + (if online then OnlineSuffix else OfflineSuffix)
  }

  /** The text `toString` shows determines both the username and the flag. */
  lemma DescribeInjective(u1: string, o1: bool, u2: string, o2: bool)
    requires Describe(u1, o1) == Describe(u2, o2)
    ensures u1 == u2 && o1 == o2
  {
    var d := Describe(u1, o1);
    // the char eight from the end is '(' exactly when the suffix is " (Online)"
    assert o1 <==> d[|d| - 8] == '(';
    assert o2 <==> d[|d| - 8] == '(';
    assert |u1| == |u2|;
    assert u1 == d[..|u1|] == u2;
  }

  class User {
    var username: string
    var joinTime: int
    var isOnline: bool

    /** `new User(username)`; `now` is the clock reading. */
    constructor (username: string, now: int)
      ensures this.username == username && joinTime == now && isOnline
    {
      this.username := username;
      joinTime := now;
      isOnline := true;
    }

    method SetUsername(username: string)
      modifies this
      ensures this.username == username
      ensures joinTime == old(joinTime) && isOnline == old(isOnline)
    {
      this.username := username;
    }

    method SetJoinTime(joinTime: int)
      modifies this
      ensures this.joinTime == joinTime
      ensures username == old(username) && isOnline == old(isOnline)
    {
      this.joinTime := joinTime;
    }

    method SetOnline(online: bool)
      modifies this
      ensures isOnline == online
      ensures username == old(username) && joinTime == old(joinTime)
    {
      isOnline := online;
    }

    function ToString(): (d: string)
      reads this
      ensures username <= d
      ensures isOnline <==> d[|username|..] == OnlineSuffix
      ensures !isOnline <==> d[|username|..] == OfflineSuffix
    {
      Describe(username, isOnline)
    }

    /** `equals`: the same object, or another `User` with an equal username. */
    predicate Equals(other: User?)
      reads this, other
      ensures Equals(other) <==> other != null && other.username == username
    {
      other == this || (other != null && username == other.username)
    }

    /** `hashCode`: the username's `String.hashCode`, a 32-bit value. */
    function HashCode(): (h: int)
      reads this
      ensures -TwoTo31 <= h < TwoTo31
      ensures h == JavaHash(username)
    {
      JavaHash(username)
    }
  }

  lemma EqualsIsReflexive(u: User)
    ensures u.Equals(u)
  {
  }

  lemma EqualsIsSymmetric(a: User, b: User)
    ensures a.Equals(b) <==> b.Equals(a)
  {
  }

  /** `equals` and `hashCode` agree: equal users hash alike. */
  lemma EqualUsersHashAlike(a: User, b: User)
    requires a.Equals(b)
    ensures a.HashCode() == b.HashCode()
  {
  }
}
