/** The records kept by the management-shorts preference service: one
    UserPreference per swipe, and the UserStats derived from a list of them. */
module Preferences {

  /** Milliseconds in one day: 1000 * 60 * 60 * 24. */
  const MsPerDay: int := 86_400_000

  /** The two actions the card stack records. The stored list is untyped
      JSON, so an entry read back may carry any other string as well. */
  const Like: string := "like"
  const Dislike: string := "dislike"

  /** One swipe: which card, which action, and when (milliseconds since the epoch). */
  datatype UserPreference = UserPreference(cardId: int, action: string, timestamp: int)

  /** The summary shown to the user. */
  datatype UserStats = UserStats(
    streak: nat,
    totalCards: nat,
    likedCards: nat,
    dislikedCards: nat,
    lastInteractionDate: string)

  /** Every entry carries one of the two actions the card stack records. */
  predicate AllLikeOrDislike(preferences: seq<UserPreference>) {
    forall k :: 0 <= k < |preferences| ==> preferences[k].action == Like || preferences[k].action == Dislike
  }

  /** The local calendar day of a timestamp, as a day number, in a time zone
      `zoneOffsetMs` milliseconds ahead of UTC: the day whose local midnight
      is the last one at or before the timestamp. */
  function DayOf(timestamp: int, zoneOffsetMs: int): (day: int)
    ensures day * MsPerDay <= timestamp + zoneOffsetMs < day * MsPerDay + MsPerDay
  {
    (timestamp + zoneOffsetMs) / MsPerDay
  }

  /** The calendar day of each preference, in list order. */
  function DaysOf(preferences: seq<UserPreference>, zoneOffsetMs: int): (days: seq<int>)
    ensures |days| == |preferences|
    ensures forall k :: 0 <= k < |days| ==> days[k] == DayOf(preferences[k].timestamp, zoneOffsetMs)
  {
    if preferences == [] then []
    else [DayOf(preferences[0].timestamp, zoneOffsetMs)] + DaysOf(preferences[1..], zoneOffsetMs)
  }

  /** Mapping to days distributes over concatenation. */
  lemma DaysOfAppend(a: seq<UserPreference>, b: seq<UserPreference>, zoneOffsetMs: int)
    ensures DaysOf(a + b, zoneOffsetMs) == DaysOf(a, zoneOffsetMs) + DaysOf(b, zoneOffsetMs)
  {
  }

  /** Taking one preference out of a list takes one copy of its day out of
      the multiset of days. */
  lemma DaysOfRemoveAt(q: seq<UserPreference>, i: nat, zoneOffsetMs: int)
    requires i < |q|
    ensures multiset(DaysOf(q, zoneOffsetMs))
         == multiset(DaysOf(q[..i] + q[i + 1..], zoneOffsetMs)) + multiset{DayOf(q[i].timestamp, zoneOffsetMs)}
  {
    assert q == q[..i] + [q[i]] + q[i + 1..];
    DaysOfAppend(q[..i] + [q[i]], q[i + 1..], zoneOffsetMs);
    DaysOfAppend(q[..i], [q[i]], zoneOffsetMs);
    DaysOfAppend(q[..i], q[i + 1..], zoneOffsetMs);
  }

  /** Removing the element at one position removes one copy of it from the multiset. */
  lemma MultisetRemoveAt<T>(q: seq<T>, i: nat)
    requires i < |q|
    ensures multiset(q[..i] + q[i + 1..]) == multiset(q) - multiset{q[i]}
  {
    assert q == q[..i] + [q[i]] + q[i + 1..];
    assert multiset(q) == multiset(q[..i]) + multiset{q[i]} + multiset(q[i + 1..]);
  }

  /** Dropping the first element drops one copy of it from the multiset. */
  lemma MultisetTail<T>(s: seq<T>)
    requires s != []
    ensures multiset(s[1..]) == multiset(s) - multiset{s[0]}
  {
    assert s == [s[0]] + s[1..];
  }

  /** Reordering the preferences reorders their days the same way: the
      multiset of days is determined by the multiset of preferences. */
  lemma {:induction false} DaysOfPermutation(p: seq<UserPreference>, q: seq<UserPreference>, zoneOffsetMs: int)
    requires multiset(p) == multiset(q)
    ensures multiset(DaysOf(p, zoneOffsetMs)) == multiset(DaysOf(q, zoneOffsetMs))
  {
    if p == [] {
      assert |q| == |multiset(q)| == 0;
    } else {
      var x := p[0];
      assert x in q by {
        assert x in multiset(p);
      }
      var i :| 0 <= i < |q| && q[i] == x;
      var rest := q[..i] + q[i + 1..];
      MultisetRemoveAt(q, i);
      MultisetTail(p);
      DaysOfPermutation(p[1..], rest, zoneOffsetMs);
      var dx := DayOf(x.timestamp, zoneOffsetMs);
      assert multiset(DaysOf(q, zoneOffsetMs)) == multiset(DaysOf(rest, zoneOffsetMs)) + multiset{dx} by {
        DaysOfRemoveAt(q, i, zoneOffsetMs);
      }
      assert multiset(DaysOf(p, zoneOffsetMs)) == multiset(DaysOf(p[1..], zoneOffsetMs)) + multiset{dx} by {
        assert DaysOf(p, zoneOffsetMs) == [dx] + DaysOf(p[1..], zoneOffsetMs);
      }
    }
  }
}
