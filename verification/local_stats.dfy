/** The local fallback of the preference service: the list kept under the
    browser-storage key "preferences", appending to it, and the statistics
    derived from it when the remote service cannot be reached. */
module LocalStats {
  import opened Preferences
  import opened StreakCalculator

  /** The stored entries whose action is `action`, in stored order. */
  function Filter(preferences: seq<UserPreference>, action: string): (kept: seq<UserPreference>)
    ensures |kept| <= |preferences|
    ensures forall k :: 0 <= k < |kept| ==> kept[k].action == action
    ensures |kept| == |preferences| <==> forall k :: 0 <= k < |preferences| ==> preferences[k].action == action
  {
    if preferences == [] then []
    else (if preferences[0].action == action then [preferences[0]] else []) + Filter(preferences[1..], action)
  }

  /** Filtering keeps every entry carrying the action as often as it is
      stored, and nothing else. */
  lemma {:induction false} FilterKeepsExactly(preferences: seq<UserPreference>, action: string)
    ensures forall p :: multiset(Filter(preferences, action))[p]
                     == if p.action == action then multiset(preferences)[p] else 0
  {
    if preferences != [] {
      FilterKeepsExactly(preferences[1..], action);
      assert preferences == [preferences[0]] + preferences[1..];
    }
  }

  /** How many stored entries carry `action`: never more than are stored,
      and all of them exactly when every entry carries it. */
  function Count(preferences: seq<UserPreference>, action: string): (n: nat)
    ensures n <= |preferences|
    ensures n == |preferences| <==> forall k :: 0 <= k < |preferences| ==> preferences[k].action == action
  {
    |Filter(preferences, action)|
  }

  /** Filtering a list with one more entry at the end filters the earlier
      entries the same way and keeps the new one exactly when it carries the
      action. */
  lemma {:induction false} FilterAppend(preferences: seq<UserPreference>, preference: UserPreference, action: string)
    ensures Filter(preferences + [preference], action)
         == Filter(preferences, action) + (if preference.action == action then [preference] else [])
  {
    var all := preferences + [preference];
    if preferences == [] {
      assert all == [preference];
      assert all[1..] == [];
    } else {
      var head := if preferences[0].action == action then [preferences[0]] else [];
      var added := if preference.action == action then [preference] else [];
      assert all[0] == preferences[0];
      assert all[1..] == preferences[1..] + [preference];
      FilterAppend(preferences[1..], preference, action);
      calc {
        Filter(all, action);
        head + Filter(all[1..], action);
        head + (Filter(preferences[1..], action) + added);
        (head + Filter(preferences[1..], action)) + added;
        Filter(preferences, action) + added;
      }
    }
  }

  /** Saving one more entry raises the count of its action by one and leaves
      the count of every other action alone. */
  lemma CountAppend(preferences: seq<UserPreference>, preference: UserPreference, action: string)
    ensures Count(preferences + [preference], action)
         == Count(preferences, action) + (if preference.action == action then 1 else 0)
  {
    FilterAppend(preferences, preference, action);
  }

  /** Every entry of a list with one more at the end is a like or a dislike
      exactly when every earlier one is and the last one is. */
  lemma AllLikeOrDislikeAppend(init: seq<UserPreference>, last: UserPreference)
    ensures AllLikeOrDislike(init + [last])
        <==> AllLikeOrDislike(init) && (last.action == Like || last.action == Dislike)
  {
    var all := init + [last];
    if AllLikeOrDislike(all) {
      forall k | 0 <= k < |init| ensures init[k].action == Like || init[k].action == Dislike {
        assert all[k] == init[k];
      }
      assert all[|init|] == last;
    }
  }

  /** Liked and disliked entries together never outnumber the stored entries,
      and make up all of them exactly when every entry is a like or a dislike. */
  lemma {:induction false} LikedPlusDisliked(preferences: seq<UserPreference>)
    ensures Count(preferences, Like) + Count(preferences, Dislike) <= |preferences|
    ensures Count(preferences, Like) + Count(preferences, Dislike) == |preferences|
        <==> AllLikeOrDislike(preferences)
  {
    if preferences != [] {
      var last := preferences[|preferences| - 1];
      var init := preferences[..|preferences| - 1];
      assert preferences == init + [last];
      LikedPlusDisliked(init);
      CountAppend(init, last, Like);
      CountAppend(init, last, Dislike);
      AllLikeOrDislikeAppend(init, last);
    }
  }

  /** The local store behind the service: the list of preferences saved
      while the remote service was unreachable. */
  class PreferenceStore {
    var preferences: seq<UserPreference>

    /** An absent storage entry reads as the empty list. */
    constructor ()
      ensures preferences == []
    {
      preferences := [];
    }

    /** savePreferenceLocally: append one preference to the stored list. */
    method SavePreferenceLocally(preference: UserPreference)
      modifies this
      ensures preferences == old(preferences) + [preference]
      ensures |preferences| == |old(preferences)| + 1
      ensures preferences[|preferences| - 1] == preference
      ensures preferences[..|old(preferences)|] == old(preferences)
    {
      preferences := preferences + [preference];
    }

    /** getLocalStats: the statistics of the stored list. The time of the
        request, `now`, is what the source reads from the clock. */
    method GetLocalStats(zoneOffsetMs: int, now: string) returns (stats: UserStats)
      ensures stats.streak == Streak(preferences, zoneOffsetMs)
      ensures stats.totalCards == |preferences|
      ensures stats.likedCards == Count(preferences, Like)
      ensures stats.dislikedCards == Count(preferences, Dislike)
      ensures stats.likedCards + stats.dislikedCards <= stats.totalCards
      ensures stats.likedCards + stats.dislikedCards == stats.totalCards <==> AllLikeOrDislike(preferences)
      ensures stats.lastInteractionDate == now
    {
      var likedCards := Count(preferences, Like);
      var dislikedCards := Count(preferences, Dislike);
      var streak := CalculateStreak(preferences, zoneOffsetMs);
      LikedPlusDisliked(preferences);
      stats := UserStats(streak, |preferences|, likedCards, dislikedCards, now);
    }
  }
}
