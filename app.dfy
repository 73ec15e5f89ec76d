/**
 * The top-level app state and the engine that runs on it: the once-a-day
 * login transition (streak, streak reward, streak history, goal achievement),
 * the daily-quest reset and the achievement sweep that unlocks achievements
 * and credits their rewards.
 *
 * Every field here is a persisted value of the app; the persistence itself is
 * modelled by `Storage.PersistentValue`. Today's date is a day number given by
 * the caller; the achievement catalog (ids and rewards) is a parameter.
 */
module App {
  import opened Common
  import opened Entities

  /** The user's collections, which the screens replace wholesale. */
  datatype Collections = Collections(
    bandoleros: seq<Bandolero>,
    diaryEntries: seq<DiaryEntry>,
    songs: seq<Song>,
    playlists: seq<Playlist>,
    besties: seq<Bestie>,
    chatSessions: seq<ChatSession>)

  /** The collections and profile of a first launch. */
  const EmptyCollections := Collections([], [], [], [], [], [])
  const DefaultProfile := UserProfile(None, 0, Some(0), None)
  const DefaultStreakGoal := 7

  /** The currency a login continuing a streak of `newStreak` days pays: the streak length, capped at 50. */
  function StreakReward(newStreak: int): (r: int)
    ensures r <= 50 && r <= newStreak
    ensures r == newStreak || r == 50
  {
    if newStreak < 50 then newStreak else 50
  }

  /** The history entry for a streak of `streak` days whose last login was day `lastDay`. */
  function BrokenStreak(lastDay: int, streak: int): (e: StreakHistoryEntry)
    ensures e.endDate == lastDay && e.length == streak
    ensures e.endDate - e.startDate + 1 == e.length
  {
    StreakHistoryEntry(lastDay - (streak - 1), lastDay, streak)
  }

  /** The quest state for `today`: kept when it already belongs to today, otherwise started empty. */
  function ResetQuest(q: DailyQuestState, today: int): (r: DailyQuestState)
    ensures r.date == Some(today)
    ensures q.date == Some(today) ==> r == q
    ensures q.date != Some(today) ==> r.completed == []
  {
    if q.date != Some(today) then DailyQuestState(Some(today), []) else q
  }

  /** Resetting twice on the same day is the same as resetting once. */
  lemma ResetQuestIdempotent(q: DailyQuestState, today: int)
    ensures ResetQuest(ResetQuest(q, today), today) == ResetQuest(q, today)
  {
  }

  /** One row of the achievement table: an id and whether its condition holds now. */
  datatype Check = Check(id: string, holds: bool)

  /** Number of elements satisfying `p`. */
  function Count<T>(s: seq<T>, p: T -> bool): (n: nat)
    ensures n <= |s|
    ensures n > 0 <==> exists i :: 0 <= i < |s| && p(s[i])
  {
    if s == [] then 0 else (if p(s[0]) then 1 else 0) + Count(s[1..], p)
  }

  /** The moods of the entries that have a non-empty mood. */
  function Moods(entries: seq<DiaryEntry>): (r: seq<string>)
    ensures forall m :: m in r <==> exists i :: 0 <= i < |entries| && Truthy(entries[i].mood) && entries[i].mood.value == m
  {
    if entries == [] then []
    else
      var rest := Moods(entries[1..]);
      assert forall i :: 1 <= i < |entries| ==> entries[i] == entries[1..][i - 1];
      assert forall m :: m in rest ==> exists i :: 0 <= i < |entries| && Truthy(entries[i].mood) && entries[i].mood.value == m by {
        forall m | m in rest ensures exists i :: 0 <= i < |entries| && Truthy(entries[i].mood) && entries[i].mood.value == m {
          var j :| 0 <= j < |entries[1..]| && Truthy(entries[1..][j].mood) && entries[1..][j].mood.value == m;
          assert entries[j + 1] == entries[1..][j];
        }
      }
      (if Truthy(entries[0].mood) then [entries[0].mood.value] else []) + rest
  }

  /**
   * The achievement conditions in the order the sweep evaluates them. Each
   * depends only on the collections and the streak, never on which
   * achievements are already unlocked. No row carries `reach_goal`: only the
   * login transition unlocks the goal achievement.
   */
  function Checks(data: Collections, streak: int): (r: seq<Check>)
    ensures |r| == 32
    ensures forall i :: 0 <= i < |r| ==> r[i].id != "reach_goal"
  {
    var bs := data.bandoleros;
    var entries := data.diaryEntries;
    var sessions := data.chatSessions;
    [ Check("first_bandolero", |bs| >= 1),
      Check("five_bandoleros", |bs| >= 5),
      Check("ten_bandoleros", |bs| >= 10),
      Check("twenty_five_bandoleros", |bs| >= 25),
      Check("full_stars", Count(bs, (b: Bandolero) => b.rating == 5) > 0),
      Check("five_full_stars", Count(bs, (b: Bandolero) => b.rating == 5) >= 5),
      Check("add_photo", Count(bs, (b: Bandolero) => Truthy(b.image)) > 0),
      Check("add_quote", Count(bs, (b: Bandolero) => b.favoriteQuote != "") > 0),
      Check("add_color", Count(bs, (b: Bandolero) => b.themeColor != "#E0B1CB") > 0),
      Check("add_tag", Count(bs, (b: Bandolero) => |b.tags| > 0) > 0),
      Check("ai_chat", Count(sessions, (s: ChatSession) => s.kind == Solo) > 0),
      Check("ai_group_chat", Count(sessions, (s: ChatSession) => s.kind == Group) > 0),
      Check("first_entry", |entries| >= 1),
      Check("seven_entries", |entries| >= 7),
      Check("thirty_entries", |entries| >= 30),
      Check("hundred_entries", |entries| >= 100),
      Check("mood_tracker", |Dedup(Moods(entries))| >= 5),
      Check("mention", Count(entries, (e: DiaryEntry) => |e.mentionedBandoleroIds| > 0) > 0),
      Check("diary_cover", Count(entries, (e: DiaryEntry) => Truthy(e.coverImage)) > 0),
      Check("first_song", |data.songs| >= 1),
      Check("ten_songs", |data.songs| >= 10),
      Check("fifty_songs", |data.songs| >= 50),
      Check("first_playlist", |data.playlists| >= 1),
      Check("five_playlists", |data.playlists| >= 5),
      Check("perfect_song", Count(data.songs, (s: Song) => s.rating == 5) > 0),
      Check("first_bestie", |data.besties| >= 1),
      Check("squad_goals", |data.besties| >= 3),
      Check("streak_3", streak >= 3),
      Check("streak_7", streak >= 7),
      Check("streak_14", streak >= 14),
      Check("streak_30", streak >= 30),
      Check("streak_100", streak >= 100) ]
  }

  /**
   * The ids a sweep unlocks: those whose condition holds and that are not
   * unlocked yet, in table order.
   */
  function Pending(checks: seq<Check>, unlocked: seq<string>): (r: seq<string>)
    ensures |r| <= |checks|
    ensures forall id :: id in r <==> id !in unlocked && Check(id, true) in checks
  {
    if checks == [] then []
    else
      var init := checks[..|checks| - 1];
      var last := checks[|checks| - 1];
      assert checks == init + [last];
      Pending(init, unlocked) + (if last.holds && last.id !in unlocked then [last.id] else [])
  }

  /**
   * The `check(id, condition)` loop of the sweep, pushing every id whose
   * condition holds and that is not unlocked yet.
   */
  method NewlyUnlocked(checks: seq<Check>, unlocked: seq<string>) returns (newIds: seq<string>)
    ensures newIds == Pending(checks, unlocked)
  {
    newIds := [];
    var i := 0;
    while i < |checks|
      invariant 0 <= i <= |checks|
      invariant newIds == Pending(checks[..i], unlocked)
    {
      var c := checks[i];
      if c.holds && c.id !in unlocked {
        newIds := newIds + [c.id];
      }
      assert checks[..i + 1][..i] == checks[..i];
      i := i + 1;
    }
    assert checks[..|checks|] == checks;
  }

  /** After the unlocked ids absorb a sweep's result, the same conditions unlock nothing more. */
  lemma PendingAfterSweep(checks: seq<Check>, unlocked: seq<string>)
    ensures Pending(checks, Union(unlocked, Pending(checks, unlocked))) == []
  {
    PendingNone(checks, Union(unlocked, Pending(checks, unlocked)));
  }

  /** A sweep over ids that are all unlocked already unlocks nothing. */
  lemma {:induction false} PendingNone(checks: seq<Check>, unlocked: seq<string>)
    requires forall id :: Check(id, true) in checks ==> id in unlocked
    ensures Pending(checks, unlocked) == []
  {
    if checks != [] {
      var init := checks[..|checks| - 1];
      assert forall c :: c in init ==> c in checks;
      PendingNone(init, unlocked);
      assert checks[|checks| - 1] in checks;
    }
  }

  /** More unlocked ids never make a sweep unlock more. */
  lemma PendingAntitone(checks: seq<Check>, unlocked: seq<string>, more: seq<string>)
    requires forall id :: id in unlocked ==> id in more
    ensures forall id :: id in Pending(checks, more) ==> id in Pending(checks, unlocked)
  {
  }

  /**
   * The currency the sweep credits: the rewards of the catalog entries whose id
   * is among `ids`, each entry counted once per occurrence in the catalog.
   */
  function RewardTotal(catalog: seq<Achievement>, ids: seq<string>): (total: nat)
    ensures ids == [] ==> total == 0
    ensures total <= SumRewards(catalog)
  {
    if catalog == [] then 0
    else (if catalog[0].id in ids then catalog[0].reward else 0) + RewardTotal(catalog[1..], ids)
  }

  /** `reduce((sum, ach) => sum + ach.reward, 0)`: the rewards of a list of achievements added up. */
  function SumRewards(achs: seq<Achievement>): nat
  {
    if achs == [] then 0 else achs[0].reward + SumRewards(achs[1..])
  }

  /** Whether an achievement's id is among `ids`. */
  function IdIn(ids: seq<string>): Achievement -> bool
  {
    (a: Achievement) => a.id in ids
  }

  /**
   * The sweep's total is the source's two steps: the catalog filtered to the
   * newly unlocked ids, then the rewards of what is left added up.
   */
  lemma {:induction false} RewardTotalIsFilterSum(catalog: seq<Achievement>, ids: seq<string>)
    ensures RewardTotal(catalog, ids) == SumRewards(Filter(catalog, IdIn(ids)))
  {
    if catalog != [] {
      RewardTotalIsFilterSum(catalog[1..], ids);
      var rest := Filter(catalog[1..], IdIn(ids));
      if catalog[0].id in ids {
        assert Filter(catalog, IdIn(ids)) == [catalog[0]] + rest;
        assert ([catalog[0]] + rest)[1..] == rest;
      } else {
        assert Filter(catalog, IdIn(ids)) == rest;
      }
    }
  }

  /** Crediting two disjoint batches of ids pays the same as crediting them together. */
  lemma {:induction false} RewardTotalSplit(catalog: seq<Achievement>, a: seq<string>, b: seq<string>)
    requires forall id :: id in a ==> id !in b
    ensures RewardTotal(catalog, a + b) == RewardTotal(catalog, a) + RewardTotal(catalog, b)
  {
    if catalog != [] {
      RewardTotalSplit(catalog[1..], a, b);
    }
  }

  /** Ids that no catalog entry carries are worth nothing. */
  lemma {:induction false} RewardTotalOutsideCatalog(catalog: seq<Achievement>, ids: seq<string>)
    requires forall i :: 0 <= i < |catalog| ==> catalog[i].id !in ids
    ensures RewardTotal(catalog, ids) == 0
  {
    if catalog != [] {
      assert forall i :: 0 <= i < |catalog[1..]| ==> catalog[1..][i] == catalog[i + 1];
      RewardTotalOutsideCatalog(catalog[1..], ids);
    }
  }

  class AppState {
    var data: Collections
    var unlockedAchievements: seq<string>
    var unlockedRewards: seq<string>
    var profile: UserProfile
    var streak: int
    var lastLogin: Option<int>
    var streakHistory: seq<StreakHistoryEntry>
    var streakGoal: int
    var dailyQuestState: DailyQuestState

    /** The balance is never negative, the streak never negative, and unlock lists have no duplicates. */
    predicate Valid()
      reads this
    {
      profile.corazones >= 0 && streak >= 0 && NoDup(unlockedAchievements) && NoDup(unlockedRewards)
    }

    /** The collections, the streak and the goal are what they were: only the wallet, unlocks and quests moved. */
    twostate predicate KeepsProgress()
      reads this
    {
      && data == old(data) && streak == old(streak) && lastLogin == old(lastLogin)
      && streakHistory == old(streakHistory) && streakGoal == old(streakGoal)
    }

    /** The state of a first launch, with the default of every stored value. */
    constructor ()
      ensures Valid()
      ensures data == EmptyCollections && profile == DefaultProfile
      ensures unlockedAchievements == [] && unlockedRewards == []
      ensures streak == 0 && lastLogin == None && streakHistory == [] && streakGoal == DefaultStreakGoal
      ensures dailyQuestState == DailyQuestState(None, [])
    {
      data := EmptyCollections;
      unlockedAchievements := [];
      unlockedRewards := [];
      profile := DefaultProfile;
      streak := 0;
      lastLogin := None;
      streakHistory := [];
      streakGoal := DefaultStreakGoal;
      dailyQuestState := DailyQuestState(None, []);
    }

    /**
     * The login check run when the app opens on day `today`. Nothing happens
     * when the last login was today. A login the day after the last one
     * continues the streak and pays `StreakReward`; reaching a positive goal
     * unlocks `reach_goal`. Any other login records the streak that ended (if
     * there was one) at the front of the history and starts again at 1.
     */
    method OpenApp(today: int)
      requires Valid()
      modifies this
      ensures Valid()
      ensures data == old(data) && streakGoal == old(streakGoal) && dailyQuestState == old(dailyQuestState)
      ensures unlockedRewards == old(unlockedRewards)
      ensures old(lastLogin) == Some(today) ==>
        && streak == old(streak) && lastLogin == old(lastLogin) && streakHistory == old(streakHistory)
        && profile == old(profile) && unlockedAchievements == old(unlockedAchievements)
      ensures old(lastLogin) != Some(today) ==> lastLogin == Some(today)
      ensures old(lastLogin) == Some(today - 1) ==>
        && streak == old(streak) + 1
        && profile == old(profile).(corazones := old(profile).corazones + StreakReward(streak))
        && streakHistory == old(streakHistory)
        && unlockedAchievements ==
             if streakGoal > 0 && streak == streakGoal then Union(old(unlockedAchievements), ["reach_goal"])
             else old(unlockedAchievements)
      ensures old(lastLogin) != Some(today) && old(lastLogin) != Some(today - 1) ==>
        && streak == 1
        && profile == old(profile) && unlockedAchievements == old(unlockedAchievements)
        && streakHistory ==
             if old(streak) > 0 && old(lastLogin).Some? then [BrokenStreak(old(lastLogin).value, old(streak))] + old(streakHistory)
             else old(streakHistory)
    {
      if lastLogin != Some(today) {
        if lastLogin == Some(today - 1) {
          var newStreak := streak + 1;
          streak := newStreak;
          var rewardAmount := StreakReward(newStreak);
          profile := profile.(corazones := profile.corazones + rewardAmount);
          if streakGoal > 0 && newStreak == streakGoal {
            if "reach_goal" !in unlockedAchievements {
              unlockedAchievements := Union(unlockedAchievements, ["reach_goal"]);
            } else {
              UnionPresent(unlockedAchievements, "reach_goal");
            }
          }
        } else {
          if streak > 0 && lastLogin.Some? {
            streakHistory := [BrokenStreak(lastLogin.value, streak)] + streakHistory;
          }
          streak := 1;
        }
        lastLogin := Some(today);
      }
    }

    /** The daily-quest check run when the app opens: a new day starts with no quest completed. */
    method ResetDailyQuest(today: int)
      requires Valid()
      modifies this
      ensures Valid()
      ensures dailyQuestState == ResetQuest(old(dailyQuestState), today)
      ensures data == old(data) && profile == old(profile) && streak == old(streak) && lastLogin == old(lastLogin)
      ensures streakHistory == old(streakHistory) && streakGoal == old(streakGoal)
      ensures unlockedAchievements == old(unlockedAchievements) && unlockedRewards == old(unlockedRewards)
    {
      if dailyQuestState.date != Some(today) {
        dailyQuestState := DailyQuestState(Some(today), []);
      }
    }

    /**
     * The achievement sweep: unlock every id of `Checks` whose condition holds
     * and that is not unlocked yet, and credit the catalog rewards of exactly
     * those ids. Unlocked ids are never removed and keep their order; after
     * the sweep nothing is pending, so running it again changes nothing.
     */
    method CheckAchievements(catalog: seq<Achievement>)
      requires Valid()
      modifies this
      ensures Valid()
      ensures data == old(data) && streak == old(streak) && lastLogin == old(lastLogin)
      ensures streakHistory == old(streakHistory) && streakGoal == old(streakGoal)
      ensures dailyQuestState == old(dailyQuestState) && unlockedRewards == old(unlockedRewards)
      ensures |unlockedAchievements| >= |old(unlockedAchievements)|
      ensures unlockedAchievements[..|old(unlockedAchievements)|] == old(unlockedAchievements)
      ensures forall id :: id in unlockedAchievements <==>
        id in old(unlockedAchievements) || (Check(id, true) in Checks(data, streak))
      ensures profile == old(profile).(corazones := old(profile).corazones +
        RewardTotal(catalog, Pending(Checks(data, streak), old(unlockedAchievements))))
      ensures Pending(Checks(data, streak), unlockedAchievements) == []
    {
      Absorb(Checks(data, streak), catalog);
    }

    /** The sweep over a given table of conditions. */
    method Absorb(checks: seq<Check>, catalog: seq<Achievement>)
      requires Valid()
      modifies this
      ensures Valid()
      ensures data == old(data) && streak == old(streak) && lastLogin == old(lastLogin)
      ensures streakHistory == old(streakHistory) && streakGoal == old(streakGoal)
      ensures dailyQuestState == old(dailyQuestState) && unlockedRewards == old(unlockedRewards)
      ensures |unlockedAchievements| >= |old(unlockedAchievements)|
      ensures unlockedAchievements[..|old(unlockedAchievements)|] == old(unlockedAchievements)
      ensures forall id :: id in unlockedAchievements <==> id in old(unlockedAchievements) || Check(id, true) in checks
      ensures profile == old(profile).(corazones := old(profile).corazones + RewardTotal(catalog, Pending(checks, old(unlockedAchievements))))
      ensures Pending(checks, unlockedAchievements) == []
    {
      var newIds := NewlyUnlocked(checks, unlockedAchievements);
      PendingAfterSweep(checks, unlockedAchievements);
      UnionExtends(unlockedAchievements, newIds);
      if |newIds| > 0 {
        unlockedAchievements := Union(unlockedAchievements, newIds);
        var totalReward := RewardTotal(catalog, newIds);
        profile := profile.(corazones := profile.corazones + totalReward);
      } else {
        assert Union(unlockedAchievements, newIds) == unlockedAchievements by {
          assert unlockedAchievements + newIds == unlockedAchievements;
          DedupOfNoDup(unlockedAchievements);
        }
      }
    }
  }
}
