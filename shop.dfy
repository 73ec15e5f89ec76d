/**
 * The shop screen: a once-a-day free reward (which also completes the
 * `claim_daily_reward` quest) and purchases paid in corazones. The screen
 * keeps its own persisted `lastClaimed` day and a `canClaim` flag; everything
 * else it changes belongs to the app state. The random reward and the quest
 * list are parameters.
 */
module Shop {
  import opened Common
  import opened Text
  import opened Entities
  import opened App

  const ClaimQuestId := "claim_daily_reward"

  /** `quests.find(q => q.id === id)`: the first quest with that id, if any. */
  function FindQuest(quests: seq<Quest>, id: string): (r: Option<Quest>)
    ensures r.None? <==> forall i :: 0 <= i < |quests| ==> quests[i].id != id
    ensures r.Some? ==> r.value.id == id
    ensures r.Some? ==> exists i :: 0 <= i < |quests| && quests[i] == r.value && (forall j :: 0 <= j < i ==> quests[j].id != id)
  {
    if quests == [] then None
    else if quests[0].id == id then Some(quests[0])
    else
      var r := FindQuest(quests[1..], id);
      assert forall i :: 1 <= i < |quests| ==> quests[i] == quests[1..][i - 1];
      r
  }

  /**
   * `(storyTokens || 0) + parseInt(value, 10)`: a missing or `NaN` count reads
   * as 0, and a value that does not parse makes the count `NaN`.
   */
  function AddStoryTokens(count: Option<int>, value: string): (r: Option<int>)
    ensures ParseInt(value).None? <==> r.None?
    ensures ParseInt(value).Some? ==> r.value - ParseInt(value).value == (if count.Some? then count.value else 0)
  {
    match ParseInt(value)
    case None => None
    case Some(n) => Some((if count.Some? then count.value else 0) + n)
  }

  /** Buying a token pack whose value is the decimal text of `n` adds exactly `n` tokens. */
  lemma AddStoryTokensOfNumber(count: Option<int>, n: int)
    ensures AddStoryTokens(count, IntToString(n)) == Some((if count.Some? then count.value else 0) + n)
  {
    ParseIntOfIntToString(n);
  }

  /** The parts of the app state a granted claim credits: quest state, profile and unlocked achievements. */
  datatype Credited = Credited(questState: DailyQuestState, profile: UserProfile, unlocked: seq<string>)

  /** Whether the claim still pays the `claim_daily_reward` quest: it exists and is not completed. */
  predicate QuestOpen(quests: seq<Quest>, q: DailyQuestState)
    ensures QuestOpen(quests, q) <==>
      (exists i :: 0 <= i < |quests| && quests[i].id == ClaimQuestId) && ClaimQuestId !in q.completed
  {
    FindQuest(quests, ClaimQuestId).Some? && ClaimQuestId !in q.completed
  }

  /**
   * What a granted claim does to the quest state, the profile and the unlocked
   * achievements: `first_reward` is unlocked; while the quest is open, its
   * reward is credited, it is recorded as completed and `daily_blessing` is
   * unlocked; otherwise the quest state and the profile stay as they were.
   */
  function ClaimCredit(quests: seq<Quest>, q0: DailyQuestState, p0: UserProfile, u0: seq<string>): (r: Credited)
    requires NoDup(u0)
    ensures NoDup(r.unlocked) && r.profile.corazones >= p0.corazones
  {
    var quest := FindQuest(quests, ClaimQuestId);
    var u := AddAbsent(u0, "first_reward");
    if quest.Some? && quest.value.id !in q0.completed then
      Credited(
        q0.(completed := q0.completed + [quest.value.id]),
        p0.(corazones := p0.corazones + quest.value.reward),
        Union(u, ["daily_blessing"]))
    else
      Credited(q0, p0, u)
  }

  /** The quest is paid and recorded exactly while it is open; nothing else in the profile changes. */
  lemma ClaimCreditPays(quests: seq<Quest>, q0: DailyQuestState, p0: UserProfile, u0: seq<string>)
    requires NoDup(u0)
    ensures var r := ClaimCredit(quests, q0, p0, u0);
      && r.questState.date == q0.date
      && r.questState.completed == q0.completed + (if QuestOpen(quests, q0) then [ClaimQuestId] else [])
      && r.profile == p0.(corazones := p0.corazones
           + (if QuestOpen(quests, q0) then FindQuest(quests, ClaimQuestId).value.reward else 0))
  {
  }

  /**
   * The unlocked achievements keep their old order as a prefix and gain
   * exactly `first_reward`, plus `daily_blessing` while the quest is open.
   */
  lemma ClaimCreditUnlocks(quests: seq<Quest>, q0: DailyQuestState, p0: UserProfile, u0: seq<string>)
    requires NoDup(u0)
    ensures var r := ClaimCredit(quests, q0, p0, u0);
      && |r.unlocked| >= |u0| && r.unlocked[..|u0|] == u0
      && forall x :: x in r.unlocked <==>
           x in u0 || x == "first_reward" || (QuestOpen(quests, q0) && x == "daily_blessing")
  {
    var u := AddAbsent(u0, "first_reward");
    AddAbsentExtends(u0, "first_reward");
    if QuestOpen(quests, q0) {
      var u1 := Union(u, ["daily_blessing"]);
      UnionIsAddAbsent(u, "daily_blessing");
      AddAbsentExtends(u, "daily_blessing");
      assert u1[..|u|][..|u0|] == u0;
    }
  }

  /** Adding an absent element keeps the list as a prefix. */
  lemma AddAbsentExtends(s: seq<string>, x: string)
    requires NoDup(s)
    ensures |AddAbsent(s, x)| >= |s| && AddAbsent(s, x)[..|s|] == s
  {
    if x !in s {
      assert (s + [x])[..|s|] == s;
    }
  }

  /** A second claim credits nothing more: the quest is completed and both achievements are unlocked. */
  lemma ClaimCreditOnce(quests: seq<Quest>, q0: DailyQuestState, p0: UserProfile, u0: seq<string>)
    requires NoDup(u0)
    ensures var r := ClaimCredit(quests, q0, p0, u0);
            ClaimCredit(quests, r.questState, r.profile, r.unlocked) == r
  {
    var r := ClaimCredit(quests, q0, p0, u0);
    assert !QuestOpen(quests, r.questState);
    var r2 := ClaimCredit(quests, r.questState, r.profile, r.unlocked);
    assert r2.unlocked == r.unlocked by {
      assert "first_reward" in r.unlocked;
      assert AddAbsent(r.unlocked, "first_reward") == r.unlocked;
    }
  }

  class ShopScreen {
    const app: AppState
    /** The day of the last claimed reward (persisted under its own key). */
    var lastClaimed: Option<int>
    var canClaim: bool

    predicate Valid()
      reads this, app
    {
      app.Valid()
    }

    /** Mount: `canClaim` starts false until the effect has compared the dates. */
    constructor (app: AppState, lastClaimed: Option<int>)
      requires app.Valid()
      ensures Valid()
      ensures this.app == app && this.lastClaimed == lastClaimed && !canClaim
    {
      this.app := app;
      this.lastClaimed := lastClaimed;
      canClaim := false;
    }

    /** The effect on `lastClaimed`: a claim is allowed iff the last one was not today. */
    method RefreshCanClaim(today: int)
      modifies this
      ensures canClaim <==> lastClaimed != Some(today)
      ensures lastClaimed == old(lastClaimed)
    {
      canClaim := lastClaimed != Some(today);
    }

    /**
     * Claim the daily reward `reward`. Refused (no change at all) unless
     * `canClaim`. Otherwise the claim is recorded for today, the reward id is
     * added to the unlocked rewards if absent, `first_reward` is unlocked, and
     * if the `claim_daily_reward` quest exists and is not yet completed today,
     * its reward is credited, it is marked completed and `daily_blessing` is unlocked.
     */
    method Claim(today: int, reward: Reward, quests: seq<Quest>)
      requires Valid()
      modifies this, app
      ensures Valid()
      ensures !old(canClaim) ==> unchanged(this) && unchanged(app)
      ensures old(canClaim) ==> lastClaimed == Some(today) && !canClaim && app.KeepsProgress()
      ensures old(canClaim) ==> app.unlockedRewards == AddAbsent(old(app.unlockedRewards), reward.id)
      ensures old(canClaim) ==>
        Credited(app.dailyQuestState, app.profile, app.unlockedAchievements)
          == ClaimCredit(quests, old(app.dailyQuestState), old(app.profile), old(app.unlockedAchievements))
    {
      if !canClaim {
        assert unchanged(app);
        return;
      }
      var rewards := AddAbsent(app.unlockedRewards, reward.id);
      var credited := ClaimCredit(quests, app.dailyQuestState, app.profile, app.unlockedAchievements);
      lastClaimed := Some(today);
      canClaim := false;
      app.unlockedRewards := rewards;
      app.unlockedAchievements := credited.unlocked;
      app.profile := credited.profile;
      app.dailyQuestState := credited.questState;
    }

    /**
     * Buy `item`. Refused (no change) unless the balance covers the price and
     * the item is not owned. Otherwise the price is debited, the item id
     * appended, a badge is worn if none is, a token pack adds its value to the
     * token count, and `first_purchase` is unlocked.
     */
    method Purchase(item: Reward)
      requires Valid()
      modifies app
      ensures Valid()
      ensures !(old(app.profile.corazones) >= item.price && item.id !in old(app.unlockedRewards)) ==> unchanged(app)
      ensures old(app.profile.corazones) >= item.price && item.id !in old(app.unlockedRewards) ==>
        && app.KeepsProgress()
        && app.dailyQuestState == old(app.dailyQuestState)
        && app.profile.corazones == old(app.profile.corazones) - item.price
        && app.profile.username == old(app.profile.username)
        && app.unlockedRewards == old(app.unlockedRewards) + [item.id]
        && app.profile.activeBadgeId ==
             (if item.kind == ProfileBadge && !Truthy(old(app.profile.activeBadgeId)) then Some(item.value)
              else old(app.profile.activeBadgeId))
        && app.profile.storyTokens ==
             (if item.kind == AiStoryToken then AddStoryTokens(old(app.profile.storyTokens), item.value)
              else old(app.profile.storyTokens))
        && app.unlockedAchievements == AddAbsent(old(app.unlockedAchievements), "first_purchase")
    {
      if !(app.profile.corazones >= item.price && item.id !in app.unlockedRewards) {
        assert unchanged(app);
        return;
      }
      var hadBadge := Truthy(app.profile.activeBadgeId);
      var profile := app.profile.(corazones := app.profile.corazones - item.price);
      var rewards := app.unlockedRewards + [item.id];
      match item.kind {
        case ProfileBadge =>
          if !hadBadge {
            profile := profile.(activeBadgeId := Some(item.value));
          }
        case AiStoryToken =>
          profile := profile.(storyTokens := AddStoryTokens(profile.storyTokens, item.value));
        case _ =>
      }
      var unlocked := AddAbsent(app.unlockedAchievements, "first_purchase");
      assert rewards == AddAbsent(app.unlockedRewards, item.id);
      app.profile := profile;
      app.unlockedRewards := rewards;
      app.unlockedAchievements := unlocked;
    }
  }

  /** After a claim the day is spent: refreshing the flag on the same day forbids a second claim. */
  method OneClaimPerDay(today: int, first: Reward, second: Reward, quests: seq<Quest>) returns (balanceAfterFirst: int, balanceAfterSecond: int, rewardsAfterFirst: seq<string>, rewardsAfterSecond: seq<string>)
    ensures balanceAfterSecond == balanceAfterFirst
    ensures rewardsAfterSecond == rewardsAfterFirst == [first.id]
  {
    var app := new AppState();
    var shop := new ShopScreen(app, None);
    shop.RefreshCanClaim(today);
    shop.Claim(today, first, quests);
    balanceAfterFirst := app.profile.corazones;
    rewardsAfterFirst := app.unlockedRewards;
    shop.RefreshCanClaim(today);
    shop.Claim(today, second, quests);
    balanceAfterSecond := app.profile.corazones;
    rewardsAfterSecond := app.unlockedRewards;
  }
}
