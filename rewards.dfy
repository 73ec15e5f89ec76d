/**
 * The daily reward box screen: one free reward per day, kept in the screen's
 * own device-local list of unlocked rewards, and the `first_reward`
 * achievement in the app's unlock list. The random draw is a parameter.
 */
module Rewards {
  import opened Common
  import opened Entities
  import opened App

  class RewardsScreen {
    const app: AppState
    /** The day of the last claim, from device-local storage. */
    var lastClaimed: Option<int>
    var canClaim: bool
    /** The rewards won in the box, from device-local storage (separate from the shop's list). */
    var unlockedRewards: seq<string>

    predicate Valid()
      reads this, app
    {
      app.Valid() && NoDup(unlockedRewards)
    }

    /** Mount: `canClaim` is false until the effect has compared the dates. */
    constructor (app: AppState, lastClaimed: Option<int>, unlockedRewards: seq<string>)
      requires app.Valid() && NoDup(unlockedRewards)
      ensures Valid()
      ensures this.app == app && this.lastClaimed == lastClaimed && this.unlockedRewards == unlockedRewards
      ensures !canClaim
    {
      this.app := app;
      this.lastClaimed := lastClaimed;
      this.unlockedRewards := unlockedRewards;
      canClaim := false;
    }

    /** The effect on `lastClaimed`: a claim is allowed iff the last one was not today. */
    method RefreshCanClaim(today: int)
      modifies this
      ensures canClaim <==> lastClaimed != Some(today)
      ensures lastClaimed == old(lastClaimed) && unlockedRewards == old(unlockedRewards)
    {
      if lastClaimed != Some(today) {
        canClaim := true;
      } else {
        canClaim := false;
      }
    }

    /**
     * Open the box and win `reward`. Refused (no change at all) unless
     * `canClaim`. Otherwise the claim is recorded for today, the flag drops,
     * the reward joins the list if absent, and `first_reward` is set-unioned
     * into the app's unlocked achievements.
     */
    method Claim(today: int, reward: Reward)
      requires Valid()
      modifies this, app
      ensures Valid()
      ensures !old(canClaim) ==> unchanged(this) && unchanged(app)
      ensures old(canClaim) ==>
        && lastClaimed == Some(today) && !canClaim
        && unlockedRewards == AddAbsent(old(unlockedRewards), reward.id)
        && app.unlockedAchievements == AddAbsent(old(app.unlockedAchievements), "first_reward")
        && app.KeepsProgress() && app.profile == old(app.profile)
        && app.unlockedRewards == old(app.unlockedRewards) && app.dailyQuestState == old(app.dailyQuestState)
    {
      if !canClaim {
        assert unchanged(app);
        return;
      }
      lastClaimed := Some(today);
      canClaim := false;
      if reward.id !in unlockedRewards {
        unlockedRewards := unlockedRewards + [reward.id];
      }
      UnionIsAddAbsent(app.unlockedAchievements, "first_reward");
      app.unlockedAchievements := Union(app.unlockedAchievements, ["first_reward"]);
    }
  }

  /**
   * Whatever is drawn on two days in a row, the box unlocks `first_reward`
   * once and lists each distinct reward once.
   */
  method TwoDays(day: int, first: Reward, second: Reward) returns (achievements: seq<string>, won: seq<string>)
    ensures achievements == ["first_reward"]
    ensures won == if first.id == second.id then [first.id] else [first.id, second.id]
  {
    var app := new AppState();
    var box := new RewardsScreen(app, None, []);
    box.RefreshCanClaim(day);
    box.Claim(day, first);
    box.RefreshCanClaim(day + 1);
    box.Claim(day + 1, second);
    achievements := app.unlockedAchievements;
    won := box.unlockedRewards;
  }
}
