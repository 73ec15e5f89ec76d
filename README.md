# La Lista Bandolera — a verified model of the app's state logic

La Lista Bandolera is a React app for keeping a personal list of "bandoleros"
(people), a diary that mentions them, songs and playlists, AI chats with them,
and a small game layer on top: a daily login streak, achievements and a
heart currency ("corazones") spent in a shop and earned from a daily reward box.
Every piece of state is kept by a hook that caches it in memory and saves it,
debounced, to the user's cloud key-value store.

This Dafny project models the logic under the views:

- **Storage** (`storage.dfy`): the persistent-value hook as a class. The module
  cache and the remote store are `Store` objects shared between hook instances.
  The asynchronous events are methods: mount, load completes, load finds the
  SDK not loaded, write, debounce timer fires, unmount. Whether the user is signed in, and whether the SDK
  answered, is the `Connection` parameter of those events.
- **App** (`app.dfy`): the persisted app state as a class. Its methods are the
  once-per-day login transition, the daily quest reset and the achievement
  sweep. The sweep's loop is a method proved against a specification function.
- **Shop** and **Rewards** (`shop.dfy`, `rewards.dfy`): the two claim screens and
  the purchase, as classes that update the app state in place.
- **Profile** (`profile.dfy`): the longest streak and goal validation (`parseInt`).
- **Bandoleros**, **Music**, **Diary**, **Chat**, **NewChat**: the collection
  screens, modelled as pure functions over sequences. They cover tag parsing and
  the sorted tag cloud, the tag filter, insert-or-replace by id, delete by id, the
  song deletion that cascades into playlists, mention detection and the `/word`
  mention substitution, chat-session construction and reuse.
- **Common**, **Text**, **Entities**: the array idioms, the string functions and
  the records shared by all of the above.

Conventions:

- Dates are integer day numbers; "yesterday" is `today - 1`.
- `null` and missing values are `Option.None`.
- Fresh ids (`Date.now().toString()`), the current time and random picks are parameters.
- The achievement catalog's rewards are a parameter. The shown catalog
  (constants.tsx:6-57) has no `reward` field, although the sweep sums one.

## Model

| member | source | states |
|---|---|---|
| Storage.LoadedValue | hooks/usePuterStorage.ts:37-57 | The loaded value is the stored one when signed in and a value is stored. When signed out, when nothing is stored (null), or when the call fails, it is the initial value. |
| Storage.PersistentValue.constructor | hooks/usePuterStorage.ts:16-19 | Mounting starts from the cached value for the key when there is one, else from the initial value. The hook is settled exactly when the key is cached, and then a save is scheduled at once. |
| Storage.PersistentValue.LoadCompletes | hooks/usePuterStorage.ts:23-62 | A load result arriving after unmount changes nothing. Otherwise the state and the cache take the loaded value, the hook is settled and a save of that value is scheduled. The invariant "cache holds the value once settled" is kept. |
| Storage.PersistentValue.LoadNotReady | hooks/usePuterStorage.ts:28-70 | When the fetch finds the SDK not loaded, the `finally` block still settles the hook and the clean-up cancels the 200 ms retry. The state keeps its value, the cache takes it, and a save of it is scheduled. A hook already unmounted is left alone. |
| Storage.PersistentValue.Write | hooks/usePuterStorage.ts:74-97 | The setter ignores an equal value or an unmounted hook. Before the hook is settled, only the state changes: no cache write and no save. After, the cache is updated at once and the pending save is replaced by one carrying the new value. |
| Storage.PersistentValue.Update | hooks/usePuterStorage.ts:74-80 | The functional setter is the setter applied to `f(value)`, with the same guarantees. |
| Storage.PersistentValue.Flush | hooks/usePuterStorage.ts:82-93 | When the timer fires, the remote store receives the pending value only when signed in. Nothing is written otherwise. No save is pending afterwards, and the state and cache are untouched. |
| Storage.PersistentValue.Unmount | hooks/usePuterStorage.ts:67-70 | After unmount, later load results are ignored and the pending save is cancelled. |
| Storage.PersistsAcrossSessions | hooks/usePuterStorage.ts:37-43 | A value written and flushed while signed in is what a later session, starting with an empty cache, loads. |
| Storage.DebounceKeepsLast | hooks/usePuterStorage.ts:82-97 | Two writes before the timer fires reach the remote store as one save of the last value. |
| Storage.WriteBeforeLoadIsLost | hooks/usePuterStorage.ts:74-77 | A write before the load completes is overwritten by the loaded value, in both the state and the cache. |
| Storage.NotReadyLoadOverwritesRemote | hooks/usePuterStorage.ts:28-93 | A mount that finds the SDK not loaded settles on the initial value. If the user is signed in when the debounce timer fires, that initial value overwrites the value saved in an earlier session. |
| Storage.RemountReschedulesSave | hooks/usePuterStorage.ts:16-19 | Unmounting inside the debounce window cancels the remote save. A remount shows the cached value and saves it again. |
| App.StreakReward | App.tsx:108 | The login reward is the new streak capped at 50. |
| App.BrokenStreak | App.tsx:123-131 | The history entry of a broken streak ends on the last login day, has the old streak as length, and spans exactly that many days. |
| App.ResetQuest | App.tsx:69-75 | Quests are dated today afterwards. They are untouched when already dated today, otherwise none is completed. |
| App.ResetQuestIdempotent | App.tsx:70-73 | Resetting twice on the same day is the same as resetting once. |
| App.Count | App.tsx:156 | Counting elements gives at most the length, and a positive count exactly when some element qualifies. |
| App.Moods | App.tsx:168 | The mood list holds exactly the truthy moods of the entries. |
| App.Checks | App.tsx:151-187 | The sweep evaluates 32 conditions, and none of them carries `reach_goal`: only the login transition unlocks it. |
| App.Pending | App.tsx:143-147 | An id is pending exactly when its condition holds and it is not yet unlocked. |
| App.NewlyUnlocked | App.tsx:142-187 | The loop that pushes ids computes exactly the pending ids, in check order. |
| App.PendingAfterSweep | App.tsx:189-190 | After the pending ids are unioned in, nothing is pending, so rerunning the sweep unlocks and credits nothing. |
| App.PendingNone | App.tsx:143-147 | When every holding id is unlocked, nothing is pending. |
| App.PendingAntitone | App.tsx:143-147 | More unlocked ids never make a sweep unlock more: an id pending over the larger list is pending over the smaller. |
| App.RewardTotal | App.tsx:191-192 | No new ids pay nothing, and the total never exceeds the sum of the whole catalog. |
| App.RewardTotalIsFilterSum | App.tsx:191-192 | The total equals the source's two steps: the catalog filtered to the new ids, then their rewards added up. |
| App.RewardTotalSplit | App.tsx:191-192 | Crediting disjoint batches of ids separately pays the same as crediting them together. |
| App.RewardTotalOutsideCatalog | App.tsx:191 | Ids outside the catalog (such as `ai_chat` and `ai_group_chat`) pay nothing. |
| App.AppState.constructor | App.tsx:26-49 | A first launch holds every stored default: no data, 0 corazones, streak 0, no last login, goal 7, quests undated. |
| App.AppState.OpenApp | App.tsx:97-139 | The login transition, branch by branch. Already today: nothing changes. Yesterday: the streak grows by one and pays `StreakReward`, and `reach_goal` is unioned in when a positive goal is met. Otherwise: an ended streak goes to the front of the history, and the streak restarts at 1. Whenever something happened, the last login is today. The balance stays non-negative and the unlock lists stay duplicate-free. |
| App.AppState.ResetDailyQuest | App.tsx:69-75 | Only the quest state changes, as `ResetQuest` says. |
| App.AppState.CheckAchievements | App.tsx:141-197 | The sweep keeps the old unlocks as a prefix and adds exactly the holding ids. It credits the catalog rewards of the newly unlocked ids, and leaves nothing pending. |
| App.AppState.Absorb | App.tsx:142-197 | The sweep over any table of conditions: old unlocks stay as a prefix, exactly the holding ids are added, their catalog rewards are credited, and nothing stays pending. |
| Shop.FindQuest | screens/ShopScreen.tsx:57 | Finds the first quest with the id, and none exactly when no quest has it. |
| Shop.QuestOpen | screens/ShopScreen.tsx:57-58 | The claim pays the quest exactly when some quest has the id `claim_daily_reward` and it is not completed today. |
| Shop.AddStoryTokens | screens/ShopScreen.tsx:79-81 | The new token count is the old count (0 when missing) plus the parsed value. A value that does not parse makes the count NaN (`None`). |
| Shop.AddStoryTokensOfNumber | screens/ShopScreen.tsx:79-81 | A numeric item value adds exactly that number of tokens. |
| Shop.ClaimCredit | screens/ShopScreen.tsx:52-62 | The credits of a granted claim keep the unlocked achievements duplicate-free and never lower the balance. |
| Shop.ClaimCreditPays | screens/ShopScreen.tsx:57-61 | The quest reward is credited and the quest recorded exactly when the quest exists and is not yet completed. Otherwise the quest state and the profile are unchanged. |
| Shop.ClaimCreditUnlocks | screens/ShopScreen.tsx:52-61 | The unlocked achievements keep their order as a prefix and gain exactly `first_reward`, plus `daily_blessing` when the quest was open. |
| Shop.ClaimCreditOnce | screens/ShopScreen.tsx:52-61 | Crediting a second claim on top of the first changes nothing: the quest pays once. |
| Shop.ShopScreen.RefreshCanClaim | screens/ShopScreen.tsx:35-38 | Claiming is allowed exactly when the last claim was not today. |
| Shop.ShopScreen.Claim | screens/ShopScreen.tsx:40-64 | A refused claim changes nothing. A granted one sets the last claim to today, disallows claiming, and adds the reward id only if absent. The quest state, profile and achievements become `ClaimCredit` of the old ones. Streak data is untouched. |
| Shop.ShopScreen.Purchase | screens/ShopScreen.tsx:66-89 | Nothing happens unless the balance covers the price and the item is not owned. A purchase debits exactly the price, keeping the balance non-negative, and appends the id once. A badge is activated only if none is active, and story tokens are added. It unlocks `first_purchase` if absent. |
| Shop.OneClaimPerDay | screens/ShopScreen.tsx:41 | A second claim on the same day leaves the balance and the owned rewards as after the first. |
| Rewards.RewardsScreen.RefreshCanClaim | screens/RewardsScreen.tsx:36-43 | Claiming is allowed exactly when the last claim was not today. |
| Rewards.RewardsScreen.Claim | screens/RewardsScreen.tsx:45-61 | A refused claim changes nothing. A granted one sets the last claim to today, disallows claiming, and adds the reward id only if absent. `first_reward` is unioned in without duplicates. Nothing else changes. |
| Rewards.TwoDays | screens/RewardsScreen.tsx:45-61 | Claims on two days leave `first_reward` unlocked once and the two rewards owned without duplicates. |
| Profile.LongestStreak | screens/ProfileScreen.tsx:38-41 | The longest streak is the current one with no history. It is at least the current streak and every recorded length, and equals one of them. |
| Profile.SetGoal | screens/ProfileScreen.tsx:43-52 | A positive parsed integer becomes the goal; any other input leaves the goal unchanged. |
| Profile.SetGoalOfShownGoal | screens/ProfileScreen.tsx:35 | Saving the goal text as first shown leaves the goal unchanged. |
| Profile.SetGoalOfPositive | screens/ProfileScreen.tsx:44-46 | Typing any positive number sets the goal to it. |
| Profile.SetGoalIgnoresSurroundings | screens/ProfileScreen.tsx:44 | Leading white space and trailing non-digits around a positive number are ignored, as `parseInt` does. |
| Text.TrimStart | screens/BandolerosScreen.tsx:118 | Drops the leading white space and nothing else: the result is a suffix of the input, everything dropped is white space, and it does not start with white space. |
| Text.TrimEnd | screens/BandolerosScreen.tsx:118 | Drops the trailing white space and nothing else: the result is a prefix of the input, everything dropped is white space, and it does not end with white space. |
| Text.Trim | screens/BandolerosScreen.tsx:118 | `trim` returns a slice of the input with no white space at either end. |
| Text.TrimRemovesOnlySpace | screens/BandolerosScreen.tsx:118 | The slice `trim` returns is the input with only white space removed before and after it. |
| Text.Split | screens/BandolerosScreen.tsx:118 | `split(',')` yields at least one piece, and no piece holds the separator. |
| Text.Join | screens/BandolerosScreen.tsx:109 | `join` starts with the first part. |
| Text.JoinKeepsOut | screens/BandolerosScreen.tsx:109 | A character in no part and not in the separator is not in the joined text. |
| Text.ParseInt | screens/ProfileScreen.tsx:44 | `parseInt` is NaN exactly when no digit follows the white space and optional sign. |
| Text.ParseIntOfIntToString | screens/ProfileScreen.tsx:35 | `parseInt` reads back every integer's decimal text. |
| Text.Contains | screens/DiaryScreen.tsx:43 | `includes` finds only text no longer than the string. |
| Text.ContainsMiddle | screens/DiaryScreen.tsx:43 | `includes` finds text placed anywhere in a string. |
| Text.ContainsOccurs | screens/DiaryScreen.tsx:43 | Conversely, text that `includes` finds sits between some prefix and some suffix of the string. |
| Text.Lower | screens/DiaryScreen.tsx:119 | `toLowerCase` keeps the length, maps each 'A'..'Z' to its lower-case partner 'a'..'z', and keeps every other character. |
| Text.IntToString | screens/ProfileScreen.tsx:35 | `toString` writes a minus sign exactly for negatives, then only digits. |
| Common.Toggle | screens/BandolerosScreen.tsx:38-42 | Toggling flips the element's membership, leaves every other element's membership alone, and never introduces duplicates. The new-chat dialog toggles selected ids the same way (components/NewChatModal.tsx:17-21). |
| Common.ToggleTwice | screens/BandolerosScreen.tsx:38-42 | Toggling an absent element twice restores the list. |
| Common.Union | App.tsx:190 | The `Set` union holds exactly the elements of both lists, without duplicates. |
| Common.UnionExtends | App.tsx:190 | A union onto a duplicate-free list keeps that list as its prefix. |
| Common.UnionIsAddAbsent | screens/ChatScreen.tsx:59 | On a duplicate-free list, the union with one id appends it exactly when absent. |
| Common.ReplaceByKey | screens/BandolerosScreen.tsx:137 | Replacing by id keeps the length and every id, replaces exactly the elements with that id, and keeps ids unique. |
| Common.RemoveByKey | screens/BandolerosScreen.tsx:146 | Deleting by id keeps exactly the elements with other ids, and no element with that id remains. |
| Common.RemoveByKeyConcat | screens/BandolerosScreen.tsx:146 | Deleting by id preserves order: it distributes over concatenation. |
| Common.Filter | App.tsx:191 | `filter` keeps exactly the elements satisfying the test, and never lengthens the list. |
| Common.Dedup | App.tsx:168 | The `Set` of a list holds exactly its elements, without duplicates. |
| Common.AddAbsent | screens/RewardsScreen.tsx:56-58 | Appending an id only when it is absent keeps a duplicate-free list duplicate-free and leaves the id in it. |
| Common.Without | screens/BandolerosScreen.tsx:40 | Filtering out one element removes it and keeps every other element, and keeps a duplicate-free list duplicate-free. |
| Bandoleros.Below | screens/BandolerosScreen.tsx:35 | The sort order is strict: no string sorts before itself. |
| Bandoleros.BelowTransitive | screens/BandolerosScreen.tsx:35 | The sort order is transitive. |
| Bandoleros.BelowAsymmetric | screens/BandolerosScreen.tsx:35 | Two strings never sort before each other. |
| Bandoleros.BelowTotal | screens/BandolerosScreen.tsx:35 | Of two different strings, one sorts before the other. |
| Bandoleros.TagsOf | screens/BandolerosScreen.tsx:35 | `flatMap` over the tags yields exactly the tags of some bandolero. |
| Bandoleros.Insert | screens/BandolerosScreen.tsx:35 | Inserting into a sorted duplicate-free list keeps it sorted and duplicate-free, and adds exactly the element. |
| Bandoleros.SortedUnique | screens/BandolerosScreen.tsx:35 | A sorted duplicate-free list is determined by its elements. |
| Bandoleros.AllTags | screens/BandolerosScreen.tsx:34-36 | The tag cloud is strictly sorted and holds exactly the tags some bandolero carries. |
| Bandoleros.AllTagsUnique | screens/BandolerosScreen.tsx:34-36 | Any sorted duplicate-free list of exactly the tags in use is the tag cloud. |
| Bandoleros.WithActiveTag | screens/BandolerosScreen.tsx:46 | The filter keeps exactly the bandoleros with at least one active tag. |
| Bandoleros.WithActiveTagConcat | screens/BandolerosScreen.tsx:46 | The filter keeps list order. |
| Bandoleros.FilterByTags | screens/BandolerosScreen.tsx:44-47 | With no active tag the whole list is shown; otherwise exactly the bandoleros carrying an active tag. |
| Bandoleros.EditDraft | screens/BandolerosScreen.tsx:107-109 | The form opened on a bandolero carries every one of its fields, with its tags joined by ", " as the tag text. |
| Bandoleros.TrimAll | screens/BandolerosScreen.tsx:118 | `map(t => t.trim())` keeps the length and trims each piece in place. |
| Bandoleros.NonEmpty | screens/BandolerosScreen.tsx:118 | `filter(Boolean)` keeps exactly the non-empty strings. |
| Bandoleros.ParseTags | screens/BandolerosScreen.tsx:118 | Parsed tags are non-empty, trimmed and comma-free. A string is a tag exactly when it is non-empty and is the trim of some comma-separated piece of the text. |
| Bandoleros.PiecesWellFormed | screens/BandolerosScreen.tsx:118 | Comma-free pieces, trimmed and with the empty ones dropped, are non-empty, trimmed, comma-free tags. |
| Bandoleros.ParseTagsPieces | screens/BandolerosScreen.tsx:118 | Parsing is split, then trim each piece, then drop the empty ones, also for the empty text, which the source guards separately. |
| Bandoleros.PieceTag | screens/BandolerosScreen.tsx:118 | One piece gives at most one tag, and none exactly when it trims to nothing. |
| Bandoleros.ParseTagsOne | screens/BandolerosScreen.tsx:118 | A text without commas gives the tag of its single piece. |
| Bandoleros.ParseTagsPiece | screens/BandolerosScreen.tsx:118 | The tags of a piece followed by a comma and the rest are the piece's tag followed by the tags of the rest. |
| Bandoleros.ParseTagsOfJoin | screens/BandolerosScreen.tsx:109 | Parsing the text the form shows for stored tags gives back the same tags. |
| Bandoleros.FromDraft | screens/BandolerosScreen.tsx:119-133 | The saved bandolero has the form's id, or the fresh one when the form has none. Name, rating, image, notes, origin, quote, personality, style, topics and appearance are the form's. The colour is the form's, or THEME_COLORS[4] (`#E0B1CB`) when the form has none. The tags are the parsed tag text. |
| Bandoleros.FromEditDraft | screens/BandolerosScreen.tsx:107-133 | Opening a stored bandolero's form and saving it unchanged reproduces the bandolero. |
| Bandoleros.Upsert | screens/BandolerosScreen.tsx:134-140 | When the id exists, the list keeps its length and exactly the elements with that id are replaced. Otherwise the bandolero is appended. Ids stay unique. |
| Bandoleros.Save | screens/BandolerosScreen.tsx:116-143 | Without a name and a rating nothing changes. Otherwise the bandolero built from the form is upserted, and ids stay unique. |
| Bandoleros.Delete | screens/BandolerosScreen.tsx:145-147 | Deleting keeps exactly the bandoleros with other ids. |
| Bandoleros.SaveUnchangedIsNoop | screens/BandolerosScreen.tsx:134-140 | Saving a stored bandolero's form unchanged leaves the list as it was. |
| Bandoleros.DeleteUndoesAdd | screens/BandolerosScreen.tsx:145-147 | Deleting a newly added bandolero restores the list. |
| Music.OpenSong | screens/MusicScreen.tsx:71-74 | The song form is a copy of the song, or an empty new song with no id. |
| Music.OpenPlaylist | screens/MusicScreen.tsx:76-79 | The playlist form is a copy of the playlist, or an empty new playlist with no id. |
| Music.NewId | screens/MusicScreen.tsx:86 | The appended item's id is the fresh one unless the form carries its own id key. |
| Music.SongOf | screens/MusicScreen.tsx:83-85 | The stored song carries the form's title, artist and rating under the given id. |
| Music.PlaylistOf | screens/MusicScreen.tsx:130-137 | The stored playlist carries the form's name, song ids and cover under the given id. |
| Music.SongOfOpenSong | screens/MusicScreen.tsx:70-85 | The form opened on a song describes that same song. |
| Music.PlaylistOfOpenPlaylist | screens/MusicScreen.tsx:75-137 | The form opened on a playlist describes that same playlist. |
| Music.SaveSong | screens/MusicScreen.tsx:81-91 | Without a title and an artist nothing changes. A form with an id replaces the songs with that id in place, and never appends. A form without one appends a new song. No existing song changes its id. |
| Music.SavePlaylist | screens/MusicScreen.tsx:127-141 | Without a name nothing changes. A form with an id replaces in place; otherwise the playlist is appended. |
| Music.StripSong | screens/MusicScreen.tsx:95 | Every playlist keeps its id, name and cover and loses the song id. Its other song ids are unchanged, and the number of playlists is unchanged. |
| Music.DeleteSong | screens/MusicScreen.tsx:93-96 | Deleting a song removes it from the song list and its id from every playlist. |
| Music.DeletePlaylist | screens/MusicScreen.tsx:143-145 | Deleting keeps exactly the playlists with other ids. |
| Music.ToggleSongInPlaylist | screens/MusicScreen.tsx:147-155 | With no playlist being edited nothing happens. Otherwise only the song's membership flips, and no duplicates arise. |
| Music.ToggleSongTwice | screens/MusicScreen.tsx:147-155 | Toggling a song in and out restores the form. |
| Music.PlaylistSongs | screens/MusicScreen.tsx:23 | The detail view lists exactly the songs whose id is in the playlist. |
| Music.PlaylistSongsConcat | screens/MusicScreen.tsx:23 | The detail view keeps song-list order. |
| Music.DeleteSongFromView | screens/MusicScreen.tsx:93-96 | After a song is deleted, each playlist's detail view is its old view without that song. |
| Music.DeleteSongConsistent | screens/MusicScreen.tsx:93-96 | Deleting a song leaves no playlist referring to a missing song. |
| Music.SaveSongConsistent | screens/MusicScreen.tsx:81-91 | Saving a song never breaks a playlist's reference. |
| Music.PlaylistEditsConsistent | screens/MusicScreen.tsx:127-145 | Saving a playlist of existing songs, or deleting a playlist, keeps every reference valid. |
| Music.SaveSongUnchangedIsNoop | screens/MusicScreen.tsx:81-91 | Saving a stored song's form unchanged leaves the list as it was. |
| Diary.MentionedBy | screens/DiaryScreen.tsx:41-45 | Lists exactly the ids of the bandoleros whose name occurs in the text. |
| Diary.MentionedIds | screens/DiaryScreen.tsx:39-47 | The mention loop yields, duplicate-free and in list order, exactly the ids of the bandoleros whose name occurs in the content. |
| Diary.OpenEntry | screens/DiaryScreen.tsx:283 | The editor opened on an entry carries its id, date, title, content, mood, cover and dream flag, with the popup hidden. |
| Diary.PickMood | screens/DiaryScreen.tsx:149 | Picking a mood sets the entry's mood and changes nothing else. |
| Diary.CheckDream | screens/DiaryScreen.tsx:153 | The dream checkbox sets the entry's dream flag to the box's state and changes nothing else. |
| Diary.EditorSave | screens/DiaryScreen.tsx:37-56 | Without a title and content nothing is saved. Otherwise the entry keeps its own id and date, or takes a fresh id and the current time. Title, content, mood, cover and dream flag are kept. Its mentions are exactly the bandoleros named in the content, without duplicates. |
| Diary.NamedIsMentioned | screens/DiaryScreen.tsx:42-44 | A bandolero whose name is written into the content is mentioned. |
| Diary.Prefix | screens/DiaryScreen.tsx:74 | `substring(0, cursor)` is the prefix up to the cursor, clamped to the text. |
| Diary.TrailingWord | screens/DiaryScreen.tsx:75 | The longest run of word characters at the end of the text. |
| Diary.TrailingMention | screens/DiaryScreen.tsx:75 | The pattern `/\/(\w*)$/` matches exactly when the text before the cursor ends in `/` followed only by word characters. The captured word is what follows that `/`. |
| Diary.ContentChange | screens/DiaryScreen.tsx:69-83 | The content becomes the new text. The popup shows, filtered by the typed word, exactly when the text before the cursor ends in a `/word` mention, and is hidden otherwise. |
| Diary.MentionSelect | screens/DiaryScreen.tsx:85-98 | The trailing `/word` before the cursor is replaced by the name and a space. The text after the cursor is kept, and without a match the text is unchanged. The popup closes. |
| Diary.MentionSelectCompletes | screens/DiaryScreen.tsx:89-92 | After a selection the content contains the name. The text up to the inserted name ends with a space and no longer opens the popup. |
| Diary.MentionCandidates | screens/DiaryScreen.tsx:118-120 | The mention list holds exactly the bandoleros whose lower-cased name contains the lower-cased filter. |
| Diary.EmptyFilterListsAll | screens/DiaryScreen.tsx:118-120 | Right after typing `/`, every bandolero is offered, in list order. |
| Diary.CapitalisedNameOffered | screens/DiaryScreen.tsx:119 | The match ignores case: a bandolero named "Ana" is offered for the filter "an". |
| Diary.SaveEntry | screens/DiaryScreen.tsx:216-224 | An entry whose id exists replaces the entries with that id in place; a new entry goes to the front. Ids stay unique. |
| Diary.DeleteEntry | screens/DiaryScreen.tsx:226-229 | Deleting keeps exactly the entries with other ids. |
| Diary.DeleteUndoesNewEntry | screens/DiaryScreen.tsx:216-229 | Deleting a newly saved entry restores the list. |
| Diary.ResaveReplacesInPlace | screens/DiaryScreen.tsx:216-224 | Re-saving an opened entry gives back the same entry, dream flag included, with only its mentions recomputed. It replaces the entry at its own position and leaves every other entry alone. |
| Chat.Names | screens/ChatScreen.tsx:51 | The names of the chosen bandoleros, in order. |
| Chat.NewSession | screens/ChatScreen.tsx:44-53 | A new session is a group exactly when more than one bandolero is chosen. Its participants are their ids in order, and its messages are empty. A group is named by the names joined with ", " and has no picture. A one-to-one chat is named "Chat con " plus the name and has the bandolero's picture. |
| Chat.CreateNewChat | screens/ChatScreen.tsx:41-61 | An empty choice changes nothing. Otherwise the new session goes to the front and is opened, and the dialog closes. `ai_group_chat` is unioned in only for a group, and the unlock list stays duplicate-free. |
| Chat.GroupChatUnlocksOnce | screens/ChatScreen.tsx:58-60 | A group chat appends `ai_group_chat` to a duplicate-free unlock list only if absent. |
| Chat.GroupIffSeveralSelected | components/NewChatModal.tsx:23-27 | With unique ids and a selection of existing ids, the created chat is a group exactly when more than one id is selected. |
| Chat.UpdateSession | screens/ChatScreen.tsx:36-39 | Only the sessions with the updated id are replaced, the list keeps its length, and the updated session is opened. |
| Chat.FindSolo | screens/ChatScreen.tsx:26 | Finds the first one-to-one session whose first participant is the bandolero, and none exactly when there is no such session. |
| Chat.OpenInitial | screens/ChatScreen.tsx:24-34 | The screen opened on a bandolero reopens their first one-to-one chat if one exists, or else creates one. Either way the open session is that bandolero's one-to-one chat and is in the list. |
| Chat.OpenInitialIdempotent | screens/ChatScreen.tsx:24-34 | Opening on the same bandolero again changes nothing: no second one-to-one chat appears. |
| Chat.FindBandolero | screens/ChatScreen.tsx:69 | Finds the bandolero with the id, which is the only one when ids are unique, and none exactly when absent. |
| Chat.SessionImage | screens/ChatScreen.tsx:67-73 | A group chat, a chat with no participants, or one whose bandolero is gone shows no picture. A one-to-one chat shows its bandolero's current picture. |
| Chat.NewSoloSessionImage | screens/ChatScreen.tsx:67-73 | A one-to-one chat created for a listed bandolero shows the picture stored with it. |
| NewChat.Chosen | components/NewChatModal.tsx:24 | Create hands over exactly the bandoleros whose id is selected. Unique ids stay unique. |
| NewChat.ChosenConcat | components/NewChatModal.tsx:24 | The handed-over bandoleros keep list order. |
| NewChat.Create | components/NewChatModal.tsx:23-27 | Create hands over exactly the selected bandoleros and empties the selection. |
| NewChat.ChosenCount | components/NewChatModal.tsx:24 | With unique ids and a selection of existing ids, one bandolero per selected id is handed over. |
| NewChat.Ids | screens/ChatScreen.tsx:48 | `map(b => b.id)` keeps the length and takes each bandolero's id in place. |

## Left out

- Network and SDK calls are not modelled:
  - AI chat, image and speech generation, file uploads, `getReadURL` and `fetch`;
  - the chat interface, the chat modal and the image component;
  - the user and theme fetch (App.tsx:77-95).
- Timers and readiness polling are not real time here:
  - the 200 ms retry scheduled when the SDK is not loaded (hooks/usePuterStorage.ts:31-34) never runs: the `finally` block settles the hook and the effect's clean-up cancels the retry. `LoadNotReady` models that path, so the retry timer is not an event of its own;
  - the 500 ms debounce is the `Flush` event;
  - the delay between a Shop claim's guard and its update (screens/ShopScreen.tsx:45) is not modelled. A claim is one atomic step, so a double click inside that delay is outside the model.
- Rewards.RewardsScreen.Claim: the 2 s delay between the click and the update (screens/RewardsScreen.tsx:52) is not modelled, nor is the `isClaiming` flag that disables the button meanwhile (screens/RewardsScreen.tsx:48, 80). A claim is one atomic step. Two claims started inside the delay would each test the list captured at the click (screens/RewardsScreen.tsx:56), so a reward drawn twice would be appended twice. The model's duplicate-free reward list relies on the disabled button to rule that out.
- The load effect re-runs when `initialValue` changes identity (hooks/usePuterStorage.ts:71). The model has one load per mount.
- Storage.PersistentValue.constructor: the cached value `null` or `undefined` falls back to the initial value (`??`, hooks/usePuterStorage.ts:17). The model treats a present cache entry as a value.
- Diary: the `isDream` key is optional in the source and read with `!!` (screens/DiaryScreen.tsx:153, 180). The model stores a boolean, with an absent key as `false`.
- Storage.PersistentValue.Write: React's bail-out compares with `Object.is`; the model uses structural equality.
- Each `Store` holds values of one type. The app's single cache holds values of every type.
- Effect ordering is not modelled. The streak effect runs once on mount, possibly before the stored values have loaded (App.tsx:97-139). The model gives the transition function only.
- Calendar details are not modelled: `toDateString`, ISO formats, time zones and month lengths. Days are integers. Diary dates and the current time are opaque strings.
- The profile progress percentage (screens/ProfileScreen.tsx:36) is floating point and is not modelled.
- Display sorts (screens/BandolerosScreen.tsx:171, screens/DiaryScreen.tsx:281) and all JSX, modals and notification messages are not modelled.
- Bandoleros.Below: `sort()` compares UTF-16 code units; the model compares characters (code points). The two orders agree on text without characters outside the Basic Multilingual Plane.
- Text.Lower and Text.IsWordChar: only ASCII is handled. `toLowerCase` and `\w` beyond ASCII are not modelled.
- Diary.MentionSelect: a `$` in a bandolero's name is literal text in the model. `String.prototype.replace` would treat it as a replacement pattern.
- Text.ParseInt: precision loss above 2^53 and the sum of story tokens as floating point are not modelled.
- The playlist detail view's refresh after a save (screens/MusicScreen.tsx:132-134) is view state and is not modelled.
- The bandolero gallery is not modelled: the save builds a new object without it.
- Besties are only counted by the achievement sweep; their screen is not part of this model.
- The daily quest list, the shop catalog and the reward box are parameters; the random pick of a reward is the `reward` argument.
- Profile.SetGoal: the goal screen's `set_goal` achievement is only logged (screens/ProfileScreen.tsx:47-50), so setting a goal never changes the unlock list. The model returns the goal alone.
- hooks/useLocalStorage.ts is not part of this model.
