/**
 * The records the app stores, as the screens build and read them. Optional
 * fields that the code tests for truthiness are `Option`s; optional lists that
 * the code reads with `|| []` are plain sequences (a missing list behaves as
 * an empty one). Dates the streak logic compares are day numbers.
 */
module Entities {
  import opened Common

  /** A person on the list, with every field the edit form writes. */
  datatype Bandolero = Bandolero(
    id: string,
    name: string,
    rating: int,
    image: Option<string>,
    notes: string,
    origin: string,
    tags: seq<string>,
    themeColor: string,
    favoriteQuote: string,
    personality: string,
    style: string,
    topics: string,
    appearanceDescription: string)

  function BandoleroId(b: Bandolero): string { b.id }

  datatype DiaryEntry = DiaryEntry(
    id: string,
    date: string,
    title: string,
    content: string,
    mood: Option<string>,
    coverImage: Option<string>,
    mentionedBandoleroIds: seq<string>,
    isDream: bool)  // an absent `isDream` key reads as false

  function EntryId(e: DiaryEntry): string { e.id }

  datatype Song = Song(id: string, title: string, artist: string, rating: int)

  function SongId(s: Song): string { s.id }

  datatype Playlist = Playlist(id: string, name: string, songIds: seq<string>, coverImage: Option<string>)

  function PlaylistId(p: Playlist): string { p.id }

  datatype Bestie = Bestie(id: string, name: string, image: Option<string>, anniversary: string, favoriteMemory: string)

  datatype ChatKind = Solo | Group

  datatype ChatMessage = ChatMessage(role: string, text: string)

  datatype ChatSession = ChatSession(
    id: string,
    kind: ChatKind,
    participantIds: seq<string>,
    messages: seq<ChatMessage>,
    model: string,
    name: string,
    image: Option<string>)

  function SessionId(s: ChatSession): string { s.id }

  /** A finished streak: `length` consecutive days ending on day `endDate`. */
  datatype StreakHistoryEntry = StreakHistoryEntry(startDate: int, endDate: int, length: int)

  /**
   * The user's profile. `storyTokens` is `None` when the count is missing or
   * has become `NaN`; both read as 0 in `storyTokens || 0`.
   */
  datatype UserProfile = UserProfile(
    username: Option<string>,
    corazones: int,
    storyTokens: Option<int>,
    activeBadgeId: Option<string>)

  /** Today's quests: the day they belong to (`None` for the initial `''`) and the ids completed. */
  datatype DailyQuestState = DailyQuestState(date: Option<int>, completed: seq<string>)

  datatype RewardKind = Theme | StickerPack | ProfileBadge | AiStoryToken | AiModel

  /** An item of the daily reward box or of the shop (`price` is 0 for the box). */
  datatype Reward = Reward(id: string, kind: RewardKind, name: string, value: string, price: nat)

  /** A daily quest and the currency it pays. */
  datatype Quest = Quest(id: string, reward: nat)

  /** A catalog entry: an achievement id and the currency it pays when unlocked. */
  datatype Achievement = Achievement(id: string, reward: nat)
}
