/**
 * The chat screen's session bookkeeping: building a session from the chosen
 * bandoleros, replacing an updated session, reopening a bandolero's existing
 * one-to-one chat, and the picture shown for a session. The conversation
 * itself (AI replies) is not part of this model.
 */
module Chat {
  import opened Common
  import opened Text
  import opened Entities
  import NewChat

  const DefaultModel := "openrouter:openai/gpt-4o"
  const GroupChatAchievement := "ai_group_chat"

  /** The sessions, the open session, the unlocked achievements and whether the new-chat dialog is open. */
  datatype ChatState = ChatState(
    sessions: seq<ChatSession>,
    active: Option<ChatSession>,
    unlocked: seq<string>,
    dialogOpen: bool)

  /** The names of the chosen bandoleros, in order. */
  function Names(bs: seq<Bandolero>): (r: seq<string>)
    ensures |r| == |bs|
    ensures forall i :: 0 <= i < |bs| ==> r[i] == bs[i].name
  {
    if bs == [] then [] else [bs[0].name] + Names(bs[1..])
  }

  /**
   * The session built for the chosen bandoleros: a group when more than one
   * is chosen, named by their names joined with ", "; otherwise a one-to-one
   * chat named after the bandolero and showing their picture.
   */
  function NewSession(chosen: seq<Bandolero>, freshId: string): (s: ChatSession)
    requires chosen != []
    ensures s.id == freshId && s.messages == [] && s.model == DefaultModel
    ensures s.kind == Group <==> |chosen| > 1
    ensures s.participantIds == NewChat.Ids(chosen)
    ensures |chosen| > 1 ==> s.name == Join(Names(chosen), ", ") && s.image == None
    ensures |chosen| == 1 ==> s.name == "Chat con " + chosen[0].name && s.image == chosen[0].image
  {
    var isGroup := |chosen| > 1;
    ChatSession(
      freshId,
      if isGroup then Group else Solo,
      NewChat.Ids(chosen),
      [],
      DefaultModel,
      if isGroup then Join(Names(chosen), ", ") else "Chat con " + chosen[0].name,
      if isGroup then None else chosen[0].image)
  }

  /**
   * `handleCreateNewChat`: nothing for an empty choice; otherwise the new
   * session goes to the front of the list and is opened, the dialog closes,
   * and a group chat unlocks the group-chat achievement.
   */
  function CreateNewChat(st: ChatState, chosen: seq<Bandolero>, freshId: string): (r: ChatState)
    ensures chosen == [] ==> r == st
    ensures chosen != [] ==>
      && r.sessions == [NewSession(chosen, freshId)] + st.sessions
      && r.active == Some(NewSession(chosen, freshId))
      && !r.dialogOpen
    ensures chosen != [] && |chosen| > 1 ==> forall x :: x in r.unlocked <==> x in st.unlocked || x == GroupChatAchievement
    ensures |chosen| <= 1 ==> r.unlocked == st.unlocked
    ensures NoDup(st.unlocked) ==> NoDup(r.unlocked)
  {
    if chosen == [] then st
    else
      var s := NewSession(chosen, freshId);
      var unlocked := if |chosen| > 1 then Union(st.unlocked, [GroupChatAchievement]) else st.unlocked;
      ChatState([s] + st.sessions, Some(s), unlocked, false)
  }

  /** On a duplicate-free unlock list, a group chat appends the achievement once, at the end, only if absent. */
  lemma GroupChatUnlocksOnce(st: ChatState, chosen: seq<Bandolero>, freshId: string)
    requires NoDup(st.unlocked) && |chosen| > 1
    ensures CreateNewChat(st, chosen, freshId).unlocked == AddAbsent(st.unlocked, GroupChatAchievement)
  {
    UnionIsAddAbsent(st.unlocked, GroupChatAchievement);
  }

  /**
   * Creating from the new-chat dialog: with unique bandolero ids and a
   * selection of existing ids, the chat is a group exactly when more than one
   * id is selected, and its participants are the selected bandoleros in list order.
   */
  lemma GroupIffSeveralSelected(st: ChatState, bs: seq<Bandolero>, selected: seq<string>, freshId: string)
    requires UniqueKeys(bs, BandoleroId) && NoDup(selected) && selected != []
    requires forall x :: x in selected ==> HasKey(bs, BandoleroId, x)
    ensures var r := CreateNewChat(st, NewChat.Create(bs, selected).chosen, freshId);
            && r.active.Some?
            && (r.active.value.kind == Group <==> |selected| > 1)
            && r.active.value.participantIds == NewChat.Ids(NewChat.Chosen(bs, selected))
  {
    NewChat.ChosenCount(bs, selected);
  }

  /** `handleSessionUpdate`: the session with the same id is replaced, the others kept, and it becomes the open one. */
  function UpdateSession(st: ChatState, s: ChatSession): (r: ChatState)
    ensures |r.sessions| == |st.sessions|
    ensures forall i :: 0 <= i < |st.sessions| ==> r.sessions[i] == (if st.sessions[i].id == s.id then s else st.sessions[i])
    ensures r.active == Some(s)
    ensures r.unlocked == st.unlocked && r.dialogOpen == st.dialogOpen
  {
    st.(sessions := ReplaceByKey(st.sessions, SessionId, s), active := Some(s))
  }

  /** A one-to-one session whose first participant is the bandolero with that id. */
  predicate SoloWith(s: ChatSession, id: string)
  {
    s.kind == Solo && |s.participantIds| > 0 && s.participantIds[0] == id
  }

  /** `sessions.find(...)`: the first one-to-one session with that bandolero. */
  function FindSolo(sessions: seq<ChatSession>, id: string): (r: Option<ChatSession>)
    ensures r.None? <==> forall i :: 0 <= i < |sessions| ==> !SoloWith(sessions[i], id)
    ensures r.Some? ==> exists i :: (0 <= i < |sessions| && sessions[i] == r.value && SoloWith(r.value, id)
      && forall j :: 0 <= j < i ==> !SoloWith(sessions[j], id))
  {
    if sessions == [] then None
    else if SoloWith(sessions[0], id) then Some(sessions[0])
    else
      var r := FindSolo(sessions[1..], id);
      assert forall i :: 1 <= i < |sessions| ==> sessions[i] == sessions[1..][i - 1];
      if r.Some? then
        var i :| 0 <= i < |sessions[1..]| && sessions[1..][i] == r.value && SoloWith(r.value, id)
          && forall j :: 0 <= j < i ==> !SoloWith(sessions[1..][j], id);
        assert sessions[i + 1] == r.value;
        r
      else r
  }

  /**
   * The screen opened on a bandolero: reopen their existing one-to-one chat,
   * or else create one. Without a bandolero nothing happens.
   */
  function OpenInitial(st: ChatState, initial: Option<Bandolero>, freshId: string): (r: ChatState)
    ensures initial.None? ==> r == st
    ensures initial.Some? && FindSolo(st.sessions, initial.value.id).Some? ==>
      r == st.(active := FindSolo(st.sessions, initial.value.id))
    ensures initial.Some? && FindSolo(st.sessions, initial.value.id).None? ==>
      r == CreateNewChat(st, [initial.value], freshId)
    ensures initial.Some? ==> r.active.Some? && SoloWith(r.active.value, initial.value.id) && r.active.value in r.sessions
  {
    match initial
    case None => st
    case Some(b) =>
      match FindSolo(st.sessions, b.id)
      case Some(s) => st.(active := Some(s))
      case None =>
        var r := CreateNewChat(st, [b], freshId);
        assert r.sessions[0] == r.active.value;
        r
  }

  /**
   * Opening the screen on the same bandolero again reuses the chat the first
   * opening found or created: no second one-to-one chat appears.
   */
  lemma OpenInitialIdempotent(st: ChatState, b: Bandolero, freshId: string, laterId: string)
    ensures var once := OpenInitial(st, Some(b), freshId);
            OpenInitial(once, Some(b), laterId) == once
  {
    var once := OpenInitial(st, Some(b), freshId);
    if FindSolo(st.sessions, b.id).None? {
      assert once.sessions[0] == once.active.value;
      assert SoloWith(once.sessions[0], b.id);
    }
  }

  /** The first bandolero with the id, if any. */
  function FindBandolero(bs: seq<Bandolero>, id: string): (r: Option<Bandolero>)
    ensures r.None? <==> !HasKey(bs, BandoleroId, id)
    ensures r.Some? ==> r.value in bs && r.value.id == id
    ensures r.Some? && UniqueKeys(bs, BandoleroId) ==> forall b :: b in bs && b.id == id ==> r.value == b
  {
    if bs == [] then None
    else if bs[0].id == id then
      assert UniqueKeys(bs, BandoleroId) ==> forall b :: b in bs && b.id == id ==> b == bs[0] by {
        if UniqueKeys(bs, BandoleroId) {
          forall b | b in bs && b.id == id ensures b == bs[0] {
            var k :| 0 <= k < |bs| && bs[k] == b;
            assert BandoleroId(bs[k]) == BandoleroId(bs[0]);
          }
        }
      }
      Some(bs[0])
    else
      var r := FindBandolero(bs[1..], id);
      assert forall i :: 1 <= i < |bs| ==> bs[i] == bs[1..][i - 1];
      assert !HasKey(bs[1..], BandoleroId, id) ==> !HasKey(bs, BandoleroId, id);
      assert UniqueKeys(bs, BandoleroId) ==> UniqueKeys(bs[1..], BandoleroId);
      r
  }

  /**
   * `getSessionImage`: a one-to-one chat shows the current picture of its
   * bandolero; a group chat, or a chat whose bandolero is gone, shows none.
   */
  function SessionImage(s: ChatSession, bs: seq<Bandolero>): (r: Option<string>)
    ensures s.kind == Group || s.participantIds == [] ==> r == None
    ensures s.kind == Solo && s.participantIds != [] && !HasKey(bs, BandoleroId, s.participantIds[0]) ==> r == None
    ensures s.kind == Solo && s.participantIds != [] && UniqueKeys(bs, BandoleroId) ==>
      forall b :: b in bs && b.id == s.participantIds[0] ==> r == b.image
  {
    if s.kind == Solo && |s.participantIds| > 0 then
      match FindBandolero(bs, s.participantIds[0])
      case Some(b) => b.image
      case None => None
    else None
  }

  /** A one-to-one chat created for a listed bandolero shows the picture stored with it. */
  lemma NewSoloSessionImage(bs: seq<Bandolero>, b: Bandolero, freshId: string)
    requires UniqueKeys(bs, BandoleroId) && b in bs
    ensures SessionImage(NewSession([b], freshId), bs) == NewSession([b], freshId).image == b.image
  {
    assert NewChat.Ids([b])[0] == b.id;
  }
}
