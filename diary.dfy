/**
 * The diary: the entry editor (mention detection on save, the `/name` mention
 * popup and its substitution, the mention list filter) and the entry list
 * (insert-or-replace on save, delete by id).
 */
module Diary {
  import opened Common
  import opened Text
  import opened Entities

  // ---------------------------------------------------------------------------
  // Mentions found on save
  // ---------------------------------------------------------------------------

  /** The ids of the bandoleros whose name occurs in `text`, in list order, with repeats. */
  function MentionedBy(text: string, bs: seq<Bandolero>): (r: seq<string>)
    ensures |r| <= |bs|
    ensures forall id :: id in r <==> exists i :: 0 <= i < |bs| && bs[i].id == id && Contains(text, bs[i].name)
  {
    if bs == [] then []
    else
      var init := bs[..|bs| - 1];
      var b := bs[|bs| - 1];
      assert forall i :: 0 <= i < |init| ==> init[i] == bs[i];
      MentionedBy(text, init) + (if Contains(text, b.name) then [b.id] else [])
  }

  /**
   * The editor's mention scan: every bandolero whose name occurs in the
   * content adds its id to a set; the set's insertion order is kept.
   */
  method MentionedIds(text: string, bs: seq<Bandolero>) returns (ids: seq<string>)
    ensures ids == Dedup(MentionedBy(text, bs))
    ensures NoDup(ids)
    ensures forall id :: id in ids <==> exists i :: 0 <= i < |bs| && bs[i].id == id && Contains(text, bs[i].name)
  {
    ids := [];
    var i := 0;
    while i < |bs|
      invariant 0 <= i <= |bs|
      invariant ids == Dedup(MentionedBy(text, bs[..i]))
    {
      var b := bs[i];
      var m := MentionedBy(text, bs[..i]);
      assert bs[..i + 1][..i] == bs[..i] && bs[..i + 1][i] == b;
      assert MentionedBy(text, bs[..i + 1]) == m + (if Contains(text, b.name) then [b.id] else []);
      if Contains(text, b.name) {
        assert (m + [b.id])[..|m|] == m;
        if b.id !in ids {
          ids := ids + [b.id];
        }
      } else {
        assert m + [] == m;
      }
      i := i + 1;
    }
    assert bs[..|bs|] == bs;
  }

  // ---------------------------------------------------------------------------
  // The editor
  // ---------------------------------------------------------------------------

  /**
   * The editor's entry. `id` and `date` are `None` when the entry has no such
   * key yet (a new entry); an opened entry carries all of its keys.
   */
  datatype EntryDraft = EntryDraft(
    id: Option<string>,
    date: Option<string>,
    title: string,
    content: string,
    mood: Option<string>,
    coverImage: Option<string>,
    isDream: bool)

  /** The mention popup: shown or not, and the word typed after `/`. */
  datatype Popup = Popup(show: bool, filter: string)

  const Hidden := Popup(false, "")

  datatype Editor = Editor(entry: EntryDraft, popup: Popup)

  const DefaultMood := "\U{1F60A}"

  /** The editor opened for a new entry. */
  const NewEntry := Editor(EntryDraft(None, None, "", "", Some(DefaultMood), None, false), Hidden)

  /** The editor opened on a stored entry. */
  function OpenEntry(e: DiaryEntry): (ed: Editor)
    ensures ed.entry.id == Some(e.id) && ed.entry.date == Some(e.date)
    ensures ed.entry.title == e.title && ed.entry.content == e.content
    ensures ed.entry.mood == e.mood && ed.entry.coverImage == e.coverImage && ed.entry.isDream == e.isDream
    ensures !ed.popup.show
  {
    Editor(EntryDraft(Some(e.id), Some(e.date), e.title, e.content, e.mood, e.coverImage, e.isDream), Hidden)
  }

  /** Picking a mood in the editor: only the entry's mood changes. */
  function PickMood(ed: Editor, mood: string): (r: Editor)
    ensures r.entry.mood == Some(mood)
    ensures r == ed.(entry := ed.entry.(mood := r.entry.mood))
  {
    ed.(entry := ed.entry.(mood := Some(mood)))
  }

  /** The dream checkbox: only the entry's dream flag changes, to the box's new state. */
  function CheckDream(ed: Editor, checked: bool): (r: Editor)
    ensures r.entry.isDream == checked
    ensures r == ed.(entry := ed.entry.(isDream := r.entry.isDream))
  {
    ed.(entry := ed.entry.(isDream := checked))
  }

  /**
   * The editor's save: nothing without a title and content; otherwise the
   * entry with its own id and date (a fresh id and the current time when it
   * has none) and the ids of the bandoleros it names.
   */
  function EditorSave(d: EntryDraft, bs: seq<Bandolero>, freshId: string, now: string): (r: Option<DiaryEntry>)
    ensures r.None? <==> d.title == "" || d.content == ""
    ensures r.Some? ==> r.value.id == (if d.id.Some? then d.id.value else freshId)
    ensures r.Some? ==> r.value.date == (if d.date.Some? then d.date.value else now)
    ensures r.Some? ==> r.value.title == d.title && r.value.content == d.content
    ensures r.Some? ==> r.value.mood == d.mood && r.value.coverImage == d.coverImage && r.value.isDream == d.isDream
    ensures r.Some? ==> NoDup(r.value.mentionedBandoleroIds)
    ensures r.Some? ==> forall id :: id in r.value.mentionedBandoleroIds <==>
      exists i :: 0 <= i < |bs| && bs[i].id == id && Contains(d.content, bs[i].name)
  {
    if d.title != "" && d.content != "" then
      var id := match d.id case Some(v) => v case None => freshId;
      var date := match d.date case Some(v) => v case None => now;
      Some(DiaryEntry(id, date, d.title, d.content, d.mood, d.coverImage, Dedup(MentionedBy(d.content, bs)), d.isDream))
    else None
  }

  /** A bandolero whose name is written into the content is among the saved entry's mentions. */
  lemma NamedIsMentioned(d: EntryDraft, bs: seq<Bandolero>, freshId: string, now: string, i: int, before: string, after: string)
    requires d.title != "" && 0 <= i < |bs|
    requires d.content == before + bs[i].name + after && d.content != ""
    ensures EditorSave(d, bs, freshId, now).Some?
    ensures bs[i].id in EditorSave(d, bs, freshId, now).value.mentionedBandoleroIds
  {
    ContainsMiddle(before, bs[i].name, after);
  }

  /** The cursor position as `substring` reads it: clamped to the text. */
  function Prefix(text: string, cursor: nat): (p: string)
    ensures p <= text
    ensures |p| == if cursor <= |text| then cursor else |text|
  {
    if cursor <= |text| then text[..cursor] else text
  }

  /** The longest run of word characters at the end of `s`. */
  function TrailingWord(s: string): (w: string)
    ensures |w| <= |s| && w == s[|s| - |w|..]
    ensures forall j :: 0 <= j < |w| ==> IsWordChar(w[j])
    ensures |w| < |s| ==> !IsWordChar(s[|s| - |w| - 1])
  {
    if s != [] && IsWordChar(s[|s| - 1]) then
      var w := TrailingWord(s[..|s| - 1]);
      assert s[..|s| - 1][|s| - 1 - |w|..] + [s[|s| - 1]] == s[|s| - 1 - |w|..];
      w + [s[|s| - 1]]
    else []
  }

  /** The text before the cursor ends with `/` followed only by word characters, starting at `k`. */
  predicate MentionAt(prefix: string, k: int)
  {
    0 < k <= |prefix| && prefix[k - 1] == '/' && forall j :: k <= j < |prefix| ==> IsWordChar(prefix[j])
  }

  /**
   * `textUpToCursor.match(/\/(\w*)$/)`: the word after the last `/` when
   * nothing but word characters follows it, else no match.
   */
  function TrailingMention(prefix: string): (r: Option<string>)
    ensures r.Some? <==> exists k :: MentionAt(prefix, k)
    ensures r.Some? ==> MentionAt(prefix, |prefix| - |r.value|) && r.value == prefix[|prefix| - |r.value|..]
  {
    var w := TrailingWord(prefix);
    var k := |prefix| - |w|;
    if k > 0 && prefix[k - 1] == '/' then
      assert MentionAt(prefix, k);
      Some(w)
    else
      assert forall j :: k <= j < |prefix| ==> IsWordChar(prefix[j]) by {
        forall j | k <= j < |prefix| ensures IsWordChar(prefix[j]) {
          assert prefix[j] == w[j - k];
        }
      }
      assert !IsWordChar('/');
      None
  }

  /**
   * `handleContentChange`: the content becomes the new text, and the popup
   * shows, filtered by the typed word, exactly when the text before the cursor
   * ends in a `/word` mention.
   */
  function ContentChange(ed: Editor, text: string, cursor: nat): (r: Editor)
    ensures r.entry == ed.entry.(content := text)
    ensures r.popup.show <==> exists k :: MentionAt(Prefix(text, cursor), k)
    ensures r.popup.show ==> r.popup.filter == TrailingMention(Prefix(text, cursor)).value
    ensures !r.popup.show ==> r.popup == Hidden
  {
    var popup := match TrailingMention(Prefix(text, cursor))
      case Some(w) => Popup(true, w)
      case None => Hidden;
    Editor(ed.entry.(content := text), popup)
  }

  /**
   * `handleMentionSelect`: the trailing `/word` before the cursor is replaced by
   * the name and a space, the text after the cursor is kept, and the popup closes.
   */
  function MentionSelect(ed: Editor, cursor: nat, name: string): (r: Editor)
    ensures r.popup == Hidden
    ensures r.entry == ed.entry.(content := r.entry.content)
    ensures TrailingMention(Prefix(ed.entry.content, cursor)).None? ==> r.entry.content == ed.entry.content
    ensures TrailingMention(Prefix(ed.entry.content, cursor)).Some? ==>
      var p := Prefix(ed.entry.content, cursor);
      var w := TrailingMention(p).value;
      r.entry.content == p[..|p| - |w| - 1] + name + " " + ed.entry.content[|p|..]
  {
    var text := ed.entry.content;
    var p := Prefix(text, cursor);
    var rest := text[|p|..];
    assert p + rest == text;
    var content := match TrailingMention(p)
      case Some(w) => p[..|p| - |w| - 1] + name + " " + rest
      case None => text;
    Editor(ed.entry.(content := content), Hidden)
  }

  /**
   * After a selection, the text up to the end of the inserted name holds the
   * name, and ends in a space, so it no longer opens the popup.
   */
  lemma MentionSelectCompletes(ed: Editor, cursor: nat, name: string)
    requires TrailingMention(Prefix(ed.entry.content, cursor)).Some?
    ensures var p := Prefix(ed.entry.content, cursor);
            var w := TrailingMention(p).value;
            var upTo := p[..|p| - |w| - 1] + name + " ";
            && upTo <= MentionSelect(ed, cursor, name).entry.content
            && Contains(MentionSelect(ed, cursor, name).entry.content, name)
            && TrailingMention(upTo).None?
  {
    var p := Prefix(ed.entry.content, cursor);
    var w := TrailingMention(p).value;
    var before := p[..|p| - |w| - 1];
    var rest := ed.entry.content[|p|..];
    var upTo := before + name + " ";
    assert MentionSelect(ed, cursor, name).entry.content == upTo + rest;
    assert before + name + (" " + rest) == upTo + rest;
    ContainsMiddle(before, name, " " + rest);
    assert TrailingWord(upTo) == [] by {
      assert upTo[|upTo| - 1] == ' ';
    }
  }

  /** The mention list: the bandoleros whose lower-cased name contains the lower-cased filter, in list order. */
  function MentionCandidates(bs: seq<Bandolero>, filter: string): (r: seq<Bandolero>)
    ensures |r| <= |bs|
    ensures forall b :: b in r <==> b in bs && Contains(Lower(b.name), Lower(filter))
  {
    if bs == [] then []
    else
      var rest := MentionCandidates(bs[1..], filter);
      assert forall b :: b in bs <==> b == bs[0] || b in bs[1..];
      if Contains(Lower(bs[0].name), Lower(filter)) then [bs[0]] + rest else rest
  }

  /** Right after the `/` the filter is empty and every bandolero is offered. */
  lemma {:induction false} EmptyFilterListsAll(bs: seq<Bandolero>)
    ensures MentionCandidates(bs, "") == bs
  {
    if bs != [] {
      EmptyFilterListsAll(bs[1..]);
      assert Lower("") == [];
      assert Contains(Lower(bs[0].name), []);
    }
  }

  /** The match ignores case: "Ana" is offered while the filter reads "an". */
  lemma CapitalisedNameOffered(bs: seq<Bandolero>, b: Bandolero)
    requires b in bs && b.name == "Ana"
    ensures b in MentionCandidates(bs, "an")
  {
    assert Lower("an") == "an";
    assert Lower("Ana") == "ana";
    assert "an" <= "ana";
  }

  // ---------------------------------------------------------------------------
  // The entry list
  // ---------------------------------------------------------------------------

  /**
   * `handleSaveEntry`: an entry whose id is already in the list replaces every
   * entry with that id in place; a new one goes to the front.
   */
  function SaveEntry(entries: seq<DiaryEntry>, e: DiaryEntry): (r: seq<DiaryEntry>)
    ensures HasKey(entries, EntryId, e.id) ==>
      |r| == |entries| && forall i :: 0 <= i < |entries| ==> r[i] == (if entries[i].id == e.id then e else entries[i])
    ensures !HasKey(entries, EntryId, e.id) ==> r == [e] + entries
    ensures e in r
    ensures UniqueKeys(entries, EntryId) ==> UniqueKeys(r, EntryId)
  {
    if HasKey(entries, EntryId, e.id) then ReplaceByKey(entries, EntryId, e)
    else
      assert forall i :: 1 <= i < |entries| + 1 ==> ([e] + entries)[i] == entries[i - 1];
      [e] + entries
  }

  /** `handleDeleteEntry`: every entry with that id removed, the others kept in order. */
  function DeleteEntry(entries: seq<DiaryEntry>, id: string): (r: seq<DiaryEntry>)
    ensures forall e :: e in r <==> e in entries && e.id != id
    ensures !HasKey(r, EntryId, id)
  {
    RemoveByKey(entries, EntryId, id)
  }

  /** Deleting a newly saved entry gives the list back. */
  lemma DeleteUndoesNewEntry(entries: seq<DiaryEntry>, e: DiaryEntry)
    requires !HasKey(entries, EntryId, e.id)
    ensures DeleteEntry(SaveEntry(entries, e), e.id) == entries
  {
    RemoveByKeyConcat([e], entries, EntryId, e.id);
    RemoveAbsentKey(entries, EntryId, e.id);
    assert RemoveByKey([e], EntryId, e.id) == [];
  }

  /**
   * Opening a stored entry and saving it keeps its id and date and replaces it
   * in place: the list keeps its length and only that entry changes, to the
   * same entry with its mentions recomputed.
   */
  lemma ResaveReplacesInPlace(entries: seq<DiaryEntry>, j: int, bs: seq<Bandolero>, freshId: string, now: string)
    requires UniqueKeys(entries, EntryId) && 0 <= j < |entries|
    requires entries[j].title != "" && entries[j].content != ""
    ensures var e := entries[j];
            var saved := EditorSave(OpenEntry(e).entry, bs, freshId, now);
            && saved == Some(e.(mentionedBandoleroIds := Dedup(MentionedBy(e.content, bs))))
            && var r := SaveEntry(entries, saved.value);
               |r| == |entries| && r[j] == saved.value && forall i :: 0 <= i < |entries| && i != j ==> r[i] == entries[i]
  {
    var e := entries[j];
    assert EntryId(entries[j]) == e.id;
  }
}
