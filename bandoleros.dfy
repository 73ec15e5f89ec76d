/**
 * The bandoleros list screen: the sorted tag cloud, the tag filter, and the
 * edit form whose save parses the comma-separated tag text and inserts or
 * replaces the bandolero by id; deletion by id.
 */
module Bandoleros {
  import opened Common
  import opened Text
  import opened Entities

  // ---------------------------------------------------------------------------
  // String order and the sorted tag cloud
  // ---------------------------------------------------------------------------

  /** `a` sorts strictly before `b` in the default `Array.prototype.sort` order (character by character). */
  predicate Below(a: string, b: string)
    ensures Below(a, b) ==> a != b
  {
    if a == [] then b != []
    else if b == [] then false
    else if a[0] == b[0] then Below(a[1..], b[1..])
    else a[0] < b[0]
  }

  lemma {:induction false} BelowTransitive(a: string, b: string, c: string)
    requires Below(a, b) && Below(b, c)
    ensures Below(a, c)
  {
    if a != [] && b != [] && c != [] && a[0] == b[0] && b[0] == c[0] {
      BelowTransitive(a[1..], b[1..], c[1..]);
    }
  }

  lemma BelowAsymmetric(a: string, b: string)
    requires Below(a, b)
    ensures !Below(b, a)
  {
    if Below(b, a) {
      BelowTransitive(a, b, a);
    }
  }

  lemma {:induction false} BelowTotal(a: string, b: string)
    ensures a == b || Below(a, b) || Below(b, a)
  {
    if a != [] && b != [] && a[0] == b[0] {
      BelowTotal(a[1..], b[1..]);
      if a[1..] == b[1..] {
        assert a == [a[0]] + a[1..] && b == [b[0]] + b[1..];
      }
    }
  }

  /** Every element sorts strictly before every later one: sorted and without duplicates. */
  predicate StrictlySorted(s: seq<string>)
  {
    forall i, j :: 0 <= i < j < |s| ==> Below(s[i], s[j])
  }

  /** Insert `x` into a strictly sorted list, unless it is already there. */
  function Insert(s: seq<string>, x: string): (r: seq<string>)
    requires StrictlySorted(s)
    ensures StrictlySorted(r)
    ensures forall y :: y in r <==> y in s || y == x
  {
    if s == [] then [x]
    else if x == s[0] then s
    else if Below(x, s[0]) then
      assert forall j :: 0 <= j < |s| ==> Below(x, s[j]) by {
        forall j | 0 <= j < |s| ensures Below(x, s[j]) {
          if j > 0 {
            BelowTransitive(x, s[0], s[j]);
          }
        }
      }
      [x] + s
    else
      BelowTotal(x, s[0]);
      var rest := Insert(s[1..], x);
      assert forall y :: y in s <==> y == s[0] || y in s[1..];
      assert forall y :: y in s[1..] ==> Below(s[0], y);
      [s[0]] + rest
  }

  /** The strictly sorted list of the distinct elements of `xs`. */
  function SortedSet(xs: seq<string>): (r: seq<string>)
    ensures StrictlySorted(r)
    ensures forall y :: y in r <==> y in xs
  {
    if xs == [] then []
    else
      assert forall y :: y in xs <==> y in xs[..|xs| - 1] || y == xs[|xs| - 1];
      Insert(SortedSet(xs[..|xs| - 1]), xs[|xs| - 1])
  }

  /** The tail of a strictly sorted list is sorted and holds every element but the first. */
  lemma SortedTail(s: seq<string>)
    requires StrictlySorted(s) && s != []
    ensures StrictlySorted(s[1..])
    ensures forall y :: y in s[1..] <==> y in s && y != s[0]
  {
    forall y ensures y in s[1..] <==> y in s && y != s[0] {
      if y in s[1..] {
        var i :| 0 <= i < |s[1..]| && s[1..][i] == y;
        assert Below(s[0], s[i + 1]);
      }
      if y in s && y != s[0] {
        var i :| 0 <= i < |s| && s[i] == y;
        assert s[1..][i - 1] == y;
      }
    }
  }

  /** Two strictly sorted lists with the same elements are equal: a sorted set is determined by its elements. */
  lemma {:induction false} SortedUnique(a: seq<string>, b: seq<string>)
    requires StrictlySorted(a) && StrictlySorted(b)
    requires forall y :: y in a <==> y in b
    ensures a == b
  {
    assert a != [] ==> a[0] in b;
    assert b != [] ==> b[0] in a;
    if a != [] {
      assert a[0] in b && b[0] in a;
      var j :| 0 <= j < |b| && b[j] == a[0];
      var k :| 0 <= k < |a| && a[k] == b[0];
      assert j == 0 by {
        if j > 0 && k > 0 {
          BelowAsymmetric(a[0], b[0]);
        }
      }
      assert a[0] == b[0];
      SortedTail(a);
      SortedTail(b);
      SortedUnique(a[1..], b[1..]);
      assert a == [a[0]] + a[1..] && b == [b[0]] + b[1..];
    }
  }

  /** `bandoleros.flatMap(b => b.tags || [])`. */
  function TagsOf(bs: seq<Bandolero>): (r: seq<string>)
    ensures forall t :: t in r <==> exists i :: 0 <= i < |bs| && t in bs[i].tags
  {
    if bs == [] then []
    else
      var rest := TagsOf(bs[1..]);
      assert forall i :: 1 <= i < |bs| ==> bs[i] == bs[1..][i - 1];
      assert forall t :: t in rest ==> exists i :: 0 <= i < |bs| && t in bs[i].tags by {
        forall t | t in rest ensures exists i :: 0 <= i < |bs| && t in bs[i].tags {
          var j :| 0 <= j < |bs[1..]| && t in bs[1..][j].tags;
          assert bs[j + 1] == bs[1..][j];
        }
      }
      bs[0].tags + rest
  }

  /**
   * The tag cloud `[...new Set(bandoleros.flatMap(b => b.tags || []))].sort()`:
   * every tag in use, once, in sorted order.
   */
  function AllTags(bs: seq<Bandolero>): (r: seq<string>)
    ensures StrictlySorted(r)
    ensures forall t :: t in r <==> exists i :: 0 <= i < |bs| && t in bs[i].tags
  {
    SortedSet(TagsOf(bs))
  }

  /** Any sorted duplicate-free list of exactly the tags in use is the tag cloud. */
  lemma AllTagsUnique(bs: seq<Bandolero>, other: seq<string>)
    requires StrictlySorted(other)
    requires forall t :: t in other <==> exists i :: 0 <= i < |bs| && t in bs[i].tags
    ensures other == AllTags(bs)
  {
    SortedUnique(other, AllTags(bs));
  }

  // ---------------------------------------------------------------------------
  // Tag filter
  // ---------------------------------------------------------------------------

  /** Some active tag is among the bandolero's tags. */
  predicate HasActiveTag(b: Bandolero, active: seq<string>)
  {
    exists t :: t in active && t in b.tags
  }

  /** The bandoleros carrying at least one of the `active` tags, in list order. */
  function WithActiveTag(bs: seq<Bandolero>, active: seq<string>): (r: seq<Bandolero>)
    ensures |r| <= |bs|
    ensures forall b :: b in r <==> b in bs && HasActiveTag(b, active)
  {
    if bs == [] then []
    else
      var rest := WithActiveTag(bs[1..], active);
      assert forall b :: b in bs <==> b == bs[0] || b in bs[1..];
      if HasActiveTag(bs[0], active) then [bs[0]] + rest else rest
  }

  /** The filter keeps list order: it distributes over concatenation. */
  lemma {:induction false} WithActiveTagConcat(a: seq<Bandolero>, b: seq<Bandolero>, active: seq<string>)
    ensures WithActiveTag(a + b, active) == WithActiveTag(a, active) + WithActiveTag(b, active)
  {
    if a == [] {
      assert a + b == b;
    } else {
      assert (a + b)[1..] == a[1..] + b;
      WithActiveTagConcat(a[1..], b, active);
    }
  }

  /** The list shown under the tag filter: everything when no tag is active. */
  function FilterByTags(bs: seq<Bandolero>, active: seq<string>): (r: seq<Bandolero>)
    ensures active == [] ==> r == bs
    ensures active != [] ==> forall b :: b in r <==> b in bs && HasActiveTag(b, active)
    ensures |r| <= |bs|
  {
    if |active| == 0 then bs else WithActiveTag(bs, active)
  }

  // ---------------------------------------------------------------------------
  // The edit form
  // ---------------------------------------------------------------------------

  const DefaultThemeColor := "#E0B1CB"

  /**
   * The form's contents. Text fields the form may lack read as `""` (the save
   * replaces a missing value by `''` or by a default anyway); `id` is `""` for
   * a bandolero that is not saved yet; tags are edited as one text.
   */
  datatype Draft = Draft(
    id: string,
    name: string,
    rating: int,
    notes: string,
    origin: string,
    image: Option<string>,
    tagsString: string,
    themeColor: string,
    favoriteQuote: string,
    personality: string,
    style: string,
    topics: string,
    appearanceDescription: string)

  /** The form opened on an existing bandolero: its fields, with the tags joined by `", "`. */
  function EditDraft(b: Bandolero): (d: Draft)
    ensures d.id == b.id && d.name == b.name && d.rating == b.rating && d.image == b.image
    ensures d.notes == b.notes && d.origin == b.origin && d.themeColor == b.themeColor
    ensures d.favoriteQuote == b.favoriteQuote && d.personality == b.personality && d.style == b.style
    ensures d.topics == b.topics && d.appearanceDescription == b.appearanceDescription
    ensures d.tagsString == Join(b.tags, ", ")
  {
    Draft(b.id, b.name, b.rating, b.notes, b.origin, b.image, Join(b.tags, ", "), b.themeColor,
          b.favoriteQuote, b.personality, b.style, b.topics, b.appearanceDescription)
  }

  /** The form opened for a new bandolero. */
  const NewDraft := Draft("", "", 0, "", "", None, "", DefaultThemeColor, "", "", "", "", "")

  /** Tags as stored: non-empty, without surrounding white space, without commas. */
  predicate WellFormedTags(tags: seq<string>)
  {
    forall i :: 0 <= i < |tags| ==> tags[i] != "" && Trimmed(tags[i]) && ',' !in tags[i]
  }

  /** `parts.map(t => t.trim())`. */
  function TrimAll(parts: seq<string>): (r: seq<string>)
    ensures |r| == |parts|
    ensures forall i :: 0 <= i < |parts| ==> r[i] == Trim(parts[i])
  {
    if parts == [] then [] else [Trim(parts[0])] + TrimAll(parts[1..])
  }

  /** `parts.filter(Boolean)`: the non-empty strings, in order. */
  function NonEmpty(parts: seq<string>): (r: seq<string>)
    ensures forall t :: t in r <==> t in parts && t != ""
  {
    if parts == [] then []
    else
      assert forall t :: t in parts <==> t == parts[0] || t in parts[1..];
      (if parts[0] != "" then [parts[0]] else []) + NonEmpty(parts[1..])
  }

  lemma {:induction false} NonEmptyOfNonEmpty(parts: seq<string>)
    requires forall i :: 0 <= i < |parts| ==> parts[i] != ""
    ensures NonEmpty(parts) == parts
  {
    if parts != [] {
      NonEmptyOfNonEmpty(parts[1..]);
    }
  }

  /** Trimming never introduces a character. */
  lemma TrimKeepsOut(p: string, c: char)
    requires c !in p
    ensures c !in Trim(p)
  {
    var i, j :| 0 <= i <= j <= |p| && Trim(p) == p[i..j];
    assert forall x :: x in p[i..j] ==> x in p;
  }

  /**
   * The tags of the tag text: split at commas, trimmed, empty pieces dropped;
   * no tags for an empty text.
   */
  function ParseTags(s: string): (tags: seq<string>)
    ensures WellFormedTags(tags)
    ensures forall t :: t in tags <==> t != "" && exists k :: 0 <= k < |Split(s, ',')| && t == Trim(Split(s, ',')[k])
  {
    if s == "" then []
    else
      PiecesWellFormed(Split(s, ','));
      NonEmpty(TrimAll(Split(s, ',')))
  }

  /** Comma-free pieces, trimmed and with the empty ones dropped, are well-formed tags. */
  lemma {:induction false} PiecesWellFormed(pieces: seq<string>)
    requires forall k :: 0 <= k < |pieces| ==> ',' !in pieces[k]
    ensures WellFormedTags(NonEmpty(TrimAll(pieces)))
  {
    var trimmed := TrimAll(pieces);
    var tags := NonEmpty(trimmed);
    assert forall k :: 0 <= k < |trimmed| ==> Trimmed(trimmed[k]) && ',' !in trimmed[k] by {
      forall k | 0 <= k < |trimmed| ensures ',' !in trimmed[k] {
        TrimKeepsOut(pieces[k], ',');
      }
    }
    forall i | 0 <= i < |tags| ensures tags[i] != "" && Trimmed(tags[i]) && ',' !in tags[i] {
      assert tags[i] in trimmed;
    }
  }

  /** The empty text has no tags either way: `"".split(',')` is `[""]`, which trims to nothing. */
  lemma {:induction false} ParseTagsPieces(s: string)
    ensures ParseTags(s) == NonEmpty(TrimAll(Split(s, ',')))
  {
    if s == "" {
      assert ParseTags(s) == [];
      EmptyTextPieces();
    } else {
      assert ParseTags(s) == NonEmpty(TrimAll(Split(s, ',')));
    }
  }

  lemma EmptyTextPieces()
    ensures NonEmpty(TrimAll(Split("", ','))) == []
  {
    assert Split("", ',') == [""];
    assert TrimAll([""]) == [Trim("")];
    assert NonEmpty([""]) == [];
  }

  /** The tag a single comma-free piece contributes: its trimmed text, unless that is empty. */
  function PieceTag(p: string): (r: seq<string>)
    ensures |r| <= 1 && (r == [] <==> Trim(p) == "")
  {
    if Trim(p) == "" then [] else [Trim(p)]
  }

  /** Text without a comma is one piece. */
  lemma ParseTagsOne(p: string)
    requires ',' !in p
    ensures ParseTags(p) == PieceTag(p)
  {
    ParseTagsPieces(p);
    SplitFromPlain(p, ',', "");
    assert "" + p == p;
    assert TrimAll([p]) == [Trim(p)];
    assert NonEmpty([Trim(p)]) == PieceTag(p) by {
      assert NonEmpty([Trim(p)][1..]) == [];
    }
  }

  /**
   * The first comma ends the first piece: its tag comes first and the rest of
   * the text is parsed on its own, so tags keep their order and their repeats.
   */
  lemma ParseTagsPiece(p: string, rest: string)
    requires ',' !in p
    ensures ParseTags(p + "," + rest) == PieceTag(p) + ParseTags(rest)
  {
    var s := p + "," + rest;
    ParseTagsPieces(s);
    ParseTagsPieces(rest);
    assert s == p + [','] + rest;
    SplitFromPiece(p, ',', rest, "");
    assert "" + p == p;
    var tail := Split(rest, ',');
    assert Split(s, ',') == [p] + tail;
    assert TrimAll([p] + tail) == [Trim(p)] + TrimAll(tail) by {
      assert ([p] + tail)[1..] == tail;
    }
    assert NonEmpty([Trim(p)] + TrimAll(tail)) == PieceTag(p) + NonEmpty(TrimAll(tail)) by {
      assert ([Trim(p)] + TrimAll(tail))[1..] == TrimAll(tail);
    }
  }

  /** `" " + t` for every tag after the first: the pieces `split(',')` leaves after `", "`. */
  function Spaced(tags: seq<string>): (r: seq<string>)
    ensures |r| == |tags|
    ensures forall i :: 0 <= i < |tags| ==> r[i] == " " + tags[i]
  {
    if tags == [] then [] else [" " + tags[0]] + Spaced(tags[1..])
  }

  /** Splitting the joined tags at commas yields the first tag and every later tag with one leading space. */
  lemma {:induction false} SplitJoin(tags: seq<string>, cur: string)
    requires |tags| >= 1
    requires forall i :: 0 <= i < |tags| ==> ',' !in tags[i]
    ensures SplitFrom(Join(tags, ", "), ',', cur) == [cur + tags[0]] + Spaced(tags[1..])
  {
    if |tags| == 1 {
      SplitFromPlain(tags[0], ',', cur);
      assert tags[1..] == [];
    } else {
      var rest := tags[1..];
      var tail := Join(rest, ", ");
      assert Join(tags, ", ") == tags[0] + [','] + (" " + tail);
      SplitFromPiece(tags[0], ',', " " + tail, cur);
      assert (" " + tail)[0] == ' ' && (" " + tail)[1..] == tail;
      assert "" + [' '] == " ";
      assert SplitFrom(" " + tail, ',', "") == SplitFrom(tail, ',', " ");
      SplitJoin(rest, " ");
      assert Spaced(rest) == [" " + rest[0]] + Spaced(rest[1..]);
    }
  }

  /** The joined text of at least one non-empty tag is not empty. */
  lemma JoinNotEmpty(tags: seq<string>)
    requires |tags| >= 1 && tags[0] != ""
    ensures Join(tags, ", ") != ""
  {
    if |tags| > 1 {
      assert Join(tags, ", ") == tags[0] + ", " + Join(tags[1..], ", ");
    }
  }

  /** Trimming the split pieces of joined tags gives the tags back. */
  lemma TrimAllSpaced(tags: seq<string>)
    requires |tags| >= 1 && WellFormedTags(tags)
    ensures TrimAll([tags[0]] + Spaced(tags[1..])) == tags
  {
    var pieces := [tags[0]] + Spaced(tags[1..]);
    var trimmed := TrimAll(pieces);
    forall i | 0 <= i < |tags| ensures trimmed[i] == tags[i] {
      if i == 0 {
        TrimOfTrimmed(tags[0]);
      } else {
        assert pieces[i] == " " + tags[i];
        TrimLeadingSpace(tags[i]);
      }
    }
  }

  /** Parsing the text the form shows for stored tags gives the same tags back. */
  lemma ParseTagsOfJoin(tags: seq<string>)
    requires WellFormedTags(tags)
    ensures ParseTags(Join(tags, ", ")) == tags
  {
    if tags != [] {
      var s := Join(tags, ", ");
      JoinNotEmpty(tags);
      SplitJoin(tags, "");
      assert "" + tags[0] == tags[0];
      assert Split(s, ',') == [tags[0]] + Spaced(tags[1..]);
      TrimAllSpaced(tags);
      NonEmptyOfNonEmpty(tags);
    }
  }

  /** The bandolero the form saves: the draft's fields, a fresh id if it has none, the default colour if none. */
  function FromDraft(d: Draft, freshId: string): (b: Bandolero)
    ensures b.id == (if d.id != "" then d.id else freshId)
    ensures b.name == d.name && b.rating == d.rating && b.image == d.image
    ensures b.notes == d.notes && b.origin == d.origin
    ensures b.themeColor == (if d.themeColor != "" then d.themeColor else DefaultThemeColor)
    ensures b.themeColor != ""
    ensures b.favoriteQuote == d.favoriteQuote && b.personality == d.personality && b.style == d.style
    ensures b.topics == d.topics && b.appearanceDescription == d.appearanceDescription
    ensures b.tags == ParseTags(d.tagsString)
  {
    Bandolero(
      if d.id != "" then d.id else freshId,
      d.name,
      d.rating,
      d.image,
      d.notes,
      d.origin,
      ParseTags(d.tagsString),
      if d.themeColor != "" then d.themeColor else DefaultThemeColor,
      d.favoriteQuote,
      d.personality,
      d.style,
      d.topics,
      d.appearanceDescription)
  }

  /** What a save stores: an id, a name, a rating, a colour, and well-formed tags. */
  predicate Stored(b: Bandolero)
  {
    b.id != "" && b.name != "" && b.rating != 0 && b.themeColor != "" && WellFormedTags(b.tags)
  }

  /** Every bandolero a save accepts, given a non-empty fresh id, is in stored form. */
  lemma FromDraftStored(d: Draft, freshId: string)
    requires d.name != "" && d.rating != 0 && freshId != ""
    ensures Stored(FromDraft(d, freshId))
  {
  }

  /** Opening the form on a stored bandolero and saving it unchanged yields the same bandolero. */
  lemma FromEditDraft(b: Bandolero, freshId: string)
    requires Stored(b)
    ensures FromDraft(EditDraft(b), freshId) == b
  {
    ParseTagsOfJoin(b.tags);
  }

  /**
   * Insert or replace by id: when some bandolero has the id of `b`, every such
   * one is replaced by `b` in place; otherwise `b` is appended.
   */
  function Upsert(bs: seq<Bandolero>, b: Bandolero): (r: seq<Bandolero>)
    ensures HasKey(bs, BandoleroId, b.id) ==>
      |r| == |bs| && forall i :: 0 <= i < |bs| ==> r[i] == (if bs[i].id == b.id then b else bs[i])
    ensures !HasKey(bs, BandoleroId, b.id) ==> r == bs + [b]
    ensures b in r
    ensures UniqueKeys(bs, BandoleroId) ==> UniqueKeys(r, BandoleroId)
  {
    if HasKey(bs, BandoleroId, b.id) then ReplaceByKey(bs, BandoleroId, b)
    else
      assert forall i :: 0 <= i < |bs| ==> (bs + [b])[i] == bs[i];
      bs + [b]
  }

  /** `handleSave`: nothing without a name and a rating; otherwise upsert the bandolero built from the form. */
  function Save(bs: seq<Bandolero>, d: Draft, freshId: string): (r: seq<Bandolero>)
    ensures !(d.name != "" && d.rating != 0) ==> r == bs
    ensures d.name != "" && d.rating != 0 ==> r == Upsert(bs, FromDraft(d, freshId))
    ensures UniqueKeys(bs, BandoleroId) ==> UniqueKeys(r, BandoleroId)
  {
    if d.name != "" && d.rating != 0 then Upsert(bs, FromDraft(d, freshId)) else bs
  }

  /** `handleDelete`: drop every bandolero with that id, keeping the rest in order. */
  function Delete(bs: seq<Bandolero>, id: string): (r: seq<Bandolero>)
    ensures forall b :: b in r <==> b in bs && b.id != id
    ensures !HasKey(r, BandoleroId, id)
  {
    RemoveByKey(bs, BandoleroId, id)
  }

  /** Saving a stored bandolero's form unchanged leaves a list with unique ids as it was. */
  lemma SaveUnchangedIsNoop(bs: seq<Bandolero>, b: Bandolero, freshId: string)
    requires UniqueKeys(bs, BandoleroId) && b in bs && Stored(b)
    ensures Save(bs, EditDraft(b), freshId) == bs
  {
    FromEditDraft(b, freshId);
    var j :| 0 <= j < |bs| && bs[j] == b;
    assert BandoleroId(bs[j]) == b.id;
    ReplaceByKeyIdentity(bs, BandoleroId, b);
  }

  /** Adding a new bandolero under a fresh id and deleting that id gives the list back. */
  lemma DeleteUndoesAdd(bs: seq<Bandolero>, d: Draft, freshId: string)
    requires d.id == "" && d.name != "" && d.rating != 0
    requires !HasKey(bs, BandoleroId, freshId)
    ensures Delete(Save(bs, d, freshId), freshId) == bs
  {
    var b := FromDraft(d, freshId);
    RemoveByKeyConcat(bs, [b], BandoleroId, freshId);
    RemoveAbsentKey(bs, BandoleroId, freshId);
    assert RemoveByKey([b], BandoleroId, freshId) == [];
  }
}
