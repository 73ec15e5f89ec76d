/**
 * The new-chat dialog: a selection of bandolero ids (toggled one by one with
 * `Common.Toggle`) and the bandoleros handed to the chat screen on create.
 */
module NewChat {
  import opened Common
  import opened Entities

  /** `bandoleros.filter(b => selectedIds.includes(b.id))`: the selected bandoleros, in list order. */
  function Chosen(bs: seq<Bandolero>, selected: seq<string>): (r: seq<Bandolero>)
    ensures |r| <= |bs|
    ensures forall b :: b in r <==> b in bs && b.id in selected
    ensures UniqueKeys(bs, BandoleroId) ==> UniqueKeys(r, BandoleroId)
  {
    if bs == [] then []
    else
      var rest := Chosen(bs[1..], selected);
      assert forall b :: b in bs <==> b == bs[0] || b in bs[1..];
      assert UniqueKeys(bs, BandoleroId) ==> UniqueKeys(bs[1..], BandoleroId) && forall b :: b in bs[1..] ==> b.id != bs[0].id by {
        if UniqueKeys(bs, BandoleroId) {
          forall i, j | 0 <= i < j < |bs[1..]| ensures BandoleroId(bs[1..][i]) != BandoleroId(bs[1..][j]) {
            assert bs[1..][i] == bs[i + 1] && bs[1..][j] == bs[j + 1];
          }
          forall b | b in bs[1..] ensures b.id != bs[0].id {
            var k :| 0 <= k < |bs[1..]| && bs[1..][k] == b;
            assert BandoleroId(bs[0]) != BandoleroId(bs[k + 1]);
          }
        }
      }
      if bs[0].id in selected then [bs[0]] + rest else rest
  }

  /** The chosen bandoleros keep the list order: the filter distributes over concatenation. */
  lemma {:induction false} ChosenConcat(a: seq<Bandolero>, b: seq<Bandolero>, selected: seq<string>)
    ensures Chosen(a + b, selected) == Chosen(a, selected) + Chosen(b, selected)
  {
    if a == [] {
      assert a + b == b;
    } else {
      assert (a + b)[1..] == a[1..] + b;
      ChosenConcat(a[1..], b, selected);
    }
  }

  /** The dialog's state after create: the bandoleros handed over and an emptied selection. */
  datatype Created = Created(chosen: seq<Bandolero>, selection: seq<string>)

  /** `handleCreate`: hand over the selected bandoleros and clear the selection. */
  function Create(bs: seq<Bandolero>, selected: seq<string>): (r: Created)
    ensures r.selection == []
    ensures forall b :: b in r.chosen <==> b in bs && b.id in selected
  {
    Created(Chosen(bs, selected), [])
  }

  /** The ids of a list of bandoleros. */
  function Ids(bs: seq<Bandolero>): (r: seq<string>)
    ensures |r| == |bs|
    ensures forall i :: 0 <= i < |bs| ==> r[i] == bs[i].id
  {
    if bs == [] then [] else [bs[0].id] + Ids(bs[1..])
  }

  /** A duplicate-free list has as many distinct elements as it has elements. */
  lemma {:induction false} DistinctCount(s: seq<string>)
    requires NoDup(s)
    ensures |set x | x in s| == |s|
  {
    if s != [] {
      var rest := s[1..];
      assert NoDup(rest) by {
        forall i, j | 0 <= i < j < |rest| ensures rest[i] != rest[j] {
          assert rest[i] == s[i + 1] && rest[j] == s[j + 1];
        }
      }
      DistinctCount(rest);
      assert s[0] !in rest by {
        forall k | 0 <= k < |rest| ensures rest[k] != s[0] {
          assert rest[k] == s[k + 1];
        }
      }
      assert (set x | x in s) == (set x | x in rest) + {s[0]};
    }
  }

  /**
   * With unique bandolero ids and a duplicate-free selection of existing ids,
   * exactly one bandolero per selected id is handed over.
   */
  lemma ChosenCount(bs: seq<Bandolero>, selected: seq<string>)
    requires UniqueKeys(bs, BandoleroId) && NoDup(selected)
    requires forall x :: x in selected ==> HasKey(bs, BandoleroId, x)
    ensures |Chosen(bs, selected)| == |selected|
  {
    var chosen := Chosen(bs, selected);
    var ids := Ids(chosen);
    assert NoDup(ids) by {
      forall i, j | 0 <= i < j < |ids| ensures ids[i] != ids[j] {
        assert BandoleroId(chosen[i]) != BandoleroId(chosen[j]);
      }
    }
    assert (set x | x in ids) == (set x | x in selected) by {
      forall x ensures x in ids <==> x in selected {
        if x in ids {
          var i :| 0 <= i < |ids| && ids[i] == x;
          assert chosen[i] in chosen;
        }
        if x in selected {
          var k :| 0 <= k < |bs| && BandoleroId(bs[k]) == x;
          assert bs[k] in chosen;
          var i :| 0 <= i < |chosen| && chosen[i] == bs[k];
          assert ids[i] == x;
        }
      }
    }
    DistinctCount(ids);
    DistinctCount(selected);
  }
}
