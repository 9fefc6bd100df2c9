/** Routing rules of the topology validator, and what a completed rotation means for them. */
module Validator {
  import opened Ring
  import opened Cells
  import opened Rotation

  function ChannelsWith(cells: seq<Cell>, status: Status): (r: set<int>)
    ensures forall ch :: ch in r <==> ch != 0 && exists i :: 0 <= i < |cells| && cells[i].status == status && cells[i].channel == ch
  {
    set i | 0 <= i < |cells| && cells[i].status == status && cells[i].channel != 0 :: cells[i].channel
  }

  /** Rule 1, second half: two active cells in one group. */
  ghost predicate SeveralActive(cells: seq<Cell>, key: string) {
    exists i, j :: IsActive(cells, i) && IsActive(cells, j) && i != j &&
      GroupKey(cells[i].slot) == Some(key) && GroupKey(cells[j].slot) == Some(key)
  }

  /** Rule 3: a pointer at a lost channel. */
  predicate PointsAtLost(cells: seq<Cell>, i: int) {
    0 <= i < |cells| && cells[i].next != 0 && cells[i].next in ChannelsWith(cells, Lost)
  }

  /** Rule 4: an active cell must point at an active channel; a lone active channel may point nowhere. */
  predicate OffRing(cells: seq<Cell>, i: int) {
    IsActive(cells, i) &&
    if cells[i].next == 0 then |ChannelsWith(cells, Active)| > 1 else cells[i].next !in ChannelsWith(cells, Active)
  }

  /** Groups in which rule 1 finds several active cells. */
  method SeveralActiveGroups(cells: seq<Cell>) returns (several: set<string>)
    ensures forall key :: key in several <==> SeveralActive(cells, key)
  {
    several := {};
    var first: map<string, int> := map[];  // group -> its first active row
    for n := 0 to |cells|
      invariant Counted(cells, n, first, several)
    {
      var key := GroupKey(cells[n].slot);
      if cells[n].status == Active && key.Some? {
        if key.value in first {
          assert IsActive(cells, n) && IsActive(cells, first[key.value]);
          several := several + {key.value};
        } else {
          first := first[key.value := n];
        }
      }
    }
    assert forall key :: SeveralActive(cells, key) ==> key in several by {
      CountedAll(cells, first, several);
    }
  }

  /** The first active row of every group among the first n rows, and the groups that have another. */
  ghost predicate Counted(cells: seq<Cell>, n: nat, first: map<string, int>, several: set<string>) {
    && (forall key :: key in first ==> first[key] < n && IsActive(cells, first[key]) && GroupKey(cells[first[key]].slot) == Some(key))
    && (forall key :: key in several ==> SeveralActive(cells, key))
    && (forall i :: i < n && IsActive(cells, i) && GroupKey(cells[i].slot).Some? ==>
      GroupKey(cells[i].slot).value in first && (i == first[GroupKey(cells[i].slot).value] || GroupKey(cells[i].slot).value in several))
  }

  lemma CountedAll(cells: seq<Cell>, first: map<string, int>, several: set<string>)
    requires Counted(cells, |cells|, first, several)
    ensures forall key :: SeveralActive(cells, key) ==> key in several
  {
  }

  method RowsPointingAtLost(cells: seq<Cell>) returns (rows: seq<int>)
    ensures forall i :: i in rows <==> PointsAtLost(cells, i)
    ensures forall i :: i in rows <==>
      0 <= i < |cells| && cells[i].next != 0 && exists j :: 0 <= j < |cells| && cells[j].status == Lost && cells[j].channel == cells[i].next
  {
    var lostChannels := ChannelsWith(cells, Lost);
    rows := [];
    for n := 0 to |cells|
      invariant forall i :: i in rows <==> i < n && PointsAtLost(cells, i)
    {
      if cells[n].next != 0 && cells[n].next in lostChannels {
        rows := rows + [n];
      }
    }
  }

  method RowsOffRing(cells: seq<Cell>) returns (rows: seq<int>)
    ensures forall i :: i in rows <==> OffRing(cells, i)
  {
    var activeChannels := ChannelsWith(cells, Active);
    rows := [];
    for n := 0 to |cells|
      invariant forall i :: i in rows <==> i < n && OffRing(cells, i)
    {
      if cells[n].status != Active {
        continue;
      }
      if cells[n].next == 0 {
        if |activeChannels| > 1 {
          rows := rows + [n];
        }
        continue;
      }
      if cells[n].next !in activeChannels {
        rows := rows + [n];
      }
    }
  }

  /** Rule 1 reports no group with several active cells exactly in the states rotation preserves. */
  lemma SeveralActiveNever(cells: seq<Cell>)
    ensures AtMostOneActive(cells) <==> forall key :: !SeveralActive(cells, key)
  {
    if !AtMostOneActive(cells) {
      var i, j :| IsActive(cells, i) && IsActive(cells, j) && i != j &&
        GroupKey(cells[i].slot).Some? && GroupKey(cells[i].slot) == GroupKey(cells[j].slot);
      assert SeveralActive(cells, GroupKey(cells[i].slot).value);
    }
  }

  /** In a ring every active cell points at an active channel. */
  lemma {:induction false} RingPointsInside(cells: seq<Cell>, i: int)
    requires OneRing(cells) && DistinctChannels(cells, ActiveIndices(cells)) && IsActive(cells, i)
    ensures cells[i].next in ChannelsOf(cells, ActiveIndices(cells))
  {
    assert i in ActiveIndices(cells);
    assert NextOf(cells, cells[i].channel) == cells[i].next by {
      assert forall j :: IsActive(cells, j) ==> j in ActiveIndices(cells) && ChannelOf(cells, j) == cells[j].channel;
      NextOfActive(cells, i);
    }
    RingClosed(ch => NextOf(cells, ch), ChannelsOf(cells, ActiveIndices(cells)), cells[i].channel);
  }

  lemma RingClosed(next: int -> int, members: set<int>, x: int)
    requires SingleCycle(next, members) && x in members
    ensures next(x) in members
  {
  }

  /** After a rebuild rule 4 reports nothing unless there is a single active cell, whose pointer the
      rebuild does not touch, and that pointer leads somewhere other than to the cell itself. */
  lemma RuleFourAfterRotation(cells: seq<Cell>)
    requires forall i :: IsActive(cells, i) ==> cells[i].channel != 0
    requires DistinctChannels(cells, ActiveIndices(cells))
    requires |ActiveIndices(cells)| >= 2 ==> OneRing(cells)
    ensures (forall i :: !OffRing(cells, i)) <==>
      !(|ActiveIndices(cells)| == 1 && PointerOf(cells, ActiveIndices(cells)[0]) !in {0, ChannelOf(cells, ActiveIndices(cells)[0])})
  {
    var rows := ActiveIndices(cells);
    if |rows| >= 2 {
      forall i | IsActive(cells, i)
        ensures !OffRing(cells, i)
      {
        RingPointsInside(cells, i);
        var j :| j in rows && ChannelOf(cells, j) == cells[i].next;
        assert IsActive(cells, j) && cells[j].channel != 0;
      }
    } else if |rows| == 1 {
      assert rows[0] in rows;
      assert forall i :: IsActive(cells, i) ==> i in rows && i == rows[0];
      LoneActiveChannel(cells, rows[0]);
      assert OffRing(cells, rows[0]) <==> cells[rows[0]].next !in {0, cells[rows[0]].channel};
    } else {
      assert forall i :: IsActive(cells, i) ==> i in rows;
    }
  }

  lemma LoneActiveChannel(cells: seq<Cell>, lone: int)
    requires IsActive(cells, lone) && cells[lone].channel != 0 && forall i :: IsActive(cells, i) ==> i == lone
    ensures ChannelsWith(cells, Active) == {cells[lone].channel}
  {
    assert forall ch :: ch in ChannelsWith(cells, Active) ==> ch == cells[lone].channel by {
      forall ch | ch in ChannelsWith(cells, Active)
        ensures ch == cells[lone].channel
      {
        var i :| 0 <= i < |cells| && cells[i].status == Active && cells[i].channel == ch;
        assert IsActive(cells, i);
      }
    }
  }

  /** In a ring no active cell points at a lost channel. */
  lemma RingAvoidsLost(cells: seq<Cell>, i: int)
    requires forall j, k :: 0 <= j < k < |cells| ==> cells[j].channel != cells[k].channel
    requires OneRing(cells) && IsActive(cells, i)
    ensures !PointsAtLost(cells, i)
  {
    RingPointsInside(cells, i);
    var j :| j in ActiveIndices(cells) && ChannelOf(cells, j) == cells[i].next;
    assert IsActive(cells, j);
  }
}
