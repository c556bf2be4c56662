/** A player's sidebar (the Java `GameScoreboard`): a title and a list of
    rows, one per scoreboard team, each showing its prefix. The lines come
    from a line source outside this model and arrive as a parameter. A team
    is named after a chat colour code and is identified here by that colour's
    index; the Bukkit board refuses a second team of the same name. */
module Scoreboards {

  /** Rows the allocation loop is meant to create. */
  const RowCapacity: nat := 15

  /** A team registered for row `index` with sidebar score `score`. */
  datatype Allocation = Allocation(index: int, score: int)

  /** The positional write: row `i` takes line `i` while both exist, later rows
      keep their text, and lines beyond the last row are not written. */
  function Overwrite(rows: seq<string>, lines: seq<string>): (r: seq<string>)
    ensures |r| == |rows|
    ensures forall i :: 0 <= i < |r| ==> r[i] == (if i < |lines| then lines[i] else rows[i])
  {
    if |lines| <= |rows| then lines + rows[|lines|..] else lines[..|rows|]
  }

  /** `count` blank rows. */
  function BlankRows(count: nat): (r: seq<string>)
    ensures |r| == count && forall i :: 0 <= i < count ==> r[i] == ""
  {
    seq(count, i => "")
  }

  /** What the allocation loop plans when it reads the row count afresh
      each time round but never adds the row: the same index and score, 15 times. */
  function StuckAllocations(rowCount: nat): (a: seq<Allocation>)
    ensures |a| == RowCapacity
    ensures forall i :: 0 <= i < RowCapacity ==>
              a[i].index == rowCount && a[i].score == RowCapacity - rowCount
  {
    seq(RowCapacity, i => Allocation(rowCount, RowCapacity - rowCount))
  }

  /** What it plans when each new row is kept: indices counting up from
      the current row count, scores counting down. */
  function CountingAllocations(rowCount: nat): (a: seq<Allocation>)
    ensures |a| == RowCapacity
    ensures forall i :: 0 <= i < RowCapacity ==>
              a[i].index == rowCount + i && a[i].score == RowCapacity - (rowCount + i)
  {
    seq(RowCapacity, i => Allocation(rowCount + i, RowCapacity - (rowCount + i)))
  }

  /** From an empty board, the scores run 15 down to 1, one per row. */
  lemma CountingScoresFromEmpty()
    ensures forall i :: 0 <= i < RowCapacity ==>
              CountingAllocations(0)[i] == Allocation(i, 15 - i)
              && 1 <= CountingAllocations(0)[i].score <= 15
  {
  }

  /** The team names on the board, the teams this pass registered, and
      whether `registerNewTeam` threw. */
  datatype Registration = Registration(registered: set<int>, added: seq<Allocation>, failed: bool)

  function Indices(a: seq<Allocation>): set<int> {
    set k | 0 <= k < |a| :: a[k].index
  }

  /** `r` after `added` were registered in front of it. */
  function Prepend(added: seq<Allocation>, r: Registration): Registration {
    r.(added := added + r.added)
  }

  lemma IndicesCons(a: Allocation, rest: seq<Allocation>)
    ensures Indices([a] + rest) == {a.index} + Indices(rest)
  {
    var full := [a] + rest;
    assert full[0] == a;
    forall x | x in Indices(full) ensures x in {a.index} + Indices(rest) {
      var k :| 0 <= k < |full| && full[k].index == x;
      if k > 0 { assert rest[k - 1] == full[k]; }
    }
    forall x | x in Indices(rest) ensures x in Indices(full) {
      var k :| 0 <= k < |rest| && rest[k].index == x;
      assert full[k + 1] == rest[k];
    }
  }

  /** Registering the planned teams in order: `registerNewTeam` throws on
      the first name already on the board, and nothing after it runs. */
  function RegisterAll(registered: set<int>, planned: seq<Allocation>): Registration
    decreases |planned|
  {
    if planned == [] then Registration(registered, [], false)
    else if planned[0].index in registered then Registration(registered, [], true)
    else Prepend([planned[0]], RegisterAll(registered + {planned[0].index}, planned[1..]))
  }

  /** The teams added are a prefix of the plan; the pass stops short exactly
      when it throws, at a name already on the board; the board gains the
      names of the teams added. */
  lemma {:induction false} RegisterAllShape(registered: set<int>, planned: seq<Allocation>)
    ensures var r := RegisterAll(registered, planned);
            && |r.added| <= |planned| && r.added == planned[..|r.added|]
            && (r.failed <==> |r.added| < |planned|)
            && (r.failed ==> planned[|r.added|].index in r.registered)
            && r.registered == registered + Indices(r.added)
    decreases |planned|
  {
    if planned != [] && planned[0].index !in registered {
      var rest := RegisterAll(registered + {planned[0].index}, planned[1..]);
      RegisterAllShape(registered + {planned[0].index}, planned[1..]);
      IndicesCons(planned[0], rest.added);
      assert planned[..1 + |rest.added|] == [planned[0]] + planned[1..][..|rest.added|];
    }
  }

  /** One pass of the loop: a name already on the board throws at once;
      otherwise the team is registered and the loop goes on. */
  lemma RegisterUnfold(registered: set<int>, planned: seq<Allocation>, i: nat)
    requires i < |planned|
    ensures planned[i].index in registered ==>
              RegisterAll(registered, planned[i..]) == Registration(registered, [], true)
    ensures planned[i].index !in registered ==>
              RegisterAll(registered, planned[i..]) ==
              Prepend([planned[i]], RegisterAll(registered + {planned[i].index}, planned[i + 1..]))
  {
    var tail := planned[i..];
    assert tail[0] == planned[i];
    assert tail[1..] == planned[i + 1..];
  }

  lemma PrependTwice(a: seq<Allocation>, b: seq<Allocation>, r: Registration)
    ensures Prepend(a, Prepend(b, r)) == Prepend(a + b, r)
  {
    assert a + (b + r.added) == (a + b) + r.added;
  }

  /** As written the loop registers the same name twice, so it always throws
      on its second pass at the latest, having added one team at most. */
  lemma StuckRegistersOnceThenFails(registered: set<int>, rowCount: nat)
    ensures RegisterAll(registered, StuckAllocations(rowCount)) ==
            if rowCount in registered then Registration(registered, [], true)
            else Registration(registered + {rowCount}, [Allocation(rowCount, RowCapacity - rowCount)], true)
  {
    var planned := StuckAllocations(rowCount);
    if rowCount !in registered {
      var tail := planned[1..];
      assert tail[0].index == rowCount;
      assert RegisterAll(registered + {rowCount}, tail) == Registration(registered + {rowCount}, [], true);
    }
  }

  /** Teams with distinct names not yet on the board are all registered. */
  lemma {:induction false} RegisterFresh(registered: set<int>, planned: seq<Allocation>)
    requires forall k :: 0 <= k < |planned| ==> planned[k].index !in registered
    requires forall j, k :: 0 <= j < k < |planned| ==> planned[j].index != planned[k].index
    ensures RegisterAll(registered, planned) == Registration(registered + Indices(planned), planned, false)
    decreases |planned|
  {
    if planned != [] {
      var tail := planned[1..];
      forall k | 0 <= k < |tail| ensures tail[k].index !in registered + {planned[0].index} {
        assert tail[k] == planned[k + 1];
      }
      forall j, k | 0 <= j < k < |tail| ensures tail[j].index != tail[k].index {
        assert tail[j] == planned[j + 1] && tail[k] == planned[k + 1];
      }
      RegisterFresh(registered + {planned[0].index}, tail);
      assert [planned[0]] + tail == planned;
    }
  }

  /** With the rows kept, a board whose next 15 colour names are free gets
      all 15 teams. */
  lemma CountingRegistersAll(registered: set<int>, rowCount: nat)
    requires forall i :: rowCount <= i < rowCount + RowCapacity ==> i !in registered
    ensures var r := RegisterAll(registered, CountingAllocations(rowCount));
            !r.failed && r.added == CountingAllocations(rowCount)
  {
    var planned := CountingAllocations(rowCount);
    forall k | 0 <= k < |planned| ensures planned[k].index !in registered {
      assert planned[k].index == rowCount + k;
    }
    RegisterFresh(registered, planned);
  }

  /** Why an update stopped: not at all, at a team name already on the
      board, or at a line without a row (`IndexOutOfBoundsException`). */
  datatype Fault = NoFault | DuplicateTeam | LineWithoutRow

  class GameScoreboard {
    /** The objective's display name. */
    var title: string
    /** The prefixes of `scoreboardTeams`, by position. */
    var rows: seq<string>
    /** Colour indices of the team names on the Bukkit board. */
    var registered: set<int>
    /** Teams this board registered, with their sidebar scores, in order. */
    ghost var allocations: seq<Allocation>

    /** A board over a Bukkit scoreboard that already holds the teams `teams`. */
    constructor (teams: set<int>)
      ensures title == "" && rows == [] && registered == teams && allocations == []
    {
      title, rows, registered := "", [], teams;
      allocations := [];
    }

    /** The allocation loop as written: it reads `scoreboardTeams.size()` for
        the index each time round and never adds the team it registers. */
    method AllocateRows() returns (duplicate: bool)
      modifies this`registered, this`allocations
      ensures var r := RegisterAll(old(registered), StuckAllocations(|rows|));
              registered == r.registered && allocations == old(allocations) + r.added
              && duplicate == r.failed
    {
      ghost var planned := StuckAllocations(|rows|);
      ghost var added: seq<Allocation> := [];
      for i := 0 to RowCapacity
        invariant allocations == old(allocations) + added
        invariant RegisterAll(old(registered), planned) == Prepend(added, RegisterAll(registered, planned[i..]))
      {
        var index := |rows|;
        var score := RowCapacity - index;
        assert planned[i] == Allocation(index, score);
        RegisterUnfold(registered, planned, i);
        if index in registered {
          return true;
        }
        PrependTwice(added, [planned[i]], RegisterAll(registered + {index}, planned[i + 1..]));
        registered := registered + {index};
        allocations := allocations + [Allocation(index, score)];
        added := added + [planned[i]];
      }
      return false;
    }

    /** The loop with the team kept: each registered team becomes a blank row. */
    method AllocateRowsIntended() returns (duplicate: bool)
      modifies this`rows, this`registered, this`allocations
      ensures var r := RegisterAll(old(registered), CountingAllocations(|old(rows)|));
              registered == r.registered && allocations == old(allocations) + r.added
              && rows == old(rows) + BlankRows(|r.added|) && duplicate == r.failed
    {
      ghost var planned := CountingAllocations(|rows|);
      ghost var added: seq<Allocation> := [];
      for i := 0 to RowCapacity
        invariant |added| == i && rows == old(rows) + BlankRows(i)
        invariant allocations == old(allocations) + added
        invariant RegisterAll(old(registered), planned) == Prepend(added, RegisterAll(registered, planned[i..]))
      {
        var index := |rows|;
        var score := RowCapacity - index;
        assert planned[i] == Allocation(index, score);
        RegisterUnfold(registered, planned, i);
        if index in registered {
          return true;
        }
        PrependTwice(added, [planned[i]], RegisterAll(registered + {index}, planned[i + 1..]));
        registered := registered + {index};
        allocations := allocations + [Allocation(index, score)];
        added := added + [planned[i]];
        rows := rows + [""];
        assert BlankRows(i + 1) == BlankRows(i) + [""];
      }
      assert planned[RowCapacity..] == [];
      assert added + [] == added;
      return false;
    }

    /** The write loop: `scoreboardTeams.get(i).prefix(lines.get(i))` for each
        line; `outOfBounds` is the exception `get` throws at the first line
        without a row, after the rows before it have been written. */
    method WriteLines(lines: seq<string>) returns (outOfBounds: bool)
      modifies this`rows
      ensures rows == Overwrite(old(rows), lines)
      ensures outOfBounds <==> |lines| > |old(rows)|
    {
      var i := 0;
      while i < |lines|
        invariant 0 <= i <= |lines| && i <= |rows|
        invariant |rows| == |old(rows)|
        invariant forall k :: 0 <= k < |rows| ==> rows[k] == if k < i then lines[k] else old(rows)[k]
      {
        if i >= |rows| {
          return true;
        }
        rows := rows[i := lines[i]];
        i := i + 1;
      }
      return false;
    }

    /** `update`: set the title, allocate rows when there are none (an
        exception there ends the update), then write the lines. */
    method Update(displayName: string, lines: seq<string>) returns (fault: Fault)
      modifies this`title, this`rows, this`registered, this`allocations
      ensures title == displayName
      ensures var empty := old(rows) == [];
              var r := RegisterAll(old(registered), StuckAllocations(0));
              && registered == (if empty then r.registered else old(registered))
              && allocations == old(allocations) + (if empty then r.added else [])
              && (empty && r.failed ==> fault == DuplicateTeam && rows == old(rows))
              && (!(empty && r.failed) ==>
                    rows == Overwrite(old(rows), lines)
                    && (fault == LineWithoutRow <==> |lines| > |old(rows)|)
                    && (fault == NoFault <==> |lines| <= |old(rows)|))
    {
      title := displayName;
      if rows == [] {
        var duplicate := AllocateRows();
        if duplicate {
          return DuplicateTeam;
        }
      }
      var outOfBounds := WriteLines(lines);
      fault := if outOfBounds then LineWithoutRow else NoFault;
    }

    /** `update` with the allocation loop keeping its rows. */
    method UpdateIntended(displayName: string, lines: seq<string>) returns (fault: Fault)
      modifies this`title, this`rows, this`registered, this`allocations
      ensures title == displayName
      ensures var empty := old(rows) == [];
              var r := RegisterAll(old(registered), CountingAllocations(0));
              var laidOut := if empty then BlankRows(|r.added|) else old(rows);
              && registered == (if empty then r.registered else old(registered))
              && allocations == old(allocations) + (if empty then r.added else [])
              && (empty && r.failed ==> fault == DuplicateTeam && rows == laidOut)
              && (!(empty && r.failed) ==>
                    rows == Overwrite(laidOut, lines)
                    && (fault == LineWithoutRow <==> |lines| > |laidOut|)
                    && (fault == NoFault <==> |lines| <= |laidOut|))
    {
      title := displayName;
      if rows == [] {
        var duplicate := AllocateRowsIntended();
        if duplicate {
          return DuplicateTeam;
        }
      }
      var outOfBounds := WriteLines(lines);
      fault := if outOfBounds then LineWithoutRow else NoFault;
    }
  }

  /** As written, a new board over an empty Bukkit scoreboard throws inside
      the allocation loop on every update, whatever the lines: the first pass
      registers the team for row 0, the second tries that name again, and no
      row is ever created. */
  method FirstUpdates(displayName: string, lines: seq<string>)
    returns (first: Fault, second: Fault, shown: seq<string>)
    ensures first == DuplicateTeam && second == DuplicateTeam
    ensures shown == []
  {
    var board := new GameScoreboard({});
    StuckRegistersOnceThenFails({}, 0);
    first := board.Update(displayName, lines);
    assert board.allocations == [Allocation(0, 15)];
    StuckRegistersOnceThenFails({0}, 0);
    second := board.Update(displayName, lines);
    shown := board.rows;
  }

  /** With the rows kept, the first update registers 15 teams, shows up to
      15 lines, pads the rest of the board with blank rows and fails only
      beyond 15 lines; the second finds the rows and registers nothing. */
  method FirstUpdateIntended(displayName: string, lines: seq<string>)
    returns (fault: Fault, shown: seq<string>)
    ensures fault == (if |lines| > RowCapacity then LineWithoutRow else NoFault)
    ensures |shown| == RowCapacity
    ensures forall i :: 0 <= i < RowCapacity ==> shown[i] == if i < |lines| then lines[i] else ""
  {
    var board := new GameScoreboard({});
    CountingRegistersAll({}, 0);
    fault := board.UpdateIntended(displayName, lines);
    shown := board.rows;
  }
}
