/** The arena (the Java `GameArena`): the roster of joined players, the
    subset still competing, the gate on new joins, and the ordered list of
    phases with a current one. What the arena does to players outside its own
    fields (chat, teleport, hooks on the player) is recorded in a ghost log. */
module Arenas {
  import opened Templates
  import States

  /** A player, compared by identity; only its display name is read here. */
  datatype Player = Player(id: nat, displayName: string)

  /** The rejection notice (sent as a coloured component; the colour is not modelled). */
  const RefusalText: string := "Sorry, this game isn't accepting new players right now!"

  /** One outbound effect on a player. */
  datatype Effect =
    | Message(to: Player, text: string)   // GamePlayer.sendMessage
    | BoardCreated(player: Player)        // ArenaScoreboardManager.createBoardForPlayer
    | ManagerAdded(player: Player)        // GameManager.addPlayer
    | Teleported(player: Player)          // teleport to the pre-game location
    | Joined(player: Player)              // GamePlayer.onJoin
    | ArenaBound(player: Player)          // GamePlayer.setArena

  /** The roster part of the arena's fields. */
  datatype Roster = Roster(players: seq<Player>, active: seq<Player>, allowNew: bool)

  /** The roster after an operation and the effects it had, in order. */
  datatype Outcome = Outcome(roster: Roster, effects: seq<Effect>)

  /** `List.indexOf`: the first position of `x`, or -1. */
  function IndexOf(s: seq<Player>, x: Player): (k: int)
    ensures -1 <= k < |s|
    ensures k >= 0 ==> s[k] == x && x !in s[..k]
    ensures k < 0 <==> x !in s
    decreases |s|
  {
    if s == [] then -1
    else if s[0] == x then 0
    else
      var k := IndexOf(s[1..], x);
      assert k >= 0 ==> s[..k + 1] == [s[0]] + s[1..][..k];
      if k < 0 then -1 else k + 1
  }

  /** `r` is `s` without its first occurrence of `x`, the rest in order;
      `s` itself when `x` does not occur. */
  predicate RemovedFirst(s: seq<Player>, x: Player, r: seq<Player>) {
    if x in s then exists k :: 0 <= k < |s| && s[k] == x && x !in s[..k] && r == s[..k] + s[k + 1..]
    else r == s
  }

  /** `List.remove(Object)`: drops the first occurrence, if any. */
  function RemoveFirst(s: seq<Player>, x: Player): (r: seq<Player>)
    ensures RemovedFirst(s, x, r)
    ensures multiset(r) == multiset(s) - multiset{x}
    ensures x !in s ==> r == s
    ensures x in s ==> |r| == |s| - 1
  {
    var k := IndexOf(s, x);
    if k < 0 then s
    else
      assert s == s[..k] + [s[k]] + s[k + 1..];
      s[..k] + s[k + 1..]
  }

  /** `sendMessage`: the text, to every element of the list, in list order. */
  function Broadcast(to: seq<Player>, text: string): (effects: seq<Effect>)
    ensures |effects| == |to|
    ensures forall i :: 0 <= i < |to| ==> effects[i] == Message(to[i], text)
    decreases |to|
  {
    if to == [] then [] else [Message(to[0], text)] + Broadcast(to[1..], text)
  }

  /** The admission guard as written: a closed arena refuses only while it is
      below capacity. */
  predicate Refused(allowNew: bool, size: nat, max: int) {
    !allowNew && !(size >= max)
  }

  /** The guard inferred from the rest of `addPlayer`: its last line sets
      the gate to "below capacity", and the written guard reads as a slip for
      `!(allowNew && size < max)`: refuse when closed or already full. */
  predicate RefusedIntended(allowNew: bool, size: nat, max: int) {
    !allowNew || size >= max
  }

  /** The accepted path of `addPlayer`. */
  function Admit(r: Roster, p: Player, max: int, template: string): Outcome {
    var players := r.players + [p];
    var text := Fill(template, p.displayName, |players|, max);
    Outcome(Roster(players, r.active + [p], max > |players|),
            [BoardCreated(p), ManagerAdded(p)] + Broadcast(players, text)
            + [Teleported(p), Joined(p), ArenaBound(p)])
  }

  /** The effects of an accepted join, appended to a log piece by piece. */
  lemma AdmitLogs(before: seq<Effect>, r: Roster, p: Player, max: int, template: string,
                  text: string, heard: seq<Effect>)
    requires text == Fill(template, p.displayName, |r.players| + 1, max)
    requires heard == Broadcast(r.players + [p], text)
    ensures before + [BoardCreated(p), ManagerAdded(p)] + heard + [Teleported(p), Joined(p), ArenaBound(p)]
            == before + Admit(r, p, max, template).effects
  {
  }

  function Join(r: Roster, p: Player, max: int, template: string): Outcome {
    if Refused(r.allowNew, |r.players|, max) then Outcome(r, [Message(p, RefusalText)])
    else Admit(r, p, max, template)
  }

  function JoinIntended(r: Roster, p: Player, max: int, template: string): Outcome {
    if RefusedIntended(r.allowNew, |r.players|, max) then Outcome(r, [Message(p, RefusalText)])
    else Admit(r, p, max, template)
  }

  function Leave(r: Roster, p: Player, max: int, template: string): Outcome {
    var players := RemoveFirst(r.players, p);
    Outcome(Roster(players, RemoveFirst(r.active, p), r.allowNew),
            Broadcast(players, Fill(template, p.displayName, |players|, max)))
  }

  function RemoveActive(r: Roster, p: Player): Roster {
    r.(active := RemoveFirst(r.active, p))
  }

  /** The roster after one join, which does not depend on the join text. */
  function JoinRoster(r: Roster, p: Player, max: int, intended: bool): Roster {
    var refused := if intended then RefusedIntended(r.allowNew, |r.players|, max)
                   else Refused(r.allowNew, |r.players|, max);
    if refused then r else Roster(r.players + [p], r.active + [p], max > |r.players| + 1)
  }

  /** `JoinRoster` is the roster part of both joins, whatever the template. */
  lemma JoinRosterAgrees(r: Roster, p: Player, max: int, template: string)
    ensures Join(r, p, max, template).roster == JoinRoster(r, p, max, false)
    ensures JoinIntended(r, p, max, template).roster == JoinRoster(r, p, max, true)
  {
  }

  /** Every joiner in turn, with the guard as written or as intended. */
  function Joins(r: Roster, joiners: seq<Player>, max: int, intended: bool): Roster
    decreases |joiners|
  {
    if joiners == [] then r
    else Joins(JoinRoster(r, joiners[0], max, intended), joiners[1..], max, intended)
  }

  /** Every competing player is on the roster, counting repeats. */
  predicate ActiveWithinPlayers(r: Roster) {
    multiset(r.active) <= multiset(r.players)
  }

  /** `addPlayer` refuses, with only the notice and nothing else changed,
      exactly when the arena is closed and below capacity. */
  lemma JoinRefusesExactly(r: Roster, p: Player, max: int, template: string)
    ensures var o := Join(r, p, max, template);
            (o == Outcome(r, [Message(p, RefusalText)])) <==> (!r.allowNew && |r.players| < max)
  {
    if !Refused(r.allowNew, |r.players|, max) {
      var o := Join(r, p, max, template);
      assert |o.roster.players| == |r.players| + 1;
    }
  }

  /** An accepted join appends the player to both lists, announces the new
      count and the capacity to every roster member including the newcomer,
      then teleports it, and reopens the arena exactly while it is below
      capacity. */
  lemma JoinAdmits(r: Roster, p: Player, max: int, template: string)
    requires !Refused(r.allowNew, |r.players|, max)
    ensures var o := Join(r, p, max, template);
            var text := Fill(template, p.displayName, |r.players| + 1, max);
            && o.roster.players == r.players + [p]
            && o.roster.active == r.active + [p]
            && o.roster.allowNew == (|o.roster.players| < max)
            && (forall q :: q in o.roster.players ==> Message(q, text) in o.effects)
            && o.effects[2 + |o.roster.players|] == Teleported(p)
            && |o.effects| == |r.players| + 6
  {
    var o := Join(r, p, max, template);
    var text := Fill(template, p.displayName, |r.players| + 1, max);
    var b := Broadcast(o.roster.players, text);
    forall q | q in o.roster.players
      ensures Message(q, text) in o.effects
    {
      var i :| 0 <= i < |o.roster.players| && o.roster.players[i] == q;
      assert o.effects[2 + i] == b[i];
    }
  }

  /** `removePlayer` drops the first occurrence from both lists, announces the
      size after removal to those who remain, and leaves the gate alone. */
  lemma LeaveRemovesFirst(r: Roster, p: Player, max: int, template: string)
    ensures var o := Leave(r, p, max, template);
            && RemovedFirst(r.players, p, o.roster.players)
            && RemovedFirst(r.active, p, o.roster.active)
            && multiset(o.roster.players) == multiset(r.players) - multiset{p}
            && multiset(o.roster.active) == multiset(r.active) - multiset{p}
            && o.roster.allowNew == r.allowNew
            && (p in r.players ==> |o.roster.players| == |r.players| - 1)
            && o.effects == Broadcast(o.roster.players,
                                      Fill(template, p.displayName, |o.roster.players|, max))
  {
  }

  /** Joining, leaving and demoting a player keep the competing players
      within the roster. */
  lemma OperationsKeepActiveWithinPlayers(r: Roster, p: Player, max: int, template: string)
    requires ActiveWithinPlayers(r)
    ensures ActiveWithinPlayers(Join(r, p, max, template).roster)
    ensures ActiveWithinPlayers(JoinIntended(r, p, max, template).roster)
    ensures ActiveWithinPlayers(Leave(r, p, max, template).roster)
    ensures ActiveWithinPlayers(RemoveActive(r, p))
    ensures RemoveActive(r, p).players == r.players && RemoveActive(r, p).allowNew == r.allowNew
  {
    var a, ps := multiset(r.active), multiset(r.players);
    assert a - multiset{p} <= ps - multiset{p};
    assert a - multiset{p} <= ps;
  }

  /** As written, an arena at or over capacity admits every joiner whatever
      its gate says, so the roster grows past the capacity. */
  lemma {:induction false} FullArenaAdmitsAll(r: Roster, joiners: seq<Player>, max: int)
    requires |r.players| >= max
    ensures Joins(r, joiners, max, false).players == r.players + joiners
    ensures joiners != [] ==> !Joins(r, joiners, max, false).allowNew
    decreases |joiners|
  {
    if joiners == [] {
      assert r.players + joiners == r.players;
    } else {
      var next := JoinRoster(r, joiners[0], max, false);
      FullArenaAdmitsAll(next, joiners[1..], max);
      assert r.players + [joiners[0]] + joiners[1..] == r.players + joiners;
    }
  }

  /** With the intended guard, an arena that starts within capacity stays
      within it, whoever tries to join. */
  lemma {:induction false} IntendedJoinsRespectCapacity(r: Roster, joiners: seq<Player>, max: int)
    requires |r.players| <= max
    ensures |Joins(r, joiners, max, true).players| <= max
    decreases |joiners|
  {
    if joiners != [] {
      IntendedJoinsRespectCapacity(JoinRoster(r, joiners[0], max, true), joiners[1..], max);
    }
  }

  /** The two guards agree except on a full arena: as written a closed full
      arena admits, and an open one admits even when full. */
  lemma GuardsDisagreeOnlyWhenFull(allowNew: bool, size: nat, max: int)
    ensures Refused(allowNew, size, max) ==> RefusedIntended(allowNew, size, max)
    ensures RefusedIntended(allowNew, size, max) && !Refused(allowNew, size, max) <==> size >= max
  {
  }

  /** The arena, as the Java class holds it. Configuration that the
      constructor reads (names, capacities, templates) arrives as parameters. */
  class GameArena {
    const arenaName: string
    var minPlayers: int
    var maxPlayers: int
    var joinMessage: string
    var leaveMessage: string
    var allowNewPlayers: bool
    var currentGameState: States.GameState?
    var gameStates: seq<States.GameState>
    var players: seq<Player>
    var activePlayers: seq<Player>
    /** Effects on players so far, in order. */
    ghost var log: seq<Effect>

    function RosterOf(): Roster
      reads this
    {
      Roster(players, activePlayers, allowNewPlayers)
    }

    constructor (name: string, minPlayers: int, maxPlayers: int, joinMessage: string, leaveMessage: string)
      ensures arenaName == name && this.minPlayers == minPlayers && this.maxPlayers == maxPlayers
      ensures this.joinMessage == joinMessage && this.leaveMessage == leaveMessage
      ensures RosterOf() == Roster([], [], true)
      ensures currentGameState == null && gameStates == [] && log == []
    {
      arenaName := name;
      this.minPlayers, this.maxPlayers := minPlayers, maxPlayers;
      this.joinMessage, this.leaveMessage := joinMessage, leaveMessage;
      allowNewPlayers := true;
      currentGameState, gameStates := null, [];
      players, activePlayers := [], [];
      log := [];
    }

    method SendMessage(msg: string)
      modifies this`log
      ensures log == old(log) + Broadcast(players, msg)
    {
      ghost var before := log;
      for i := 0 to |players|
        invariant |log| == |before| + i
        invariant log[..|before|] == before
        invariant forall k :: 0 <= k < i ==> log[|before| + k] == Message(players[k], msg)
      {
        log := log + [Message(players[i], msg)];
      }
      assert log == before + Broadcast(players, msg);
    }

    method AddPlayer(p: Player)
      modifies this`players, this`activePlayers, this`allowNewPlayers, this`log
      ensures RosterOf() == Join(old(RosterOf()), p, maxPlayers, joinMessage).roster
      ensures log == old(log) + Join(old(RosterOf()), p, maxPlayers, joinMessage).effects
    {
      if !allowNewPlayers && !(|players| >= maxPlayers) {
        log := log + [Message(p, RefusalText)];
        return;
      }
      ghost var r0, before := RosterOf(), log;
      players := players + [p];
      activePlayers := activePlayers + [p];
      var text := Fill(joinMessage, p.displayName, |players|, maxPlayers);
      log := log + [BoardCreated(p), ManagerAdded(p)];
      ghost var mid := log;
      SendMessage(text);
      ghost var heard := Broadcast(players, text);
      log := log + [Teleported(p), Joined(p), ArenaBound(p)];
      allowNewPlayers := maxPlayers > |players|;
      AdmitLogs(before, r0, p, maxPlayers, joinMessage, text, heard);
    }

    method RemovePlayer(p: Player)
      modifies this`players, this`activePlayers, this`log
      ensures RosterOf() == Leave(old(RosterOf()), p, maxPlayers, leaveMessage).roster
      ensures log == old(log) + Leave(old(RosterOf()), p, maxPlayers, leaveMessage).effects
    {
      players := RemoveFirst(players, p);
      activePlayers := RemoveFirst(activePlayers, p);
      SendMessage(Fill(leaveMessage, p.displayName, |players|, maxPlayers));
    }

    method RemoveActivePlayer(p: Player)
      modifies this`activePlayers
      ensures RosterOf() == RemoveActive(old(RosterOf()), p)
    {
      activePlayers := RemoveFirst(activePlayers, p);
    }

    /** Appends a phase; the first one added becomes the current one. */
    method AddGameState(s: States.GameState)
      modifies this`gameStates, this`currentGameState
      ensures gameStates == old(gameStates) + [s]
      ensures currentGameState == if old(currentGameState) == null then s else old(currentGameState)
    {
      gameStates := gameStates + [s];
      if currentGameState == null {
        currentGameState := s;
      }
    }

    /** The first phase that has not ended, or null when all have. */
    method GetNextState() returns (next: States.GameState?)
      ensures next == null <==> forall i :: 0 <= i < |gameStates| ==> gameStates[i].ended
      ensures next != null ==>
                exists k :: 0 <= k < |gameStates| && gameStates[k] == next && !next.ended
                            && forall j :: 0 <= j < k ==> gameStates[j].ended
    {
      for i := 0 to |gameStates|
        invariant forall j :: 0 <= j < i ==> gameStates[j].ended
      {
        if !gameStates[i].ended {
          return gameStates[i];
        }
      }
      return null;
    }

    method SetCurrentGameState(s: States.GameState?)
      modifies this`currentGameState
      ensures currentGameState == s
    {
      currentGameState := s;
    }

    method SetAllowNewPlayers(allow: bool)
      modifies this`allowNewPlayers
      ensures allowNewPlayers == allow
    {
      allowNewPlayers := allow;
    }
  }

  /** The two-seat arena: A and B are admitted and the arena closes after B,
      yet C is admitted too, because the guard only refuses below capacity. */
  method TwoSeatArena(joinText: string, leaveText: string) returns (sizes: seq<nat>, gates: seq<bool>)
    ensures sizes == [1, 2, 3]
    ensures gates == [true, false, false]
  {
    var arena := new GameArena("duel", 1, 2, joinText, leaveText);
    var a, b, c := Player(1, "A"), Player(2, "B"), Player(3, "C");
    arena.AddPlayer(a);
    sizes, gates := [|arena.players|], [arena.allowNewPlayers];
    arena.AddPlayer(b);
    sizes, gates := sizes + [|arena.players|], gates + [arena.allowNewPlayers];
    arena.AddPlayer(c);
    sizes, gates := sizes + [|arena.players|], gates + [arena.allowNewPlayers];
  }

  /** A lobby that closes its gate while below capacity refuses the next joiner. */
  method ClosedLobbyRefuses(joinText: string, leaveText: string) returns (size: nat, open: bool)
    ensures size == 0 && !open
  {
    var arena := new GameArena("lobby", 1, 8, joinText, leaveText);
    arena.SetAllowNewPlayers(false);
    arena.AddPlayer(Player(1, "A"));
    assert arena.log == [Message(Player(1, "A"), RefusalText)];
    size, open := |arena.players|, arena.allowNewPlayers;
  }

  /** Three phases: once the first is skipped and updated, the next pending
      phase is the second, while the current pointer still names the first
      (advancing it belongs to the scheduler). */
  method NextPendingAfterFirstEnds(now: int)
    returns (first: States.GameState, second: States.GameState, next: States.GameState?, current: States.GameState?)
    ensures first.ended && !second.ended
    ensures next == second && current == first
  {
    var arena := new GameArena("match", 1, 4, "", "");
    first := new States.GameState(30 * States.NanosPerSecond, "Lobby");
    second := new States.GameState(300 * States.NanosPerSecond, "Play");
    var third := new States.GameState(10 * States.NanosPerSecond, "Results");
    arena.AddGameState(first);
    arena.AddGameState(second);
    arena.AddGameState(third);
    first.Update(now);
    first.Skip();
    first.Update(now);
    assert arena.gameStates == [first, second, third];
    next := arena.GetNextState();
    assert !arena.gameStates[1].ended;
    ghost var k :| 0 <= k < |arena.gameStates| && arena.gameStates[k] == next && !next.ended
                   && forall j :: 0 <= j < k ==> arena.gameStates[j].ended;
    assert k == 1;
    current := arena.currentGameState;
  }
}
