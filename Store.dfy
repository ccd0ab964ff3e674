/** The in-memory registries of internal/store/memory.go. */
module Store {
  import opened Wrappers
  import opened Errors
  import opened Models

  /** The player directory: players keyed by id. */
  class MemoryPlayerStore {
    var players: map<string, Player>

    constructor ()
      ensures players == map[]
    {
      players := map[];
    }

    /** Stores the player under its id, replacing any earlier entry; never fails. */
    method Create(player: Player)
      modifies this
      ensures players == old(players)[player.id := player]
    {
      players := players[player.id := player];
    }

    /** The stored player, or ErrPlayerNotFound. */
    method Get(id: string) returns (r: Result<Player, Error>)
      ensures id in players ==> r == Success(players[id])
      ensures id !in players ==> r == Failure(ErrPlayerNotFound)
    {
      if id !in players {
        return Failure(ErrPlayerNotFound);
      }
      return Success(players[id]);
    }
  }

  /** The filter of a listing: optional exact mode and status, then offset/limit pagination. */
  datatype GameFilter = GameFilter(mode: Option<string>, status: Option<string>, limit: int, offset: int)

  predicate Matches(filter: GameFilter, g: GameState) {
    && (filter.mode.None? || filter.mode.value == ModeName(g.mode))
    && (filter.status.None? || filter.status.value == StatusName(g.status))
  }

  /**
    A filter without criteria matches every game; a filter naming a mode and a
    status by their wire strings matches exactly the games in that mode and
    status; a mode or status string that names none matches no game.
   */
  lemma MatchesExactly(filter: GameFilter, g: GameState, m: GameMode, st: GameStatus)
    ensures filter.mode.None? && filter.status.None? ==> Matches(filter, g)
    ensures filter.mode == Some(ModeName(m)) && filter.status == Some(StatusName(st)) ==>
              (Matches(filter, g) <==> g.mode == m && g.status == st)
    ensures filter.mode.Some? && filter.mode.value != "PVP" && filter.mode.value != "PVC" ==> !Matches(filter, g)
    ensures filter.status.Some? && filter.status.value !in {"WAITING_FOR_PLAYER", "IN_PROGRESS", "FINISHED"} ==>
              !Matches(filter, g)
  {
  }

  /**
    The page of `xs` that starts at the offset (negative offsets count as 0);
    an offset past the end gives the empty page, a positive limit bounds the
    length and any other limit takes everything to the end.
   */
  function Paginate<T>(xs: seq<T>, offset: int, limit: int): (page: seq<T>)
    ensures var start := if offset < 0 then 0 else offset;
            && (start > |xs| ==> page == [])
            && (start <= |xs| ==>
                  && |page| == (if 0 < limit < |xs| - start then limit else |xs| - start)
                  && forall k | 0 <= k < |page| :: page[k] == xs[start + k])
  {
    var start := if offset < 0 then 0 else offset;
    if start > |xs| then []
    else
      var end := if limit > 0 && start + limit < |xs| then start + limit else |xs|;
      xs[start..end]
  }

  /** Go's `int` on a 64-bit platform. */
  const MinInt: int := -0x8000_0000_0000_0000
  const MaxInt: int := 0x7fff_ffff_ffff_ffff

  predicate IsInt(x: int) {
    MinInt <= x <= MaxInt
  }

  /** The two's-complement sum of two 64-bit integers. */
  function AddWrapping(x: int, y: int): (r: int)
    requires IsInt(x) && IsInt(y)
    ensures IsInt(r)
    ensures IsInt(x + y) ==> r == x + y
    ensures x + y > MaxInt ==> r == x + y - 0x1_0000_0000_0000_0000 && r < 0
  {
    if x + y > MaxInt then x + y - 0x1_0000_0000_0000_0000
    else if x + y < MinInt then x + y + 0x1_0000_0000_0000_0000
    else x + y
  }

  /**
    The offset and limit code of internal/store/memory.go as written, in 64-bit
    arithmetic: `None` is the panic of a slice whose end lies before its start,
    which happens exactly when `start + limit` overflows.
   */
  function PaginateAsWritten<T>(xs: seq<T>, offset: int, limit: int): (page: Option<seq<T>>)
    requires IsInt(offset) && IsInt(limit) && |xs| <= MaxInt
    ensures var start := if offset < 0 then 0 else offset;
            page.None? <==> start <= |xs| && limit > 0 && start + limit > MaxInt
  {
    var start := if offset < 0 then 0 else offset;
    if start > |xs| then Some([])
    else
      var sum := AddWrapping(start, limit);
      var end := if limit > 0 && sum < |xs| then sum else |xs|;
      if end < start then None else Some(xs[start..end])
  }

  /** Without overflow the code as written computes the intended page. */
  lemma PaginateAsWrittenAgrees<T>(xs: seq<T>, offset: int, limit: int)
    requires IsInt(offset) && IsInt(limit) && |xs| <= MaxInt
    requires PaginateAsWritten(xs, offset, limit).Some?
    ensures PaginateAsWritten(xs, offset, limit) == Some(Paginate(xs, offset, limit))
  {
  }

  /** Offset 1 and the largest limit over three games: the code panics, the intended page is the last two. */
  lemma PaginateOverflowPanics<T>(xs: seq<T>)
    requires |xs| == 3
    ensures PaginateAsWritten(xs, 1, MaxInt) == None
    ensures Paginate(xs, 1, MaxInt) == xs[1..]
  {
  }

  predicate NoDuplicates<T(==)>(s: seq<T>) {
    forall i, j | 0 <= i < j < |s| :: s[i] != s[j]
  }

  /** The stored games for a sequence of ids, in that order. */
  function GamesOf(games: map<string, GameState>, ids: seq<string>): (gs: seq<GameState>)
    requires forall k | 0 <= k < |ids| :: ids[k] in games
    ensures |gs| == |ids| && forall k | 0 <= k < |ids| :: gs[k] == games[ids[k]]
  {
    if ids == [] then [] else GamesOf(games, ids[..|ids| - 1]) + [games[ids[|ids| - 1]]]
  }

  /** The session registry: game records keyed by id. */
  class MemoryGameStore {
    var games: map<string, GameState>

    /** Every record is filed under its own id; Create and Update both key by `game.id`. */
    ghost predicate Valid()
      reads this
    {
      forall id | id in games :: games[id].id == id
    }

    constructor ()
      ensures Valid() && games == map[]
    {
      games := map[];
    }

    /** Stores the game under its id with no duplicate check; never fails. */
    method Create(game: GameState)
      requires Valid()
      modifies this
      ensures Valid()
      ensures games == old(games)[game.id := game]
    {
      games := games[game.id := game];
    }

    /** Replaces an existing entry; an absent id is ErrGameNotFound and changes nothing. */
    method Update(game: GameState) returns (err: Option<Error>)
      requires Valid()
      modifies this
      ensures Valid()
      ensures game.id in old(games) ==> err == None && games == old(games)[game.id := game]
      ensures game.id !in old(games) ==> err == Some(ErrGameNotFound) && games == old(games)
    {
      if game.id !in games {
        return Some(ErrGameNotFound);
      }
      games := games[game.id := game];
      return None;
    }

    /** The stored entry, or ErrGameNotFound. */
    method Get(id: string) returns (r: Result<GameState, Error>)
      ensures id in games ==> r == Success(games[id])
      ensures id !in games ==> r == Failure(ErrGameNotFound)
    {
      if id !in games {
        return Failure(ErrGameNotFound);
      }
      return Success(games[id]);
    }

    /**
      The matching games, enumerated in some order (`order`: every matching id
      exactly once, nothing else), then paginated.
     */
    method List(filter: GameFilter) returns (result: seq<GameState>, ghost order: seq<string>)
      ensures NoDuplicates(order)
      ensures forall id :: id in order <==> id in games && Matches(filter, games[id])
      ensures result == Paginate(GamesOf(games, order), filter.offset, filter.limit)
      ensures forall k | 0 <= k < |result| :: result[k] in games.Values && Matches(filter, result[k])
      ensures filter.limit > 0 ==> |result| <= filter.limit
    {
      var matched: seq<GameState> := [];
      order := [];
      var rest := games.Keys;
      while rest != {}
        invariant rest <= games.Keys
        invariant forall id :: id in order <==> id in games && id !in rest && Matches(filter, games[id])
        invariant NoDuplicates(order)
        invariant matched == GamesOf(games, order)
        decreases rest
      {
        var id :| id in rest;
        var g := games[id];
        if Matches(filter, g) {
          matched := matched + [g];
          order := order + [id];
        }
        rest := rest - {id};
      }

      result := Page(matched, filter.offset, filter.limit);
      ListedIsEnumeration(games, filter, order);
      PageWithin(matched, filter.offset, filter.limit);
    }

    /** Applies offset and limit to the filtered listing. */
    static method Page(matched: seq<GameState>, offset: int, limit: int) returns (result: seq<GameState>)
      ensures result == Paginate(matched, offset, limit)
    {
      var start := offset;
      if start < 0 {
        start := 0;
      }
      if start > |matched| {
        return [];
      }
      var end := |matched|;
      if limit > 0 && start + limit < end {
        end := start + limit;
      }
      result := matched[start..end];
    }
  }

  /** The listing before pagination holds each matching stored game exactly once. */
  lemma ListedIsEnumeration(games: map<string, GameState>, filter: GameFilter, order: seq<string>)
    requires NoDuplicates(order)
    requires forall id :: id in order <==> id in games && Matches(filter, games[id])
    ensures |GamesOf(games, order)| == |set id | id in games && Matches(filter, games[id])|
    ensures forall g | g in GamesOf(games, order) :: g in games.Values && Matches(filter, g)
  {
    var matching := set id | id in games && Matches(filter, games[id]);
    assert matching == set k | 0 <= k < |order| :: order[k];
    DistinctCardinality(order);
    forall g | g in GamesOf(games, order) ensures g in games.Values && Matches(filter, g) {
      var k :| 0 <= k < |order| && GamesOf(games, order)[k] == g;
      assert order[k] in order;
    }
  }

  /** Every element of a page comes from the paginated sequence; a positive limit bounds the page. */
  lemma PageWithin<T>(xs: seq<T>, offset: int, limit: int)
    ensures var page := Paginate(xs, offset, limit);
            && (forall k | 0 <= k < |page| :: page[k] in xs)
            && (limit > 0 ==> |page| <= limit)
  {
    var page := Paginate(xs, offset, limit);
    forall k | 0 <= k < |page|
      ensures page[k] in xs
    {
      var start := if offset < 0 then 0 else offset;
      assert page[k] == xs[start + k];
    }
  }

  lemma {:induction false} DistinctCardinality<T>(s: seq<T>)
    requires NoDuplicates(s)
    ensures |set k | 0 <= k < |s| :: s[k]| == |s|
  {
    if s != [] {
      var init := s[..|s| - 1];
      DistinctCardinality(init);
      var last := s[|s| - 1];
      assert (set k | 0 <= k < |s| :: s[k]) == (set k | 0 <= k < |init| :: init[k]) + {last};
      assert last !in (set k | 0 <= k < |init| :: init[k]);
    }
  }

  /** Three matching games with offset 1 and limit 1 give a page of exactly one. */
  lemma PageOfOne<T>(xs: seq<T>)
    requires |xs| == 3
    ensures Paginate(xs, 1, 1) == [xs[1]]
  {
  }
}
