/**
 * The dashboard's state object and every handler that changes it: loading and
 * saving, adding and removing sources, games and picks, duplicating and
 * archiving games, editing pick fields, and importing a whole file.
 *
 * Handlers in the dashboard close over the game or pick they were rendered for;
 * here they take that game's (and pick's) position in the current lists.
 * crypto.randomUUID is a counter `nextId`: every id handed out is one no
 * source, game or pick holds yet.
 */
module Tracker {
  import opened Strings
  import opened Records

  /** The games with pick `pj` of game `gi` replaced by `p`. */
  function ReplacePick(games: seq<Game>, gi: nat, pj: nat, p: Pick): (r: seq<Game>)
    requires gi < |games| && pj < |games[gi].picks|
    ensures |r| == |games| && |r[gi].picks| == |games[gi].picks| && r[gi].picks[pj] == p
  {
    games[gi := games[gi].(picks := games[gi].picks[pj := p])]
  }

  /** Replacing a pick by one with the same id keeps every id in its range. */
  lemma ReplacePickIds(sources: seq<Source>, games: seq<Game>, gi: nat, pj: nat, p: Pick, hi: Id)
    requires gi < |games| && pj < |games[gi].picks|
    requires IdsWithin(sources, games, 0, hi) && p.id == games[gi].picks[pj].id
    ensures IdsWithin(sources, ReplacePick(games, gi, pj, p), 0, hi)
  {
    var r := ReplacePick(games, gi, pj, p);
    assert GameIdsWithin(games[gi], 0, hi);
    forall q | q in r[gi].picks ensures q.id < hi {
      var k :| 0 <= k < |r[gi].picks| && r[gi].picks[k] == q;
      if k != pj {
        assert q == games[gi].picks[k];
      }
    }
    forall g | g in r ensures GameIdsWithin(g, 0, hi) {
      var k :| 0 <= k < |r| && r[k] == g;
      if k != gi {
        assert g == games[k];
      }
    }
  }

  /** A game given id `id` and picks numbered from id + 1 holds exactly the ids [id, hi). */
  lemma RenumberedGame(g: Game, id: Id, picks: seq<Pick>, hi: Id)
    requires id < hi && Ids(picks, PickId) == Range(id + 1, hi)
    ensures GameIds(g.(id := id, picks := picks)) == Range(id, hi)
    ensures GameIdsWithin(g.(id := id, picks := picks), id, hi)
  {
    var copy := g.(id := id, picks := picks);
    forall p | p in picks ensures id <= p.id < hi {
      var k :| 0 <= k < |picks| && picks[k] == p;
      assert Ids(picks, PickId)[k] == PickId(p) == p.id;
    }
  }

  /** Appending a game whose ids follow on keeps the ids of a list of games consecutive. */
  lemma AppendGame(games: seq<Game>, g: Game, lo: Id, mid: Id, hi: Id)
    requires lo <= mid <= hi
    requires GamesIds(games) == Range(lo, mid) && IdsWithin([], games, lo, mid)
    requires GameIds(g) == Range(mid, hi) && GameIdsWithin(g, mid, hi)
    ensures GamesIds(games + [g]) == Range(lo, hi)
    ensures IdsWithin([], games + [g], lo, hi)
  {
    assert (games + [g])[..|games|] == games;
    RangeSplit(lo, mid, hi);
    IdsWiden([], games, lo, mid, lo, hi);
    assert GameIdsWithin(g, lo, hi);
  }

  /** Appending the copy of the next parsed game keeps the copies matching the parsed games. */
  lemma AppendCopies(rawGames: seq<RawGame>, imported: seq<Game>, copy: Game)
    requires |imported| < |rawGames|
    requires forall k :: 0 <= k < |imported| ==> SameGameButIds(NormalizeGame(rawGames[k]), imported[k])
    requires SameGameButIds(NormalizeGame(rawGames[|imported|]), copy)
    ensures forall k :: 0 <= k < |imported| + 1 ==> SameGameButIds(NormalizeGame(rawGames[k]), (imported + [copy])[k])
  {
    forall k | 0 <= k < |imported| + 1
      ensures SameGameButIds(NormalizeGame(rawGames[k]), (imported + [copy])[k])
    {
      if k < |imported| {
        assert (imported + [copy])[k] == imported[k];
      }
    }
  }

  class Store {
    var sources: seq<Source>
    var games: seq<Game>
    /** The next id crypto.randomUUID stands for. */
    var nextId: Id

    /** Every id in the state was handed out before nextId. */
    ghost predicate Valid()
      reads this
    {
      IdsWithin(sources, games, 0, nextId)
    }

    /** The state as the dashboard would serialise it. */
    function Current(): State
      reads this
    {
      State(sources, games)
    }

    /**
     * loadState on a stored state that parsed: absent collections are defaulted.
     * The counter starts above every loaded id.
     */
    constructor Load(parsed: RawState)
      ensures Valid()
      ensures Current() == LoadState(parsed)
    {
      var st := LoadState(parsed);
      sources := st.sources;
      games := st.games;
      nextId := IdBound(st);
    }

    /**
     * saveState: what is written to storage. Loading it back gives the same
     * sources and games.
     */
    method Save() returns (stored: RawState)
      ensures stored == Saved(Current())
      ensures LoadState(stored) == Current()
    {
      stored := Saved(State(sources, games));
      LoadSaved(State(sources, games));
    }

    /** crypto.randomUUID: an id that no source, game or pick holds. */
    method FreshId() returns (id: Id)
      requires Valid()
      modifies this`nextId
      ensures Valid()
      ensures id == old(nextId) && nextId == id + 1
      ensures !IdInUse(sources, games, id)
    {
      id := nextId;
      NotInUseAbove(sources, games, nextId, id);
      IdsWiden(sources, games, 0, nextId, 0, nextId + 1);
      nextId := nextId + 1;
    }

    /**
     * The add-game form: a blank name does nothing; otherwise a game with the
     * trimmed name, the kickoff as given, the tags split from the tag field and
     * the trimmed notes goes to the front, unarchived and without picks.
     */
    method AddGame(name: string, kickoff: string, tagsText: string, notes: string)
      requires Valid()
      modifies this
      ensures Valid()
      ensures sources == old(sources)
      ensures Trim(name) == [] ==> games == old(games) && nextId == old(nextId)
      ensures Trim(name) != [] ==>
        games == [Game(old(nextId), Trim(name), kickoff, SplitTags(tagsText), Trim(notes), false, [])] + old(games) &&
        nextId == old(nextId) + 1 &&
        !IdInUse(old(sources), old(games), games[0].id)
    {
      var trimmed := Trim(name);
      if trimmed == [] {
        return;
      }
      var tags := SplitTags(tagsText);
      var id := FreshId();
      games := [Game(id, trimmed, kickoff, tags, Trim(notes), false, [])] + games;
    }

    /**
     * The add-source form: a blank name does nothing; otherwise a source with
     * the trimmed name, type and url is appended. Names are not checked
     * against the existing sources here.
     */
    method AddSource(name: string, kind: string, url: string)
      requires Valid()
      modifies this
      ensures Valid()
      ensures games == old(games)
      ensures Trim(name) == [] ==> sources == old(sources) && nextId == old(nextId)
      ensures Trim(name) != [] ==>
        sources == old(sources) + [Source(old(nextId), Trim(name), Trim(kind), Trim(url))] &&
        nextId == old(nextId) + 1 &&
        !IdInUse(old(sources), old(games), old(nextId))
    {
      var trimmed := Trim(name);
      if trimmed == [] {
        return;
      }
      var id := FreshId();
      sources := sources + [Source(id, trimmed, Trim(kind), Trim(url))];
    }

    /**
     * maybeAddSource: registers a name typed into a pick, unless it is blank or
     * some source already has it up to letter case. An id is drawn only when a
     * source is added.
     */
    method MaybeAddSource(name: string)
      requires Valid()
      modifies this
      ensures Valid()
      ensures sources == EnsureSource(old(sources), name, old(nextId))
      ensures games == old(games)
      ensures nextId == old(nextId) + (|sources| - |old(sources)|)
      ensures NamesDistinct(old(sources)) ==> NamesDistinct(sources)
    {
      if NamesDistinct(sources) {
        EnsureSourceKeepsNamesDistinct(sources, name, nextId);
      }
      var trimmed := Trim(name);
      if trimmed == [] {
        return;
      }
      if KnownSource(sources, trimmed) {
        return;
      }
      var id := FreshId();
      sources := sources + [Source(id, trimmed, "", "")];
    }

    /** A source's Remove button: every source with that id goes; picks naming it stay. */
    method RemoveSource(id: Id)
      requires Valid()
      modifies this`sources
      ensures Valid()
      ensures sources == WithoutId(old(sources), SourceId, id)
      ensures forall s :: s in sources ==> s.id != id
    {
      sources := WithoutId(sources, SourceId, id);
      WithoutIdMembers(old(sources), SourceId, id);
    }

    /** A game's Delete button: after confirmation, every game with that id goes. */
    method RemoveGame(id: Id, confirmed: bool)
      requires Valid()
      modifies this`games
      ensures Valid()
      ensures !confirmed ==> games == old(games)
      ensures confirmed ==> games == WithoutId(old(games), GameId, id) && forall g :: g in games ==> g.id != id
    {
      if !confirmed {
        return;
      }
      games := WithoutId(games, GameId, id);
      WithoutIdMembers(old(games), GameId, id);
    }

    /** A game's add-row button: a blank pick (no source, choice, confidence or notes) is appended. */
    method AddPick(gi: nat)
      requires Valid() && gi < |games|
      modifies this
      ensures Valid()
      ensures sources == old(sources) && nextId == old(nextId) + 1
      ensures games == old(games)[gi := old(games[gi]).(picks := old(games[gi].picks) + [Pick(old(nextId), "", "", None, "")])]
      ensures !IdInUse(old(sources), old(games), old(nextId))
    {
      var id := FreshId();
      var g := games[gi];
      var g' := g.(picks := g.picks + [Pick(id, "", "", None, "")]);
      assert GameIdsWithin(g, 0, nextId);
      games := games[gi := g'];
      forall h | h in games ensures GameIdsWithin(h, 0, nextId) {
        var k :| 0 <= k < |games| && games[k] == h;
        if k != gi {
          assert h == old(games[k]);
        }
      }
    }

    /** A pick's remove button: every pick of that game with the id goes. */
    method RemovePick(gi: nat, pickId: Id)
      requires Valid() && gi < |games|
      modifies this`games
      ensures Valid()
      ensures games == old(games)[gi := old(games[gi]).(picks := WithoutId(old(games[gi].picks), PickId, pickId))]
      ensures forall p :: p in games[gi].picks ==> p.id != pickId
    {
      var g := games[gi];
      var g' := g.(picks := WithoutId(g.picks, PickId, pickId));
      WithoutIdMembers(g.picks, PickId, pickId);
      assert GameIdsWithin(g, 0, nextId);
      games := games[gi := g'];
      forall h | h in games ensures GameIdsWithin(h, 0, nextId) {
        var k :| 0 <= k < |games| && games[k] == h;
        if k != gi {
          assert h == old(games[k]);
        }
      }
    }

    /** The picks with fresh ids, in order; nothing else about them changes. */
    method RenumberPicks(picks: seq<Pick>) returns (r: seq<Pick>)
      requires Valid()
      modifies this`nextId
      ensures Valid()
      ensures nextId == old(nextId) + |picks|
      ensures |r| == |picks| && forall k :: 0 <= k < |picks| ==> r[k] == picks[k].(id := old(nextId) + k)
      ensures SamePicksButIds(picks, r) && Ids(r, PickId) == Range(old(nextId), nextId)
    {
      r := [];
      for k := 0 to |picks|
        invariant Valid()
        invariant nextId == old(nextId) + k
        invariant |r| == k && forall m :: 0 <= m < k ==> r[m] == picks[m].(id := old(nextId) + m)
      {
        var id := FreshId();
        r := r + [picks[k].(id := id)];
      }
      forall k | 0 <= k < |r| ensures Ids(r, PickId)[k] == Range(old(nextId), nextId)[k] {
        assert PickId(r[k]) == r[k].id;
      }
    }

    /**
     * A game's Duplicate button: a copy named "<name> (copy)" is appended with a
     * fresh game id and fresh pick ids, drawn in that order; the rest of the
     * game (kickoff, tags, notes, archived flag, pick contents and order) is kept.
     */
    method DuplicateGame(gi: nat)
      requires Valid() && gi < |games|
      modifies this
      ensures Valid()
      ensures sources == old(sources)
      ensures |games| == |old(games)| + 1 && games[..|old(games)|] == old(games)
      ensures games[|old(games)|].name == old(games[gi].name) + " (copy)"
      ensures SameGameButIds(old(games[gi]).(name := games[|old(games)|].name), games[|old(games)|])
      ensures old(nextId) <= nextId && GameIds(games[|old(games)|]) == Range(old(nextId), nextId)
      ensures forall id :: id in GameIds(games[|old(games)|]) ==> !IdInUse(old(sources), old(games), id)
      ensures Distinct(GameIds(games[|old(games)|]))
    {
      var g := games[gi];
      var id := FreshId();
      var picks := RenumberPicks(g.picks);
      var copy := g.(id := id, name := g.name + " (copy)", picks := picks);
      RenumberedGame(g.(name := g.name + " (copy)"), id, picks, nextId);
      IdsWiden(sources, games, 0, old(nextId), 0, nextId);
      games := games + [copy];
      assert games[..|old(games)|] == old(games);
      forall x | x in GameIds(copy) ensures !IdInUse(old(sources), old(games), x) {
        NotInUseAbove(old(sources), old(games), old(nextId), x);
      }
      RangeDistinct(old(nextId), nextId);
    }

    /** A game's Archive / Unarchive button flips its archived flag. */
    method ToggleArchive(gi: nat)
      requires Valid() && gi < |games|
      modifies this`games
      ensures Valid()
      ensures games == old(games)[gi := old(games[gi]).(archived := !old(games[gi].archived))]
      ensures games[gi].archived != old(games[gi].archived)
    {
      var g := games[gi];
      games := games[gi := g.(archived := !g.archived)];
      forall h | h in games ensures GameIdsWithin(h, 0, nextId) {
        var k :| 0 <= k < |games| && games[k] == h;
        if k == gi {
          assert GameIdsWithin(g, 0, nextId);
        } else {
          assert h == old(games[k]);
        }
      }
    }

    /** Typing in a game's notes area stores the text as typed. */
    method EditGameNotes(gi: nat, text: string)
      requires Valid() && gi < |games|
      modifies this`games
      ensures Valid()
      ensures games == old(games)[gi := old(games[gi]).(notes := text)]
    {
      var g := games[gi];
      games := games[gi := g.(notes := text)];
      forall h | h in games ensures GameIdsWithin(h, 0, nextId) {
        var k :| 0 <= k < |games| && games[k] == h;
        if k == gi {
          assert GameIdsWithin(g, 0, nextId);
        } else {
          assert h == old(games[k]);
        }
      }
    }

    /** Stores a pick with the same id in place of pick `pj` of game `gi`. */
    method SetPick(gi: nat, pj: nat, p: Pick)
      requires Valid() && gi < |games| && pj < |games[gi].picks|
      requires p.id == games[gi].picks[pj].id
      modifies this`games
      ensures Valid()
      ensures games == ReplacePick(old(games), gi, pj, p)
    {
      ReplacePickIds(sources, games, gi, pj, p, nextId);
      games := ReplacePick(games, gi, pj, p);
    }

    /**
     * Changing a pick's source: the trimmed text is stored, then registered as a
     * source (maybeAddSource).
     */
    method EditPickSource(gi: nat, pj: nat, value: string)
      requires Valid() && gi < |games| && pj < |games[gi].picks|
      modifies this
      ensures Valid()
      ensures games == ReplacePick(old(games), gi, pj, old(games[gi].picks[pj]).(source := Trim(value)))
      ensures sources == EnsureSource(old(sources), Trim(value), old(nextId))
      ensures nextId == old(nextId) + (|sources| - |old(sources)|)
      ensures Trim(value) != [] ==> KnownSource(sources, Trim(value))
    {
      var p := games[gi].picks[pj];
      SetPick(gi, pj, p.(source := Trim(value)));
      MaybeAddSource(Trim(value));
      TrimIdempotent(value);
    }

    /** Typing a pick's choice stores the text as typed. */
    method EditPickChoice(gi: nat, pj: nat, value: string)
      requires Valid() && gi < |games| && pj < |games[gi].picks|
      modifies this`games
      ensures Valid()
      ensures games == ReplacePick(old(games), gi, pj, old(games[gi].picks[pj]).(choice := value))
    {
      var p := games[gi].picks[pj];
      SetPick(gi, pj, p.(choice := value));
    }

    /** Typing a pick's confidence: empty clears it, a number is clamped to [0, 100]. */
    method EditPickConfidence(gi: nat, pj: nat, input: ConfidenceInput)
      requires Valid() && gi < |games| && pj < |games[gi].picks|
      modifies this`games
      ensures Valid()
      ensures games == ReplacePick(old(games), gi, pj, old(games[gi].picks[pj]).(confidence := ClampConfidence(input)))
      ensures games[gi].picks[pj].confidence.Some? ==> 0 <= games[gi].picks[pj].confidence.value <= 100
    {
      var p := games[gi].picks[pj];
      SetPick(gi, pj, p.(confidence := ClampConfidence(input)));
    }

    /** Typing a pick's notes stores the text as typed. */
    method EditPickNotes(gi: nat, pj: nat, value: string)
      requires Valid() && gi < |games| && pj < |games[gi].picks|
      modifies this`games
      ensures Valid()
      ensures games == ReplacePick(old(games), gi, pj, old(games[gi].picks[pj]).(notes := value))
    {
      var p := games[gi].picks[pj];
      SetPick(gi, pj, p.(notes := value));
    }

    /** The file's games, normalised as loading would, each with a fresh game id and fresh pick ids. */
    method FreshGames(rawGames: seq<RawGame>) returns (imported: seq<Game>)
      requires Valid()
      modifies this`nextId
      ensures Valid()
      ensures old(nextId) <= nextId
      ensures |imported| == |rawGames|
      ensures forall k :: 0 <= k < |rawGames| ==> SameGameButIds(NormalizeGame(rawGames[k]), imported[k])
      ensures GamesIds(imported) == Range(old(nextId), nextId)
      ensures IdsWithin([], imported, old(nextId), nextId)
    {
      imported := [];
      for i := 0 to |rawGames|
        invariant Valid()
        invariant old(nextId) <= nextId
        invariant |imported| == i
        invariant forall k :: 0 <= k < i ==> SameGameButIds(NormalizeGame(rawGames[k]), imported[k])
        invariant GamesIds(imported) == Range(old(nextId), nextId)
        invariant IdsWithin([], imported, old(nextId), nextId)
      {
        var g := NormalizeGame(rawGames[i]);
        var before := nextId;
        var id := FreshId();
        var picks := RenumberPicks(g.picks);
        var copy := g.(id := id, picks := picks);
        RenumberedGame(g, id, picks, nextId);
        AppendGame(imported, copy, old(nextId), before, nextId);
        AppendCopies(rawGames, imported, copy);
        imported := imported + [copy];
      }
    }

    /** The file's sources, each with a fresh id. */
    method FreshSources(rawSources: seq<Source>) returns (renamed: seq<Source>)
      requires Valid()
      modifies this`nextId
      ensures Valid()
      ensures nextId == old(nextId) + |rawSources|
      ensures |renamed| == |rawSources|
      ensures forall k :: 0 <= k < |rawSources| ==> renamed[k] == rawSources[k].(id := old(nextId) + k)
      ensures Ids(renamed, SourceId) == Range(old(nextId), nextId)
    {
      renamed := [];
      for i := 0 to |rawSources|
        invariant Valid()
        invariant nextId == old(nextId) + i
        invariant |renamed| == i
        invariant forall k :: 0 <= k < i ==> renamed[k] == rawSources[k].(id := old(nextId) + k)
      {
        var id := FreshId();
        renamed := renamed + [rawSources[i].(id := id)];
      }
      forall k | 0 <= k < |renamed| ensures Ids(renamed, SourceId)[k] == Range(old(nextId), nextId)[k] {
        assert SourceId(renamed[k]) == renamed[k].id;
      }
    }

    /**
     * Importing a file: unless both `games` and `sources` are arrays, nothing
     * changes and the import is refused. Otherwise both lists are replaced by
     * the file's, every game, pick and source getting a fresh id, drawn game by
     * game (the game's, then its picks') and then source by source.
     */
    method Import(parsed: RawState) returns (ok: bool)
      requires Valid()
      modifies this
      ensures Valid()
      ensures ok <==> parsed.games.Some? && parsed.sources.Some?
      ensures !ok ==> sources == old(sources) && games == old(games) && nextId == old(nextId)
      ensures ok ==> |games| == |parsed.games.value| && |sources| == |parsed.sources.value|
      ensures ok ==> forall i :: 0 <= i < |games| ==> SameGameButIds(NormalizeGame(parsed.games.value[i]), games[i])
      ensures ok ==> forall i :: 0 <= i < |sources| ==> SameSourceButId(parsed.sources.value[i], sources[i])
      ensures ok ==> old(nextId) <= nextId && GamesIds(games) + Ids(sources, SourceId) == Range(old(nextId), nextId)
      ensures ok ==> forall x :: x in GamesIds(games) + Ids(sources, SourceId) ==> !IdInUse(old(sources), old(games), x)
      ensures ok ==> Distinct(GamesIds(games) + Ids(sources, SourceId))
    {
      if parsed.games.None? || parsed.sources.None? {
        return false;
      }
      var start := nextId;
      var imported := FreshGames(parsed.games.value);
      var mid := nextId;
      var renamed := FreshSources(parsed.sources.value);
      RangeSplit(start, mid, nextId);
      RangeDistinct(start, nextId);
      IdsWiden([], imported, start, mid, 0, nextId);
      forall x | x in GamesIds(imported) + Ids(renamed, SourceId) ensures !IdInUse(sources, games, x) {
        NotInUseAbove(sources, games, start, x);
      }
      sources := renamed;
      games := imported;
      ok := true;
    }
  }

  /**
   * Importing what was saved: every imported game, pick and source equals the
   * saved one except for its id.
   */
  lemma ImportOfSavedKeepsFields(st: State, games: seq<Game>, sources: seq<Source>)
    requires |games| == |st.games| && |sources| == |st.sources|
    requires forall i :: 0 <= i < |games| ==> SameGameButIds(NormalizeGame(Saved(st).games.value[i]), games[i])
    requires forall i :: 0 <= i < |sources| ==> SameSourceButId(Saved(st).sources.value[i], sources[i])
    ensures forall i :: 0 <= i < |games| ==> SameGameButIds(st.games[i], games[i])
    ensures forall i :: 0 <= i < |sources| ==> SameSourceButId(st.sources[i], sources[i])
  {
    LoadSaved(st);
  }
}
