/**
 * The dashboard's records (sources, games and the picks a game owns), the
 * normalisers applied to values on their way in (the confidence clamp, the
 * load-time defaulting of a parsed state), and the functions the store's
 * operations are specified with.
 */
module Records {
  import opened Strings

  datatype Option<T> = None | Some(value: T)

  /** Identifiers come from an opaque generator; here they are numbers handed out by a counter. */
  type Id = nat

  /** An information provider. The source's field `type` is called `kind` here. */
  datatype Source = Source(id: Id, name: string, kind: string, url: string)

  /** One source's predicted outcome for a game; an empty confidence is None. */
  datatype Pick = Pick(id: Id, source: string, choice: string, confidence: Option<int>, notes: string)

  datatype Game = Game(
    id: Id,
    name: string,
    kickoff: string,
    tags: seq<string>,
    notes: string,
    archived: bool,
    picks: seq<Pick>)

  /** The root aggregate that is persisted and exported. */
  datatype State = State(sources: seq<Source>, games: seq<Game>)

  // ---------------------------------------------------------------------------
  // The confidence clamp

  /** What the confidence field held: nothing, or a number. */
  datatype ConfidenceInput = Empty | Numeric(value: int)

  /** An empty field clears the confidence; a number is clamped into [0, 100]. */
  function ClampConfidence(input: ConfidenceInput): (r: Option<int>)
    ensures r.None? <==> input.Empty?
    ensures r.Some? ==> 0 <= r.value <= 100
    ensures input.Numeric? && 0 <= input.value <= 100 ==> r == Some(input.value)
    ensures input.Numeric? && input.value < 0 ==> r == Some(0)
    ensures input.Numeric? && input.value > 100 ==> r == Some(100)
  {
    match input
    case Empty => None
    case Numeric(v) => Some(if v < 0 then 0 else if v > 100 then 100 else v)
  }

  /** Clamping a stored confidence again leaves it as it is. */
  lemma ClampIdempotent(input: ConfidenceInput)
    requires input.Numeric?
    ensures ClampConfidence(Numeric(ClampConfidence(input).value)) == ClampConfidence(input)
  {
  }

  // ---------------------------------------------------------------------------
  // Load-time defaulting of a parsed state

  /** The `tags` field of a parsed game: an array, a comma-separated string, or absent. */
  datatype RawTags = TagArray(tags: seq<string>) | TagText(text: string) | NoTags

  /** A parsed game: `picks` may be absent and `tags` may be of any of the three shapes. */
  datatype RawGame = RawGame(
    id: Id,
    name: string,
    kickoff: string,
    tags: RawTags,
    notes: string,
    archived: bool,
    picks: Option<seq<Pick>>)

  /** A parsed root aggregate; a top-level field that is absent (or, for import, not an array) is None. */
  datatype RawState = RawState(sources: Option<seq<Source>>, games: Option<seq<RawGame>>)

  function PicksOrEmpty(picks: Option<seq<Pick>>): seq<Pick>
  {
    match picks
    case None => []
    case Some(ps) => ps
  }

  /** Tags already held as an array are kept as they are; otherwise the text (or "") is split. */
  function NormalizeTags(t: RawTags): seq<string>
  {
    match t
    case TagArray(ts) => ts
    case TagText(s) => SplitTags(s)
    case NoTags => SplitTags("")
  }

  /**
   * After loading, tags are a list: an array is left unchanged, a string becomes
   * clean tags (non-empty, trimmed, comma-free), and an absent field becomes [].
   */
  lemma NormalizeTagsClean(t: RawTags)
    ensures t.TagArray? ==> NormalizeTags(t) == t.tags
    ensures !t.TagArray? ==> forall i :: 0 <= i < |NormalizeTags(t)| ==> IsCleanTag(NormalizeTags(t)[i], ',')
    ensures t.NoTags? ==> NormalizeTags(t) == []
  {
    match t
    case TagArray(_) =>
    case TagText(s) => SplitTagsClean(s);
    case NoTags => SplitTagsSingle("");
  }

  function NormalizeGame(g: RawGame): Game
  {
    Game(g.id, g.name, g.kickoff, NormalizeTags(g.tags), g.notes, g.archived, PicksOrEmpty(g.picks))
  }

  /** The defaulting applied after parsing the stored state: absent collections become empty. */
  function LoadState(raw: RawState): (st: State)
    ensures raw.sources.None? ==> st.sources == []
    ensures raw.sources.Some? ==> st.sources == raw.sources.value
    ensures raw.games.None? ==> st.games == []
    ensures raw.games.Some? ==> |st.games| == |raw.games.value|
    ensures raw.games.Some? ==>
      forall i :: 0 <= i < |st.games| ==> st.games[i] == NormalizeGame(raw.games.value[i])
  {
    var rawGames := if raw.games.None? then [] else raw.games.value;
    State(
      if raw.sources.None? then [] else raw.sources.value,
      seq(|rawGames|, i requires 0 <= i < |rawGames| => NormalizeGame(rawGames[i])))
  }

  function SavedGame(g: Game): RawGame
  {
    RawGame(g.id, g.name, g.kickoff, TagArray(g.tags), g.notes, g.archived, Some(g.picks))
  }

  /** What serialising a state and parsing it back yields: every field present, tags as arrays. */
  function Saved(st: State): RawState
  {
    RawState(Some(st.sources), Some(seq(|st.games|, i requires 0 <= i < |st.games| => SavedGame(st.games[i]))))
  }

  /** Loading what was saved gives back the state that was saved. */
  lemma LoadSaved(st: State)
    ensures LoadState(Saved(st)) == st
  {
    var loaded := LoadState(Saved(st));
    assert |loaded.games| == |st.games|;
    forall i | 0 <= i < |st.games| ensures loaded.games[i] == st.games[i] {
      assert Saved(st).games.value[i] == SavedGame(st.games[i]);
    }
  }

  // ---------------------------------------------------------------------------
  // Identifiers

  function SourceId(s: Source): Id { s.id }
  function GameId(g: Game): Id { g.id }
  function PickId(p: Pick): Id { p.id }

  predicate GameIdsWithin(g: Game, lo: Id, hi: Id)
  {
    lo <= g.id < hi && forall p :: p in g.picks ==> lo <= p.id < hi
  }

  /** Every id held by a source, a game or a pick lies in [lo, hi). */
  predicate IdsWithin(sources: seq<Source>, games: seq<Game>, lo: Id, hi: Id)
  {
    (forall s :: s in sources ==> lo <= s.id < hi) &&
    (forall g :: g in games ==> GameIdsWithin(g, lo, hi))
  }

  predicate GameHoldsId(g: Game, id: Id)
  {
    g.id == id || exists p :: p in g.picks && p.id == id
  }

  /** Some source, game or pick of the state carries this id. */
  predicate IdInUse(sources: seq<Source>, games: seq<Game>, id: Id)
  {
    (exists s :: s in sources && s.id == id) || (exists g :: g in games && GameHoldsId(g, id))
  }

  /** Ids within a range are within any wider range. */
  lemma IdsWiden(sources: seq<Source>, games: seq<Game>, lo: Id, hi: Id, lo': Id, hi': Id)
    requires IdsWithin(sources, games, lo, hi) && lo' <= lo && hi <= hi'
    ensures IdsWithin(sources, games, lo', hi')
  {
    forall g | g in games ensures GameIdsWithin(g, lo', hi') {
      assert GameIdsWithin(g, lo, hi);
    }
  }

  /** An id at or above the bound is held by nothing. */
  lemma NotInUseAbove(sources: seq<Source>, games: seq<Game>, hi: Id, id: Id)
    requires IdsWithin(sources, games, 0, hi) && hi <= id
    ensures !IdInUse(sources, games, id)
  {
  }

  /** The ids lo, lo + 1, ..., hi - 1, in order. */
  function Range(lo: Id, hi: Id): (r: seq<Id>)
    requires lo <= hi
    ensures |r| == hi - lo && forall i :: 0 <= i < |r| ==> r[i] == lo + i
  {
    seq(hi - lo, i requires 0 <= i < hi - lo => lo + i)
  }

  lemma RangeSplit(lo: Id, mid: Id, hi: Id)
    requires lo <= mid <= hi
    ensures Range(lo, mid) + Range(mid, hi) == Range(lo, hi)
  {
  }

  /** No id occurs twice. */
  predicate Distinct(ids: seq<Id>)
  {
    forall i, j :: 0 <= i < j < |ids| ==> ids[i] != ids[j]
  }

  /** The numbers of a range are pairwise distinct. */
  lemma RangeDistinct(lo: Id, hi: Id)
    requires lo <= hi
    ensures Distinct(Range(lo, hi))
  {
  }

  /** The ids of a list of records, in order. */
  function Ids<T>(xs: seq<T>, idOf: T -> Id): (r: seq<Id>)
    ensures |r| == |xs|
  {
    seq(|xs|, i requires 0 <= i < |xs| => idOf(xs[i]))
  }

  /** A game's ids in the order they are handed out: the game's, then its picks'. */
  function GameIds(g: Game): seq<Id>
  {
    [g.id] + Ids(g.picks, PickId)
  }

  function GamesIds(games: seq<Game>): seq<Id>
  {
    if games == [] then [] else GamesIds(games[..|games| - 1]) + GameIds(games[|games| - 1])
  }

  /** A number above every id a list of picks holds. */
  function PicksIdBound(picks: seq<Pick>): (n: Id)
    ensures forall p :: p in picks ==> p.id < n
  {
    if picks == [] then 0
    else
      var rest := PicksIdBound(picks[1..]);
      if picks[0].id < rest then rest else picks[0].id + 1
  }

  /** A number above every id a list of games (and their picks) holds. */
  function GamesIdBound(games: seq<Game>): (n: Id)
    ensures forall g :: g in games ==> GameIdsWithin(g, 0, n)
  {
    if games == [] then 0
    else
      var rest := GamesIdBound(games[1..]);
      var here := PicksIdBound(games[0].picks);
      var own := if games[0].id < here then here else games[0].id + 1;
      var n := if own < rest then rest else own;
      GameIdsWiden(games[1..], rest, n);
      n
  }

  lemma GameIdsWiden(games: seq<Game>, hi: Id, hi': Id)
    requires hi <= hi' && forall g :: g in games ==> GameIdsWithin(g, 0, hi)
    ensures forall g :: g in games ==> GameIdsWithin(g, 0, hi')
  {
    forall g | g in games ensures GameIdsWithin(g, 0, hi') {
      assert GameIdsWithin(g, 0, hi);
    }
  }

  function SourcesIdBound(sources: seq<Source>): (n: Id)
    ensures forall s :: s in sources ==> s.id < n
  {
    if sources == [] then 0
    else
      var rest := SourcesIdBound(sources[1..]);
      if sources[0].id < rest then rest else sources[0].id + 1
  }

  /** A counter start that no id of the state reaches. */
  function IdBound(st: State): (n: Id)
    ensures IdsWithin(st.sources, st.games, 0, n)
  {
    var a := SourcesIdBound(st.sources);
    var b := GamesIdBound(st.games);
    if a < b then b else a
  }

  /** The elements whose id differs from `id`, in their original order. */
  function WithoutId<T(!new)>(xs: seq<T>, idOf: T -> Id, id: Id): (r: seq<T>)
    ensures |r| <= |xs|
  {
    if xs == [] then []
    else (if idOf(xs[0]) == id then [] else [xs[0]]) + WithoutId(xs[1..], idOf, id)
  }

  /** Removal by id keeps exactly the elements whose id differs. */
  lemma {:induction false} WithoutIdMembers<T(!new)>(xs: seq<T>, idOf: T -> Id, id: Id)
    ensures forall x :: x in WithoutId(xs, idOf, id) <==> x in xs && idOf(x) != id
  {
    if xs != [] {
      WithoutIdMembers(xs[1..], idOf, id);
      assert xs == [xs[0]] + xs[1..];
    }
  }

  /** Removing a single element keeps it exactly when its id differs. */
  lemma WithoutIdSingle<T(!new)>(x: T, idOf: T -> Id, id: Id)
    ensures WithoutId([x], idOf, id) == if idOf(x) == id then [] else [x]
  {
    assert [x][1..] == [];
  }

  /**
   * Removal by id works element by element: the kept elements of a concatenation
   * are the kept elements of each part, in order, repeats included.
   */
  lemma {:induction false} WithoutIdAppend<T(!new)>(xs: seq<T>, ys: seq<T>, idOf: T -> Id, id: Id)
    ensures WithoutId(xs + ys, idOf, id) == WithoutId(xs, idOf, id) + WithoutId(ys, idOf, id)
  {
    if xs == [] {
      assert xs + ys == ys;
    } else {
      var head := if idOf(xs[0]) == id then [] else [xs[0]];
      assert (xs + ys)[0] == xs[0] && (xs + ys)[1..] == xs[1..] + ys;
      assert WithoutId(xs + ys, idOf, id) == head + WithoutId(xs[1..] + ys, idOf, id);
      WithoutIdAppend(xs[1..], ys, idOf, id);
      assert WithoutId(xs, idOf, id) == head + WithoutId(xs[1..], idOf, id);
    }
  }

  // ---------------------------------------------------------------------------
  // Equality up to identifiers

  predicate SameSourceButId(a: Source, b: Source)
  {
    a.(id := b.id) == b
  }

  predicate SamePicksButIds(a: seq<Pick>, b: seq<Pick>)
  {
    |a| == |b| && forall i :: 0 <= i < |a| ==> a[i].(id := b[i].id) == b[i]
  }

  /** Same game apart from the game's id and its picks' ids; pick order included. */
  predicate SameGameButIds(a: Game, b: Game)
  {
    a.(id := b.id, picks := b.picks) == b && SamePicksButIds(a.picks, b.picks)
  }

  // ---------------------------------------------------------------------------
  // Registering a source by name (maybeAddSource)

  /** Some source's name equals `name` after lower-casing both. */
  predicate KnownSource(sources: seq<Source>, name: string)
  {
    exists i :: 0 <= i < |sources| && Lower(sources[i].name) == Lower(name)
  }

  /**
   * The sources after registering `name`: a blank name, or one that matches an
   * existing name case-insensitively, changes nothing; otherwise one source with
   * the trimmed name and empty type and url is appended under `id`.
   */
  function EnsureSource(sources: seq<Source>, name: string, id: Id): (r: seq<Source>)
    ensures |sources| <= |r| <= |sources| + 1 && r[..|sources|] == sources
    ensures |r| == |sources| + 1 <==> Trim(name) != [] && !KnownSource(sources, Trim(name))
    ensures |r| == |sources| + 1 ==> r[|sources|] == Source(id, Trim(name), "", "")
    ensures Trim(name) != [] ==> KnownSource(r, Trim(name))
  {
    var trimmed := Trim(name);
    if trimmed == [] || KnownSource(sources, trimmed) then sources
    else
      var r := sources + [Source(id, trimmed, "", "")];
      assert Lower(r[|sources|].name) == Lower(trimmed);
      r
  }

  /**
   * Registering a name that folds (trimmed, lower-cased) to one already registered
   * changes nothing, whatever id it would have used.
   */
  lemma EnsureSourceAbsorbs(sources: seq<Source>, first: string, second: string, id1: Id, id2: Id)
    requires Lower(Trim(first)) == Lower(Trim(second))
    ensures EnsureSource(EnsureSource(sources, first, id1), second, id2) == EnsureSource(sources, first, id1)
  {
    var r := EnsureSource(sources, first, id1);
    if Trim(first) == [] {
      assert |Lower(Trim(second))| == 0;
    } else {
      var i :| 0 <= i < |r| && Lower(r[i].name) == Lower(Trim(first));
      assert Lower(r[i].name) == Lower(Trim(second));
    }
  }

  /** Registering the same name twice is registering it once. */
  lemma EnsureSourceIdempotent(sources: seq<Source>, name: string, id1: Id, id2: Id)
    ensures EnsureSource(EnsureSource(sources, name, id1), name, id2) == EnsureSource(sources, name, id1)
  {
    EnsureSourceAbsorbs(sources, name, name, id1, id2);
  }

  /** No two sources share a name up to lower-casing. */
  predicate NamesDistinct(sources: seq<Source>)
  {
    forall i, j :: 0 <= i < j < |sources| ==> Lower(sources[i].name) != Lower(sources[j].name)
  }

  /** Registering through EnsureSource never creates a second source of the same name. */
  lemma EnsureSourceKeepsNamesDistinct(sources: seq<Source>, name: string, id: Id)
    requires NamesDistinct(sources)
    ensures NamesDistinct(EnsureSource(sources, name, id))
  {
    var r := EnsureSource(sources, name, id);
    if |r| == |sources| + 1 {
      forall i, j | 0 <= i < j < |r| ensures Lower(r[i].name) != Lower(r[j].name) {
        if j == |sources| {
          assert r[i] == sources[i];
          assert !(0 <= i < |sources| && Lower(sources[i].name) == Lower(Trim(name)));
        } else {
          assert r[i] == sources[i] && r[j] == sources[j];
        }
      }
    }
  }
}
