/**
 * The consensus/breakdown view of one game's picks (refreshInsights): picks are
 * grouped by trimmed choice in first-seen order, each group counts its picks,
 * sums their confidences and collects (source, notes) pairs; the groups are
 * sorted stably by descending count, and the consensus share and per-group
 * average confidence are rounded the way Math.round rounds.
 */
module Insights {
  import opened Strings
  import opened Records

  /** A (source, notes) pair collected for a pick that names a source. */
  datatype Note = Note(source: string, text: string)

  /** What the aggregator keeps per distinct choice. */
  datatype Group = Group(choice: string, total: nat, confidenceSum: int, notes: seq<Note>)

  /** The derived view: the pick count, the sorted breakdown and the consensus percentage. */
  datatype Summary = Summary(totalPicks: nat, breakdown: seq<Group>, consensus: int)

  /** The grouping key of a pick: its choice, trimmed; "" means the pick is left out. */
  function Key(p: Pick): string
  {
    Trim(p.choice)
  }

  /** What a pick's confidence adds to its group's sum: nothing when it is empty. */
  function Confidence(p: Pick): int
  {
    match p.confidence
    case None => 0
    case Some(v) => v
  }

  /** One pick counted into its choice's group. */
  function Accumulate(g: Group, p: Pick): Group
  {
    g.(total := g.total + 1,
       confidenceSum := g.confidenceSum + Confidence(p),
       notes := if p.source != [] then g.notes + [Note(p.source, p.notes)] else g.notes)
  }

  // ---------------------------------------------------------------------------
  // Specification of the grouping

  /** Some pick of ps has grouping key k. */
  predicate Chosen(ps: seq<Pick>, k: string)
  {
    exists i :: 0 <= i < |ps| && Key(ps[i]) == k
  }

  /** The distinct non-blank keys of ps, in the order they first occur. */
  function Keys(ps: seq<Pick>): seq<string>
  {
    if ps == [] then []
    else
      var ks := Keys(ps[..|ps| - 1]);
      var k := Key(ps[|ps| - 1]);
      if k == [] || k in ks then ks else ks + [k]
  }

  /** The group of key k: every pick of ps whose key is k, counted in order. */
  function GroupOf(ps: seq<Pick>, k: string): Group
  {
    if ps == [] then Group(k, 0, 0, [])
    else
      var g := GroupOf(ps[..|ps| - 1], k);
      if Key(ps[|ps| - 1]) == k then Accumulate(g, ps[|ps| - 1]) else g
  }

  /** The groups of ps, one per key, in first-seen order. */
  function Tally(ps: seq<Pick>): seq<Group>
  {
    seq(|Keys(ps)|, i requires 0 <= i < |Keys(ps)| => GroupOf(ps, Keys(ps)[i]))
  }

  /** The number of picks whose trimmed choice is not empty. */
  function CountNonBlank(ps: seq<Pick>): nat
  {
    if ps == [] then 0
    else CountNonBlank(ps[..|ps| - 1]) + (if Key(ps[|ps| - 1]) == [] then 0 else 1)
  }

  function SumTotals(gs: seq<Group>): nat
  {
    if gs == [] then 0 else SumTotals(gs[..|gs| - 1]) + gs[|gs| - 1].total
  }

  lemma InitOfSnoc<T>(xs: seq<T>, x: T)
    ensures (xs + [x])[..|xs|] == xs && (xs + [x])[|xs|] == x
  {
  }

  /**
   * The keys are exactly the non-blank keys some pick has, each listed once.
   */
  lemma {:induction false} KeysSpec(ps: seq<Pick>)
    ensures forall k :: k in Keys(ps) <==> k != [] && Chosen(ps, k)
    ensures forall i, j :: 0 <= i < j < |Keys(ps)| ==> Keys(ps)[i] != Keys(ps)[j]
  {
    if ps != [] {
      var qs := ps[..|ps| - 1];
      KeysSpec(qs);
      InitOfSnoc(qs, ps[|ps| - 1]);
      assert ps == qs + [ps[|ps| - 1]];
      forall k ensures Chosen(ps, k) <==> Chosen(qs, k) || Key(ps[|ps| - 1]) == k {
        if Chosen(ps, k) {
          var i :| 0 <= i < |ps| && Key(ps[i]) == k;
          if i < |qs| {
            assert Key(qs[i]) == k;
          }
        }
        if Chosen(qs, k) {
          var i :| 0 <= i < |qs| && Key(qs[i]) == k;
          assert Key(ps[i]) == k;
        }
      }
    }
  }

  /**
   * Keys come in first-seen order: wherever a later key occurs, every earlier key
   * has already occurred before that position.
   */
  lemma {:induction false} KeysFirstSeen(ps: seq<Pick>)
    ensures forall i, j, b :: 0 <= i < j < |Keys(ps)| && 0 <= b < |ps| && Key(ps[b]) == Keys(ps)[j] ==>
      Chosen(ps[..b], Keys(ps)[i])
  {
    if ps != [] {
      var qs := ps[..|ps| - 1];
      var p := ps[|ps| - 1];
      KeysFirstSeen(qs);
      KeysSpec(qs);
      KeysSpec(ps);
      var ks := Keys(qs);
      forall i, j, b | 0 <= i < j < |Keys(ps)| && 0 <= b < |ps| && Key(ps[b]) == Keys(ps)[j]
        ensures Chosen(ps[..b], Keys(ps)[i])
      {
        assert Keys(ps)[i] == ks[i];
        assert ks[i] in ks;
        if b < |qs| {
          assert ps[..b] == qs[..b];
          assert Key(qs[b]) == Keys(ps)[j];
          assert Chosen(qs, Keys(ps)[j]);
          assert j < |ks|;
          assert Keys(ps)[j] == ks[j];
        } else {
          assert ps[..b] == qs;
        }
      }
    }
  }

  /** A key no pick has gets the empty group. */
  lemma {:induction false} GroupOfAbsent(ps: seq<Pick>, k: string)
    requires !Chosen(ps, k)
    ensures GroupOf(ps, k) == Group(k, 0, 0, [])
  {
    if ps != [] {
      var qs := ps[..|ps| - 1];
      assert !Chosen(qs, k) by {
        forall i | 0 <= i < |qs| ensures Key(qs[i]) != k {
          assert qs[i] == ps[i];
        }
      }
      GroupOfAbsent(qs, k);
    }
  }

  /** The group of a key that occurs holds at least one pick. */
  lemma {:induction false} GroupOfChosen(ps: seq<Pick>, k: string)
    requires Chosen(ps, k)
    ensures GroupOf(ps, k).total >= 1 && GroupOf(ps, k).choice == k
  {
    var qs := ps[..|ps| - 1];
    if Key(ps[|ps| - 1]) != k {
      var i :| 0 <= i < |ps| && Key(ps[i]) == k;
      assert Key(qs[i]) == k;
      GroupOfChosen(qs, k);
    } else if Chosen(qs, k) {
      GroupOfChosen(qs, k);
    } else {
      GroupOfAbsent(qs, k);
    }
  }

  /** A pick with a blank key changes no group. */
  lemma TallyBlank(qs: seq<Pick>, p: Pick)
    requires Key(p) == []
    ensures Keys(qs + [p]) == Keys(qs) && Tally(qs + [p]) == Tally(qs)
  {
    InitOfSnoc(qs, p);
    KeysSpec(qs);
    var ks := Keys(qs);
    forall i | 0 <= i < |ks| ensures GroupOf(qs + [p], ks[i]) == GroupOf(qs, ks[i]) {
      assert ks[i] in ks;
    }
  }

  /** A pick whose key already has a group is counted into that group only. */
  lemma TallyKnown(qs: seq<Pick>, p: Pick, j: nat)
    requires j < |Keys(qs)| && Keys(qs)[j] == Key(p)
    ensures Keys(qs + [p]) == Keys(qs)
    ensures Tally(qs + [p]) == Tally(qs)[j := Accumulate(Tally(qs)[j], p)]
  {
    InitOfSnoc(qs, p);
    KeysSpec(qs);
    var ks := Keys(qs);
    assert Key(p) in ks;
    assert Keys(qs + [p]) == ks;
    var r := Tally(qs + [p]);
    var t := Tally(qs);
    assert |r| == |ks| == |t|;
    forall i | 0 <= i < |ks| ensures r[i] == t[j := Accumulate(t[j], p)][i] {
      if i != j {
        assert ks[i] != Key(p);
      }
    }
  }

  /** A pick with a new non-blank key opens a group at the end. */
  lemma TallyNew(qs: seq<Pick>, p: Pick)
    requires Key(p) != [] && Key(p) !in Keys(qs)
    ensures Keys(qs + [p]) == Keys(qs) + [Key(p)]
    ensures Tally(qs + [p]) == Tally(qs) + [Accumulate(Group(Key(p), 0, 0, []), p)]
  {
    InitOfSnoc(qs, p);
    KeysSpec(qs);
    GroupOfAbsent(qs, Key(p));
  }

  lemma {:induction false} SumTotalsUpdate(gs: seq<Group>, j: nat, g: Group)
    requires j < |gs|
    ensures SumTotals(gs[j := g]) == SumTotals(gs) - gs[j].total + g.total
  {
    var n := |gs| - 1;
    if j < n {
      SumTotalsUpdate(gs[..n], j, g);
      assert gs[j := g][..n] == gs[..n][j := g];
    } else {
      assert gs[j := g][..n] == gs[..n];
    }
  }

  lemma SumTotalsSnoc(gs: seq<Group>, g: Group)
    ensures SumTotals(gs + [g]) == SumTotals(gs) + g.total
  {
    InitOfSnoc(gs, g);
  }

  /** The totals of the groups add up to the number of picks with a non-blank choice. */
  lemma {:induction false} TallyCountsEveryPick(ps: seq<Pick>)
    ensures SumTotals(Tally(ps)) == CountNonBlank(ps)
  {
    if ps != [] {
      var qs := ps[..|ps| - 1];
      var p := ps[|ps| - 1];
      assert ps == qs + [p];
      TallyCountsEveryPick(qs);
      if Key(p) == [] {
        TallyBlank(qs, p);
      } else if Key(p) in Keys(qs) {
        var j :| 0 <= j < |Keys(qs)| && Keys(qs)[j] == Key(p);
        TallyKnown(qs, p, j);
        SumTotalsUpdate(Tally(qs), j, Accumulate(Tally(qs)[j], p));
      } else {
        TallyNew(qs, p);
        SumTotalsSnoc(Tally(qs), Accumulate(Group(Key(p), 0, 0, []), p));
      }
    }
  }

  lemma {:induction false} TotalWithinSum(gs: seq<Group>, i: nat)
    requires i < |gs|
    ensures gs[i].total <= SumTotals(gs)
  {
    if i < |gs| - 1 {
      TotalWithinSum(gs[..|gs| - 1], i);
    }
  }

  // ---------------------------------------------------------------------------
  // Stable sort by descending total (Array.prototype.sort is stable)

  predicate SortedByTotal(gs: seq<Group>)
  {
    forall i, j :: 0 <= i < j < |gs| ==> gs[i].total >= gs[j].total
  }

  /** The groups of gs whose total is t, in their order in gs. */
  function WithTotal(gs: seq<Group>, t: nat): seq<Group>
  {
    if gs == [] then [] else (if gs[0].total == t then [gs[0]] else []) + WithTotal(gs[1..], t)
  }

  lemma WithTotalCons(g: Group, gs: seq<Group>)
    ensures forall t :: WithTotal([g] + gs, t) == (if g.total == t then [g] else []) + WithTotal(gs, t)
  {
    assert ([g] + gs)[1..] == gs;
  }

  /** Inserts g before the first group whose total is not larger than g's. */
  function InsertByTotal(g: Group, gs: seq<Group>): seq<Group>
  {
    if gs == [] || gs[0].total <= g.total then [g] + gs
    else [gs[0]] + InsertByTotal(g, gs[1..])
  }

  /** Insertion adds exactly g. */
  lemma {:induction false} InsertAddsOne(g: Group, gs: seq<Group>)
    ensures multiset(InsertByTotal(g, gs)) == multiset(gs) + multiset{g}
  {
    if gs != [] && gs[0].total > g.total {
      InsertAddsOne(g, gs[1..]);
      assert gs == [gs[0]] + gs[1..];
    }
  }

  /** Inserting into a sorted list keeps it sorted. */
  lemma {:induction false} InsertSorted(g: Group, gs: seq<Group>)
    requires SortedByTotal(gs)
    ensures SortedByTotal(InsertByTotal(g, gs))
  {
    if gs != [] && gs[0].total > g.total {
      var rest := InsertByTotal(g, gs[1..]);
      var r := [gs[0]] + rest;
      InsertSorted(g, gs[1..]);
      InsertAddsOne(g, gs[1..]);
      forall j | 0 < j < |r| ensures gs[0].total >= r[j].total {
        assert r[j] == rest[j - 1];
        assert r[j] in multiset(rest);
        if r[j] != g {
          assert r[j] in multiset(gs[1..]);
          var k :| 0 <= k < |gs[1..]| && gs[1..][k] == r[j];
          assert gs[1 + k] == r[j];
        }
      }
    }
  }

  /** Insertion puts g ahead of the groups that already had its total, and moves nothing else. */
  lemma {:induction false} InsertStable(g: Group, gs: seq<Group>, t: nat)
    requires SortedByTotal(gs)
    ensures WithTotal(InsertByTotal(g, gs), t) == (if g.total == t then [g] else []) + WithTotal(gs, t)
  {
    WithTotalCons(g, gs);
    if gs != [] && gs[0].total > g.total {
      var rest := InsertByTotal(g, gs[1..]);
      InsertStable(g, gs[1..], t);
      WithTotalCons(gs[0], rest);
      WithTotalCons(gs[0], gs[1..]);
      assert gs == [gs[0]] + gs[1..];
    }
  }

  /**
   * Sorting by descending total: the result is sorted, and for every total the
   * groups with that total appear in the order they had before (stability);
   * together these make it a permutation.
   */
  function SortByTotalDesc(gs: seq<Group>): (r: seq<Group>)
    ensures SortedByTotal(r)
    ensures multiset(r) == multiset(gs)
    ensures forall t :: WithTotal(r, t) == WithTotal(gs, t)
  {
    if gs == [] then []
    else
      var rest := SortByTotalDesc(gs[1..]);
      InsertSorted(gs[0], rest);
      InsertAddsOne(gs[0], rest);
      assert forall t :: WithTotal(InsertByTotal(gs[0], rest), t) == (if gs[0].total == t then [gs[0]] else []) + WithTotal(rest, t) by {
        forall t ensures WithTotal(InsertByTotal(gs[0], rest), t) == (if gs[0].total == t then [gs[0]] else []) + WithTotal(rest, t) {
          InsertStable(gs[0], rest, t);
        }
      }
      WithTotalCons(gs[0], gs[1..]);
      assert gs == [gs[0]] + gs[1..];
      InsertByTotal(gs[0], rest)
  }

  // ---------------------------------------------------------------------------
  // Rounding, consensus and average

  /** Math.round(n / d): the integer nearest to n / d, halves rounded up. */
  function RoundRatio(n: int, d: nat): (r: int)
    requires d > 0
    ensures d * (2 * r - 1) <= 2 * n < d * (2 * r + 1)
  {
    var q := (2 * n + d) / (2 * d);
    var m := (2 * n + d) % (2 * d);
    assert 2 * n + d == 2 * d * q + m && 0 <= m < 2 * d;
    assert d * (2 * q - 1) == 2 * d * q - d;
    assert d * (2 * q + 1) == 2 * d * q + d;
    q
  }

  /** A ratio of a non-negative n to d, with n at most m times d, rounds into [0, m]. */
  lemma RoundRatioWithin(n: int, d: nat, m: nat)
    requires d > 0 && 0 <= n <= m * d
    ensures 0 <= RoundRatio(n, d) <= m
  {
    var r := RoundRatio(n, d);
    if 2 * r + 1 <= -1 {
      MulMonotone(d, 2 * r + 1, -1);
    }
    assert d * (2 * m + 1) == 2 * (m * d) + d;
    if 2 * m + 1 <= 2 * r - 1 {
      MulMonotone(d, 2 * m + 1, 2 * r - 1);
    }
  }

  lemma MulMonotone(d: int, x: int, y: int)
    requires d > 0 && x <= y
    ensures d * x <= d * y
  {
    assert d * y - d * x == d * (y - x);
  }

  /** Share of the top group in percent; 0 when there is no group. */
  function Consensus(sorted: seq<Group>, totalPicks: nat): int
  {
    if sorted == [] then 0
    else RoundRatio(100 * sorted[0].total, if totalPicks > 1 then totalPicks else 1)
  }

  /** The group's rounded mean confidence over all its picks; None is shown as unavailable. */
  function AverageConfidence(g: Group): Option<int>
  {
    if g.confidenceSum != 0 && g.total != 0 then Some(RoundRatio(g.confidenceSum, g.total)) else None
  }

  /** The notes a breakdown row lists: the collected pairs whose notes are not empty. */
  function ShownNotes(notes: seq<Note>): seq<Note>
  {
    if notes == [] then []
    else (if notes[0].text != [] then [notes[0]] else []) + ShownNotes(notes[1..])
  }

  /** The listed pairs are exactly the collected ones whose notes are not empty. */
  lemma {:induction false} ShownNotesMembers(notes: seq<Note>)
    ensures forall n :: n in ShownNotes(notes) <==> n in notes && n.text != []
  {
    if notes != [] {
      ShownNotesMembers(notes[1..]);
      assert notes == [notes[0]] + notes[1..];
    }
  }

  /** A single pair is listed exactly when its notes are not empty. */
  lemma ShownNotesSingle(n: Note)
    ensures ShownNotes([n]) == if n.text != [] then [n] else []
  {
    assert [n][1..] == [];
  }

  /**
   * Listing works pair by pair: the listed pairs of a concatenation are those of
   * each part, in the order collected, repeats included.
   */
  lemma {:induction false} ShownNotesAppend(xs: seq<Note>, ys: seq<Note>)
    ensures ShownNotes(xs + ys) == ShownNotes(xs) + ShownNotes(ys)
  {
    if xs == [] {
      assert xs + ys == ys;
    } else {
      var head := if xs[0].text != [] then [xs[0]] else [];
      assert (xs + ys)[0] == xs[0] && (xs + ys)[1..] == xs[1..] + ys;
      assert ShownNotes(xs + ys) == head + ShownNotes(xs[1..] + ys);
      ShownNotesAppend(xs[1..], ys);
      assert ShownNotes(xs) == head + ShownNotes(xs[1..]);
    }
  }

  /** The whole derived view of a game's picks. */
  function Insights(ps: seq<Pick>): Summary
  {
    var groups := Tally(ps);
    var totalPicks := SumTotals(groups);
    var sorted := SortByTotalDesc(groups);
    Summary(totalPicks, sorted, Consensus(sorted, totalPicks))
  }

  // ---------------------------------------------------------------------------
  // The aggregation loop

  /**
   * The loop state of the aggregation after the picks `seen`: the groups so far,
   * and a map from each key seen to the position of its group.
   */
  ghost predicate Indexed(seen: seq<Pick>, groups: seq<Group>, index: map<string, nat>)
  {
    groups == Tally(seen) &&
    (forall k :: k in index <==> k in Keys(seen)) &&
    (forall k :: k in index ==> index[k] < |groups| && Keys(seen)[index[k]] == k)
  }

  /** Counting a pick whose key has a group updates that group in place. */
  lemma IndexedKnown(seen: seq<Pick>, p: Pick, groups: seq<Group>, index: map<string, nat>)
    requires Indexed(seen, groups, index) && Key(p) in index
    ensures index[Key(p)] < |groups|
    ensures Indexed(seen + [p], groups[index[Key(p)] := Accumulate(groups[index[Key(p)]], p)], index)
  {
    TallyKnown(seen, p, index[Key(p)]);
  }

  /**
   * Counting a pick with a new non-blank key appends its group and records its
   * position, which keeps the index faithful to the key list.
   */
  lemma IndexedNew(seen: seq<Pick>, p: Pick, groups: seq<Group>, index: map<string, nat>)
    requires Indexed(seen, groups, index) && Key(p) != [] && Key(p) !in index
    ensures Indexed(seen + [p], groups + [Accumulate(Group(Key(p), 0, 0, []), p)], index[Key(p) := |groups|])
  {
    TallyNew(seen, p);
    var ks := Keys(seen) + [Key(p)];
    var index' := index[Key(p) := |groups|];
    forall k | k in index' ensures index'[k] < |ks| && ks[index'[k]] == k {
      if k != Key(p) {
        assert index'[k] == index[k];
      }
    }
  }

  /** A pick with a blank key leaves the loop state as it is. */
  lemma IndexedBlank(seen: seq<Pick>, p: Pick, groups: seq<Group>, index: map<string, nat>)
    requires Indexed(seen, groups, index) && Key(p) == []
    ensures Indexed(seen + [p], groups, index)
  {
    TallyBlank(seen, p);
  }

  /** refreshInsights: one pass over the picks with a key-to-position map, then sum, sort and share. */
  method RefreshInsights(picks: seq<Pick>) returns (summary: Summary)
    ensures summary == Insights(picks)
  {
    var groups: seq<Group> := [];
    var index: map<string, nat> := map[];
    for i := 0 to |picks|
      invariant Indexed(picks[..i], groups, index)
    {
      assert picks[..i + 1] == picks[..i] + [picks[i]];
      var pick := picks[i];
      var key := Trim(pick.choice);
      if key != [] {
        var data := if key in index then groups[index[key]] else Group(key, 0, 0, []);
        ghost var base := data;
        data := data.(total := data.total + 1);
        if pick.confidence.Some? {
          data := data.(confidenceSum := data.confidenceSum + pick.confidence.value);
        }
        if pick.source != [] {
          data := data.(notes := data.notes + [Note(pick.source, pick.notes)]);
        }
        assert data == Accumulate(base, pick);
        if key in index {
          IndexedKnown(picks[..i], pick, groups, index);
          groups := groups[index[key] := data];
        } else {
          IndexedNew(picks[..i], pick, groups, index);
          index := index[key := |groups|];
          groups := groups + [data];
        }
      } else {
        IndexedBlank(picks[..i], pick, groups, index);
      }
    }
    assert picks[..|picks|] == picks;

    var totalPicks := 0;
    for j := 0 to |groups|
      invariant totalPicks == SumTotals(groups[..j])
    {
      InitOfSnoc(groups[..j], groups[j]);
      assert groups[..j + 1] == groups[..j] + [groups[j]];
      totalPicks := totalPicks + groups[j].total;
    }
    assert groups[..|groups|] == groups;

    var sorted := SortByTotalDesc(groups);
    summary := Summary(totalPicks, sorted, Consensus(sorted, totalPicks));
  }

  // ---------------------------------------------------------------------------
  // Properties of the view

  /** totalPicks counts exactly the picks whose trimmed choice is not blank. */
  lemma InsightsTotal(ps: seq<Pick>)
    ensures Insights(ps).totalPicks == CountNonBlank(ps)
  {
    TallyCountsEveryPick(ps);
  }

  /**
   * The breakdown holds one group per distinct non-blank key, each the group of
   * its key, sorted by descending total with first-seen order among equal totals.
   */
  lemma BreakdownSpec(ps: seq<Pick>)
    ensures var b := Insights(ps).breakdown;
      |b| == |Keys(ps)| && SortedByTotal(b) &&
      (forall t :: WithTotal(b, t) == WithTotal(Tally(ps), t)) &&
      (forall g :: g in b <==> exists i :: 0 <= i < |Keys(ps)| && g == GroupOf(ps, Keys(ps)[i]))
  {
    var b := Insights(ps).breakdown;
    var gs := Tally(ps);
    assert |gs| == |Keys(ps)|;
    assert forall i :: 0 <= i < |gs| ==> gs[i] == GroupOf(ps, Keys(ps)[i]);
    assert |b| == |multiset(b)| == |multiset(gs)| == |gs|;
    forall g ensures g in b <==> g in gs {
      assert g in b <==> g in multiset(b);
      assert g in gs <==> g in multiset(gs);
    }
  }

  /**
   * The consensus lies in [0, 100]; it is 0 when no pick has a non-blank choice,
   * and there is a breakdown exactly when some pick has one.
   */
  lemma ConsensusRange(ps: seq<Pick>)
    ensures 0 <= Insights(ps).consensus <= 100
    ensures Insights(ps).breakdown == [] <==> CountNonBlank(ps) == 0
    ensures Insights(ps).breakdown == [] ==> Insights(ps).consensus == 0
  {
    var s := Insights(ps);
    var gs := Tally(ps);
    InsightsTotal(ps);
    KeysSpec(ps);
    assert |s.breakdown| == |multiset(s.breakdown)| == |multiset(gs)| == |gs|;
    if s.breakdown != [] {
      var top := s.breakdown[0];
      assert top in multiset(gs);
      var i :| 0 <= i < |gs| && gs[i] == top;
      TotalWithinSum(gs, i);
      GroupOfChosen(ps, Keys(ps)[i]);
      RoundRatioWithin(100 * top.total, s.totalPicks, 100);
    }
  }

  /** The top group is a most common choice: no key is picked more often. */
  lemma ConsensusIsMostCommon(ps: seq<Pick>, k: string)
    requires Insights(ps).breakdown != [] && k != []
    ensures GroupOf(ps, k).total <= Insights(ps).breakdown[0].total
  {
    var b := Insights(ps).breakdown;
    KeysSpec(ps);
    BreakdownSpec(ps);
    if Chosen(ps, k) {
      var i :| 0 <= i < |Keys(ps)| && Keys(ps)[i] == k;
      assert Tally(ps)[i] in multiset(b);
      var j :| 0 <= j < |b| && b[j] == GroupOf(ps, k);
      assert j == 0 || b[0].total >= b[j].total;
    } else {
      GroupOfAbsent(ps, k);
    }
  }

  /** Every confidence in ps is empty or within [0, 100]. */
  predicate ConfidencesClamped(ps: seq<Pick>)
  {
    forall i :: 0 <= i < |ps| ==> ps[i].confidence.Some? ==> 0 <= ps[i].confidence.value <= 100
  }

  /** With clamped confidences a group's sum is between 0 and 100 per pick counted. */
  lemma {:induction false} ConfidenceSumBounds(ps: seq<Pick>, k: string)
    requires ConfidencesClamped(ps)
    ensures 0 <= GroupOf(ps, k).confidenceSum <= 100 * GroupOf(ps, k).total
  {
    if ps != [] {
      var qs := ps[..|ps| - 1];
      assert ConfidencesClamped(qs) by {
        forall i | 0 <= i < |qs| ensures qs[i] == ps[i] {}
      }
      ConfidenceSumBounds(qs, k);
    }
  }

  /**
   * With clamped confidences, a group's average, when shown, lies in [0, 100];
   * the mean is taken over all the group's picks, empty confidences included.
   */
  lemma AverageInRange(ps: seq<Pick>, k: string)
    requires ConfidencesClamped(ps)
    ensures AverageConfidence(GroupOf(ps, k)).Some? ==>
      0 <= AverageConfidence(GroupOf(ps, k)).value <= 100
  {
    var g := GroupOf(ps, k);
    ConfidenceSumBounds(ps, k);
    if g.confidenceSum != 0 && g.total != 0 {
      RoundRatioWithin(g.confidenceSum, g.total, 100);
    }
  }

  /**
   * Two picks of "A" at 60 and 80 and one of "B" at 50: A leads with 2 picks
   * averaging 70, B follows with 1 averaging 50, and the consensus is 67%.
   */
  lemma ThreePicksExample()
    ensures var s := Insights([Pick(0, "", "A", Some(60), ""), Pick(1, "", "A", Some(80), ""), Pick(2, "", "B", Some(50), "")]);
      s.totalPicks == 3 && |s.breakdown| == 2 &&
      s.breakdown[0] == Group("A", 2, 140, []) && s.breakdown[1] == Group("B", 1, 50, []) &&
      AverageConfidence(s.breakdown[0]) == Some(70) && AverageConfidence(s.breakdown[1]) == Some(50) &&
      s.consensus == 67
  {
    var ps := [Pick(0, "", "A", Some(60), ""), Pick(1, "", "A", Some(80), ""), Pick(2, "", "B", Some(50), "")];
    var gs := [Group("A", 2, 140, []), Group("B", 1, 50, [])];
    ThreePicksTally(ps);
    assert SumTotals(gs) == SumTotals([gs[0]]) + 1 by {
      assert gs[..1] == [gs[0]];
    }
    assert SortByTotalDesc(gs) == InsertByTotal(gs[0], SortByTotalDesc([gs[1]])) by {
      assert gs[1..] == [gs[1]];
    }
    assert SortByTotalDesc([gs[1]]) == [gs[1]];
    assert InsertByTotal(gs[0], [gs[1]]) == gs;
    assert Insights(ps).breakdown == gs;
    assert RoundRatio(200, 3) == 67;
    assert RoundRatio(140, 2) == 70;
    assert RoundRatio(50, 1) == 50;
  }

  lemma NoSpaceTrim(c: char)
    requires !IsSpace(c)
    ensures Trim([c]) == [c]
  {
    assert TrimStart([c]) == [c];
  }

  lemma ThreePicksTally(ps: seq<Pick>)
    requires ps == [Pick(0, "", "A", Some(60), ""), Pick(1, "", "A", Some(80), ""), Pick(2, "", "B", Some(50), "")]
    ensures Tally(ps) == [Group("A", 2, 140, []), Group("B", 1, 50, [])]
  {
    var a0, a1, b := ps[0], ps[1], ps[2];
    assert Key(a0) == "A" && Key(a1) == "A" && Key(b) == "B" by {
      NoSpaceTrim('A');
      NoSpaceTrim('B');
    }
    TallyNew([], a0);
    assert [] + [a0] == [a0];
    assert Keys([a0]) == ["A"] && Tally([a0]) == [Group("A", 1, 60, [])];
    TallyKnown([a0], a1, 0);
    assert [a0] + [a1] == [a0, a1];
    assert Keys([a0, a1]) == ["A"] && Tally([a0, a1]) == [Group("A", 2, 140, [])];
    TallyNew([a0, a1], b);
    assert [a0, a1] + [b] == ps;
  }
}
