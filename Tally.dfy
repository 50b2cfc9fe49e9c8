/**
 * The lego_pieces dictionary that convert_image_to_lego_colours builds
 * (main.py:98-102). A Python dictionary keeps its keys in insertion order, so
 * it is held as a sequence of rows with pairwise distinct ids; that sequence,
 * in that order, is also the bill of materials that main.py:107-108 writes.
 */
module Tally {
  import opened Palette

  /** One value of the dictionary: the entry stored under its id, and its count. */
  datatype Piece = Piece(entry: Entry, count: int)

  /** The row keyed by id, or -1 when there is none: the dictionary's `in` test. */
  function Find(rows: seq<Piece>, id: string): (k: int)
    ensures -1 <= k < |rows|
    ensures k >= 0 ==> rows[k].entry.id == id
    ensures k < 0 ==> forall m :: 0 <= m < |rows| ==> rows[m].entry.id != id
  {
    if rows == [] then -1
    else if rows[|rows| - 1].entry.id == id then |rows| - 1
    else Find(rows[..|rows| - 1], id)
  }

  /**
   * One sighting of entry e: an id already present has its count raised by
   * one; a new id is stored with e itself and a count of 0.
   */
  function AddSighting(rows: seq<Piece>, e: Entry): (r: seq<Piece>)
  {
    var k := Find(rows, e.id);
    if k >= 0 then rows[k := rows[k].(count := rows[k].count + 1)]
    else rows + [Piece(e, 0)]
  }

  /** The dictionary rows after recording the entries of s in order, starting from rows. */
  function Extend(rows: seq<Piece>, s: seq<Entry>): seq<Piece>
    decreases |s|
  {
    if s == [] then rows else Extend(AddSighting(rows, s[0]), s[1..])
  }

  /** The dictionary after recording the entries of s in order, starting from empty. */
  function TallyOf(s: seq<Entry>): (rows: seq<Piece>)
  {
    Extend([], s)
  }

  /** Recording a + b is recording a, then b. */
  lemma {:induction false} ExtendConcat(rows: seq<Piece>, a: seq<Entry>, b: seq<Entry>)
    ensures Extend(rows, a + b) == Extend(Extend(rows, a), b)
    decreases |a|
  {
    if a == [] {
      assert a + b == b;
    } else {
      assert (a + b)[0] == a[0] && (a + b)[1..] == a[1..] + b;
      ExtendConcat(AddSighting(rows, a[0]), a[1..], b);
    }
  }

  /** Recording more sightings continues the dictionary built so far. */
  lemma ExtendTally(s: seq<Entry>, w: seq<Entry>)
    ensures Extend(TallyOf(s), w) == TallyOf(s + w)
  {
    ExtendConcat([], s, w);
  }

  /** Recording one more sighting extends the dictionary by that sighting. */
  lemma TallyOfAppend(s: seq<Entry>, e: Entry)
    ensures TallyOf(s + [e]) == AddSighting(TallyOf(s), e)
  {
    ExtendTally(s, [e]);
    assert [e][1..] == [];
  }

  /** Two cells of different colours: each id is stored once, with a count of 0. */
  lemma TallyOfTwoColours(r: Entry, g: Entry)
    requires r.id != g.id
    ensures TallyOf([r, g]) == [Piece(r, 0), Piece(g, 0)]
  {
    TallyOfAppend([r], g);
    TallyOfAppend([], r);
    assert [] + [r] == [r];
  }

  /** n + 1 cells of one colour: a single row, whose count is n. */
  lemma {:induction false} TallyOfRepeated(e: Entry, n: nat)
    ensures TallyOf(seq(n + 1, _ => e)) == [Piece(e, n)]
  {
    if n == 0 {
      TallyOfAppend([], e);
      assert seq(1, _ => e) == [] + [e];
    } else {
      TallyOfRepeated(e, n - 1);
      assert seq(n + 1, _ => e) == seq(n, _ => e) + [e];
      TallyOfAppend(seq(n, _ => e), e);
    }
  }

  /** The ids of the entries of s, in order. */
  function IdsOf(s: seq<Entry>): (ids: seq<string>)
    ensures |ids| == |s| && forall k :: 0 <= k < |s| ==> ids[k] == s[k].id
  {
    seq(|s|, k requires 0 <= k < |s| => s[k].id)
  }

  /** How often id occurs in s. */
  function Occurrences(s: seq<Entry>, id: string): nat
  {
    multiset(IdsOf(s))[id]
  }

  /** The index of the first entry of s with the given id, or -1. */
  function FirstIndex(s: seq<Entry>, id: string): (k: int)
    ensures -1 <= k < |s|
    ensures k >= 0 ==> s[k].id == id && forall m :: 0 <= m < k ==> s[m].id != id
    ensures k < 0 ==> forall m :: 0 <= m < |s| ==> s[m].id != id
  {
    if s == [] then -1
    else if s[0].id == id then 0
    else
      var r := FirstIndex(s[1..], id);
      if r < 0 then -1 else r + 1
  }

  /** The sum of the counts of the rows. */
  function TotalCount(rows: seq<Piece>): int
  {
    if rows == [] then 0 else TotalCount(rows[..|rows| - 1]) + rows[|rows| - 1].count
  }

  /** Each row stores the first entry seen with its id and one less than that id's occurrences. */
  ghost predicate RowsMatch(rows: seq<Piece>, s: seq<Entry>)
  {
    forall m :: 0 <= m < |rows| ==>
      && FirstIndex(s, rows[m].entry.id) >= 0
      && rows[m].entry == s[FirstIndex(s, rows[m].entry.id)]
      && rows[m].count == Occurrences(s, rows[m].entry.id) - 1
  }

  /** The rows come in the order their ids were first seen, so no id has two rows. */
  ghost predicate RowsInFirstSeenOrder(rows: seq<Piece>, s: seq<Entry>)
  {
    forall m, n :: 0 <= m < n < |rows| ==>
      FirstIndex(s, rows[m].entry.id) < FirstIndex(s, rows[n].entry.id)
  }

  /** Every id seen has a row. */
  ghost predicate RowsCover(rows: seq<Piece>, s: seq<Entry>)
  {
    forall k :: 0 <= k < |s| ==> Find(rows, s[k].id) >= 0
  }

  /**
   * rows is exactly what the dictionary holds after the sightings s: one row
   * per id seen, in first-seen order, storing the first entry seen with that
   * id and a count of one less than that id's occurrences.
   */
  ghost predicate Describes(rows: seq<Piece>, s: seq<Entry>)
  {
    RowsMatch(rows, s) && RowsInFirstSeenOrder(rows, s) && RowsCover(rows, s)
  }

  lemma {:induction false} FirstIndexAppend(s: seq<Entry>, e: Entry, id: string)
    ensures FirstIndex(s + [e], id) ==
      if FirstIndex(s, id) >= 0 then FirstIndex(s, id) else if e.id == id then |s| else -1
  {
    var t := s + [e];
    var f, g := FirstIndex(s, id), FirstIndex(t, id);
    assert forall m :: 0 <= m < |s| ==> t[m] == s[m];
    if f >= 0 {
      assert t[f].id == id;
    } else if e.id == id {
      assert t[|s|].id == id;
    }
  }

  lemma {:induction false} OccurrencesAppend(s: seq<Entry>, e: Entry, id: string)
    ensures Occurrences(s + [e], id) == Occurrences(s, id) + (if e.id == id then 1 else 0)
  {
    assert IdsOf(s + [e]) == IdsOf(s) + [e.id];
  }

  /** The sightings in s are described by the dictionary TallyOf(s). */
  lemma {:induction false} TallyDescribes(s: seq<Entry>)
    ensures Describes(TallyOf(s), s)
    decreases |s|
  {
    if s != [] {
      var init, e := s[..|s| - 1], s[|s| - 1];
      assert s == init + [e];
      TallyOfAppend(init, e);
      TallyDescribes(init);
      SightingPreservesDescribes(TallyOf(init), init, e);
    }
  }

  lemma {:induction false} SightingPreservesDescribes(rows: seq<Piece>, s: seq<Entry>, e: Entry)
    requires Describes(rows, s)
    ensures Describes(AddSighting(rows, e), s + [e])
  {
    SightingCovers(rows, s, e);
    if Find(rows, e.id) >= 0 {
      SightingOfSeenId(rows, s, e);
    } else {
      SightingOfNewId(rows, s, e);
    }
  }

  lemma {:induction false} SightingCovers(rows: seq<Piece>, s: seq<Entry>, e: Entry)
    requires RowsCover(rows, s)
    ensures RowsCover(AddSighting(rows, e), s + [e])
  {
    var t, r, k := s + [e], AddSighting(rows, e), Find(rows, e.id);
    forall j | 0 <= j < |t|
      ensures Find(r, t[j].id) >= 0
    {
      var m := if j < |s| then Find(rows, s[j].id) else if k >= 0 then k else |rows|;
      assert r[m].entry.id == t[j].id;
    }
  }

  /** Facts about the ids of the existing rows once e is appended to the sightings. */
  lemma {:induction false} AppendKeepsRows(rows: seq<Piece>, s: seq<Entry>, e: Entry)
    requires RowsMatch(rows, s)
    ensures forall m :: 0 <= m < |rows| ==>
      && FirstIndex(s + [e], rows[m].entry.id) == FirstIndex(s, rows[m].entry.id)
      && Occurrences(s + [e], rows[m].entry.id) ==
           Occurrences(s, rows[m].entry.id) + (if e.id == rows[m].entry.id then 1 else 0)
  {
    forall m | 0 <= m < |rows|
      ensures FirstIndex(s + [e], rows[m].entry.id) == FirstIndex(s, rows[m].entry.id)
      ensures Occurrences(s + [e], rows[m].entry.id) ==
                Occurrences(s, rows[m].entry.id) + (if e.id == rows[m].entry.id then 1 else 0)
    {
      FirstIndexAppend(s, e, rows[m].entry.id);
      OccurrencesAppend(s, e, rows[m].entry.id);
    }
  }

  lemma {:induction false} SightingOfSeenId(rows: seq<Piece>, s: seq<Entry>, e: Entry)
    requires Describes(rows, s) && Find(rows, e.id) >= 0
    ensures RowsMatch(AddSighting(rows, e), s + [e]) && RowsInFirstSeenOrder(AddSighting(rows, e), s + [e])
  {
    var k := Find(rows, e.id);
    assert AddSighting(rows, e) == rows[k := rows[k].(count := rows[k].count + 1)];
    forall m | 0 <= m < |rows| && m != k ensures rows[m].entry.id != e.id {
      if m < k {
        assert FirstIndex(s, rows[m].entry.id) < FirstIndex(s, rows[k].entry.id);
      } else {
        assert FirstIndex(s, rows[k].entry.id) < FirstIndex(s, rows[m].entry.id);
      }
    }
    AppendKeepsRows(rows, s, e);
    SeenRowMatches(rows, s, e, k);
    SeenRowsInOrder(rows, s, e, k);
  }

  lemma {:induction false} SeenRowMatches(rows: seq<Piece>, s: seq<Entry>, e: Entry, k: nat)
    requires RowsMatch(rows, s)
    requires k < |rows| && rows[k].entry.id == e.id
    requires forall m :: 0 <= m < |rows| && m != k ==> rows[m].entry.id != e.id
    requires forall m :: 0 <= m < |rows| ==>
      && FirstIndex(s + [e], rows[m].entry.id) == FirstIndex(s, rows[m].entry.id)
      && Occurrences(s + [e], rows[m].entry.id) ==
           Occurrences(s, rows[m].entry.id) + (if e.id == rows[m].entry.id then 1 else 0)
    ensures RowsMatch(rows[k := rows[k].(count := rows[k].count + 1)], s + [e])
  {
    var t, r := s + [e], rows[k := rows[k].(count := rows[k].count + 1)];
    forall m | 0 <= m < |r|
      ensures FirstIndex(t, r[m].entry.id) >= 0
      ensures r[m].entry == t[FirstIndex(t, r[m].entry.id)]
      ensures r[m].count == Occurrences(t, r[m].entry.id) - 1
    {
      var id := rows[m].entry.id;
      assert r[m].entry == rows[m].entry;
      assert t[FirstIndex(s, id)] == s[FirstIndex(s, id)];
    }
  }

  lemma {:induction false} SeenRowsInOrder(rows: seq<Piece>, s: seq<Entry>, e: Entry, k: nat)
    requires RowsInFirstSeenOrder(rows, s)
    requires k < |rows|
    requires forall m :: 0 <= m < |rows| ==>
      FirstIndex(s + [e], rows[m].entry.id) == FirstIndex(s, rows[m].entry.id)
    ensures RowsInFirstSeenOrder(rows[k := rows[k].(count := rows[k].count + 1)], s + [e])
  {
    var t, r := s + [e], rows[k := rows[k].(count := rows[k].count + 1)];
    forall m, n | 0 <= m < n < |r|
      ensures FirstIndex(t, r[m].entry.id) < FirstIndex(t, r[n].entry.id)
    {
      assert r[m].entry == rows[m].entry && r[n].entry == rows[n].entry;
    }
  }

  /** An id with no row has not been seen. */
  lemma {:induction false} NewIdUnseen(rows: seq<Piece>, s: seq<Entry>, e: Entry)
    requires RowsCover(rows, s) && Find(rows, e.id) < 0
    ensures FirstIndex(s, e.id) < 0 && Occurrences(s, e.id) == 0
  {
    forall j | 0 <= j < |s| ensures s[j].id != e.id {
      assert Find(rows, s[j].id) >= 0;
    }
    assert e.id !in IdsOf(s);
  }

  lemma {:induction false} SightingOfNewId(rows: seq<Piece>, s: seq<Entry>, e: Entry)
    requires Describes(rows, s) && Find(rows, e.id) < 0
    ensures RowsMatch(AddSighting(rows, e), s + [e]) && RowsInFirstSeenOrder(AddSighting(rows, e), s + [e])
  {
    assert AddSighting(rows, e) == rows + [Piece(e, 0)];
    NewIdUnseen(rows, s, e);
    FirstIndexAppend(s, e, e.id);
    OccurrencesAppend(s, e, e.id);
    AppendKeepsRows(rows, s, e);
    NewRowMatches(rows, s, e);
    NewRowIsLast(rows, s, e);
  }

  lemma {:induction false} NewRowMatches(rows: seq<Piece>, s: seq<Entry>, e: Entry)
    requires RowsMatch(rows, s)
    requires FirstIndex(s + [e], e.id) == |s| && Occurrences(s + [e], e.id) == 1
    requires forall m :: 0 <= m < |rows| ==>
      && FirstIndex(s + [e], rows[m].entry.id) == FirstIndex(s, rows[m].entry.id)
      && Occurrences(s + [e], rows[m].entry.id) == Occurrences(s, rows[m].entry.id)
    ensures RowsMatch(rows + [Piece(e, 0)], s + [e])
  {
    var t, r := s + [e], rows + [Piece(e, 0)];
    forall m | 0 <= m < |r|
      ensures FirstIndex(t, r[m].entry.id) >= 0
      ensures r[m].entry == t[FirstIndex(t, r[m].entry.id)]
      ensures r[m].count == Occurrences(t, r[m].entry.id) - 1
    {
      if m < |rows| {
        var id := rows[m].entry.id;
        assert r[m] == rows[m];
        assert t[FirstIndex(s, id)] == s[FirstIndex(s, id)];
      } else {
        assert r[m] == Piece(e, 0);
      }
    }
  }

  lemma {:induction false} NewRowIsLast(rows: seq<Piece>, s: seq<Entry>, e: Entry)
    requires RowsInFirstSeenOrder(rows, s)
    requires FirstIndex(s + [e], e.id) == |s|
    requires forall m :: 0 <= m < |rows| ==>
      && FirstIndex(s, rows[m].entry.id) < |s|
      && FirstIndex(s + [e], rows[m].entry.id) == FirstIndex(s, rows[m].entry.id)
    ensures RowsInFirstSeenOrder(rows + [Piece(e, 0)], s + [e])
  {
    var t, r := s + [e], rows + [Piece(e, 0)];
    forall m, n | 0 <= m < n < |r|
      ensures FirstIndex(t, r[m].entry.id) < FirstIndex(t, r[n].entry.id)
    {
      assert r[m] == rows[m];
      if n < |rows| {
        assert r[n] == rows[n];
      } else {
        assert r[n] == Piece(e, 0);
      }
    }
  }

  /** The set of ids seen in s. */
  function IdSet(s: seq<Entry>): set<string>
  {
    set k | 0 <= k < |s| :: s[k].id
  }

  /**
   * The dictionary's keys are exactly the ids seen; the row of a seen id holds
   * the first entry with that id and one less than its number of occurrences.
   */
  lemma {:induction false} TallyRowOf(s: seq<Entry>, id: string)
    ensures Find(TallyOf(s), id) >= 0 <==> id in IdSet(s)
    ensures Find(TallyOf(s), id) >= 0 ==>
      && TallyOf(s)[Find(TallyOf(s), id)].entry == s[FirstIndex(s, id)]
      && TallyOf(s)[Find(TallyOf(s), id)].count == Occurrences(s, id) - 1
  {
    TallyDescribes(s);
    var rows := TallyOf(s);
    if id in IdSet(s) {
      var k :| 0 <= k < |s| && s[k].id == id;
      assert Find(rows, s[k].id) >= 0;
    }
    if Find(rows, id) >= 0 {
      assert s[FirstIndex(s, id)].id == id;
    }
  }

  lemma {:induction false} TotalCountIncrement(rows: seq<Piece>, k: nat)
    requires k < |rows|
    ensures TotalCount(rows[k := rows[k].(count := rows[k].count + 1)]) == TotalCount(rows) + 1
    decreases |rows|
  {
    var r := rows[k := rows[k].(count := rows[k].count + 1)];
    var n := |rows| - 1;
    if k == n {
      assert r[..n] == rows[..n];
    } else {
      assert r[..n] == rows[..n][k := rows[k].(count := rows[k].count + 1)];
      TotalCountIncrement(rows[..n], k);
    }
  }

  lemma {:induction false} TotalCountPlusRows(s: seq<Entry>)
    ensures TotalCount(TallyOf(s)) + |TallyOf(s)| == |s|
    decreases |s|
  {
    if s != [] {
      var init, e := s[..|s| - 1], s[|s| - 1];
      var rows := TallyOf(init);
      assert s == init + [e];
      TallyOfAppend(init, e);
      TotalCountPlusRows(init);
      var k := Find(rows, e.id);
      if k >= 0 {
        assert AddSighting(rows, e) == rows[k := rows[k].(count := rows[k].count + 1)];
        TotalCountIncrement(rows, k);
      } else {
        var r := rows + [Piece(e, 0)];
        assert AddSighting(rows, e) == r;
        assert r[..|rows|] == rows;
        assert TotalCount(r) == TotalCount(rows);
      }
    }
  }

  lemma {:induction false} DistinctCard(ids: seq<string>)
    requires forall m, n :: 0 <= m < n < |ids| ==> ids[m] != ids[n]
    ensures |set m | 0 <= m < |ids| :: ids[m]| == |ids|
    decreases |ids|
  {
    if ids != [] {
      var init := ids[..|ids| - 1];
      DistinctCard(init);
      var a := set m | 0 <= m < |init| :: init[m];
      assert (set m | 0 <= m < |ids| :: ids[m]) == a + {ids[|ids| - 1]};
      assert ids[|ids| - 1] !in a;
    }
  }

  /** The ids of the rows, in order. */
  function RowIds(rows: seq<Piece>): (ids: seq<string>)
    ensures |ids| == |rows| && forall m :: 0 <= m < |rows| ==> ids[m] == rows[m].entry.id
  {
    seq(|rows|, m requires 0 <= m < |rows| => rows[m].entry.id)
  }

  /** No id has two rows. */
  lemma {:induction false} TallyDistinct(s: seq<Entry>)
    ensures var ids := RowIds(TallyOf(s)); forall m, n :: 0 <= m < n < |ids| ==> ids[m] != ids[n]
  {
    var rows := TallyOf(s);
    TallyDescribes(s);
    assert RowsInFirstSeenOrder(rows, s);
  }

  /** The row ids are the ids seen. */
  lemma {:induction false} TallyIdSet(s: seq<Entry>)
    ensures (set m | 0 <= m < |TallyOf(s)| :: RowIds(TallyOf(s))[m]) == IdSet(s)
  {
    var rows := TallyOf(s);
    var ids := RowIds(rows);
    TallyDescribes(s);
    assert RowsMatch(rows, s) && RowsCover(rows, s);
    forall id | id in IdSet(s) ensures id in (set m | 0 <= m < |ids| :: ids[m]) {
      var k :| 0 <= k < |s| && s[k].id == id;
      assert ids[Find(rows, s[k].id)] == id;
    }
    forall m | 0 <= m < |ids| ensures ids[m] in IdSet(s) {
      assert s[FirstIndex(s, rows[m].entry.id)].id == ids[m];
    }
  }

  /**
   * The counts add up to the number of sightings less the number of distinct
   * ids, one per id for the first sighting that stores 0.
   */
  lemma {:induction false} TallyCountsSum(s: seq<Entry>)
    ensures TotalCount(TallyOf(s)) == |s| - |IdSet(s)|
  {
    TotalCountPlusRows(s);
    TallyDistinct(s);
    TallyIdSet(s);
    DistinctCard(RowIds(TallyOf(s)));
  }
}
