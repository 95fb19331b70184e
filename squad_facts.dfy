/**
 * What the squad the scraper builds is: exactly the first entry for each
 * distinct name among the accepted cells, in document order.
 */
module SquadFacts {
  import opened Web
  import opened Squad

  /** First indices in a sequence are those of its prefix, and a new name's is the last. */
  lemma FirstIndexSnoc(ps: seq<Player>, n: string)
    requires ps != [] && n in Names(ps)
    ensures n in Names(ps[..|ps| - 1]) ==> FirstIndex(ps, n) == FirstIndex(ps[..|ps| - 1], n)
    ensures n !in Names(ps[..|ps| - 1]) ==> FirstIndex(ps, n) == |ps| - 1
  {
  }

  /** Entry `i` of the de-duplicated sequence is the first entry of `ps` with its name. */
  lemma {:induction false} DedupFirstAt(ps: seq<Player>, i: nat)
    requires i < |Dedup(ps)|
    ensures Dedup(ps)[i].name in Names(ps) && ps[FirstIndex(ps, Dedup(ps)[i].name)] == Dedup(ps)[i]
  {
    var init := ps[..|ps| - 1];
    var p := ps[|ps| - 1];
    var d := Dedup(init);
    var r := Dedup(ps);
    assert Names(ps) == Names(init) + {p.name};
    if i < |d| {
      DedupFirstAt(init, i);
      assert r[i] == d[i];
      var n := d[i].name;
      FirstIndexSnoc(ps, n);
      var k := FirstIndex(init, n);
      assert ps[k] == init[k];
    } else {
      assert r == d + [p] && r[i] == p;
      assert p.name !in Names(init);
      FirstIndexSnoc(ps, p.name);
    }
  }

  /** Kept entries `i < j` have their names' first occurrences in the same order. */
  lemma {:induction false} DedupOrderAt(ps: seq<Player>, i: nat, j: nat)
    requires i < j < |Dedup(ps)|
    ensures Dedup(ps)[i].name in Names(ps) && Dedup(ps)[j].name in Names(ps)
    ensures FirstIndex(ps, Dedup(ps)[i].name) < FirstIndex(ps, Dedup(ps)[j].name)
  {
    var init := ps[..|ps| - 1];
    var p := ps[|ps| - 1];
    var d := Dedup(init);
    var r := Dedup(ps);
    assert Names(ps) == Names(init) + {p.name};
    assert r[i] == d[i] && d[i].name in Names(init);
    FirstIndexSnoc(ps, d[i].name);
    if j < |d| {
      DedupOrderAt(init, i, j);
      assert r[j] == d[j];
      FirstIndexSnoc(ps, d[j].name);
    } else {
      assert r == d + [p] && r[j] == p;
      assert p.name !in Names(init);
      FirstIndexSnoc(ps, p.name);
    }
  }

  /** Every kept entry is the first entry of `ps` with its name. */
  lemma DedupKeepsFirsts(ps: seq<Player>)
    ensures forall i | 0 <= i < |Dedup(ps)| ::
      Dedup(ps)[i].name in Names(ps) && ps[FirstIndex(ps, Dedup(ps)[i].name)] == Dedup(ps)[i]
  {
    forall i | 0 <= i < |Dedup(ps)|
      ensures Dedup(ps)[i].name in Names(ps) && ps[FirstIndex(ps, Dedup(ps)[i].name)] == Dedup(ps)[i]
    {
      DedupFirstAt(ps, i);
    }
  }

  /** Kept entries appear in the order of their names' first occurrences in `ps`. */
  lemma DedupKeepsOrder(ps: seq<Player>)
    ensures forall i, j | 0 <= i < j < |Dedup(ps)| ::
      Dedup(ps)[i].name in Names(ps) && Dedup(ps)[j].name in Names(ps)
      && FirstIndex(ps, Dedup(ps)[i].name) < FirstIndex(ps, Dedup(ps)[j].name)
  {
    forall i, j | 0 <= i < j < |Dedup(ps)|
      ensures Dedup(ps)[i].name in Names(ps) && Dedup(ps)[j].name in Names(ps)
      ensures FirstIndex(ps, Dedup(ps)[i].name) < FirstIndex(ps, Dedup(ps)[j].name)
    {
      DedupOrderAt(ps, i, j);
    }
  }

  /** A sequence with distinct names has as many names as entries. */
  lemma {:induction false} DistinctNamesCount(ps: seq<Player>)
    requires DistinctNames(ps)
    ensures |Names(ps)| == |ps|
  {
    if ps != [] {
      var init := ps[..|ps| - 1];
      var p := ps[|ps| - 1];
      assert DistinctNames(init);
      DistinctNamesCount(init);
      assert Names(ps) == Names(init) + {p.name};
      assert p.name !in Names(init);
    }
  }

  /** The squad has one entry per distinct name among the accepted entries. */
  lemma DedupSize(ps: seq<Player>)
    ensures |Dedup(ps)| == |Names(ps)|
  {
    DistinctNamesCount(Dedup(ps));
  }

  /** A cell without a player link, or with empty link text, adds nothing to the squad. */
  lemma SkippedCellAddsNothing(cells: seq<Cell>, cell: Cell)
    requires FirstAnchor(cell.anchors, PlayerMarker).None? || FirstAnchor(cell.anchors, PlayerMarker).value.text == ""
    ensures Collect(cells + [cell]) == Collect(cells)
  {
    assert (cells + [cell])[..|cells|] == cells;
  }

  /** A cell whose name is already in the squad leaves the squad as it was. */
  lemma DuplicateCellAddsNothing(cells: seq<Cell>, cell: Cell)
    requires CellEntry(cell).Some? && CellEntry(cell).value.name in Names(Collect(cells))
    ensures Collect(cells + [cell]) == Collect(cells)
  {
    var e := CellEntry(cell).value;
    var squad := Collect(cells);
    assert (cells + [cell])[..|cells|] == cells;
    var acc := Accepted(cells + [cell]);
    assert acc == Accepted(cells) + [e];
    assert acc[..|acc| - 1] == Accepted(cells);
    var k :| 0 <= k < |squad| && squad[k].name == e.name;
    assert HasName(squad, e.name);
  }

  /** A cell with a new name appends its entry at the end of the squad. */
  lemma NewNameAppends(cells: seq<Cell>, cell: Cell)
    requires CellEntry(cell).Some? && CellEntry(cell).value.name !in Names(Collect(cells))
    ensures Collect(cells + [cell]) == Collect(cells) + [CellEntry(cell).value]
  {
    assert (cells + [cell])[..|cells|] == cells;
    var acc := Accepted(cells + [cell]);
    assert acc == Accepted(cells) + [CellEntry(cell).value];
    assert acc[..|acc| - 1] == Accepted(cells);
  }

  /**
   * The collected squad: names pairwise distinct, the same names as the
   * accepted cells, one entry per name, each entry the first accepted
   * entry with its name, in document order.
   */
  lemma CollectSpec(cells: seq<Cell>)
    ensures DistinctNames(Collect(cells))
    ensures Names(Collect(cells)) == Names(Accepted(cells))
    ensures |Collect(cells)| == |Names(Accepted(cells))|
    ensures forall i | 0 <= i < |Collect(cells)| ::
      Collect(cells)[i].name in Names(Accepted(cells))
      && Accepted(cells)[FirstIndex(Accepted(cells), Collect(cells)[i].name)] == Collect(cells)[i]
    ensures forall i, j | 0 <= i < j < |Collect(cells)| ::
      FirstIndex(Accepted(cells), Collect(cells)[i].name) < FirstIndex(Accepted(cells), Collect(cells)[j].name)
  {
    DedupKeepsFirsts(Accepted(cells));
    DedupKeepsOrder(Accepted(cells));
    DedupSize(Accepted(cells));
  }

  /** A single anchor contributes its parent exactly when it is a player link that has one. */
  lemma LinkParentsOne(a: PageAnchor)
    ensures LinkParents([a]) == if LinksTo(a.anchor, PlayerMarker) && a.parent.Some? then [a.parent.value] else []
  {
    assert [a][1..] == [];
  }

  /**
   * The fallback cells keep document order and repeats: the parents of a
   * concatenation are the parents of its first part followed by those of its second.
   */
  lemma {:induction false} LinkParentsAppend(a: seq<PageAnchor>, b: seq<PageAnchor>)
    ensures LinkParents(a + b) == LinkParents(a) + LinkParents(b)
  {
    if a == [] {
      assert a + b == b;
    } else {
      assert (a + b)[0] == a[0];
      assert (a + b)[1..] == a[1..] + b;
      LinkParentsAppend(a[1..], b);
    }
  }
}
