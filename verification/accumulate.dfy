/** The row accumulation that `Curator.create_rows` (backend/master/curator.py)
    carries only as commented-out code: summarise what has been collected,
    synthesise a new frame, check that its column set matches, append it and
    drop full-row duplicates, and repeat until the target row count is
    reached. The source loop has no bound; this model adds a stall counter
    that ends the loop once more than `stallCap` consecutive passes add no row. */
module Accumulate {
  import opened Base
  import opened Seqs
  import opened Frames
  import opened Text

  const NothingCollected: string := "Nothing has been collected yet."

  /** The digest of the dataset handed to the row synthesizer. */
  function DatasetSummary(data: Frame, summarize: Frame -> string): (r: string)
    ensures IsEmptyFrame(data) ==> r == NothingCollected
    ensures !IsEmptyFrame(data) ==> r == summarize(data)
  {
    if !IsEmptyFrame(data) then summarize(data) else NothingCollected
  }

  /** A row of a frame with columns `from`, rearranged into the column order `to`
      (pandas aligns concatenated frames by column name). */
  function Realign(row: seq<Cell>, from: seq<string>, to: seq<string>): (r: seq<Cell>)
    requires |row| == |from|
    requires forall k | 0 <= k < |to| :: to[k] in from
    ensures |r| == |to|
    ensures forall k | 0 <= k < |to| :: r[k] == row[FirstIndex(from, to[k])]
  {
    seq(|to|, k requires 0 <= k < |to| => row[FirstIndex(from, to[k])])
  }

  /** The rows of `incoming` in the column order `columns`. */
  function Aligned(incoming: Frame, columns: seq<string>): (r: seq<seq<Cell>>)
    requires WellFormed(incoming)
    requires Elems(columns) == Elems(incoming.columns)
    ensures |r| == |incoming.rows|
    ensures forall i | 0 <= i < |r| :: |r[i]| == |columns|
  {
    seq(|incoming.rows|, i requires 0 <= i < |incoming.rows| =>
      assert forall k | 0 <= k < |columns| :: columns[k] in Elems(incoming.columns);
      Realign(incoming.rows[i], incoming.columns, columns))
  }

  /** The commented-out merge: an empty dataset takes the new frame's columns;
      a different column set raises; otherwise the result is the existing rows
      followed by the new rows, with full-row duplicates dropped (first kept). */
  function Merge(existing: Frame, incoming: Frame): (r: Result<Frame, Raised>)
    requires WellFormed(existing) && WellFormed(incoming)
    ensures r.Err? <==> |existing.columns| > 0 && Elems(existing.columns) != Elems(incoming.columns)
    ensures r.Err? ==> r.error.kind == "ValueError"
    ensures r.Ok? ==> WellFormed(r.value) && Distinct(r.value.rows)
    ensures r.Ok? ==> r.value.columns == if |existing.columns| == 0 then incoming.columns else existing.columns
    ensures r.Ok? ==>
      Elems(r.value.rows) == (if |existing.columns| == 0 then {} else Elems(existing.rows))
                             + Elems(Aligned(incoming, r.value.columns))
    ensures r.Ok? && |existing.columns| > 0 && Distinct(existing.rows) ==>
      r.value.rows == existing.rows + FirstSightings(Elems(existing.rows), Aligned(incoming, existing.columns))
  {
    var base := if |existing.columns| == 0 then Frame(incoming.columns, []) else existing;
    if Elems(base.columns) != Elems(incoming.columns) then
      Err(Raised("ValueError", "Column mismatch between existing and new data frames"))
    else
      var aligned := Aligned(incoming, base.columns);
      var rows := FirstSightings({}, base.rows + aligned);
      MergedRows(base.columns, base.rows, aligned, rows);
      Ok(Frame(base.columns, rows))
  }

  /** The rows of a merge: duplicate-free, made of the existing and the new
      rows, every one of them, and the existing rows first when they were
      duplicate-free. */
  lemma {:induction false} MergedRows(columns: seq<string>, xs: seq<seq<Cell>>, ys: seq<seq<Cell>>, rows: seq<seq<Cell>>)
    requires forall i | 0 <= i < |xs| :: |xs[i]| == |columns|
    requires forall i | 0 <= i < |ys| :: |ys[i]| == |columns|
    requires rows == FirstSightings({}, xs + ys)
    ensures Distinct(rows)
    ensures forall i | 0 <= i < |rows| :: |rows[i]| == |columns|
    ensures Elems(rows) == Elems(xs) + Elems(ys)
    ensures Distinct(xs) ==> rows == xs + FirstSightings(Elems(xs), ys)
  {
    var all := xs + ys;
    FirstSightingsMembers({}, all);
    FirstSightingsDistinct({}, all);
    DedupAppend(xs, ys);
    forall i | 0 <= i < |rows| ensures |rows[i]| == |columns| {
      assert rows[i] in all;
    }
    assert Elems(all) == Elems(xs) + Elems(ys);
  }

  /** A frame as the row parser hands it over. */
  type ParsedFrame = f: Frame | WellFormed(f) witness Frame([], [])

  /** `generate_row` followed by the row parser: given the session state and the
      dataset digest, a new frame. */
  type Synthesizer<!S> = (S, string) -> (ParsedFrame, S)

  datatype Stop = Converged | Stalled | Failed(error: Raised)

  datatype Run<S> = Run(stop: Stop, data: Frame, state: S, iterations: nat)

  /** The accumulated dataset: well formed, no duplicate row, no rows before columns. */
  predicate Accumulated(d: Frame) {
    WellFormed(d) && Distinct(d.rows) && (|d.columns| == 0 ==> |d.rows| == 0)
  }

  /** The convergence loop, from a dataset and a count of consecutive passes
      that added no row. */
  function Converge<S>(
    synth: Synthesizer<S>, summarize: Frame -> string, target: nat, stallCap: nat,
    data: Frame, stall: nat, s: S): (r: Run<S>)
    requires Accumulated(data) && stall <= stallCap
    ensures Accumulated(r.data)
    ensures r.stop == Converged <==> |r.data.rows| >= target
    ensures |data.rows| <= |r.data.rows| && r.data.rows[..|data.rows|] == data.rows
    ensures |data.columns| > 0 ==> r.data.columns == data.columns
    ensures |data.rows| < target ==> r.iterations > 0
    ensures r.stop == Stalled ==> r.iterations >= stallCap + 1 - stall
    ensures r.stop.Failed? ==> r.stop.error.kind == "ValueError"
    decreases if |data.rows| < target then target - |data.rows| else 0, stallCap - stall
  {
    if |data.rows| >= target then Run(Converged, data, s, 0)
    else
      var (incoming, s1) := synth(s, DatasetSummary(data, summarize));
      if IsEmptyFrame(incoming) then
        if stall + 1 > stallCap then Run(Stalled, data, s1, 1)
        else
          var rest := Converge(synth, summarize, target, stallCap, data, stall + 1, s1);
          Run(rest.stop, rest.data, rest.state, 1 + rest.iterations)
      else
        match Merge(data, incoming)
        case Err(e) => Run(Failed(e), data, s1, 1)
        case Ok(merged) =>
          assert |data.columns| > 0 ==> merged.rows[..|data.rows|] == data.rows;
          var stall' := if |merged.rows| > |data.rows| then 0 else stall + 1;
          if stall' > stallCap then Run(Stalled, merged, s1, 1)
          else
            var rest := Converge(synth, summarize, target, stallCap, merged, stall', s1);
            Run(rest.stop, rest.data, rest.state, 1 + rest.iterations)
  }

  /** `create_rows` with the intended loop: start from an empty frame. */
  function CreateRows<S>(synth: Synthesizer<S>, summarize: Frame -> string, target: nat, stallCap: nat, s: S): (r: Run<S>)
    ensures Accumulated(r.data)
    ensures r.stop == Converged <==> |r.data.rows| >= target
    ensures target > 0 ==> r.iterations > 0
    ensures r.stop.Failed? ==> r.stop.error.kind == "ValueError"
  {
    Converge(synth, summarize, target, stallCap, Frame([], []), 0, s)
  }

  /** A synthesizer that only ever returns empty frames stops the loop by
      stalling after exactly `stallCap + 1 - stall` passes. */
  lemma {:induction false} EmptyOutputStalls<S>(
    synth: Synthesizer<S>, summarize: Frame -> string, target: nat, stallCap: nat,
    data: Frame, stall: nat, s: S)
    requires Accumulated(data) && stall <= stallCap && |data.rows| < target
    requires forall s0, digest :: IsEmptyFrame(synth(s0, digest).0)
    ensures Converge(synth, summarize, target, stallCap, data, stall, s).stop == Stalled
    ensures Converge(synth, summarize, target, stallCap, data, stall, s).iterations == stallCap + 1 - stall
    ensures Converge(synth, summarize, target, stallCap, data, stall, s).data == data
    decreases stallCap - stall
  {
    var (incoming, s1) := synth(s, DatasetSummary(data, summarize));
    assert IsEmptyFrame(incoming);
    if stall + 1 <= stallCap {
      EmptyOutputStalls(synth, summarize, target, stallCap, data, stall + 1, s1);
    }
  }

  /** A frame that adds nothing to `data`: the same column set, and every
      row, put in `data`'s column order, already collected. */
  predicate Repeats(f: ParsedFrame, data: Frame) {
    Elems(f.columns) == Elems(data.columns)
    && forall i | 0 <= i < |Aligned(f, data.columns)| :: Aligned(f, data.columns)[i] in Elems(data.rows)
  }

  /** Merging a frame that only repeats collected rows leaves the dataset as
      it is. */
  lemma {:induction false} MergeRepeats(data: Frame, incoming: ParsedFrame)
    requires Accumulated(data) && |data.columns| > 0
    requires Repeats(incoming, data)
    ensures Merge(data, incoming) == Ok(data)
  {
    FirstSightingsAllVisited(Elems(data.rows), Aligned(incoming, data.columns));
    assert data.rows + [] == data.rows;
  }

  /** A synthesizer that only ever hands back rows already collected stops
      the loop by stalling after exactly `stallCap + 1 - stall` passes, with
      the dataset unchanged. */
  lemma {:induction false} RepeatedOutputStalls<S>(
    synth: Synthesizer<S>, summarize: Frame -> string, target: nat, stallCap: nat,
    data: Frame, stall: nat, s: S)
    requires Accumulated(data) && stall <= stallCap && |data.rows| < target && |data.columns| > 0
    requires forall s0, digest :: Repeats(synth(s0, digest).0, data)
    ensures Converge(synth, summarize, target, stallCap, data, stall, s).stop == Stalled
    ensures Converge(synth, summarize, target, stallCap, data, stall, s).iterations == stallCap + 1 - stall
    ensures Converge(synth, summarize, target, stallCap, data, stall, s).data == data
    decreases stallCap - stall
  {
    var (incoming, s1) := synth(s, DatasetSummary(data, summarize));
    if !IsEmptyFrame(incoming) {
      MergeRepeats(data, incoming);
    }
    StallStep(synth, summarize, target, stallCap, data, stall, s);
    if stall + 1 <= stallCap {
      RepeatedOutputStalls(synth, summarize, target, stallCap, data, stall + 1, s1);
    }
  }

  /** A pass that leaves the dataset as it is counts as a stalled pass. This
      is one unfolding of `Converge`, stated for use in the stall lemmas. */
  lemma {:induction false} StallStep<S>(
    synth: Synthesizer<S>, summarize: Frame -> string, target: nat, stallCap: nat,
    data: Frame, stall: nat, s: S)
    requires Accumulated(data) && stall <= stallCap && |data.rows| < target
    requires var incoming := synth(s, DatasetSummary(data, summarize)).0;
      IsEmptyFrame(incoming) || Merge(data, incoming) == Ok(data)
    ensures var s1 := synth(s, DatasetSummary(data, summarize)).1;
      var r := Converge(synth, summarize, target, stallCap, data, stall, s);
      if stall + 1 > stallCap then r == Run(Stalled, data, s1, 1)
      else
        var rest := Converge(synth, summarize, target, stallCap, data, stall + 1, s1);
        r == Run(rest.stop, rest.data, rest.state, 1 + rest.iterations)
  {
  }

  /** One pass with a non-empty frame merges it: a failed merge ends the loop
      at once with the dataset as it was, and a successful one is kept as a
      prefix of everything that follows. When the dataset already has columns,
      that prefix is the collected rows followed by the new rows not yet seen.
      This is one unfolding of `Converge` together with `Merge`'s contract. */
  lemma {:induction false} PassMerges<S>(
    synth: Synthesizer<S>, summarize: Frame -> string, target: nat, stallCap: nat,
    data: Frame, stall: nat, s: S)
    requires Accumulated(data) && stall <= stallCap && |data.rows| < target
    requires !IsEmptyFrame(synth(s, DatasetSummary(data, summarize)).0)
    ensures var p := synth(s, DatasetSummary(data, summarize));
      var m := Merge(data, p.0);
      var r := Converge(synth, summarize, target, stallCap, data, stall, s);
      (m.Err? ==> r == Run(Failed(m.error), data, p.1, 1))
      && (m.Ok? ==>
            r.data.columns == m.value.columns
            && |m.value.rows| <= |r.data.rows| && r.data.rows[..|m.value.rows|] == m.value.rows)
      && (m.Ok? && |data.columns| > 0 ==>
            m.value.rows == data.rows + FirstSightings(Elems(data.rows), Aligned(p.0, data.columns)))
  {
  }

  /** A non-empty frame whose column set differs from the dataset's ends the
      loop after one pass with a ValueError, the dataset unchanged. */
  lemma {:induction false} MismatchFails<S>(
    synth: Synthesizer<S>, summarize: Frame -> string, target: nat, stallCap: nat,
    data: Frame, stall: nat, s: S)
    requires Accumulated(data) && stall <= stallCap && |data.rows| < target && |data.columns| > 0
    requires var incoming := synth(s, DatasetSummary(data, summarize)).0;
      !IsEmptyFrame(incoming) && Elems(incoming.columns) != Elems(data.columns)
    ensures var r := Converge(synth, summarize, target, stallCap, data, stall, s);
      r.stop.Failed? && r.stop.error.kind == "ValueError" && r.data == data && r.iterations == 1
  {
    PassMerges(synth, summarize, target, stallCap, data, stall, s);
  }

  /** A frame that adds to `data`: the same column set, and at least one row,
      put in `data`'s column order, not collected yet. */
  predicate Grows(f: ParsedFrame, data: Frame) {
    Elems(f.columns) == Elems(data.columns)
    && exists i | 0 <= i < |f.rows| :: Aligned(f, data.columns)[i] !in Elems(data.rows)
  }

  /** One pass of a productive synthesizer: from a state with `inv` for the
      dataset `d`, the frame brings a new row, merges, and the next state has
      `inv` for the merged dataset. */
  predicate ProductivePass<S>(
    synth: Synthesizer<S>, summarize: Frame -> string, inv: (S, Frame) -> bool, s: S, d: Frame)
    requires Accumulated(d)
  {
    var p := synth(s, DatasetSummary(d, summarize));
    Grows(p.0, d) && Merge(d, p.0).Ok? && inv(p.1, Merge(d, p.0).value)
  }

  /** Every pass the loop can make below the target, over datasets with the
      columns `cols` and states related to them by `inv`, is productive. */
  ghost predicate Productive<S(!new)>(
    synth: Synthesizer<S>, summarize: Frame -> string, target: nat, cols: seq<string>, inv: (S, Frame) -> bool)
  {
    forall s, d | Accumulated(d) && d.columns == cols && |d.rows| < target && inv(s, d) ::
      ProductivePass(synth, summarize, inv, s, d)
  }

  /** A productive synthesizer makes the loop converge, after at most one pass
      per missing row. */
  lemma {:induction false} GrowingOutputConverges<S(!new)>(
    synth: Synthesizer<S>, summarize: Frame -> string, target: nat, stallCap: nat,
    cols: seq<string>, inv: (S, Frame) -> bool, data: Frame, stall: nat, s: S)
    requires Accumulated(data) && stall <= stallCap && data.columns == cols && |cols| > 0
    requires inv(s, data) && Productive(synth, summarize, target, cols, inv)
    ensures Converge(synth, summarize, target, stallCap, data, stall, s).stop == Converged
    ensures Converge(synth, summarize, target, stallCap, data, stall, s).iterations
      <= if |data.rows| < target then target - |data.rows| else 0
    decreases if |data.rows| < target then target - |data.rows| else 0
  {
    if |data.rows| < target {
      assert ProductivePass(synth, summarize, inv, s, data);
      var p := synth(s, DatasetSummary(data, summarize));
      var incoming := p.0;
      var aligned := Aligned(incoming, data.columns);
      var i :| 0 <= i < |incoming.rows| && aligned[i] !in Elems(data.rows);
      FirstSightingsMembers(Elems(data.rows), aligned);
      assert aligned[i] in FirstSightings(Elems(data.rows), aligned);
      assert data.columns[0] in Elems(incoming.columns);
      PassMerges(synth, summarize, target, stallCap, data, stall, s);
      var m := Merge(data, incoming).value;
      assert |m.rows| > |data.rows|;
      GrowingOutputConverges(synth, summarize, target, stallCap, cols, inv, m, 0, p.1);
    }
  }

  /** `create_rows` with a synthesizer whose first frame has the columns `cols`
      and some row, and that is productive from then on, reaches any positive
      target within `target` passes. */
  lemma {:induction false} GrowingOutputCreatesRows<S(!new)>(
    synth: Synthesizer<S>, summarize: Frame -> string, target: nat, stallCap: nat,
    cols: seq<string>, inv: (S, Frame) -> bool, s: S)
    requires |cols| > 0 && target > 0
    requires var p := synth(s, NothingCollected);
      p.0.columns == cols && |p.0.rows| > 0 && inv(p.1, Merge(Frame([], []), p.0).value)
    requires Productive(synth, summarize, target, cols, inv)
    ensures CreateRows(synth, summarize, target, stallCap, s).stop == Converged
    ensures CreateRows(synth, summarize, target, stallCap, s).iterations <= target
  {
    var empty := Frame([], []);
    assert DatasetSummary(empty, summarize) == NothingCollected;
    var p := synth(s, NothingCollected);
    var m := Merge(empty, p.0).value;
    assert Elems(m.rows) == Elems(Aligned(p.0, cols));
    assert Aligned(p.0, cols)[0] in Elems(m.rows);
    PassMerges(synth, summarize, target, stallCap, empty, 0, s);
    GrowingOutputConverges(synth, summarize, target, stallCap, cols, inv, m, 0, p.1);
  }

  /** A synthesizer that, on its k-th pass, answers with one row whose single
      "pass" cell is k in decimal. */
  function PassCounter(k: nat, digest: string): (r: (ParsedFrame, nat))
    ensures r.0.columns == ["pass"] && r.0.rows == [[Some(EncodeNat(k))]]
    ensures r.1 == k + 1
  {
    (Frame(["pass"], [[Some(EncodeNat(k))]]), k + 1)
  }

  /** Every collected row is the row of an earlier pass than `k`. */
  predicate EarlierPasses(k: nat, d: Frame) {
    forall i | 0 <= i < |d.rows| :: exists j | 0 <= j < k :: d.rows[i] == [Some(EncodeNat(j))]
  }

  /** The pass counter is productive with `EarlierPasses` as the invariant. */
  lemma {:induction false} PassCounterProductive(summarize: Frame -> string, target: nat)
    ensures Productive(PassCounter, summarize, target, ["pass"], EarlierPasses)
  {
    forall k: nat, d | Accumulated(d) && d.columns == ["pass"] && |d.rows| < target && EarlierPasses(k, d)
      ensures ProductivePass(PassCounter, summarize, EarlierPasses, k, d)
    {
      PassCounterStep(summarize, k, d);
    }
  }

  lemma {:induction false} PassCounterStep(summarize: Frame -> string, k: nat, d: Frame)
    requires Accumulated(d) && d.columns == ["pass"] && EarlierPasses(k, d)
    ensures ProductivePass(PassCounter, summarize, EarlierPasses, k, d)
  {
    var f := PassCounter(k, DatasetSummary(d, summarize)).0;
    var row := [Some(EncodeNat(k))];
    var aligned := Aligned(f, d.columns);
    assert aligned[0] == row by {
      assert aligned[0] == Realign(f.rows[0], f.columns, d.columns);
    }
    assert row !in Elems(d.rows) by {
      if row in d.rows {
        var i :| 0 <= i < |d.rows| && d.rows[i] == row;
        var j :| 0 <= j < k && d.rows[i] == [Some(EncodeNat(j))];
        assert EncodeNat(j) == EncodeNat(k);
        DigitsOfEncode(j);
        DigitsOfEncode(k);
        assert false;
      }
    }
    assert Grows(f, d);
    var m := Merge(d, f).value;
    assert Elems(aligned) == {row};
    forall i | 0 <= i < |m.rows| ensures exists j | 0 <= j < k + 1 :: m.rows[i] == [Some(EncodeNat(j))] {
      assert m.rows[i] in Elems(m.rows);
      if m.rows[i] != row {
        assert m.rows[i] in Elems(d.rows);
        var i' :| 0 <= i' < |d.rows| && d.rows[i'] == m.rows[i];
      }
    }
    assert EarlierPasses(k + 1, m);
  }

  /** The first pass of the counter collects its row for pass 0. */
  lemma {:induction false} PassCounterFirstPass()
    ensures var p := PassCounter(0, NothingCollected);
      EarlierPasses(p.1, Merge(Frame([], []), p.0).value)
  {
    var f := PassCounter(0, NothingCollected).0;
    var m := Merge(Frame([], []), f).value;
    var row := [Some(EncodeNat(0))];
    assert Aligned(f, ["pass"])[0] == row;
    assert Elems(m.rows) == Elems(Aligned(f, ["pass"]));
    forall i | 0 <= i < |m.rows| ensures m.rows[i] == row {
      assert m.rows[i] in Elems(m.rows);
    }
  }

  /** The pass counter reaches any target: the loop converges within `target`
      passes, so the stall budget never ends a run that keeps adding rows. */
  lemma {:induction false} PassCounterConverges(summarize: Frame -> string, target: nat, stallCap: nat)
    ensures CreateRows(PassCounter, summarize, target, stallCap, 0).stop == Converged
    ensures CreateRows(PassCounter, summarize, target, stallCap, 0).iterations <= target
  {
    if target > 0 {
      PassCounterProductive(summarize, target);
      PassCounterFirstPass();
      GrowingOutputCreatesRows(PassCounter, summarize, target, stallCap, ["pass"], EarlierPasses, 0);
    }
  }
}
