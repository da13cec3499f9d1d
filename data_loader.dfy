/**
 * The sample loaders of the backend: `load_all_samples` of the CSV and the
 * image loader, which read the downloaded files in order, collect one feature
 * row and one predictor per sample, and attribute to every shard the
 * half-open range of sample indices that came from it; and `vecs_as_matrix`,
 * which flattens the feature rows into a row-major matrix.
 *
 * Reading a file is outside the model: a CSV file is given as its records
 * (each a sequence of cells of an opaque type `C`), an image as its pixel
 * values and the label its file name carries.
 */
module DataLoader {
  import opened Wrappers
  import opened Sequences

  /** `Some(i)` for on-chain shard `i`, `None` for the proposed shard. */
  type ShardId = Option<nat>

  /** A half-open range of sample indices, `start..end`. */
  datatype Range = Range(start: nat, end: nat)
  {
    predicate Contains(s: nat)
    {
      start <= s < end
    }
  }

  // ---------------------------------------------------------------------------
  // The attribution, specified over the files' shards and sample counts
  // ---------------------------------------------------------------------------

  /** One input file as the attribution sees it: its shard and how many samples it holds. */
  datatype Entry = Entry(shard: ShardId, count: nat)

  /** A maximal stretch of consecutive files with the same shard, and the samples they hold. */
  datatype Run = Run(shard: ShardId, range: Range)

  function Total(es: seq<Entry>): nat
  {
    if es == [] then 0 else Total(es[..|es| - 1]) + es[|es| - 1].count
  }

  /** The shard of every sample, in sample order. */
  function Labels(es: seq<Entry>): (ls: seq<ShardId>)
    ensures |ls| == Total(es)
  {
    if es == [] then [] else Labels(es[..|es| - 1]) + seq(es[|es| - 1].count, _ => es[|es| - 1].shard)
  }

  function ShardsOf(es: seq<Entry>): set<ShardId>
  {
    set i | 0 <= i < |es| :: es[i].shard
  }

  /** The ranges of `rs` follow each other without gap from sample 0 to sample `n`. */
  ghost predicate Consecutive(rs: seq<Run>, n: nat)
  {
    (rs == [] ==> n == 0)
    && (rs != [] ==> rs[0].range.start == 0 && rs[|rs| - 1].range.end == n)
    && (forall i :: 0 <= i < |rs| ==> rs[i].range.start <= rs[i].range.end)
    && (forall i, j :: 0 <= i && j == i + 1 && j < |rs| ==> rs[i].range.end == rs[j].range.start)
  }

  /** The runs of equal shards in the file list, in order. */
  function Runs(es: seq<Entry>): (rs: seq<Run>)
    ensures |rs| <= |es| && (rs == [] <==> es == [])
    ensures es != [] ==> rs[|rs| - 1].shard == es[|es| - 1].shard && rs[|rs| - 1].range.end == Total(es)
  {
    if es == [] then []
    else
      var rs := Runs(es[..|es| - 1]);
      var e := es[|es| - 1];
      if rs != [] && rs[|rs| - 1].shard == e.shard then
        var last := rs[|rs| - 1];
        rs[..|rs| - 1] + [Run(e.shard, Range(last.range.start, last.range.end + e.count))]
      else
        rs + [Run(e.shard, Range(Total(es[..|es| - 1]), Total(es)))]
  }

  /** Neighbouring runs belong to different shards: no run could be merged into the next. */
  ghost predicate Maximal(rs: seq<Run>)
  {
    forall i, j :: 0 <= i && j == i + 1 && j < |rs| ==> rs[i].shard != rs[j].shard
  }

  /**
   * The runs are maximal and tile the samples: their ranges follow each other
   * without gap from sample 0 to the last sample, and two neighbouring runs
   * belong to different shards.
   */
  lemma {:induction false} RunsTile(es: seq<Entry>)
    ensures Consecutive(Runs(es), Total(es)) && Maximal(Runs(es))
  {
    if es != [] {
      var init, e := es[..|es| - 1], es[|es| - 1];
      assert es == init + [e];
      RunsTile(init);
      RunsTileSnoc(init, e);
    }
  }

  lemma {:induction false} RunsTileSnoc(es: seq<Entry>, e: Entry)
    requires Consecutive(Runs(es), Total(es)) && Maximal(Runs(es))
    ensures Consecutive(Runs(es + [e]), Total(es + [e])) && Maximal(Runs(es + [e]))
  {
    var rs := Runs(es);
    if rs != [] && rs[|rs| - 1].shard == e.shard {
      RunsTileExtend(es, e);
    } else {
      RunsTileOpen(es, e);
    }
  }

  lemma {:induction false} RunsTileExtend(es: seq<Entry>, e: Entry)
    requires Consecutive(Runs(es), Total(es)) && Maximal(Runs(es))
    requires Runs(es) != [] && Runs(es)[|Runs(es)| - 1].shard == e.shard
    ensures Consecutive(Runs(es + [e]), Total(es + [e])) && Maximal(Runs(es + [e]))
  {
    TotalSnoc(es, e);
    RunsExtendLast(es, e);
    TileExtendLast(Runs(es), Total(es), e.count, Runs(es + [e]), Total(es + [e]));
  }

  lemma {:induction false} RunsTileOpen(es: seq<Entry>, e: Entry)
    requires Consecutive(Runs(es), Total(es)) && Maximal(Runs(es))
    requires Runs(es) == [] || Runs(es)[|Runs(es)| - 1].shard != e.shard
    ensures Consecutive(Runs(es + [e]), Total(es + [e])) && Maximal(Runs(es + [e]))
  {
    TotalSnoc(es, e);
    RunsOpen(es, e);
    TileAppend(Runs(es), Total(es), Run(e.shard, Range(Total(es), Total(es) + e.count)), Runs(es + [e]));
  }

  lemma {:induction false} RunsExtendLast(es: seq<Entry>, e: Entry)
    requires Runs(es) != [] && Runs(es)[|Runs(es)| - 1].shard == e.shard
    ensures var rs, last := Runs(es), Runs(es)[|Runs(es)| - 1];
      Runs(es + [e]) == rs[..|rs| - 1] + [Run(last.shard, Range(last.range.start, last.range.end + e.count))]
  {
    RunsSnoc(es, e);
  }

  lemma {:induction false} RunsOpen(es: seq<Entry>, e: Entry)
    requires Runs(es) == [] || Runs(es)[|Runs(es)| - 1].shard != e.shard
    ensures Runs(es + [e]) == Runs(es) + [Run(e.shard, Range(Total(es), Total(es) + e.count))]
  {
    RunsSnoc(es, e);
  }

  lemma {:induction false} TileExtendLast(rs: seq<Run>, n: nat, count: nat, rs': seq<Run>, n': nat)
    requires rs != [] && Consecutive(rs, n) && Maximal(rs)
    requires var last := rs[|rs| - 1];
      rs' == rs[..|rs| - 1] + [Run(last.shard, Range(last.range.start, last.range.end + count))]
    requires n' == n + count
    ensures Consecutive(rs', n') && Maximal(rs')
  {
    assert forall i :: 0 <= i < |rs| - 1 ==> rs'[i] == rs[i];
  }

  lemma {:induction false} TileAppend(rs: seq<Run>, n: nat, r: Run, rs': seq<Run>)
    requires Consecutive(rs, n) && Maximal(rs)
    requires rs != [] ==> rs[|rs| - 1].shard != r.shard
    requires r.range.start == n <= r.range.end
    requires rs' == rs + [r]
    ensures Consecutive(rs', r.range.end) && Maximal(rs')
  {
    assert forall i :: 0 <= i < |rs| ==> rs'[i] == rs[i];
  }

  /**
   * The shard-to-range map after inserting the runs in order: `HashMap::insert`
   * overwrites, so a shard that appears in several runs keeps its last range.
   */
  function Attributions(rs: seq<Run>): (m: map<ShardId, Range>)
    ensures m.Keys == set i | 0 <= i < |rs| :: rs[i].shard
  {
    if rs == [] then map[]
    else
      var init := rs[..|rs| - 1];
      assert forall i :: 0 <= i < |init| ==> init[i] == rs[i];
      Attributions(init)[rs[|rs| - 1].shard := rs[|rs| - 1].range]
  }

  /** Every shard occupies one stretch of consecutive files. */
  predicate ContiguousShards(es: seq<Entry>)
  {
    forall i, j, k :: 0 <= i < j < k < |es| && es[i].shard == es[k].shard ==> es[j].shard == es[i].shard
  }

  /** The ranges of `m` are pairwise disjoint and together cover exactly the samples `0..n`. */
  ghost predicate Partitions(m: map<ShardId, Range>, n: nat)
  {
    (forall id :: id in m ==> m[id].start <= m[id].end <= n)
    && (forall id1, id2, s :: id1 in m && id2 in m && m[id1].Contains(s) && m[id2].Contains(s) ==> id1 == id2)
    && (forall s: nat :: s < n ==> Attributed(m, s))
  }

  /** Some range of `m` holds sample `s`. */
  ghost predicate Attributed(m: map<ShardId, Range>, s: nat)
  {
    exists id :: id in m && m[id].Contains(s)
  }

  lemma {:induction false} RunsSnoc(es: seq<Entry>, e: Entry)
    ensures var rs := Runs(es);
      Runs(es + [e]) ==
        if rs != [] && rs[|rs| - 1].shard == e.shard then
          rs[..|rs| - 1] + [Run(e.shard, Range(rs[|rs| - 1].range.start, rs[|rs| - 1].range.end + e.count))]
        else
          rs + [Run(e.shard, Range(Total(es), Total(es) + e.count))]
  {
    var all := es + [e];
    assert all[..|all| - 1] == es && all[|all| - 1] == e;
    TotalSnoc(es, e);
  }

  lemma {:induction false} AttributionsSnoc(rs: seq<Run>, r: Run)
    ensures Attributions(rs + [r]) == Attributions(rs)[r.shard := r.range]
  {
    assert (rs + [r])[..|rs|] == rs;
  }

  lemma {:induction false} TotalSnoc(es: seq<Entry>, e: Entry)
    ensures Total(es + [e]) == Total(es) + e.count
  {
    assert (es + [e])[..|es|] == es;
  }

  lemma {:induction false} LabelsSnoc(es: seq<Entry>, e: Entry)
    ensures Labels(es + [e]) == Labels(es) + seq(e.count, _ => e.shard)
  {
    assert (es + [e])[..|es|] == es;
  }

  lemma {:induction false} LabelsAreShards(es: seq<Entry>, s: nat)
    requires s < Total(es)
    ensures Labels(es)[s] in ShardsOf(es)
  {
    var init, e := es[..|es| - 1], es[|es| - 1];
    assert es == init + [e];
    LabelsSnoc(init, e);
    if s < Total(init) {
      LabelsAreShards(init, s);
      var i :| 0 <= i < |init| && init[i].shard == Labels(init)[s];
      assert es[i] == init[i];
    } else {
      assert es[|es| - 1] == e;
    }
  }

  /** A shard listed after the last file that is not in the same run never occurred before it. */
  lemma {:induction false} ContiguousNewShard(es: seq<Entry>, e: Entry)
    requires ContiguousShards(es + [e])
    requires es != [] && es[|es| - 1].shard != e.shard
    ensures e.shard !in ShardsOf(es)
  {
    var all := es + [e];
    forall i | 0 <= i < |es|
      ensures es[i].shard != e.shard
    {
      assert all[i] == es[i] && all[|es| - 1] == es[|es| - 1] && all[|es|] == e;
    }
  }

  lemma {:induction false} ContiguousPrefix(es: seq<Entry>, e: Entry)
    requires ContiguousShards(es + [e])
    ensures ContiguousShards(es)
  {
    var all := es + [e];
    forall i, j, k | 0 <= i < j < k < |es| && es[i].shard == es[k].shard
      ensures es[j].shard == es[i].shard
    {
      assert all[i] == es[i] && all[j] == es[j] && all[k] == es[k];
    }
  }

  /**
   * `m` attributes the samples of `es` exactly: its keys are the shards of the
   * files, every range lies within the samples read, a range holds precisely
   * the samples read from its shard, and the shard of the last file owns a
   * range ending at the last sample.
   */
  ghost predicate AttributesExactly(m: map<ShardId, Range>, es: seq<Entry>)
  {
    m.Keys == ShardsOf(es)
    && (forall id :: id in m ==> m[id].start <= m[id].end <= Total(es))
    && (forall id, s: nat :: id in m && s < Total(es) ==> (m[id].Contains(s) <==> Labels(es)[s] == id))
    && (es != [] ==> m[es[|es| - 1].shard].end == Total(es))
  }

  /**
   * When every shard is one stretch of files, each shard's range holds exactly
   * the samples read from that shard, and only the shards of the input are
   * keys.
   */
  lemma {:induction false} AttributionsExact(es: seq<Entry>)
    requires ContiguousShards(es)
    ensures AttributesExactly(Attributions(Runs(es)), es)
  {
    if es != [] {
      var init, e := es[..|es| - 1], es[|es| - 1];
      assert es == init + [e];
      ContiguousPrefix(init, e);
      AttributionsExact(init);
      AttributionsExactStep(init, e);
    }
  }

  lemma {:induction false} AttributionsExactStep(es: seq<Entry>, e: Entry)
    requires ContiguousShards(es + [e])
    requires AttributesExactly(Attributions(Runs(es)), es)
    ensures AttributesExactly(Attributions(Runs(es + [e])), es + [e])
  {
    var m := Attributions(Runs(es));
    ShardsSnoc(es, e);
    if es == [] || es[|es| - 1].shard != e.shard {
      AttributionsOpen(es, e);
      if es != [] {
        ContiguousNewShard(es, e);
      }
      ExtendExactly(m, es, e, Total(es));
    } else {
      AttributionsExtend(es, e);
      ExtendExactly(m, es, e, m[e.shard].start);
    }
  }

  /** A file of the same shard as the previous one extends that shard's range to its own last sample. */
  lemma {:induction false} AttributionsExtend(es: seq<Entry>, e: Entry)
    requires es != [] && es[|es| - 1].shard == e.shard
    ensures e.shard in Attributions(Runs(es))
    ensures Attributions(Runs(es + [e]))
            == Attributions(Runs(es))[e.shard := Range(Attributions(Runs(es))[e.shard].start, Total(es) + e.count)]
  {
    var rs := Runs(es);
    var last := rs[|rs| - 1];
    RunsSnoc(es, e);
    assert rs == rs[..|rs| - 1] + [last];
    AttributionsSnoc(rs[..|rs| - 1], last);
    AttributionsSnoc(rs[..|rs| - 1], Run(e.shard, Range(last.range.start, last.range.end + e.count)));
  }

  /** The first file, or a file of another shard than the previous one, gives its shard a range of its own samples. */
  lemma {:induction false} AttributionsOpen(es: seq<Entry>, e: Entry)
    requires es == [] || es[|es| - 1].shard != e.shard
    ensures Attributions(Runs(es + [e])) == Attributions(Runs(es))[e.shard := Range(Total(es), Total(es) + e.count)]
  {
    RunsSnoc(es, e);
    AttributionsSnoc(Runs(es), Run(e.shard, Range(Total(es), Total(es) + e.count)));
  }

  lemma {:induction false} ShardsSnoc(es: seq<Entry>, e: Entry)
    ensures ShardsOf(es + [e]) == ShardsOf(es) + {e.shard}
  {
    var all := es + [e];
    forall id | id in ShardsOf(all) ensures id in ShardsOf(es) + {e.shard} {
      var i :| 0 <= i < |all| && all[i].shard == id;
      if i < |es| { assert es[i] == all[i]; }
    }
    forall id | id in ShardsOf(es) ensures id in ShardsOf(all) {
      var i :| 0 <= i < |es| && es[i].shard == id;
      assert all[i] == es[i];
    }
    assert all[|es|] == e;
  }

  /**
   * The step of the exactness proof on maps: giving the new file's samples to
   * its shard, starting at `start`, keeps the attribution exact, provided the
   * shard is new or is the shard of the previous file.
   */
  lemma {:induction false} ExtendExactly(m: map<ShardId, Range>, es: seq<Entry>, e: Entry, start: nat)
    requires AttributesExactly(m, es)
    requires ShardsOf(es + [e]) == ShardsOf(es) + {e.shard}
    requires (e.shard !in m && start == Total(es))
          || (es != [] && es[|es| - 1].shard == e.shard && start == m[e.shard].start)
    ensures AttributesExactly(m[e.shard := Range(start, Total(es) + e.count)], es + [e])
  {
    var n := Total(es);
    var all := es + [e];
    var m' := m[e.shard := Range(start, n + e.count)];
    TotalSnoc(es, e);
    LabelsSnoc(es, e);
    assert all[|all| - 1] == e;
    forall id, s: nat | id in m' && s < Total(all)
      ensures m'[id].Contains(s) <==> Labels(all)[s] == id
    {
      if s < n {
        assert Labels(all)[s] == Labels(es)[s];
        if id == e.shard && e.shard !in m {
          LabelsAreShards(es, s);
        }
      } else {
        assert Labels(all)[s] == e.shard;
      }
    }
  }

  /**
   * No file, no range; otherwise the shard of the last file has a range, and
   * it ends at the last sample.
   */
  lemma {:induction false} AttributionsEnd(es: seq<Entry>)
    ensures es == [] ==> Attributions(Runs(es)) == map[]
    ensures es != [] ==> es[|es| - 1].shard in Attributions(Runs(es))
                         && Attributions(Runs(es))[es[|es| - 1].shard].end == Total(es)
  {
  }

  /** The main attribution property: contiguous shards give ranges that partition the samples `0..n`. */
  lemma {:induction false} AttributionsPartition(es: seq<Entry>)
    requires ContiguousShards(es)
    ensures Partitions(Attributions(Runs(es)), Total(es))
  {
    AttributionsExact(es);
    var m := Attributions(Runs(es));
    forall s: nat | s < Total(es)
      ensures Attributed(m, s)
    {
      LabelsAreShards(es, s);
      assert m[Labels(es)[s]].Contains(s);
    }
    forall id1, id2, s: nat | id1 in m && id2 in m && m[id1].Contains(s) && m[id2].Contains(s)
      ensures id1 == id2
    {
      assert m[id1].end <= Total(es);
      assert Labels(es)[s] == id1 && Labels(es)[s] == id2;
    }
  }

  /** Whatever the order of the files, a shard's range is the range of its last run. */
  lemma {:induction false} AttributionIsLastRun(rs: seq<Run>, k: nat)
    requires k < |rs|
    requires forall j :: k < j < |rs| ==> rs[j].shard != rs[k].shard
    ensures Attributions(rs)[rs[k].shard] == rs[k].range
  {
    var init := rs[..|rs| - 1];
    if k < |rs| - 1 {
      forall j | k < j < |init|
        ensures init[j].shard != init[k].shard
      {
        assert init[j] == rs[j];
      }
      AttributionIsLastRun(init, k);
      assert init[k] == rs[k];
    }
  }

  /**
   * A shard that comes back after another one loses its first range: of the
   * files (shard 0, 2 samples), (shard 1, 1 sample), (shard 0, 3 samples), the
   * first two samples end up attributed to no shard.
   */
  lemma {:induction false} ReappearingShardLosesRange()
    ensures var es := [Entry(Some(0), 2), Entry(Some(1), 1), Entry(Some(0), 3)];
      Attributions(Runs(es)) == map[Some(0) := Range(3, 6), Some(1) := Range(2, 3)]
      && !Attributed(Attributions(Runs(es)), 0)
  {
    var e0, e1, e2 := Entry(Some(0), 2), Entry(Some(1), 1), Entry(Some(0), 3);
    RunsSnoc([], e0);
    assert [e0] == [] + [e0];
    RunsSnoc([e0], e1);
    TotalSnoc([], e0);
    TotalSnoc([e0], e1);
    RunsSnoc([e0, e1], e2);
    assert [e0] + [e1] == [e0, e1];
    assert [e0, e1] + [e2] == [e0, e1, e2];
    var r0, r1, r2 := Run(Some(0), Range(0, 2)), Run(Some(1), Range(2, 3)), Run(Some(0), Range(3, 6));
    assert Runs([e0, e1, e2]) == [r0, r1, r2];
    AttributionsSnoc([], r0);
    assert [r0] == [] + [r0];
    AttributionsSnoc([r0], r1);
    assert [r0] + [r1] == [r0, r1];
    AttributionsSnoc([r0, r1], r2);
    assert [r0, r1] + [r2] == [r0, r1, r2];
  }

  // ---------------------------------------------------------------------------
  // The loaders' bookkeeping, shared by both loaders
  // ---------------------------------------------------------------------------

  /**
   * The loop state of `load_all_samples` after the files `es` (the last one
   * possibly still being read): the map holds every finished run, and the
   * open run is the last one of `Runs(es)`.
   */
  ghost predicate Tracks(es: seq<Entry>, isFirstIter: bool, lastShardOpt: ShardId, lastShardStartIndex: nat,
                         sampleIndex: nat, shardAttributions: map<ShardId, Range>)
  {
    (isFirstIter <==> es == [])
    && sampleIndex == Total(es)
    && (es == [] ==> lastShardStartIndex == 0 && shardAttributions == map[])
    && (es != [] ==>
          var rs := Runs(es);
          lastShardOpt == rs[|rs| - 1].shard
          && lastShardStartIndex == rs[|rs| - 1].range.start
          && shardAttributions == Attributions(rs[..|rs| - 1]))
  }

  /** Entering a file of shard `shard`, before any of its samples is counted. */
  lemma {:induction false} TracksEnter(es: seq<Entry>, isFirstIter: bool, lastShardOpt: ShardId, lastShardStartIndex: nat,
                    sampleIndex: nat, shardAttributions: map<ShardId, Range>, shard: ShardId)
    requires Tracks(es, isFirstIter, lastShardOpt, lastShardStartIndex, sampleIndex, shardAttributions)
    ensures isFirstIter ==>
      Tracks(es + [Entry(shard, 0)], false, shard, lastShardStartIndex, sampleIndex, shardAttributions)
    ensures !isFirstIter && lastShardOpt == shard ==>
      Tracks(es + [Entry(shard, 0)], false, lastShardOpt, lastShardStartIndex, sampleIndex, shardAttributions)
    ensures !isFirstIter && lastShardOpt != shard ==>
      Tracks(es + [Entry(shard, 0)], false, shard, sampleIndex, sampleIndex,
             shardAttributions[lastShardOpt := Range(lastShardStartIndex, sampleIndex)])
  {
    var e := Entry(shard, 0);
    RunsSnoc(es, e);
    TotalSnoc(es, e);
    var rs := Runs(es);
    if rs != [] {
      var last := rs[|rs| - 1];
      assert rs == rs[..|rs| - 1] + [last];
      AttributionsSnoc(rs[..|rs| - 1], last);
      if last.shard == shard {
        var rs' := Runs(es + [e]);
        assert rs'[..|rs'| - 1] == rs[..|rs| - 1];
      } else {
        var rs' := Runs(es + [e]);
        assert rs'[..|rs'| - 1] == rs;
      }
    } else {
      assert Runs(es + [e])[..0] == [];
    }
  }

  /**
   * The bookkeeping at the head of the file loop of both loaders: the first
   * file opens the first run; a file of another shard than the previous one
   * closes the open run, inserting its range into the map, and opens a new one.
   */
  method EnterFile(ghost es: seq<Entry>, isFirstIter: bool, lastShardOpt: ShardId, lastShardStartIndex: nat,
                   sampleIndex: nat, shardAttributions: map<ShardId, Range>, shard: ShardId)
    returns (isFirstIter': bool, lastShardOpt': ShardId, lastShardStartIndex': nat,
             shardAttributions': map<ShardId, Range>)
    requires Tracks(es, isFirstIter, lastShardOpt, lastShardStartIndex, sampleIndex, shardAttributions)
    ensures Tracks(es + [Entry(shard, 0)], isFirstIter', lastShardOpt', lastShardStartIndex', sampleIndex,
                   shardAttributions')
  {
    TracksEnter(es, isFirstIter, lastShardOpt, lastShardStartIndex, sampleIndex, shardAttributions, shard);
    isFirstIter', lastShardOpt', lastShardStartIndex', shardAttributions' :=
      isFirstIter, lastShardOpt, lastShardStartIndex, shardAttributions;
    if isFirstIter {
      lastShardOpt' := shard;
      isFirstIter' := false;
    } else if lastShardOpt != shard {
      shardAttributions' := shardAttributions[lastShardOpt := Range(lastShardStartIndex, sampleIndex)];
      lastShardStartIndex' := sampleIndex;
      lastShardOpt' := shard;
    }
  }

  /** The insertion after the file loop of both loaders: the open run, if any, gets its range. */
  method CloseLastShard(ghost es: seq<Entry>, isFirstIter: bool, lastShardOpt: ShardId, lastShardStartIndex: nat,
                        sampleIndex: nat, shardAttributions: map<ShardId, Range>)
    returns (shardAttributions': map<ShardId, Range>)
    requires Tracks(es, isFirstIter, lastShardOpt, lastShardStartIndex, sampleIndex, shardAttributions)
    ensures shardAttributions' == Attributions(Runs(es))
  {
    TracksFinish(es, isFirstIter, lastShardOpt, lastShardStartIndex, sampleIndex, shardAttributions);
    shardAttributions' := shardAttributions;
    if !isFirstIter {
      shardAttributions' := shardAttributions[lastShardOpt := Range(lastShardStartIndex, sampleIndex)];
    }
  }

  /** Counting the `count` samples of the file just entered. */
  lemma {:induction false} TracksCount(es: seq<Entry>, shard: ShardId, count: nat, lastShardOpt: ShardId,
                                       lastShardStartIndex: nat, sampleIndex: nat, shardAttributions: map<ShardId, Range>)
    requires Tracks(es + [Entry(shard, 0)], false, lastShardOpt, lastShardStartIndex, sampleIndex, shardAttributions)
    ensures Tracks(es + [Entry(shard, count)], false, lastShardOpt, lastShardStartIndex, sampleIndex + count,
                   shardAttributions)
  {
    var e, e' := Entry(shard, 0), Entry(shard, count);
    RunsSnoc(es, e);
    RunsSnoc(es, e');
    TotalSnoc(es, e);
    TotalSnoc(es, e');
    var rs, rs' := Runs(es + [e]), Runs(es + [e']);
    assert rs'[..|rs'| - 1] == rs[..|rs| - 1];
  }
  /** The bookkeeping after file `i` of a loader's file loop: the invariant now covers `es[..i + 1]`. */
  lemma {:induction false} TracksFile(es: seq<Entry>, i: nat, lastShardOpt: ShardId, lastShardStartIndex: nat,
                                      sampleIndex: nat, shardAttributions: map<ShardId, Range>)
    requires i < |es|
    requires Tracks(es[..i] + [Entry(es[i].shard, 0)], false, lastShardOpt, lastShardStartIndex, sampleIndex,
                    shardAttributions)
    ensures Tracks(es[..i + 1], false, lastShardOpt, lastShardStartIndex, sampleIndex + es[i].count,
                   shardAttributions)
  {
    TracksCount(es[..i], es[i].shard, es[i].count, lastShardOpt, lastShardStartIndex, sampleIndex, shardAttributions);
    TakeSnoc(es, i);
  }


  /** After the last file the open run is closed: the map is the attribution of all runs. */
  lemma {:induction false} TracksFinish(es: seq<Entry>, isFirstIter: bool, lastShardOpt: ShardId, lastShardStartIndex: nat,
                     sampleIndex: nat, shardAttributions: map<ShardId, Range>)
    requires Tracks(es, isFirstIter, lastShardOpt, lastShardStartIndex, sampleIndex, shardAttributions)
    ensures !isFirstIter ==>
      shardAttributions[lastShardOpt := Range(lastShardStartIndex, sampleIndex)] == Attributions(Runs(es))
    ensures isFirstIter ==> shardAttributions == Attributions(Runs(es))
  {
    var rs := Runs(es);
    if rs != [] {
      var last := rs[|rs| - 1];
      assert rs == rs[..|rs| - 1] + [last];
      AttributionsSnoc(rs[..|rs| - 1], last);
    }
  }

  // ---------------------------------------------------------------------------
  // CSV loader
  // ---------------------------------------------------------------------------

  /**
   * `CSVLoader`'s configuration. Only the predictor column matters to the
   * model; the delimiter and the header flag configure the CSV reader, which
   * is not part of it.
   */
  datatype CsvLoader = CsvLoader(delimiter: char, predictorColumnIndex: nat, hasHeaders: bool)

  /** The loader `data_loader::new` returns: comma-separated, predictor in column 4, no header row. */
  const DefaultCsvLoader: CsvLoader := CsvLoader(',', 4, false)

  /** A CSV file as the loader reads it: its records, and the shard it was downloaded for. */
  datatype CsvFile<C> = CsvFile(records: seq<seq<C>>, shard: ShardId)

  /** The cells of `record[..k]` outside the predictor column, in order. */
  function FeatureCells<C>(record: seq<C>, predictorColumn: nat, k: nat): (cells: seq<C>)
    requires k <= |record|
    ensures |cells| == if predictorColumn < k then k - 1 else k
  {
    if k == 0 then []
    else FeatureCells(record, predictorColumn, k - 1) + (if k - 1 != predictorColumn then [record[k - 1]] else [])
  }

  /** The feature row of a record: every cell but the predictor column's. */
  function RowFeatures<C>(record: seq<C>, predictorColumn: nat): seq<C>
  {
    FeatureCells(record, predictorColumn, |record|)
  }

  /** The predictor of a record, if it has the predictor column. */
  function RowPredictor<C>(record: seq<C>, predictorColumn: nat): seq<C>
  {
    if predictorColumn < |record| then [record[predictorColumn]] else []
  }

  /** The feature row is the record with the predictor column cut out, or the whole record if it is too short. */
  lemma {:induction false} FeatureCellsSplit<C>(record: seq<C>, predictorColumn: nat, k: nat)
    requires k <= |record|
    ensures predictorColumn < k ==>
      FeatureCells(record, predictorColumn, k) == record[..predictorColumn] + record[predictorColumn + 1..k]
    ensures predictorColumn >= k ==> FeatureCells(record, predictorColumn, k) == record[..k]
  {
    if k > 0 {
      FeatureCellsSplit(record, predictorColumn, k - 1);
      if predictorColumn < k - 1 {
        assert record[predictorColumn + 1..k] == record[predictorColumn + 1..k - 1] + [record[k - 1]];
      } else if predictorColumn == k - 1 {
        assert record[predictorColumn + 1..k] == [];
      } else {
        assert record[..k] == record[..k - 1] + [record[k - 1]];
      }
    }
  }

  /** What a record contributes: a row of `|record| - 1` features and one predictor, or the whole row and none. */
  lemma {:induction false} RecordSplit<C>(record: seq<C>, predictorColumn: nat)
    ensures predictorColumn < |record| ==>
      RowFeatures(record, predictorColumn) == record[..predictorColumn] + record[predictorColumn + 1..]
      && |RowFeatures(record, predictorColumn)| == |record| - 1
      && RowPredictor(record, predictorColumn) == [record[predictorColumn]]
    ensures predictorColumn >= |record| ==>
      RowFeatures(record, predictorColumn) == record && RowPredictor(record, predictorColumn) == []
  {
    FeatureCellsSplit(record, predictorColumn, |record|);
    assert record[..|record|] == record;
  }

  /** The feature rows of the records, in order. */
  function RecordsFeatures<C>(records: seq<seq<C>>, predictorColumn: nat): (rows: seq<seq<C>>)
    ensures |rows| == |records|
    ensures forall j :: 0 <= j < |records| ==> rows[j] == RowFeatures(records[j], predictorColumn)
  {
    seq(|records|, j requires 0 <= j < |records| => RowFeatures(records[j], predictorColumn))
  }

  /** The predictors of the records, in order. */
  function RecordsPredictors<C>(records: seq<seq<C>>, predictorColumn: nat): seq<C>
  {
    if records == [] then []
    else RecordsPredictors(records[..|records| - 1], predictorColumn) + RowPredictor(records[|records| - 1], predictorColumn)
  }

  /** Every file's feature rows, file after file. */
  function CsvFeatures<C>(files: seq<CsvFile<C>>, predictorColumn: nat): seq<seq<C>>
  {
    if files == [] then []
    else CsvFeatures(files[..|files| - 1], predictorColumn) + RecordsFeatures(files[|files| - 1].records, predictorColumn)
  }

  /** Every file's predictors, file after file. */
  function CsvPredictors<C>(files: seq<CsvFile<C>>, predictorColumn: nat): seq<C>
  {
    if files == [] then []
    else CsvPredictors(files[..|files| - 1], predictorColumn) + RecordsPredictors(files[|files| - 1].records, predictorColumn)
  }

  /** A CSV file holds one sample per record. */
  function CsvEntries<C>(files: seq<CsvFile<C>>): (es: seq<Entry>)
    ensures |es| == |files|
    ensures forall i :: 0 <= i < |files| ==> es[i] == Entry(files[i].shard, |files[i].records|)
  {
    seq(|files|, i requires 0 <= i < |files| => Entry(files[i].shard, |files[i].records|))
  }

  /** When every record has the predictor column, there is one predictor per feature row. */
  lemma {:induction false} CsvPredictorPerRow<C>(files: seq<CsvFile<C>>, predictorColumn: nat)
    requires forall i, j :: 0 <= i < |files| && 0 <= j < |files[i].records| ==> predictorColumn < |files[i].records[j]|
    ensures |CsvPredictors(files, predictorColumn)| == |CsvFeatures(files, predictorColumn)|
  {
    if files != [] {
      var init := files[..|files| - 1];
      forall i, j | 0 <= i < |init| && 0 <= j < |init[i].records|
        ensures predictorColumn < |init[i].records[j]|
      {
        assert init[i] == files[i];
      }
      CsvPredictorPerRow(init, predictorColumn);
      RecordsPredictorPerRow(files[|files| - 1].records, predictorColumn);
    }
  }

  lemma {:induction false} RecordsPredictorPerRow<C>(records: seq<seq<C>>, predictorColumn: nat)
    requires forall j :: 0 <= j < |records| ==> predictorColumn < |records[j]|
    ensures |RecordsPredictors(records, predictorColumn)| == |records|
  {
    if records != [] {
      var init := records[..|records| - 1];
      forall j | 0 <= j < |init| ensures predictorColumn < |init[j]| {
        assert init[j] == records[j];
      }
      RecordsPredictorPerRow(init, predictorColumn);
    }
  }

  /**
   * Every record of a file has as many cells as its first one. The reader is
   * built with `flexible(false)`, so a record of another length is a reader
   * error, which `unwrap` turns into a panic.
   */
  predicate SameLength<C>(records: seq<seq<C>>)
  {
    forall j :: 0 <= j < |records| ==> |records[j]| == |records[0]|
  }

  /** Every file keeps its records to one length. */
  predicate SameLengthFiles<C>(files: seq<CsvFile<C>>)
  {
    forall i :: 0 <= i < |files| ==> SameLength(files[i].records)
  }

  /** `CSVLoader::load_all_samples`. */
  method CsvLoadAllSamples<C>(loader: CsvLoader, files: seq<CsvFile<C>>)
    returns (allFeatures: seq<seq<C>>, allPredictors: seq<C>, shardAttributions: map<ShardId, Range>)
    requires SameLengthFiles(files)
    ensures allFeatures == CsvFeatures(files, loader.predictorColumnIndex)
    ensures allPredictors == CsvPredictors(files, loader.predictorColumnIndex)
    ensures shardAttributions == Attributions(Runs(CsvEntries(files)))
    ensures |allFeatures| == Total(CsvEntries(files))
    ensures files == [] ==> allFeatures == [] && allPredictors == [] && shardAttributions == map[]
    ensures files != [] ==> files[|files| - 1].shard in shardAttributions
                            && shardAttributions[files[|files| - 1].shard].end == |allFeatures|
  {
    var pc := loader.predictorColumnIndex;
    ghost var es := CsvEntries(files);
    allFeatures, allPredictors, shardAttributions := [], [], map[];
    var sampleIndex := 0;
    var lastShardOpt: ShardId := None;
    var isFirstIter := true;
    var lastShardStartIndex := 0;
    for i := 0 to |files|
      invariant allFeatures == CsvFeatures(files[..i], pc)
      invariant allPredictors == CsvPredictors(files[..i], pc)
      invariant sampleIndex == |allFeatures|
      invariant Tracks(es[..i], isFirstIter, lastShardOpt, lastShardStartIndex, sampleIndex, shardAttributions)
    {
      var file := files[i];
      isFirstIter, lastShardOpt, lastShardStartIndex, shardAttributions :=
        EnterFile(es[..i], isFirstIter, lastShardOpt, lastShardStartIndex, sampleIndex, shardAttributions, file.shard);
      ghost var baseIndex := sampleIndex;
      allFeatures, allPredictors, sampleIndex := LoadRecords(file.records, pc, allFeatures, allPredictors, sampleIndex);
      TracksFile(es, i, lastShardOpt, lastShardStartIndex, baseIndex, shardAttributions);
      TakeSnoc(files, i);
    }
    shardAttributions := CloseLastShard(es[..|files|], isFirstIter, lastShardOpt, lastShardStartIndex, sampleIndex,
                                        shardAttributions);
    assert files[..|files|] == files;
    assert es[..|files|] == es;
    AttributionsEnd(es);
  }

  /** Two one-record files, of shard 0 and of the proposed shard. */
  function ExampleCsvFiles(): (files: seq<CsvFile<int>>)
    ensures |files| == 2 && files[0].shard == Some(0) && files[1].shard == None
    ensures SameLengthFiles(files)
  {
    [CsvFile([[1, 2, 3, 4, 9]], Some(0)), CsvFile([[5, 6, 7, 8, 10]], None)]
  }

  /** With column 4 as the predictor, the other four cells of each record are its features. */
  lemma {:induction false} ExampleCsvFeatures()
    ensures CsvFeatures(ExampleCsvFiles(), 4) == [[1, 2, 3, 4], [5, 6, 7, 8]]
  {
    var files := ExampleCsvFiles();
    var r0: seq<int>, r1: seq<int> := [1, 2, 3, 4, 9], [5, 6, 7, 8, 10];
    RecordSplit(r0, 4);
    RecordSplit(r1, 4);
    assert r0[..4] + r0[5..] == [1, 2, 3, 4];
    assert r1[..4] + r1[5..] == [5, 6, 7, 8];
    assert files[..1] == [files[0]] && [files[0]][..0] == [];
  }

  /** Column 4 of each record is its predictor. */
  lemma {:induction false} ExampleCsvPredictors()
    ensures CsvPredictors(ExampleCsvFiles(), 4) == [9, 10]
  {
    var files := ExampleCsvFiles();
    var rs0: seq<seq<int>>, rs1: seq<seq<int>> := [[1, 2, 3, 4, 9]], [[5, 6, 7, 8, 10]];
    assert RecordsPredictors(rs0, 4) == [9] by {
      assert rs0[..0] == [];
    }
    assert RecordsPredictors(rs1, 4) == [10] by {
      assert rs1[..0] == [];
    }
    assert files[..1] == [files[0]] && [files[0]][..0] == [];
  }

  /** The example files make two runs of one sample each: shard 0's, then the proposed shard's. */
  lemma {:induction false} ExampleCsvRuns()
    ensures Runs(CsvEntries(ExampleCsvFiles())) == [Run(Some(0), Range(0, 1)), Run(None, Range(1, 2))]
  {
    var e0, e1 := Entry(Some(0), 1), Entry(None, 1);
    assert CsvEntries(ExampleCsvFiles()) == [e0, e1];
    RunsSnoc([], e0);
    assert [e0] == [] + [e0];
    TotalSnoc([], e0);
    RunsSnoc([e0], e1);
    assert [e0] + [e1] == [e0, e1];
  }

  /** Each shard of the example is attributed the one sample it contributed. */
  lemma {:induction false} ExampleCsvAttributions()
    ensures Attributions(Runs(CsvEntries(ExampleCsvFiles()))) == map[Some(0) := Range(0, 1), None := Range(1, 2)]
  {
    var run0, run1 := Run(Some(0), Range(0, 1)), Run(None, Range(1, 2));
    ExampleCsvRuns();
    AttributionsSnoc([], run0);
    assert [run0] == [] + [run0];
    AttributionsSnoc([run0], run1);
    assert [run0] + [run1] == [run0, run1];
  }

  /**
   * The default loader, whose predictor is column 4, on the example files:
   * each record gives a four-cell feature row and its predictor, and each
   * shard the range of its one sample.
   */
  method DefaultCsvExample() returns (features: seq<seq<int>>, predictors: seq<int>, attributions: map<ShardId, Range>)
    ensures features == [[1, 2, 3, 4], [5, 6, 7, 8]] && predictors == [9, 10]
    ensures attributions == map[Some(0) := Range(0, 1), None := Range(1, 2)]
  {
    features, predictors, attributions := CsvLoadAllSamples(DefaultCsvLoader, ExampleCsvFiles());
    ExampleCsvFeatures();
    ExampleCsvPredictors();
    ExampleCsvAttributions();
  }

  /**
   * The record loop of `CSVLoader::load_all_samples` for one file: every
   * record appends its feature row, and its predictor if it has one, and
   * counts one sample.
   */
  method LoadRecords<C>(records: seq<seq<C>>, predictorColumn: nat, allFeatures: seq<seq<C>>, allPredictors: seq<C>,
                        sampleIndex: nat)
    returns (allFeatures': seq<seq<C>>, allPredictors': seq<C>, sampleIndex': nat)
    ensures allFeatures' == allFeatures + RecordsFeatures(records, predictorColumn)
    ensures allPredictors' == allPredictors + RecordsPredictors(records, predictorColumn)
    ensures sampleIndex' == sampleIndex + |records|
  {
    allFeatures', allPredictors', sampleIndex' := allFeatures, allPredictors, sampleIndex;
    for j := 0 to |records|
      invariant allFeatures' == allFeatures + RecordsFeatures(records[..j], predictorColumn)
      invariant allPredictors' == allPredictors + RecordsPredictors(records[..j], predictorColumn)
      invariant sampleIndex' == sampleIndex + j
    {
      var recVec, predictor := SplitRecord(records[j], predictorColumn);
      allPredictors' := allPredictors' + predictor;
      allFeatures' := allFeatures' + [recVec];
      sampleIndex' := sampleIndex' + 1;
      RecordsSnoc(records, j, predictorColumn);
    }
    assert records[..|records|] == records;
  }

  /** One more record adds its feature row and its predictor, if any, at the end. */
  lemma {:induction false} RecordsSnoc<C>(records: seq<seq<C>>, j: nat, predictorColumn: nat)
    requires j < |records|
    ensures RecordsFeatures(records[..j + 1], predictorColumn)
            == RecordsFeatures(records[..j], predictorColumn) + [RowFeatures(records[j], predictorColumn)]
    ensures RecordsPredictors(records[..j + 1], predictorColumn)
            == RecordsPredictors(records[..j], predictorColumn) + RowPredictor(records[j], predictorColumn)
  {
    TakeSnoc(records, j);
  }

  /** The column loop of `CSVLoader::load_all_samples`: one record's feature row and its predictor, if any. */
  method SplitRecord<C>(record: seq<C>, predictorColumn: nat) returns (recVec: seq<C>, predictor: seq<C>)
    ensures recVec == RowFeatures(record, predictorColumn)
    ensures predictor == RowPredictor(record, predictorColumn)
  {
    recVec, predictor := [], [];
    for i := 0 to |record|
      invariant recVec == FeatureCells(record, predictorColumn, i)
      invariant predictor == if predictorColumn < i then [record[predictorColumn]] else []
    {
      if i != predictorColumn {
        recVec := recVec + [record[i]];
      } else {
        predictor := predictor + [record[i]];
      }
    }
  }

  // ---------------------------------------------------------------------------
  // Image loader
  // ---------------------------------------------------------------------------

  /** An image file as the loader reads it: its pixel values, the label in its file name, and its shard. */
  datatype ImageFile<F, P> = ImageFile(pixels: seq<F>, predictor: P, shard: ShardId)

  /** An image file holds exactly one sample. */
  function ImageEntries<F, P>(files: seq<ImageFile<F, P>>): (es: seq<Entry>)
    ensures |es| == |files|
    ensures forall i :: 0 <= i < |files| ==> es[i] == Entry(files[i].shard, 1)
  {
    seq(|files|, i requires 0 <= i < |files| => Entry(files[i].shard, 1))
  }

  /** The pixel rows of the image files, in order. */
  function ImagePixels<F, P>(files: seq<ImageFile<F, P>>): (rows: seq<seq<F>>)
    ensures |rows| == |files|
    ensures forall i :: 0 <= i < |files| ==> rows[i] == files[i].pixels
  {
    seq(|files|, i requires 0 <= i < |files| => files[i].pixels)
  }

  /** The labels of the image files, in order. */
  function ImagePredictors<F, P>(files: seq<ImageFile<F, P>>): (labels: seq<P>)
    ensures |labels| == |files|
    ensures forall i :: 0 <= i < |files| ==> labels[i] == files[i].predictor
  {
    seq(|files|, i requires 0 <= i < |files| => files[i].predictor)
  }

  /** One more image file adds its pixel row and its label at the end. */
  lemma {:induction false} ImageSnoc<F, P>(files: seq<ImageFile<F, P>>, i: nat)
    requires i < |files|
    ensures ImagePixels(files[..i + 1]) == ImagePixels(files[..i]) + [files[i].pixels]
    ensures ImagePredictors(files[..i + 1]) == ImagePredictors(files[..i]) + [files[i].predictor]
  {
  }

  /** `ImageLoader::load_all_samples`. */
  method ImageLoadAllSamples<F, P>(files: seq<ImageFile<F, P>>)
    returns (allFeatures: seq<seq<F>>, allPredictors: seq<P>, shardAttributions: map<ShardId, Range>)
    ensures |allFeatures| == |allPredictors| == |files|
    ensures forall i :: 0 <= i < |files| ==> allFeatures[i] == files[i].pixels && allPredictors[i] == files[i].predictor
    ensures shardAttributions == Attributions(Runs(ImageEntries(files)))
    ensures files == [] ==> allFeatures == [] && allPredictors == [] && shardAttributions == map[]
    ensures files != [] ==> files[|files| - 1].shard in shardAttributions
                            && shardAttributions[files[|files| - 1].shard].end == |allFeatures|
  {
    ghost var es := ImageEntries(files);
    allFeatures, allPredictors, shardAttributions := [], [], map[];
    var sampleIndex := 0;
    var lastShardOpt: ShardId := None;
    var isFirstIter := true;
    var lastShardStartIndex := 0;
    for i := 0 to |files|
      invariant allFeatures == ImagePixels(files[..i]) && allPredictors == ImagePredictors(files[..i])
      invariant sampleIndex == i
      invariant Tracks(es[..i], isFirstIter, lastShardOpt, lastShardStartIndex, sampleIndex, shardAttributions)
    {
      var file := files[i];
      isFirstIter, lastShardOpt, lastShardStartIndex, shardAttributions :=
        EnterFile(es[..i], isFirstIter, lastShardOpt, lastShardStartIndex, sampleIndex, shardAttributions, file.shard);
      allFeatures := allFeatures + [file.pixels];
      allPredictors := allPredictors + [file.predictor];
      TracksFile(es, i, lastShardOpt, lastShardStartIndex, sampleIndex, shardAttributions);
      sampleIndex := sampleIndex + 1;
      ImageSnoc(files, i);
    }
    shardAttributions := CloseLastShard(es[..|files|], isFirstIter, lastShardOpt, lastShardStartIndex, sampleIndex,
                                        shardAttributions);
    assert es[..|files|] == es && files[..|files|] == files;
    AttributionsEnd(es);
  }

  /** Sample `i` of the image loader is file `i`: the shard of every sample is its file's shard. */
  lemma {:induction false} ImageLabels<F, P>(files: seq<ImageFile<F, P>>)
    ensures Total(ImageEntries(files)) == |files|
    ensures forall i :: 0 <= i < |files| ==> Labels(ImageEntries(files))[i] == files[i].shard
  {
    if files != [] {
      var init := files[..|files| - 1];
      var es := ImageEntries(files);
      assert es == ImageEntries(init) + [Entry(files[|files| - 1].shard, 1)];
      ImageLabels(init);
      TotalSnoc(ImageEntries(init), Entry(files[|files| - 1].shard, 1));
      LabelsSnoc(ImageEntries(init), Entry(files[|files| - 1].shard, 1));
      forall i | 0 <= i < |files| - 1
        ensures Labels(es)[i] == files[i].shard
      {
        assert init[i] == files[i];
      }
    }
  }

  /**
   * When every shard's images are consecutive, a shard's range holds exactly
   * the indices of its files, so its length is the number of its files.
   */
  lemma {:induction false} ImageAttributionsExact<F, P>(files: seq<ImageFile<F, P>>)
    requires ContiguousShards(ImageEntries(files))
    ensures var m := Attributions(Runs(ImageEntries(files)));
      forall id, i :: id in m && 0 <= i < |files| ==> (m[id].Contains(i) <==> files[i].shard == id)
  {
    ImageLabels(files);
    AttributionsExact(ImageEntries(files));
  }

  // ---------------------------------------------------------------------------
  // Feature matrix
  // ---------------------------------------------------------------------------

  /** A dense matrix: its dimensions and its entries in row-major order. */
  datatype Matrix<T> = Matrix(rows: nat, cols: nat, data: seq<T>)

  /** The rows one after another. */
  function Flatten<T>(rows: seq<seq<T>>): (flat: seq<T>)
  {
    if rows == [] then [] else Flatten(rows[..|rows| - 1]) + rows[|rows| - 1]
  }

  function ColumnCount<T>(features: seq<seq<T>>): nat
  {
    if |features| > 0 then |features[0]| else 0
  }

  predicate Rectangular<T>(rows: seq<seq<T>>, cols: nat)
  {
    forall i :: 0 <= i < |rows| ==> |rows[i]| == cols
  }

  /**
   * `DataLoader::vecs_as_matrix`. The matrix constructor panics unless the
   * flattened data has exactly rows × columns entries, where the column count
   * is the first row's length.
   */
  function VecsAsMatrix<T>(features: seq<seq<T>>): (m: Matrix<T>)
    requires |Flatten(features)| == |features| * ColumnCount(features)
    ensures m.rows == |features| && m.cols == ColumnCount(features)
    ensures |m.data| == m.rows * m.cols
  {
    Matrix(|features|, ColumnCount(features), Flatten(features))
  }

  /** Entry `(i, j)` of a matrix built from equal-length rows is cell `j` of row `i`. */
  lemma {:induction false} FlattenRowMajor<T>(rows: seq<seq<T>>, cols: nat)
    requires Rectangular(rows, cols)
    ensures |Flatten(rows)| == |rows| * cols
    ensures forall i, j :: 0 <= i < |rows| && 0 <= j < cols ==>
      (RowMajorIndex(i, j, cols) < |Flatten(rows)| && Flatten(rows)[RowMajorIndex(i, j, cols)] == rows[i][j])
  {
    if rows != [] {
      var n := |rows|;
      var init, last := rows[..n - 1], rows[n - 1];
      assert Rectangular(init, cols) by {
        forall i | 0 <= i < |init| ensures |init[i]| == cols {
          assert init[i] == rows[i];
        }
      }
      FlattenRowMajor(init, cols);
      var flat := Flatten(rows);
      assert flat == Flatten(init) + last;
      assert |flat| == n * cols by {
        assert (n - 1) * cols + cols == n * cols;
      }
      forall i, j | 0 <= i < n && 0 <= j < cols
        ensures RowMajorIndex(i, j, cols) < |flat| && flat[RowMajorIndex(i, j, cols)] == rows[i][j]
      {
        if i < n - 1 {
          RowMajorBound(i, j, cols, n - 1);
          assert init[i] == rows[i];
        } else {
          assert RowMajorIndex(i, j, cols) == (n - 1) * cols + j;
        }
      }
    }
  }

  lemma {:induction false} RowMajorBound(i: nat, j: nat, cols: nat, n: nat)
    requires i < n && j < cols
    ensures RowMajorIndex(i, j, cols) < n * cols
  {
    assert i * cols + cols == (i + 1) * cols;
    MulMonotone(i + 1, n, cols);
  }

  lemma {:induction false} MulMonotone(a: nat, b: nat, c: nat)
    requires a <= b
    ensures a * c <= b * c
  {
  }

  function RowMajorIndex(i: nat, j: nat, cols: nat): nat
  {
    i * cols + j
  }

  /** Rectangular features always meet the matrix constructor's requirement. */
  lemma {:induction false} VecsAsMatrixRectangular<T>(features: seq<seq<T>>)
    requires Rectangular(features, ColumnCount(features))
    ensures |Flatten(features)| == |features| * ColumnCount(features)
    ensures var m := VecsAsMatrix(features);
      forall i, j :: 0 <= i < m.rows && 0 <= j < m.cols ==>
        (RowMajorIndex(i, j, m.cols) < |m.data| && m.data[RowMajorIndex(i, j, m.cols)] == features[i][j])
  {
    FlattenRowMajor(features, ColumnCount(features));
  }
}
