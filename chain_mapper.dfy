/**
 * Coordinate liftover between genome assemblies (liftover_2d/chain_mapper.py):
 * a chain table maps each source chromosome to scored alignment blocks, and a
 * position is lifted through the best-scoring block that contains it.
 */
module ChainMapping {
  import opened Wrappers

  /**
   * A chain block: the source interval [begin, end) and where it lands.
   * In the source this is an IntervalTree entry with a data dictionary.
   */
  datatype Interval = Interval(begin: int, end: int, targetChrom: string, targetStart: int, score: int)

  /** Chromosome -> its blocks (an IntervalTree per chromosome in the source). */
  type ChainTable = map<string, seq<Interval>>

  datatype Locus = Locus(chrom: string, pos: int)

  /** The 4-tuple `result1 + result2` of lift_coordinate_pair. */
  datatype LocusPair = LocusPair(first: Locus, second: Locus)

  // ----- the mock table -----

  /** Length of a mock block, and the end of the mocked range. */
  const BlockSize: int := 100000
  const MockLimit: int := 100000000
  const BlockCount: nat := 1000

  /** Block k of a mock chromosome: [k * 100 kb, (k + 1) * 100 kb), shifted by offset. */
  function MockBlock(chrom: string, k: int, offset: int, score: int): Interval
  {
    Interval(k * BlockSize, k * BlockSize + BlockSize, chrom, k * BlockSize + offset, score)
  }

  function MockBlocks(chrom: string, offset: int, score: int): (r: seq<Interval>)
    ensures |r| == BlockCount
    ensures forall k :: 0 <= k < BlockCount ==> r[k] == MockBlock(chrom, k, offset, score)
  {
    seq(BlockCount, k requires 0 <= k < BlockCount => MockBlock(chrom, k, offset, score))
  }

  /** chr1 shifted by +10 kb with score 1000, chr2 by -5 kb with score 800. */
  function MockTable(): ChainTable
  {
    map["chr1" := MockBlocks("chr1", 10000, 1000), "chr2" := MockBlocks("chr2", -5000, 800)]
  }

  /** One `for i in range(0, 100000000, 100000)` loop of _create_mock_chain_trees. */
  method AddMockBlocks(chrom: string, offset: int, score: int) returns (tree: seq<Interval>)
    ensures tree == MockBlocks(chrom, offset, score)
  {
    tree := [];
    var i := 0;
    while i < MockLimit
      invariant 0 <= i <= MockLimit && i % BlockSize == 0
      invariant |tree| == i / BlockSize
      invariant forall k :: 0 <= k < |tree| ==> tree[k] == MockBlock(chrom, k, offset, score)
    {
      var start := i;
      var end := i + BlockSize;
      tree := tree + [Interval(start, end, chrom, start + offset, score)];
      i := i + BlockSize;
    }
  }

  /** _create_mock_chain_trees */
  method CreateMockChainTrees() returns (chainTrees: ChainTable)
    ensures chainTrees == MockTable()
  {
    chainTrees := map[];
    var chr1 := AddMockBlocks("chr1", 10000, 1000);
    chainTrees := chainTrees["chr1" := chr1];
    var chr2 := AddMockBlocks("chr2", -5000, 800);
    chainTrees := chainTrees["chr2" := chr2];
  }

  /** _parse_chain_file: real parsing is not implemented; the mock table is used instead. */
  method ParseChainFile(chainFile: string) returns (chainTrees: ChainTable)
    ensures chainTrees == MockTable()
  {
    chainTrees := CreateMockChainTrees();
  }

  /** _load_chain_file: with or without a chain file, the table is the mock table. */
  method LoadChainFile(chainFile: Option<string>) returns (chainTrees: ChainTable)
    ensures chainTrees == MockTable()
  {
    if chainFile.None? {
      chainTrees := CreateMockChainTrees();
    } else {
      chainTrees := ParseChainFile(chainFile.value);
    }
  }

  class ChainMapper {
    const chainFile: Option<string>
    const chainTree: ChainTable

    constructor (chainFile: Option<string>)
      ensures this.chainFile == chainFile && chainTree == MockTable()
    {
      var table := LoadChainFile(chainFile);
      this.chainFile := chainFile;
      this.chainTree := table;
    }
  }

  // ----- lift_coordinate -----

  /** `overlap(position, position + 1)` hits the block: begin <= position < end. */
  predicate Contains(iv: Interval, position: int)
  {
    iv.begin <= position < iv.end
  }

  /** The blocks that contain the position, in table order. */
  function Overlapping(ivs: seq<Interval>, position: int): seq<Interval>
  {
    if |ivs| == 0 then []
    else (if Contains(ivs[0], position) then [ivs[0]] else []) + Overlapping(ivs[1..], position)
  }

  /** `max(overlaps, key=score)`: the first block of highest score. */
  function BestByScore(ivs: seq<Interval>): (best: Interval)
    requires |ivs| > 0
    ensures best in ivs
    ensures forall iv :: iv in ivs ==> iv.score <= best.score
  {
    if |ivs| == 1 then ivs[0]
    else
      var rest := BestByScore(ivs[1..]);
      assert forall iv :: iv in ivs ==> iv == ivs[0] || iv in ivs[1..];
      if ivs[0].score >= rest.score then ivs[0] else rest
  }

  /** The target of a position through one block. */
  function Through(iv: Interval, position: int): Locus
  {
    Locus(iv.targetChrom, iv.targetStart + (position - iv.begin))
  }

  function LiftCoordinate(table: ChainTable, chrom: string, position: int): Option<Locus>
  {
    if chrom !in table then None
    else
      var overlaps := Overlapping(table[chrom], position);
      if |overlaps| == 0 then None
      else Some(Through(BestByScore(overlaps), position))
  }

  lemma {:induction false} OverlappingMembership(ivs: seq<Interval>, position: int)
    ensures forall iv :: iv in Overlapping(ivs, position) <==> iv in ivs && Contains(iv, position)
  {
    if |ivs| > 0 {
      OverlappingMembership(ivs[1..], position);
      assert ivs == [ivs[0]] + ivs[1..];
    }
  }

  /**
   * lift_coordinate is None exactly when the chromosome is absent or no block
   * contains the position; otherwise it lifts the position through a
   * containing block whose score no other containing block exceeds.
   */
  lemma LiftCoordinateCorrect(table: ChainTable, chrom: string, position: int)
    ensures LiftCoordinate(table, chrom, position).None? <==>
      chrom !in table || forall iv :: iv in table[chrom] ==> !Contains(iv, position)
    ensures LiftCoordinate(table, chrom, position).Some? ==>
      chrom in table &&
      exists iv :: iv in table[chrom] && Contains(iv, position) &&
        (forall other :: other in table[chrom] && Contains(other, position) ==> other.score <= iv.score) &&
        LiftCoordinate(table, chrom, position).value == Through(iv, position)
  {
    if chrom in table {
      var overlaps := Overlapping(table[chrom], position);
      OverlappingMembership(table[chrom], position);
      if |overlaps| > 0 {
        var best := BestByScore(overlaps);
        assert best in table[chrom] && Contains(best, position);
      } else {
        forall iv | iv in table[chrom]
          ensures !Contains(iv, position)
        {
          assert iv in overlaps <==> Contains(iv, position);
        }
      }
    }
  }

  /** When one block alone contains the position, the overlap is that block. */
  lemma {:induction false} OverlappingSingle(ivs: seq<Interval>, position: int, k: nat)
    requires k < |ivs| && Contains(ivs[k], position)
    requires forall j :: 0 <= j < |ivs| && j != k ==> !Contains(ivs[j], position)
    ensures Overlapping(ivs, position) == [ivs[k]]
  {
    if k == 0 {
      OverlappingNone(ivs[1..], position);
    } else {
      OverlappingSingle(ivs[1..], position, k - 1);
    }
  }

  lemma {:induction false} OverlappingNone(ivs: seq<Interval>, position: int)
    requires forall j :: 0 <= j < |ivs| ==> !Contains(ivs[j], position)
    ensures Overlapping(ivs, position) == []
  {
    if |ivs| > 0 {
      OverlappingNone(ivs[1..], position);
    }
  }

  /** The mock blocks tile [0, 100 Mb): a position there lies in block position / 100 kb and no other. */
  lemma MockTiling(chrom: string, offset: int, score: int, position: int)
    requires 0 <= position < MockLimit
    ensures var k := position / BlockSize;
      Overlapping(MockBlocks(chrom, offset, score), position) == [MockBlock(chrom, k, offset, score)]
  {
    var blocks := MockBlocks(chrom, offset, score);
    var k := position / BlockSize;
    forall j | 0 <= j < |blocks| && j != k
      ensures !Contains(blocks[j], position)
    {
      if j < k {
        assert j * BlockSize + BlockSize <= k * BlockSize;
      } else {
        assert j * BlockSize >= k * BlockSize + BlockSize;
      }
    }
    OverlappingSingle(blocks, position, k);
  }

  /** Outside [0, 100 Mb) no mock block contains the position. */
  lemma MockOutside(chrom: string, offset: int, score: int, position: int)
    requires position < 0 || position >= MockLimit
    ensures Overlapping(MockBlocks(chrom, offset, score), position) == []
  {
    var blocks := MockBlocks(chrom, offset, score);
    forall j | 0 <= j < |blocks|
      ensures !Contains(blocks[j], position)
    {
      assert j * BlockSize + BlockSize <= MockLimit;
    }
    OverlappingNone(blocks, position);
  }

  /** With the mock table, chr1 gains 10 kb and chr2 loses 5 kb, on the same chromosome. */
  lemma MockLift(position: int)
    requires 0 <= position < MockLimit
    ensures LiftCoordinate(MockTable(), "chr1", position) == Some(Locus("chr1", position + 10000))
    ensures LiftCoordinate(MockTable(), "chr2", position) == Some(Locus("chr2", position - 5000))
  {
    MockTiling("chr1", 10000, 1000, position);
    MockTiling("chr2", -5000, 800, position);
  }

  /** With the mock table, other chromosomes and positions outside [0, 100 Mb) are unmappable. */
  lemma MockUnmappable(chrom: string, position: int)
    requires (chrom != "chr1" && chrom != "chr2") || position < 0 || position >= MockLimit
    ensures LiftCoordinate(MockTable(), chrom, position).None?
  {
    if chrom == "chr1" || chrom == "chr2" {
      MockOutside("chr1", 10000, 1000, position);
      MockOutside("chr2", -5000, 800, position);
    }
  }

  /** The cases of the tests: chr1:12345678, chr1:50000, chr99:1000000 and chr1:999999999. */
  lemma MockScenarios()
    ensures LiftCoordinate(MockTable(), "chr1", 12345678) == Some(Locus("chr1", 12355678))
    ensures LiftCoordinate(MockTable(), "chr1", 50000) == Some(Locus("chr1", 60000))
    ensures LiftCoordinate(MockTable(), "chr99", 1000000) == None
    ensures LiftCoordinate(MockTable(), "chr1", 999999999) == None
  {
    MockLift(12345678);
    MockLift(50000);
    MockUnmappable("chr99", 1000000);
    MockUnmappable("chr1", 999999999);
  }

  // ----- lift_coordinate_pair -----

  function LiftCoordinatePair(table: ChainTable, chrom1: string, pos1: int, chrom2: string, pos2: int): (r: Option<LocusPair>)
  {
    var result1 := LiftCoordinate(table, chrom1, pos1);
    var result2 := LiftCoordinate(table, chrom2, pos2);
    if result1.None? || result2.None? then None else Some(LocusPair(result1.value, result2.value))
  }

  /** A pair lifts exactly when both ends lift, and then to the two lifted ends. */
  lemma LiftCoordinatePairCorrect(table: ChainTable, chrom1: string, pos1: int, chrom2: string, pos2: int)
    ensures var r := LiftCoordinatePair(table, chrom1, pos1, chrom2, pos2);
      (r.Some? <==> LiftCoordinate(table, chrom1, pos1).Some? && LiftCoordinate(table, chrom2, pos2).Some?) &&
      (r.Some? ==> r.value.first == LiftCoordinate(table, chrom1, pos1).value &&
                   r.value.second == LiftCoordinate(table, chrom2, pos2).value)
  {
  }

  // ----- lift_dataframe -----

  /** The coordinate columns of one input row. */
  datatype PairRow = PairRow(chrom1: string, pos1: int, chrom2: string, pos2: int)

  /** An output row: the input row and the added target columns (None where the source has None). */
  datatype LiftedRow = LiftedRow(
    source: PairRow,
    targetChrom1: Option<string>,
    targetPos1: Option<int>,
    targetChrom2: Option<string>,
    targetPos2: Option<int>,
    isMappable: bool)

  /** A row as first copied: target columns None, is_mappable False. */
  function Unlifted(row: PairRow): LiftedRow
  {
    LiftedRow(row, None, None, None, None, false)
  }

  function LiftRow(table: ChainTable, row: PairRow): LiftedRow
  {
    match LiftCoordinatePair(table, row.chrom1, row.pos1, row.chrom2, row.pos2)
    case None => Unlifted(row)
    case Some(p) => LiftedRow(row, Some(p.first.chrom), Some(p.first.pos), Some(p.second.chrom), Some(p.second.pos), true)
  }

  /** `result_df[result_df['is_mappable']]` */
  function MappableRows(rows: seq<LiftedRow>): seq<LiftedRow>
  {
    if |rows| == 0 then []
    else (if rows[0].isMappable then [rows[0]] else []) + MappableRows(rows[1..])
  }

  /** Every row with its target columns filled in. */
  function LiftAll(table: ChainTable, rows: seq<PairRow>): (r: seq<LiftedRow>)
    ensures |r| == |rows|
    ensures forall i :: 0 <= i < |rows| ==> r[i] == LiftRow(table, rows[i])
  {
    seq(|rows|, i requires 0 <= i < |rows| => LiftRow(table, rows[i]))
  }

  /** The value of lift_dataframe. */
  function LiftRows(table: ChainTable, rows: seq<PairRow>, dropUnmappable: bool): seq<LiftedRow>
  {
    if dropUnmappable then MappableRows(LiftAll(table, rows)) else LiftAll(table, rows)
  }

  /** lift_dataframe over a sequence of rows (column names fixed, no progress output). */
  method LiftDataframe(table: ChainTable, df: seq<PairRow>, dropUnmappable: bool) returns (resultDf: seq<LiftedRow>)
    ensures resultDf == LiftRows(table, df, dropUnmappable)
  {
    resultDf := seq(|df|, i requires 0 <= i < |df| => Unlifted(df[i]));
    for i := 0 to |df|
      invariant |resultDf| == |df|
      invariant forall k :: 0 <= k < i ==> resultDf[k] == LiftRow(table, df[k])
      invariant forall k :: i <= k < |df| ==> resultDf[k] == Unlifted(df[k])
    {
      var row := df[i];
      var result := LiftCoordinatePair(table, row.chrom1, row.pos1, row.chrom2, row.pos2);
      if result.Some? {
        resultDf := resultDf[i := LiftedRow(row, Some(result.value.first.chrom), Some(result.value.first.pos),
          Some(result.value.second.chrom), Some(result.value.second.pos), true)];
      }
    }
    assert resultDf == LiftAll(table, df);
    if dropUnmappable {
      resultDf := MappableRows(resultDf);
    }
  }

  /**
   * Without dropping, every row is kept in place with is_mappable telling
   * whether its pair lifts, and the target columns holding the lifted pair
   * when it does and None when it does not.
   */
  lemma LiftRowsKeep(table: ChainTable, rows: seq<PairRow>)
    ensures var r := LiftRows(table, rows, false);
      |r| == |rows| &&
      forall i :: 0 <= i < |rows| ==>
        var p := LiftCoordinatePair(table, rows[i].chrom1, rows[i].pos1, rows[i].chrom2, rows[i].pos2);
        r[i].source == rows[i] &&
        (r[i].isMappable <==> p.Some?) &&
        (p.Some? ==> r[i].targetChrom1 == Some(p.value.first.chrom) && r[i].targetPos1 == Some(p.value.first.pos) &&
                     r[i].targetChrom2 == Some(p.value.second.chrom) && r[i].targetPos2 == Some(p.value.second.pos)) &&
        (p.None? ==> r[i].targetChrom1.None? && r[i].targetPos1.None? &&
                     r[i].targetChrom2.None? && r[i].targetPos2.None?)
  {
  }

  lemma {:induction false} MappableRowsCorrect(rows: seq<LiftedRow>)
    ensures var r := MappableRows(rows);
      |r| <= |rows| &&
      (forall x :: x in r <==> x in rows && x.isMappable) &&
      ((forall k :: 0 <= k < |rows| ==> rows[k].isMappable) ==> r == rows)
  {
    if |rows| > 0 {
      MappableRowsCorrect(rows[1..]);
      assert rows == [rows[0]] + rows[1..];
    }
  }

  lemma {:induction false} MappableRowsAppend(a: seq<LiftedRow>, b: seq<LiftedRow>)
    ensures MappableRows(a + b) == MappableRows(a) + MappableRows(b)
  {
    if |a| > 0 {
      assert (a + b)[1..] == a[1..] + b;
      MappableRowsAppend(a[1..], b);
    } else {
      assert a + b == b;
    }
  }

  /**
   * With dropping, the result is the kept result restricted to its mappable
   * rows, in their order: filtering distributes over concatenation, and the
   * rows that remain are exactly the mappable ones.
   */
  lemma LiftRowsDrop(table: ChainTable, rows: seq<PairRow>, more: seq<PairRow>)
    ensures LiftRows(table, rows, true) == MappableRows(LiftRows(table, rows, false))
    ensures LiftRows(table, rows + more, true) == LiftRows(table, rows, true) + LiftRows(table, more, true)
    ensures forall x :: x in LiftRows(table, rows, true) <==> x in LiftRows(table, rows, false) && x.isMappable
  {
    assert LiftRows(table, rows + more, false) == LiftRows(table, rows, false) + LiftRows(table, more, false);
    MappableRowsAppend(LiftRows(table, rows, false), LiftRows(table, more, false));
    MappableRowsCorrect(LiftRows(table, rows, false));
  }
}
