/**
 * The chunking of load histories for the neural predictor
 * (src/mds/adsl/MatrixFitter.h, src/mds/adsl/MatrixFitter.cc).  A
 * `TorchMatrixFitter` hands the rows of a load matrix (one row per directory,
 * one column per epoch) to the model in chunks of at most 2258 rows, each row
 * cut to its last 48 epochs; a `DataChunk` remembers which result positions
 * its rows cover, and `PlaceResult` appends a chunk's results to the
 * predicted load in order.
 *
 * The chunk matrix is kept row by row (directory-major); the transposition,
 * the conversion to float and the division by the scale factor are tensor
 * operations this model does not carry out.
 */
module MatrixFitters {
  import opened Wrappers
  import opened LoadArrays

  /** The number of epochs the model reads per directory. */
  const MODEL_HEIGHT_TIME := 48
  /** The number of directories the model reads per chunk. */
  const MODEL_WIDTH_DIR := 2258
  /** The constant every chunk is scaled by. */
  const SCALE := 47990

  function Min(a: int, b: int): int
  {
    if a <= b then a else b
  }

  /** The number of values of an unsigned 64-bit `size_t`. */
  const SIZE_RANGE := 0x1_0000_0000_0000_0000

  /** `n` filler entries. */
  function Ones(n: nat): (r: seq<real>)
    ensures |r| == n && forall i :: 0 <= i < n ==> r[i] == 1.0
  {
    seq(n, _ => 1.0)
  }

  /** `DataChunk<T>::cur_start`: the position the next chunk starts at, shared by all chunks. */
  class ChunkCursor {
    var curStart: int

    /** The static starts at 0. */
    constructor ()
      ensures curStart == 0
    {
      curStart := 0;
    }

    /** `reset_seq()`. */
    method ResetSeq()
      modifies this
      ensures curStart == 0
    {
      curStart := 0;
    }
  }

  /** `DataChunk<T>`: the data handed to the model and the result positions `[first, second)` it covers. */
  class DataChunk {
    const cursor: ChunkCursor
    var data: seq<seq<real>>
    var scaleFactor: Option<int>
    var first: int
    var second: int

    /** `size()`: `second - first` as an unsigned 64-bit size. */
    function Size(): (n: nat)
      reads this
      ensures first <= second < first + SIZE_RANGE ==> n == second - first
      ensures n < SIZE_RANGE
    {
      (second - first) % SIZE_RANGE
    }

    /** `DataChunk()`: an empty chunk at the cursor. */
    constructor (cursor: ChunkCursor)
      ensures this.cursor == cursor
      ensures first == cursor.curStart && second == cursor.curStart
      ensures Size() == 0
      ensures data == [] && scaleFactor == None
    {
      this.cursor := cursor;
      first := cursor.curStart;
      second := cursor.curStart;
      data := [];
      scaleFactor := None;
    }

    /** `set(chunkdata, width, scalefactor)`: the chunk covers `width` positions from where it starts, and so does the cursor. */
    method Set(chunkData: seq<seq<real>>, width: int, scale: int)
      modifies this, cursor
      ensures data == chunkData && scaleFactor == Some(scale)
      ensures first == old(first) && second == first + width
      ensures cursor.curStart == first + width
      ensures 0 <= width < SIZE_RANGE ==> Size() == width
    {
      data := chunkData;
      scaleFactor := Some(scale);
      second := first + width;
      cursor.curStart := second;
    }
  }

  /** One input row as the model sees it: its last `colWidth` epochs after `48 - colWidth` filler ones. */
  function PaddedRow(row: seq<real>, colStart: nat, colWidth: nat): seq<real>
    requires colStart + colWidth <= |row| && colWidth <= MODEL_HEIGHT_TIME
  {
    Ones(MODEL_HEIGHT_TIME - colWidth) + row[colStart..colStart + colWidth]
  }

  /** The chunk made of `count` rows from `from`, padded with filler rows to the model's width. */
  function ChunkRows(loads: seq<seq<real>>, from: nat, count: nat, colStart: nat, colWidth: nat): seq<seq<real>>
    requires from + count <= |loads| && count <= MODEL_WIDTH_DIR && colWidth <= MODEL_HEIGHT_TIME
    requires forall i :: from <= i < from + count ==> colStart + colWidth <= |loads[i]|
  {
    seq(count, i requires 0 <= i < count => PaddedRow(loads[from + i], colStart, colWidth))
      + seq(MODEL_WIDTH_DIR - count, _ => Ones(MODEL_HEIGHT_TIME))
  }

  /**
   * Every chunk has exactly the model's shape, 2258 rows of 48 values; the
   * first `count` rows end with their directory's last `colWidth` epochs
   * after filler ones, and the rest are filler.
   */
  lemma ChunkShape(loads: seq<seq<real>>, from: nat, count: nat, colStart: nat, colWidth: nat)
    requires from + count <= |loads| && count <= MODEL_WIDTH_DIR && colWidth <= MODEL_HEIGHT_TIME
    requires forall i :: from <= i < from + count ==> colStart + colWidth <= |loads[i]|
    ensures |ChunkRows(loads, from, count, colStart, colWidth)| == MODEL_WIDTH_DIR
    ensures forall i :: 0 <= i < MODEL_WIDTH_DIR ==> |ChunkRows(loads, from, count, colStart, colWidth)[i]| == MODEL_HEIGHT_TIME
    ensures forall i, j :: 0 <= i < count && 0 <= j < MODEL_HEIGHT_TIME ==>
      ChunkRows(loads, from, count, colStart, colWidth)[i][j] ==
        if j < MODEL_HEIGHT_TIME - colWidth then 1.0 else loads[from + i][colStart + j - (MODEL_HEIGHT_TIME - colWidth)]
    ensures forall i, j :: count <= i < MODEL_WIDTH_DIR && 0 <= j < MODEL_HEIGHT_TIME ==>
      ChunkRows(loads, from, count, colStart, colWidth)[i][j] == 1.0
  {
    var c := ChunkRows(loads, from, count, colStart, colWidth);
    forall i | 0 <= i < MODEL_WIDTH_DIR
      ensures |c[i]| == MODEL_HEIGHT_TIME
      ensures i < count ==> c[i] == PaddedRow(loads[from + i], colStart, colWidth)
      ensures i >= count ==> c[i] == Ones(MODEL_HEIGHT_TIME)
    {
      if i < count {
        assert c[i] == PaddedRow(loads[from + i], colStart, colWidth);
      } else {
        assert c[i] == Ones(MODEL_HEIGHT_TIME);
      }
    }
  }

  /** The widths of the chunks successive `fit` calls hand out from row `cur` of `rows`, until the rows run out. */
  function FitWidths(rows: int, cur: int): seq<int>
    decreases rows - cur
  {
    if rows == 0 || cur >= rows then []
    else [Min(rows - cur, MODEL_WIDTH_DIR)] + FitWidths(rows, cur + Min(rows - cur, MODEL_WIDTH_DIR))
  }

  function SumWidths(s: seq<int>): int
  {
    if s == [] then 0 else s[0] + SumWidths(s[1..])
  }

  /**
   * From row `cur`, the fits succeed ceil((rows - cur) / 2258) times, every
   * width is between 1 and 2258, and the widths add up to the rows left.
   */
  lemma {:induction false} FitWidthsCover(rows: int, cur: int)
    requires 0 <= cur <= rows
    ensures SumWidths(FitWidths(rows, cur)) == rows - cur
    ensures |FitWidths(rows, cur)| == (rows - cur + MODEL_WIDTH_DIR - 1) / MODEL_WIDTH_DIR
    ensures forall k :: 0 <= k < |FitWidths(rows, cur)| ==> 1 <= FitWidths(rows, cur)[k] <= MODEL_WIDTH_DIR
    decreases rows - cur
  {
    if rows != 0 && cur < rows {
      var w := Min(rows - cur, MODEL_WIDTH_DIR);
      FitWidthsCover(rows, cur + w);
      if w == MODEL_WIDTH_DIR {
        assert (rows - cur + MODEL_WIDTH_DIR - 1) / MODEL_WIDTH_DIR == 1 + (rows - (cur + w) + MODEL_WIDTH_DIR - 1) / MODEL_WIDTH_DIR;
      } else {
        assert (rows - cur + MODEL_WIDTH_DIR - 1) / MODEL_WIDTH_DIR == 1;
      }
    }
  }

  /** `TorchMatrixFitter`: the row cursor over a fixed load matrix and the column window every chunk uses. */
  class TorchMatrixFitter {
    const rawLoads: seq<seq<real>>
    const rawRows: int
    const rawCols: int
    var curRow: int
    const colStart: int
    const colWidth: int

    ghost predicate Valid()
      reads this
    {
      && rawRows == |rawLoads|
      && rawCols == (if rawRows > 0 then |rawLoads[0]| else 0)
      && 0 <= curRow <= rawRows
      && colWidth == Min(rawCols, MODEL_HEIGHT_TIME)
      && 0 <= colStart && colStart + colWidth == rawCols
    }

    /** The matrix's shape and the window of its last 48 epochs; the cursor starts at the first row. */
    constructor (rawLoads: seq<seq<real>>)
      ensures Valid()
      ensures this.rawLoads == rawLoads && curRow == 0
    {
      this.rawLoads := rawLoads;
      var rows := |rawLoads|;
      rawRows := rows;
      var cols := if rows > 0 then |rawLoads[0]| else 0;
      rawCols := cols;
      curRow := 0;
      if cols > MODEL_HEIGHT_TIME {
        colStart := cols - MODEL_HEIGHT_TIME;
        colWidth := MODEL_HEIGHT_TIME;
      } else {
        colStart := 0;
        colWidth := cols;
      }
    }

    /**
     * `fit`: hands out the next chunk of at most 2258 rows and advances the
     * cursor past it; fails, changing nothing, once every row is used.  Every
     * row used must have the matrix's width.
     */
    method Fit(chunk: DataChunk) returns (ok: bool)
      requires Valid()
      requires forall i :: curRow <= i < curRow + Min(rawRows - curRow, MODEL_WIDTH_DIR) ==> |rawLoads[i]| == rawCols
      modifies this, chunk, chunk.cursor
      ensures Valid()
      ensures ok <==> FitWidths(rawRows, old(curRow)) != []
      ensures !ok ==> curRow == old(curRow) && unchanged(chunk) && unchanged(chunk.cursor)
      ensures ok ==>
        var width := FitWidths(rawRows, old(curRow))[0];
        && curRow == old(curRow) + width
        && FitWidths(rawRows, curRow) == FitWidths(rawRows, old(curRow))[1..]
        && chunk.data == ChunkRows(rawLoads, old(curRow), width, colStart, colWidth)
        && chunk.scaleFactor == Some(SCALE)
        && chunk.first == old(chunk.first) && chunk.Size() == width
        && chunk.cursor.curStart == chunk.second
    {
      if rawRows == 0 || curRow == rawRows {
        return false;
      }
      var rowsLeft := rawRows - curRow;
      var rowsToUse := if rowsLeft > MODEL_WIDTH_DIR then MODEL_WIDTH_DIR else rowsLeft;
      var subTensors: seq<seq<real>> := [];
      for i := 0 to rowsToUse
        invariant |subTensors| == i
        invariant forall k :: 0 <= k < i ==> subTensors[k] == PaddedRow(rawLoads[curRow + k], colStart, colWidth)
      {
        var line := rawLoads[curRow + i];
        var t := line[colStart..colStart + colWidth];
        if colWidth < MODEL_HEIGHT_TIME {
          t := Ones(MODEL_HEIGHT_TIME - colWidth) + t;
        }
        assert t == PaddedRow(line, colStart, colWidth);
        subTensors := subTensors + [t];
      }
      var chunkData := subTensors;
      ghost var from := curRow;
      curRow := curRow + rowsToUse;
      if rowsToUse < MODEL_WIDTH_DIR {
        chunkData := chunkData + seq(MODEL_WIDTH_DIR - rowsToUse, _ => Ones(MODEL_HEIGHT_TIME));
      }
      assert chunkData == ChunkRows(rawLoads, from, rowsToUse, colStart, colWidth);
      chunk.Set(chunkData, rowsToUse, SCALE);
      ok := true;
    }

    /** `reset()`: back to the first row. */
    method Reset()
      requires Valid()
      modifies this
      ensures Valid() && curRow == 0
    {
      curRow := 0;
    }

    /**
     * `place_result`: the first `chunk.size()` values of the chunk's result
     * are appended to the predicted load, but only when the predicted load
     * ends exactly where the chunk starts; otherwise nothing changes.  The
     * result must hold at least `chunk.size()` values.
     */
    method PlaceResult(chunk: DataChunk, partialResult: seq<real>, predLoad: LoadArray) returns (ok: bool)
      requires |predLoad.nums| == chunk.first ==> chunk.Size() <= |partialResult|
      modifies predLoad
      ensures ok <==> |old(predLoad.nums)| == chunk.first
      ensures ok ==> predLoad.nums == old(predLoad.nums) + partialResult[..chunk.Size()]
      ensures !ok ==> predLoad.nums == old(predLoad.nums)
    {
      var startPos := chunk.first;
      if |predLoad.nums| != startPos {
        return false;
      }
      predLoad.nums := predLoad.nums + partialResult[..chunk.Size()];
      return true;
    }
  }
}
