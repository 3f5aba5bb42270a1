/**
 * `LuaPredictor::predict` (src/mds/adsl/LuaPredictor.cc): runs a Lua script
 * over the load history and turns the table the script returns into the
 * predicted load of each epoch. The Lua interpreter is not modelled: whether
 * the script loads and runs, whether it returns a table, and the table's
 * entries in the order `lua_next` visits them are inputs.
 */
module LuaPredictors {
  import opened LoadArrays
  import Predictors

  /** One key/value pair of the table the script returned. */
  datatype TableEntry = TableEntry(keyIsNumber: bool, valueIsNumber: bool, key: int, value: real)

  predicate Numeric(e: TableEntry) { e.keyIsNumber && e.valueIsNumber }

  /** What the result loop appends, and whether it finished without meeting a malformed pair. */
  datatype FillResult = FillResult(values: seq<real>, ok: bool)

  /**
   * The loads the result loop appends when the highest index accepted so far
   * is `last`: a pair whose index is not above `last` is ignored, a pair
   * further ahead is preceded by zero loads for the missing indices, and a
   * non-numeric pair stops the loop, keeping what was appended before it.
   */
  function Fill(entries: seq<TableEntry>, last: int): (r: FillResult)
    decreases |entries|
  {
    if entries == [] then FillResult([], true)
    else
      var e := entries[0];
      if !Numeric(e) then FillResult([], false)
      else if e.key <= last then Fill(entries[1..], last)
      else
        var rest := Fill(entries[1..], e.key);
        FillResult(Zeros(e.key - last - 1) + [e.value] + rest.values, rest.ok)
  }

  /** The highest index among `last` and the entries' keys. */
  function Top(entries: seq<TableEntry>, last: int): (t: int)
    ensures t >= last
    decreases |entries|
  {
    if entries == [] then last
    else Top(entries[1..], if entries[0].key > last then entries[0].key else last)
  }

  /** The loop succeeds exactly when every pair of the table is numeric. */
  lemma {:induction false} FillOkIff(entries: seq<TableEntry>, last: int)
    ensures Fill(entries, last).ok <==> forall j :: 0 <= j < |entries| ==> Numeric(entries[j])
    decreases |entries|
  {
    if entries != [] {
      var e := entries[0];
      if Numeric(e) {
        FillOkIff(entries[1..], if e.key <= last then last else e.key);
        assert forall j :: 1 <= j < |entries| ==> entries[j] == entries[1..][j - 1];
      }
    }
  }

  /** On success one load is appended for every index from `last + 1` up to the highest index returned. */
  lemma {:induction false} FillLength(entries: seq<TableEntry>, last: int)
    requires Fill(entries, last).ok
    ensures |Fill(entries, last).values| == Top(entries, last) - last
    decreases |entries|
  {
    if entries != [] {
      var e := entries[0];
      if e.key <= last {
        FillLength(entries[1..], last);
      } else {
        FillLength(entries[1..], e.key);
      }
    }
  }

  /**
   * On success, a pair whose index is above every index seen before it (and
   * above `last`) finds its load at that index; `values[0]` is index `last + 1`.
   */
  lemma {:induction false} FillAt(entries: seq<TableEntry>, last: int, j: nat)
    requires Fill(entries, last).ok
    requires j < |entries| && entries[j].key > Top(entries[..j], last)
    ensures entries[j].key - last - 1 < |Fill(entries, last).values|
    ensures Fill(entries, last).values[entries[j].key - last - 1] == entries[j].value
    decreases |entries|
  {
    var e := entries[0];
    FillLength(entries, last);
    if j == 0 {
      assert e.key > last;
    } else if e.key <= last {
      assert entries[1..][..j - 1] == entries[..j][1..];
      FillAt(entries[1..], last, j - 1);
    } else {
      assert entries[1..][..j - 1] == entries[..j][1..];
      FillAt(entries[1..], e.key, j - 1);
      var rest := Fill(entries[1..], e.key);
      var prefix := Zeros(e.key - last - 1) + [e.value];
      assert Fill(entries, last).values == prefix + rest.values;
      assert (prefix + rest.values)[|prefix| + (entries[j].key - e.key - 1)] == rest.values[entries[j].key - e.key - 1];
    }
  }

  /** Indices no pair names are filled with zero loads. */
  lemma {:induction false} FillGapIsZero(entries: seq<TableEntry>, last: int, p: nat)
    requires Fill(entries, last).ok && p < |Fill(entries, last).values|
    requires forall j :: 0 <= j < |entries| ==> entries[j].key != last + 1 + p
    ensures Fill(entries, last).values[p] == 0.0
    decreases |entries|
  {
    var e := entries[0];
    if e.key <= last {
      FillGapIsZero(entries[1..], last, p);
    } else {
      var rest := Fill(entries[1..], e.key);
      var prefix := Zeros(e.key - last - 1) + [e.value];
      assert Fill(entries, last).values == prefix + rest.values;
      if p >= |prefix| {
        FillGapIsZero(entries[1..], e.key, p - |prefix|);
      }
    }
  }

  /**
   * `predict(script, cur_loads, pred_load)`: `-EINVAL` when the script does
   * not load, fails to run or does not return a table; otherwise the loads
   * are appended to `predLoad` pair by pair, and a malformed pair stops with
   * `-EINVAL`, keeping what was appended before it.
   */
  method Predict(loads: bool, runs: bool, returnsTable: bool, entries: seq<TableEntry>, predLoad: LoadArray)
    returns (rc: int)
    modifies predLoad
    ensures !(loads && runs && returnsTable) ==> rc == -Predictors.EINVAL && predLoad.nums == old(predLoad.nums)
    ensures loads && runs && returnsTable ==>
      predLoad.nums == old(predLoad.nums) + Fill(entries, 0).values &&
      (rc == 0 <==> Fill(entries, 0).ok) && (rc != 0 ==> rc == -Predictors.EINVAL)
  {
    if !loads || !runs || !returnsTable {
      return -Predictors.EINVAL;
    }
    var lastIdx := 0;
    var i := 0;
    while i < |entries|
      invariant 0 <= i <= |entries|
      invariant predLoad.nums + Fill(entries[i..], lastIdx).values == old(predLoad.nums) + Fill(entries, 0).values
      invariant Fill(entries[i..], lastIdx).ok == Fill(entries, 0).ok
    {
      var e := entries[i];
      assert entries[i..][1..] == entries[i + 1..];
      if !e.keyIsNumber || !e.valueIsNumber {
        return -Predictors.EINVAL;
      }
      var curIdx := e.key;
      var curLoad := e.value;
      if curIdx <= lastIdx {
        i := i + 1;
        continue;
      } else if curIdx == lastIdx + 1 {
        predLoad.Append(curLoad);
      } else {
        ghost var before := predLoad.nums;
        ghost var gapStart := lastIdx;
        while lastIdx < curIdx - 1
          invariant gapStart <= lastIdx <= curIdx - 1
          invariant predLoad.nums == before + Zeros(lastIdx - gapStart)
        {
          lastIdx := lastIdx + 1;
          predLoad.Append(0.0);
        }
        lastIdx := lastIdx + 1;
        predLoad.Append(curLoad);
      }
      lastIdx := curIdx;
      i := i + 1;
    }
    assert entries[i..] == [];
    return 0;
  }
}
