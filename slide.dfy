/**
 * The per-line body shared by move_left/move_up and by move_right/move_down:
 * filter out the empty cells, make one merging pass over the dense list
 * (zeroing the consumed neighbour), filter again and pad back to Size.
 * Each pass is proved to agree with the reference merge of module Line.
 */
module Slide {
  import opened Line

  /**
   * The merging pass toward index 0: i runs over every pair (i, i+1) from the front.
   * After a merge at i the neighbour i+1 is zeroed, so the next comparison is
   * 0 against a non-zero tile and no tile is merged twice.
   */
  method MergePassLeft(dense: seq<int>) returns (tiles: seq<int>, gain: int)
    requires AllNonZero(dense)
    ensures |tiles| == |dense|
    ensures NonZero(tiles) == Merge(dense)
    ensures gain == MergeGain(dense)
  {
    tiles := dense;
    gain := 0;
    var i := 0;
    // dense[j..] is still untouched; j == i + 1 means tiles[i] was consumed.
    ghost var j := 0;
    while i + 1 < |tiles|
      invariant |tiles| == |dense|
      invariant 0 <= i <= j <= |dense| && (|dense| > 0 ==> i < |dense|)
      invariant j == i || (j == i + 1 && tiles[i] == 0)
      invariant tiles[j..] == dense[j..]
      invariant NonZero(tiles[..j]) + Merge(dense[j..]) == Merge(dense)
      invariant gain + MergeGain(dense[j..]) == MergeGain(dense)
    {
      ghost var before := tiles;
      if tiles[i] == tiles[i + 1] {
        tiles := tiles[i := tiles[i] * 2];
        gain := gain + tiles[i];
        tiles := tiles[i + 1 := 0];
        LeftMergeStep(dense, before, i, j);
        j := i + 2;
      } else {
        LeftKeepStep(dense, before, i, j);
        j := i + 1;
      }
      i := i + 1;
    }
    if j < |dense| {
      assert tiles == tiles[..j] + dense[j..];
      assert dense[j..] == [dense[j]];
      NonZeroAppend(tiles[..j], dense[j..]);
    } else {
      assert tiles[..j] == tiles;
    }
  }

  /** A merge at i: the untouched suffix shrinks by two and one doubled tile is emitted. */
  lemma LeftMergeStep(dense: seq<int>, before: seq<int>, i: nat, j: nat)
    requires AllNonZero(dense) && |before| == |dense| && i + 1 < |dense|
    requires j == i || (j == i + 1 && before[i] == 0)
    requires before[j..] == dense[j..]
    requires before[i] == before[i + 1]
    ensures j == i
    ensures var after := before[i := before[i] * 2][i + 1 := 0];
      after[i + 2..] == dense[i + 2..] &&
      NonZero(after[..i + 2]) + Merge(dense[i + 2..]) == NonZero(before[..j]) + Merge(dense[j..]) &&
      2 * before[i] + MergeGain(dense[i + 2..]) == MergeGain(dense[j..])
  {
    assert before[i + 1] == before[j..][i + 1 - j];
    assert before[i + 1] == dense[i + 1] != 0;
    assert j == i;
    var x := dense[i];
    assert before[i] == x && dense[i + 1] == x;
    var s := dense[i..];
    assert s[0] == x && s[1] == x;
    MergeFront(s);
    assert s[2..] == dense[i + 2..];
    var after := before[i := before[i] * 2][i + 1 := 0];
    assert after[i + 2..] == before[i + 2..];
    assert before[i + 2..] == before[i..][2..];
    assert after[..i + 2] == before[..i] + [2 * x, 0];
    NonZeroAppend(before[..i], [2 * x, 0]);
    assert [2 * x, 0][1..] == [0];
    assert NonZero([2 * x, 0]) == [2 * x];
  }

  /** No merge at i: position i joins the finished prefix as it stands. */
  lemma LeftKeepStep(dense: seq<int>, before: seq<int>, i: nat, j: nat)
    requires AllNonZero(dense) && |before| == |dense| && i + 1 < |dense|
    requires j == i || (j == i + 1 && before[i] == 0)
    requires before[j..] == dense[j..]
    requires before[i] != before[i + 1]
    ensures before[i + 1..] == dense[i + 1..]
    ensures NonZero(before[..i + 1]) + Merge(dense[i + 1..]) == NonZero(before[..j]) + Merge(dense[j..])
    ensures MergeGain(dense[i + 1..]) == MergeGain(dense[j..])
  {
    if j == i {
      var s := dense[i..];
      assert before[i] == s[0] && before[i + 1] == s[1];
      MergeFront(s);
      assert s[1..] == dense[i + 1..];
      assert before[i + 1..] == before[i..][1..];
      assert before[..i + 1] == before[..i] + [s[0]];
      NonZeroAppend(before[..i], [s[0]]);
    } else {
      assert before[..i + 1] == before[..i] + [0];
      NonZeroAppend(before[..i], [0]);
    }
  }

  /**
   * The merging pass toward the last index: i runs from the last cell down to 1,
   * comparing each cell with the one before it and
   * zeroing the consumed neighbour i-1.
   */
  method MergePassRight(dense: seq<int>) returns (tiles: seq<int>, gain: int)
    requires AllNonZero(dense)
    ensures |tiles| == |dense|
    ensures NonZero(tiles) == MergeR(dense)
    ensures gain == MergeGainR(dense)
  {
    tiles := dense;
    gain := 0;
    var i := |tiles| - 1;
    // dense[..k] is still untouched; k == i means tiles[i] was consumed.
    ghost var k := |dense|;
    assert tiles[k..] == [] && dense[..k] == dense;
    while i > 0
      invariant |tiles| == |dense|
      invariant -1 <= i < |dense| && 0 <= k <= |dense|
      invariant k == i + 1 || (k == i && tiles[i] == 0)
      invariant tiles[..k] == dense[..k]
      invariant MergeR(dense[..k]) + NonZero(tiles[k..]) == MergeR(dense)
      invariant MergeGainR(dense[..k]) + gain == MergeGainR(dense)
    {
      ghost var before := tiles;
      if tiles[i] == tiles[i - 1] {
        tiles := tiles[i := tiles[i] * 2];
        gain := gain + tiles[i];
        tiles := tiles[i - 1 := 0];
        RightMergeStep(dense, before, i, k);
        k := i - 1;
      } else {
        RightKeepStep(dense, before, i, k);
        k := i;
      }
      i := i - 1;
    }
    if k > 0 {
      assert tiles == dense[..k] + tiles[k..];
      assert dense[..k] == [dense[0]];
      NonZeroAppend(dense[..k], tiles[k..]);
    } else {
      assert tiles[k..] == tiles;
    }
  }

  /** A merge at i (with i-1): the untouched prefix shrinks by two, one doubled tile is emitted. */
  lemma RightMergeStep(dense: seq<int>, before: seq<int>, i: nat, k: nat)
    requires AllNonZero(dense) && |before| == |dense| && 0 < i < |dense|
    requires k == i + 1 || (k == i && before[i] == 0)
    requires k <= |dense| && before[..k] == dense[..k]
    requires before[i] == before[i - 1]
    ensures k == i + 1
    ensures var after := before[i := before[i] * 2][i - 1 := 0];
      after[..i - 1] == dense[..i - 1] &&
      MergeR(dense[..i - 1]) + NonZero(after[i - 1..]) == MergeR(dense[..k]) + NonZero(before[k..]) &&
      MergeGainR(dense[..i - 1]) + 2 * before[i] == MergeGainR(dense[..k])
  {
    assert before[i - 1] == before[..k][i - 1];
    assert before[i - 1] == dense[i - 1] != 0;
    assert k == i + 1;
    var x := dense[i];
    assert before[i] == x && dense[i - 1] == x;
    var s := dense[..k];
    assert s[|s| - 1] == x && s[|s| - 2] == x;
    MergeBack(s);
    assert s[..|s| - 2] == dense[..i - 1];
    var after := before[i := before[i] * 2][i - 1 := 0];
    assert after[..i - 1] == before[..i - 1];
    assert before[..i - 1] == before[..k][..i - 1];
    var rest := before[i + 1..];
    assert after[i - 1..] == [0, 2 * x] + rest by {
      assert |after[i - 1..]| == 2 + |rest|;
      assert after[i - 1] == 0 && after[i] == 2 * x;
      assert after[i + 1..] == rest;
    }
    NonZeroAppend([0, 2 * x], rest);
    assert [0, 2 * x][1..] == [2 * x];
    assert NonZero([0, 2 * x]) == [2 * x];
  }

  /** No merge at i: position i joins the finished suffix as it stands. */
  lemma RightKeepStep(dense: seq<int>, before: seq<int>, i: nat, k: nat)
    requires AllNonZero(dense) && |before| == |dense| && 0 < i < |dense|
    requires k == i + 1 || (k == i && before[i] == 0)
    requires k <= |dense| && before[..k] == dense[..k]
    requires before[i] != before[i - 1]
    ensures before[..i] == dense[..i]
    ensures MergeR(dense[..i]) + NonZero(before[i..]) == MergeR(dense[..k]) + NonZero(before[k..])
    ensures MergeGainR(dense[..i]) == MergeGainR(dense[..k])
  {
    if k == i + 1 {
      var s := dense[..k];
      assert before[i] == s[|s| - 1] && before[i - 1] == s[|s| - 2];
      MergeBack(s);
      assert s[..|s| - 1] == dense[..i];
      assert before[..i] == before[..k][..i];
      assert before[i..] == [s[|s| - 1]] + before[k..];
      NonZeroAppend([s[|s| - 1]], before[k..]);
    }
  }

  /** Appends zeros at the back until the line holds Size cells. */
  method PadBack(m: seq<int>) returns (tiles: seq<int>)
    requires |m| <= Size
    ensures |tiles| == Size
    ensures tiles[..|m|] == m
    ensures forall i :: |m| <= i < Size ==> tiles[i] == 0
  {
    tiles := m;
    while |tiles| < Size
      invariant |m| <= |tiles| <= Size
      invariant tiles[..|m|] == m
      invariant forall i :: |m| <= i < |tiles| ==> tiles[i] == 0
    {
      tiles := tiles + [0];
    }
  }

  /** Inserts zeros at the front until the line holds Size cells. */
  method PadFront(m: seq<int>) returns (tiles: seq<int>)
    requires |m| <= Size
    ensures |tiles| == Size
    ensures tiles[Size - |m|..] == m
    ensures forall i :: 0 <= i < Size - |m| ==> tiles[i] == 0
  {
    tiles := m;
    while |tiles| < Size
      invariant |m| <= |tiles| <= Size
      invariant tiles[|tiles| - |m|..] == m
      invariant forall i :: 0 <= i < |tiles| - |m| ==> tiles[i] == 0
    {
      tiles := [0] + tiles;
    }
  }

  /** One row of move_left, or one column of move_up: the new line and the points it earns. */
  method SlideLineLeft(line: seq<int>) returns (tiles: seq<int>, gain: int)
    requires |line| == Size
    ensures tiles == SlideLeft(line)
    ensures gain == GainLeft(line)
  {
    var dense := NonZero(line);
    NonZeroElements(line);
    var merged;
    merged, gain := MergePassLeft(dense);
    var packed := NonZero(merged);
    tiles := PadBack(packed);
    assert tiles == packed + Zeros(Size - |packed|);
  }

  /** One row of move_right, or one column of move_down. */
  method SlideLineRight(line: seq<int>) returns (tiles: seq<int>, gain: int)
    requires |line| == Size
    ensures tiles == SlideRight(line)
    ensures gain == GainRight(line)
  {
    var dense := NonZero(line);
    NonZeroElements(line);
    var merged;
    merged, gain := MergePassRight(dense);
    var packed := NonZero(merged);
    tiles := PadFront(packed);
    assert tiles == Zeros(Size - |packed|) + packed;
  }
}
