/**
 * One line of the board (a row, or a column for the vertical moves) and the
 * reference semantics of sliding it: drop the empty cells, merge equal
 * neighbours once in a single pass from the leading edge, pack and pad.
 */
module Line {
  import opened Tiles

  /** GRID_SIZE: the board is Size x Size. */
  const Size: nat := 4

  function Zeros(n: nat): (z: seq<int>)
    ensures |z| == n
  {
    seq(n, _ => 0)
  }

  /** The list comprehension that keeps the non-zero tiles in order. */
  function NonZero(s: seq<int>): (r: seq<int>)
    ensures |r| <= |s|
  {
    if s == [] then []
    else if s[0] == 0 then NonZero(s[1..])
    else [s[0]] + NonZero(s[1..])
  }

  /** Sum of the tile values of a line. */
  function Sum(s: seq<int>): int {
    if s == [] then 0 else s[0] + Sum(s[1..])
  }

  function Rev(s: seq<int>): (r: seq<int>)
    ensures |r| == |s|
  {
    seq(|s|, i requires 0 <= i < |s| => s[|s| - 1 - i])
  }

  predicate NoAdjacentEqual(t: seq<int>) {
    forall i :: 0 <= i < |t| - 1 ==> t[i] != t[i + 1]
  }

  predicate AllNonZero(t: seq<int>) {
    forall i :: 0 <= i < |t| ==> t[i] != 0
  }

  predicate AllTiles(t: seq<int>) {
    forall i :: 0 <= i < |t| ==> IsTile(t[i])
  }

  /**
   * Reference merge toward index 0: each adjacent equal pair, scanned from the
   * front, becomes one doubled tile; a tile takes part in at most one merge.
   */
  function Merge(t: seq<int>): (m: seq<int>)
    ensures |m| <= |t|
  {
    if |t| < 2 then t
    else if t[0] == t[1] then [2 * t[0]] + Merge(t[2..])
    else [t[0]] + Merge(t[1..])
  }

  /** The score earned by Merge: the sum of the doubled tiles it creates. */
  function MergeGain(t: seq<int>): int {
    if |t| < 2 then 0
    else if t[0] == t[1] then 2 * t[0] + MergeGain(t[2..])
    else MergeGain(t[1..])
  }

  /** Reference merge toward the last index, scanning pairs from the back. */
  function MergeR(t: seq<int>): (m: seq<int>)
    ensures |m| <= |t|
  {
    if |t| < 2 then t
    else if t[|t| - 1] == t[|t| - 2] then MergeR(t[..|t| - 2]) + [2 * t[|t| - 1]]
    else MergeR(t[..|t| - 1]) + [t[|t| - 1]]
  }

  function MergeGainR(t: seq<int>): int {
    if |t| < 2 then 0
    else if t[|t| - 1] == t[|t| - 2] then MergeGainR(t[..|t| - 2]) + 2 * t[|t| - 1]
    else MergeGainR(t[..|t| - 1])
  }

  /** What move_left (and move_up, on a column) makes of one line. */
  function SlideLeft(line: seq<int>): (r: seq<int>)
    requires |line| <= Size
    ensures |r| == Size
  {
    var m := Merge(NonZero(line));
    m + Zeros(Size - |m|)
  }

  /** What move_right (and move_down, on a column) makes of one line. */
  function SlideRight(line: seq<int>): (r: seq<int>)
    requires |line| <= Size
    ensures |r| == Size
  {
    var m := MergeR(NonZero(line));
    Zeros(Size - |m|) + m
  }

  function GainLeft(line: seq<int>): int {
    MergeGain(NonZero(line))
  }

  function GainRight(line: seq<int>): int {
    MergeGainR(NonZero(line))
  }

  // ---------------------------------------------------------------------------
  // Basic facts about the helpers

  lemma {:induction false} NonZeroAppend(a: seq<int>, b: seq<int>)
    ensures NonZero(a + b) == NonZero(a) + NonZero(b)
  {
    if a == [] {
      assert a + b == b;
    } else {
      assert (a + b)[1..] == a[1..] + b;
      NonZeroAppend(a[1..], b);
    }
  }

  /** The filtered line holds only non-zero tiles, all taken from the input. */
  lemma {:induction false} NonZeroElements(s: seq<int>)
    ensures AllNonZero(NonZero(s))
    ensures forall x :: x in NonZero(s) ==> x in s
  {
    if s != [] {
      NonZeroElements(s[1..]);
    }
  }

  lemma {:induction false} NonZeroOfNonZero(s: seq<int>)
    requires AllNonZero(s)
    ensures NonZero(s) == s
  {
    if s != [] {
      NonZeroOfNonZero(s[1..]);
    }
  }

  /** Filtering keeps the length only when nothing was filtered out. */
  lemma {:induction false} NonZeroFull(s: seq<int>)
    requires |NonZero(s)| == |s|
    ensures NonZero(s) == s && AllNonZero(s)
  {
    if s != [] {
      NonZeroFull(s[1..]);
    }
  }

  lemma ZerosNonZero(n: nat)
    ensures NonZero(Zeros(n)) == []
  {
    if n > 0 {
      assert Zeros(n)[1..] == Zeros(n - 1);
      ZerosNonZero(n - 1);
    }
  }

  lemma {:induction false} SumAppend(a: seq<int>, b: seq<int>)
    ensures Sum(a + b) == Sum(a) + Sum(b)
  {
    if a == [] {
      assert a + b == b;
    } else {
      assert (a + b)[1..] == a[1..] + b;
      SumAppend(a[1..], b);
    }
  }

  lemma {:induction false} SumZeros(n: nat)
    ensures Sum(Zeros(n)) == 0
  {
    if n > 0 {
      assert Zeros(n)[1..] == Zeros(n - 1);
      SumZeros(n - 1);
    }
  }

  lemma {:induction false} SumNonZero(s: seq<int>)
    ensures Sum(NonZero(s)) == Sum(s)
  {
    if s != [] {
      SumNonZero(s[1..]);
    }
  }

  lemma {:induction false} SumRev(s: seq<int>)
    ensures Sum(Rev(s)) == Sum(s)
  {
    if s != [] {
      assert Rev(s) == Rev(s[1..]) + [s[0]];
      SumAppend(Rev(s[1..]), [s[0]]);
      SumRev(s[1..]);
    }
  }

  /** The four cells of a line, added up. */
  lemma Sum4(s: seq<int>)
    requires |s| == 4
    ensures Sum(s) == s[0] + s[1] + s[2] + s[3]
  {
    assert Sum(s[3..]) == s[3] by { assert s[3..][1..] == []; }
    assert Sum(s[2..]) == s[2] + Sum(s[3..]) by { assert s[2..][1..] == s[3..]; }
    assert Sum(s[1..]) == s[1] + Sum(s[2..]) by { assert s[1..][1..] == s[2..]; }
  }

  lemma RevRev(s: seq<int>)
    ensures Rev(Rev(s)) == s
  {
  }

  lemma RevAppend(a: seq<int>, b: seq<int>)
    ensures Rev(a + b) == Rev(b) + Rev(a)
  {
  }

  lemma RevIn(s: seq<int>, x: int)
    ensures x in Rev(s) <==> x in s
  {
    if x in s {
      var i :| 0 <= i < |s| && s[i] == x;
      assert Rev(s)[|s| - 1 - i] == x;
    }
  }

  lemma {:induction false} NonZeroRev(s: seq<int>)
    ensures NonZero(Rev(s)) == Rev(NonZero(s))
  {
    if s != [] {
      assert Rev(s) == Rev(s[1..]) + [s[0]];
      NonZeroAppend(Rev(s[1..]), [s[0]]);
      NonZeroRev(s[1..]);
      if s[0] != 0 {
        assert NonZero(s) == [s[0]] + NonZero(s[1..]);
        RevAppend([s[0]], NonZero(s[1..]));
      }
    }
  }

  // ---------------------------------------------------------------------------
  // Properties of the reference merge

  /** One step of Merge at the front of a line: a merged pair, or a tile kept. */
  lemma MergeFront(s: seq<int>)
    requires |s| >= 2
    ensures s[0] == s[1] ==> Merge(s) == [2 * s[0]] + Merge(s[2..]) && MergeGain(s) == 2 * s[0] + MergeGain(s[2..])
    ensures s[0] != s[1] ==> Merge(s) == [s[0]] + Merge(s[1..]) && MergeGain(s) == MergeGain(s[1..])
  {
  }

  /** One step of MergeR at the back of a line. */
  lemma MergeBack(s: seq<int>)
    requires |s| >= 2
    ensures s[|s| - 1] == s[|s| - 2] ==>
      MergeR(s) == MergeR(s[..|s| - 2]) + [2 * s[|s| - 1]] && MergeGainR(s) == MergeGainR(s[..|s| - 2]) + 2 * s[|s| - 1]
    ensures s[|s| - 1] != s[|s| - 2] ==>
      MergeR(s) == MergeR(s[..|s| - 1]) + [s[|s| - 1]] && MergeGainR(s) == MergeGainR(s[..|s| - 1])
  {
  }

  /** Merging keeps the total of the tile values: a pair 2v is replaced by one tile 2v. */
  lemma {:induction false} MergeSum(t: seq<int>)
    ensures Sum(Merge(t)) == Sum(t)
  {
    if |t| >= 2 {
      if t[0] == t[1] {
        MergeSum(t[2..]);
        assert t[1..][1..] == t[2..];
      } else {
        MergeSum(t[1..]);
      }
    }
  }

  /** A line with no empty cell merges into a line with no empty cell. */
  lemma {:induction false} MergeNonZero(t: seq<int>)
    requires AllNonZero(t)
    ensures AllNonZero(Merge(t))
  {
    if |t| >= 2 {
      if t[0] == t[1] {
        MergeNonZero(t[2..]);
      } else {
        MergeNonZero(t[1..]);
      }
    }
  }

  /** x is the double of some pair of equal neighbours in t. */
  predicate DoubledPair(t: seq<int>, x: int) {
    exists i :: 0 <= i < |t| - 1 && t[i] == t[i + 1] && x == 2 * t[i]
  }

  /**
   * The values a merge can produce: every tile of the merged line is a tile of
   * the input or the double of one pair of equal neighbours in it (so 2,2,4
   * gives 4,4 and never 8), and each merged tile consumes at most two input
   * tiles. MergeSplit adds the order: no tile merges twice.
   */
  lemma {:induction false} MergeOnce(t: seq<int>)
    ensures forall x :: x in Merge(t) ==> x in t || DoubledPair(t, x)
    ensures |t| <= 2 * |Merge(t)|
  {
    if |t| >= 2 {
      if t[0] == t[1] {
        var rest := t[2..];
        MergeOnce(rest);
        forall x | x in Merge(t)
          ensures x in t || DoubledPair(t, x)
        {
          if x == 2 * t[0] {
            assert 0 < |t| - 1 && t[0] == t[1];
          } else {
            assert x in Merge(rest);
            if x in rest {
              assert x in t;
            } else {
              var i :| 0 <= i < |rest| - 1 && rest[i] == rest[i + 1] && x == 2 * rest[i];
              assert t[i + 2] == rest[i] && t[i + 3] == rest[i + 1];
            }
          }
        }
      } else {
        var rest := t[1..];
        MergeOnce(rest);
        forall x | x in Merge(t)
          ensures x in t || DoubledPair(t, x)
        {
          if x != t[0] {
            assert x in Merge(rest);
            if x in rest {
              assert x in t;
            } else {
              var i :| 0 <= i < |rest| - 1 && rest[i] == rest[i + 1] && x == 2 * rest[i];
              assert t[i + 1] == rest[i] && t[i + 2] == rest[i + 1];
            }
          }
        }
      }
    }
  }

  /**
   * Merging is local: where two neighbours differ, the line can be cut there
   * and each part merged on its own. So a tile made by a merge never merges
   * again with the tile after it.
   */
  lemma {:induction false} MergeSplit(a: seq<int>, b: seq<int>)
    requires a != [] && b != [] && a[|a| - 1] != b[0]
    ensures Merge(a + b) == Merge(a) + Merge(b)
    ensures MergeGain(a + b) == MergeGain(a) + MergeGain(b)
  {
    var ab := a + b;
    assert ab[0] == a[0];
    if |a| == 1 {
      assert ab[1] == b[0] && ab[1..] == b;
      MergeFront(ab);
    } else {
      assert ab[1] == a[1];
      var n := if a[0] == a[1] then 2 else 1;
      var rest := a[n..];
      assert ab[n..] == rest + b;
      if rest != [] {
        MergeSplit(rest, b);
      } else {
        assert rest + b == b;
      }
      MergeFront(ab);
      MergeFront(a);
      ConsAppend(if n == 2 then 2 * a[0] else a[0], Merge(rest), Merge(b));
    }
  }

  lemma ConsAppend(x: int, p: seq<int>, q: seq<int>)
    ensures [x] + (p + q) == ([x] + p) + q
  {
  }

  /** [2,2,4,4] merges to [4,8]: the 4 made from the 2s does not join the input 4s. */
  lemma ExampleNoChainMerge()
    ensures Merge([2, 2, 4, 4]) == [4, 8] && MergeGain([2, 2, 4, 4]) == 12
  {
    MergeSplit([2, 2], [4, 4]);
    assert [2, 2] + [4, 4] == [2, 2, 4, 4];
  }

  /** Merge changes nothing exactly when no two neighbours are equal. */
  lemma {:induction false} MergeUnchanged(t: seq<int>)
    ensures Merge(t) == t <==> NoAdjacentEqual(t)
    ensures |Merge(t)| == |t| <==> NoAdjacentEqual(t)
  {
    if |t| >= 2 {
      if t[0] == t[1] {
        assert |Merge(t)| == 1 + |Merge(t[2..])| <= |t| - 1;
        assert !NoAdjacentEqual(t) by { assert t[0] == t[1]; }
      } else {
        MergeUnchanged(t[1..]);
        assert t == [t[0]] + t[1..];
        if NoAdjacentEqual(t[1..]) {
          forall i | 0 <= i < |t| - 1 ensures t[i] != t[i + 1] {
            if i > 0 { assert t[i] == t[1..][i - 1] && t[i + 1] == t[1..][i]; }
          }
        } else {
          var i :| 0 <= i < |t[1..]| - 1 && t[1..][i] == t[1..][i + 1];
          assert t[i + 1] == t[i + 2];
        }
      }
    }
  }

  /** With positive tiles, a line scores exactly when some pair merges. */
  lemma {:induction false} MergeGainSign(t: seq<int>)
    requires forall i :: 0 <= i < |t| ==> t[i] > 0
    ensures MergeGain(t) >= 0
    ensures MergeGain(t) == 0 <==> NoAdjacentEqual(t)
  {
    if |t| >= 2 {
      if t[0] == t[1] {
        MergeGainSign(t[2..]);
      } else {
        MergeGainSign(t[1..]);
        if NoAdjacentEqual(t[1..]) {
          forall i | 0 <= i < |t| - 1 ensures t[i] != t[i + 1] {
            if i > 0 { assert t[i] == t[1..][i - 1] && t[i + 1] == t[1..][i]; }
          }
        } else {
          var i :| 0 <= i < |t[1..]| - 1 && t[1..][i] == t[1..][i + 1];
          assert t[i + 1] == t[i + 2];
        }
      }
    }
  }

  /** Right-to-left merging is left-to-right merging of the reversed line, reversed. */
  lemma {:induction false} MergeMirror(t: seq<int>)
    ensures MergeR(t) == Rev(Merge(Rev(t)))
    ensures MergeGainR(t) == MergeGain(Rev(t))
  {
    if |t| >= 2 {
      var n := |t|;
      var rt := Rev(t);
      assert rt[0] == t[n - 1] && rt[1] == t[n - 2];
      if t[n - 1] == t[n - 2] {
        var p := t[..n - 2];
        assert rt[2..] == Rev(p);
        MergeMirror(p);
        RevRev(Merge(Rev(p)));
        assert Merge(rt) == [2 * t[n - 1]] + Merge(Rev(p));
        RevAppend([2 * t[n - 1]], Merge(Rev(p)));
      } else {
        var p := t[..n - 1];
        assert rt[1..] == Rev(p);
        MergeMirror(p);
        assert Merge(rt) == [t[n - 1]] + Merge(Rev(p));
        RevAppend([t[n - 1]], Merge(Rev(p)));
      }
    }
  }

  // ---------------------------------------------------------------------------
  // Properties of a whole line move

  /** move_right is the mirror image of move_left, in result and in score. */
  lemma SlideRightMirror(line: seq<int>)
    requires |line| <= Size
    ensures SlideRight(line) == Rev(SlideLeft(Rev(line)))
    ensures GainRight(line) == GainLeft(Rev(line))
  {
    var d := NonZero(line);
    NonZeroRev(line);
    MergeMirror(d);
    RevRev(d);
    var m := Merge(Rev(d));
    assert MergeR(d) == Rev(m);
    RevAppend(m, Zeros(Size - |m|));
    assert Rev(Zeros(Size - |m|)) == Zeros(Size - |m|);
  }

  /** A move neither creates nor destroys tile value in a line. */
  lemma SlideLeftSum(line: seq<int>)
    requires |line| <= Size
    ensures Sum(SlideLeft(line)) == Sum(line)
  {
    var m := Merge(NonZero(line));
    SumAppend(m, Zeros(Size - |m|));
    SumZeros(Size - |m|);
    MergeSum(NonZero(line));
    SumNonZero(line);
  }

  lemma SlideRightSum(line: seq<int>)
    requires |line| <= Size
    ensures Sum(SlideRight(line)) == Sum(line)
  {
    SlideRightMirror(line);
    SlideLeftSum(Rev(line));
    SumRev(SlideLeft(Rev(line)));
    SumRev(line);
  }

  /** Sliding a line of tiles gives a line of tiles (merged values stay powers of two). */
  lemma SlideLeftTiles(line: seq<int>)
    requires |line| <= Size && AllTiles(line)
    ensures AllTiles(SlideLeft(line))
  {
    var d := NonZero(line);
    var m := Merge(d);
    NonZeroElements(line);
    MergeOnce(d);
    forall i | 0 <= i < |m| ensures IsTile(m[i]) {
      var x := m[i];
      assert x in m;
      if x in d {
        assert x in line;
      } else {
        var j :| 0 <= j < |d| - 1 && d[j] == d[j + 1] && x == 2 * d[j];
        var y := d[j];
        assert y in d;
        assert y in line && y != 0;
        DoubleIsTile(y);
      }
    }
    var r := SlideLeft(line);
    forall i | 0 <= i < Size ensures IsTile(r[i]) {
      if i >= |m| { assert r[i] == 0; } else { assert r[i] == m[i]; }
    }
  }

  lemma SlideRightTiles(line: seq<int>)
    requires |line| <= Size && AllTiles(line)
    ensures AllTiles(SlideRight(line))
  {
    var rl := Rev(line);
    forall i | 0 <= i < |rl| ensures IsTile(rl[i]) {
      assert rl[i] == line[|line| - 1 - i];
    }
    SlideLeftTiles(rl);
    SlideRightMirror(line);
  }

  /** A line scores nothing negative. */
  lemma LineGainNonNegative(line: seq<int>)
    requires AllTiles(line)
    ensures GainLeft(line) >= 0 && GainRight(line) >= 0
  {
    var d := NonZero(line);
    NonZeroElements(line);
    forall i | 0 <= i < |d| ensures d[i] > 0 {
      assert d[i] in d;
      assert d[i] in line;
    }
    MergeGainSign(d);
    var rd := Rev(d);
    forall i | 0 <= i < |rd| ensures rd[i] > 0 {
      assert rd[i] == d[|d| - 1 - i];
    }
    MergeGainSign(rd);
    MergeMirror(d);
  }

  /**
   * A slide whose result has no empty cell left the line as it was: the
   * line was full and nothing merged. So a move that changes a line always
   * leaves room for a new tile.
   */
  lemma SlideLeftFull(line: seq<int>)
    requires |line| == Size
    requires AllNonZero(SlideLeft(line))
    ensures SlideLeft(line) == line
  {
    var d := NonZero(line);
    var m := Merge(d);
    var s := SlideLeft(line);
    assert s[Size - 1] != 0;
    assert s == m + Zeros(Size - |m|);
    assert |m| == Size;
    assert |d| == Size;
    NonZeroFull(line);
    MergeUnchanged(d);
  }

  lemma SlideRightFull(line: seq<int>)
    requires |line| == Size
    requires AllNonZero(SlideRight(line))
    ensures SlideRight(line) == line
  {
    var d := NonZero(line);
    var m := MergeR(d);
    var s := SlideRight(line);
    assert s[0] != 0;
    assert s == Zeros(Size - |m|) + m;
    assert |m| == Size;
    assert |d| == Size;
    NonZeroFull(line);
    MergeMirror(d);
    MergeUnchanged(Rev(d));
    RevRev(d);
  }

  /** A full line without equal neighbours is stuck in both horizontal directions. */
  lemma StuckLine(line: seq<int>)
    requires |line| == Size && AllNonZero(line) && NoAdjacentEqual(line)
    ensures SlideLeft(line) == line && SlideRight(line) == line
  {
    NonZeroOfNonZero(line);
    MergeUnchanged(line);
    var rl := Rev(line);
    assert NoAdjacentEqual(rl) by {
      forall i | 0 <= i < |rl| - 1 ensures rl[i] != rl[i + 1] {
        assert rl[i] == line[Size - 1 - i] && rl[i + 1] == line[Size - 2 - i];
      }
    }
    MergeUnchanged(rl);
    MergeMirror(line);
    RevRev(line);
  }

  /**
   * Sliding again in the same direction changes nothing exactly when the slid
   * line has no equal neighbours left.
   */
  lemma SlideLeftSettled(line: seq<int>)
    requires |line| <= Size
    ensures SlideLeft(SlideLeft(line)) == SlideLeft(line) <==> NoAdjacentEqual(Merge(NonZero(line)))
  {
    var m := Merge(NonZero(line));
    SlideLeftPacked(line);
    PackedIsSettled(m);
  }

  /** A left slide is the merged line, of non-empty tiles, padded with zeros. */
  lemma SlideLeftPacked(line: seq<int>)
    requires |line| <= Size
    ensures var m := Merge(NonZero(line));
      |m| <= Size && AllNonZero(m) && SlideLeft(line) == m + Zeros(Size - |m|)
  {
    NonZeroElements(line);
    MergeNonZero(NonZero(line));
  }

  /** The same for the right slide, by mirroring the left one. */
  lemma SlideRightSettled(line: seq<int>)
    requires |line| <= Size
    ensures SlideRight(SlideRight(line)) == SlideRight(line) <==> NoAdjacentEqual(MergeR(NonZero(line)))
  {
    var rl := Rev(line);
    var d := NonZero(line);
    NonZeroRev(line);
    MergeMirror(d);
    RevRev(Merge(Rev(d)));
    assert Merge(NonZero(rl)) == Rev(MergeR(d));
    RevNoAdjacentEqual(MergeR(d));
    SlideLeftSettled(rl);
    SlideRightMirror(line);
    var once := SlideLeft(rl);
    var twice := SlideLeft(once);
    SlideRightMirror(Rev(once));
    RevRev(once);
    assert SlideRight(SlideRight(line)) == Rev(twice);
    RevRev(twice);
  }

  /** Reversing a line keeps "no two neighbours are equal", both ways. */
  lemma RevNoAdjacentEqual(t: seq<int>)
    ensures NoAdjacentEqual(Rev(t)) <==> NoAdjacentEqual(t)
  {
    var r := Rev(t);
    if NoAdjacentEqual(t) {
      forall i | 0 <= i < |r| - 1 ensures r[i] != r[i + 1] {
        assert r[i] == t[|t| - 1 - i] && r[i + 1] == t[|t| - 2 - i];
      }
    } else {
      var i :| 0 <= i < |t| - 1 && t[i] == t[i + 1];
      var j := |t| - 2 - i;
      assert r[j] == t[i + 1] && r[j + 1] == t[i];
    }
  }

  /** A packed, zero-padded line is a fixed point of the left slide exactly when no two neighbours are equal. */
  lemma PackedIsSettled(m: seq<int>)
    requires |m| <= Size && AllNonZero(m)
    ensures SlideLeft(m + Zeros(Size - |m|)) == m + Zeros(Size - |m|) <==> NoAdjacentEqual(m)
  {
    var z := Zeros(Size - |m|);
    NonZeroAppend(m, z);
    ZerosNonZero(Size - |m|);
    NonZeroOfNonZero(m);
    assert NonZero(m + z) == m;
    MergeUnchanged(m);
    var mm := Merge(m);
    MergeNonZero(m);
    var z2 := Zeros(Size - |mm|);
    NonZeroAppend(mm, z2);
    ZerosNonZero(Size - |mm|);
    NonZeroOfNonZero(mm);
    assert SlideLeft(m + z) == mm + z2;
    assert NonZero(mm + z2) == mm;
  }

  /** Filling one empty cell adds one non-empty cell to the line. */
  lemma {:induction false} FillOne(s: seq<int>, c: int, v: int)
    requires 0 <= c < |s| && s[c] == 0 && v != 0
    ensures |NonZero(s[c := v])| == |NonZero(s)| + 1
  {
    if c > 0 {
      assert s[c := v][1..] == s[1..][c - 1 := v];
      FillOne(s[1..], c - 1, v);
    } else {
      assert s[c := v][1..] == s[1..];
    }
  }

  // ---------------------------------------------------------------------------
  // The worked examples

  /** [2,2,2,2] slides left to [4,4,0,0] for 8 points, not to [8,0,0,0]. */
  lemma ExampleLeftFourTwos()
    ensures SlideLeft([2, 2, 2, 2]) == [4, 4, 0, 0] && GainLeft([2, 2, 2, 2]) == 8
  {
    assert NonZero([2, 2, 2, 2]) == [2, 2, 2, 2];
    assert [2, 2, 2, 2][2..] == [2, 2];
    assert Merge([2, 2]) == [4];
  }

  /** [0,2,0,2] slides right to [0,0,0,4] for 4 points. */
  lemma ExampleRightGap()
    ensures SlideRight([0, 2, 0, 2]) == [0, 0, 0, 4] && GainRight([0, 2, 0, 2]) == 4
  {
    assert NonZero([0, 2, 0, 2]) == [2, 2];
  }

  /** [2,2,2,0] slides right to [0,0,2,4]: the rightmost pair merges. */
  lemma ExampleRightThreeTwos()
    ensures SlideRight([2, 2, 2, 0]) == [0, 0, 2, 4]
  {
    assert NonZero([2, 2, 2, 0]) == [2, 2, 2];
    assert [2, 2, 2][..1] == [2];
    assert MergeR([2, 2, 2]) == [2, 4];
  }
}
