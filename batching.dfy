/** The batching policy of `format` (src/lib.rs) as a specification: the hunk
    sequence is cut into its maximal runs of hunks with the same destination
    file, by contiguity only, so that files A, B, A make three runs. */
module Batching {
  import opened Diff

  /** Every hunk of `g` has the destination file of its first hunk. */
  predicate SameFile(g: seq<Hunk>) {
    forall i :: 0 <= i < |g| ==> g[i].dst.file == g[0].dst.file
  }

  /** The runs of `hs`, built hunk by hunk from the left as `format` builds
      them: a hunk joins the open run when its destination file is that of
      the hunk before it, and opens a new run otherwise. */
  function Runs(hs: seq<Hunk>): (gs: seq<seq<Hunk>>)
    ensures |gs| == 0 <==> |hs| == 0
    ensures |hs| > 0 ==> |gs[|gs| - 1]| > 0 && gs[|gs| - 1][|gs[|gs| - 1]| - 1] == hs[|hs| - 1]
  {
    if |hs| == 0 then []
    else
      var h := hs[|hs| - 1];
      var gs := Runs(hs[..|hs| - 1]);
      if |hs| > 1 && hs[|hs| - 2].dst.file == h.dst.file then
        gs[..|gs| - 1] + [gs[|gs| - 1] + [h]]
      else
        gs + [[h]]
  }

  /** Every group is a non-empty group of hunks on one destination file. */
  predicate Grouped(gs: seq<seq<Hunk>>) {
    forall k :: 0 <= k < |gs| ==> |gs[k]| > 0 && SameFile(gs[k])
  }

  /** Neighbouring groups have different destination files. */
  predicate Separated(gs: seq<seq<Hunk>>) {
    forall i, j :: 0 <= i < |gs| && 0 <= j < |gs| && j == i + 1 ==>
      gs[i] != [] && gs[j] != [] && gs[i][0].dst.file != gs[j][0].dst.file
  }

  /** Every run is a non-empty group of hunks on one destination file. */
  lemma {:induction false} RunsGrouped(hs: seq<Hunk>)
    ensures Grouped(Runs(hs))
  {
    if |hs| > 0 {
      var pre := hs[..|hs| - 1];
      RunsGrouped(pre);
      var h := hs[|hs| - 1];
      var p := Runs(pre);
      if |hs| > 1 && hs[|hs| - 2].dst.file == h.dst.file {
        var g := p[|p| - 1];
        assert SameFile(g + [h]) by {
          assert g[|g| - 1] == hs[|hs| - 2];
        }
      }
    }
  }

  /** The concatenation of a sequence of groups. */
  function Flatten(gs: seq<seq<Hunk>>): seq<Hunk> {
    if |gs| == 0 then [] else Flatten(gs[..|gs| - 1]) + gs[|gs| - 1]
  }

  /** The number of adjacent positions where the destination file changes. */
  function Changes(hs: seq<Hunk>): nat {
    if |hs| <= 1 then 0
    else Changes(hs[..|hs| - 1]) + (if hs[|hs| - 2].dst.file != hs[|hs| - 1].dst.file then 1 else 0)
  }

  /** `gs` cuts `hs`, in order and without gaps, into non-empty groups of one
      destination file each, and neighbouring groups have different files:
      the groups are the maximal runs. */
  predicate IsMaximalRuns(hs: seq<Hunk>, gs: seq<seq<Hunk>>) {
    Flatten(gs) == hs && Grouped(gs) && Separated(gs)
  }

  /** The runs hold every hunk exactly once, in input order. */
  lemma {:induction false} RunsFlatten(hs: seq<Hunk>)
    ensures Flatten(Runs(hs)) == hs
  {
    if |hs| > 0 {
      var h := hs[|hs| - 1];
      var pre := hs[..|hs| - 1];
      var p := Runs(pre);
      RunsFlatten(pre);
      var gs := Runs(hs);
      if |hs| > 1 && hs[|hs| - 2].dst.file == h.dst.file {
        var q := p[..|p| - 1];
        assert gs[..|gs| - 1] == q;
        assert p == q + [p[|p| - 1]];
        assert Flatten(p) == Flatten(q) + p[|p| - 1];
        assert Flatten(gs) == Flatten(q) + (p[|p| - 1] + [h]);
      } else {
        assert gs[..|gs| - 1] == p;
      }
    }
  }

  /** Neighbouring runs have different destination files. */
  lemma {:induction false} RunsSeparated(hs: seq<Hunk>)
    ensures Separated(Runs(hs))
  {
    if |hs| > 1 {
      var pre := hs[..|hs| - 1];
      var h := hs[|hs| - 1];
      RunsSeparated(pre);
      RunsGrouped(pre);
      var p := Runs(pre);
      var gs := Runs(hs);
      var n := |p|;
      var last := p[n - 1];
      assert last[|last| - 1] == hs[|hs| - 2];
      if hs[|hs| - 2].dst.file == h.dst.file {
        assert |gs| == n;
        forall k | 0 <= k < n
          ensures gs[k] != [] && gs[k][0] == p[k][0]
        {
          if k == n - 1 {
            assert gs[k] == p[k] + [h];
          } else {
            assert gs[k] == p[k];
          }
        }
      } else {
        assert gs == p + [[h]];
        assert last[0].dst.file == hs[|hs| - 2].dst.file;
      }
    }
  }

  /** The runs are the maximal runs of `hs`. */
  lemma RunsAreMaximal(hs: seq<Hunk>)
    ensures IsMaximalRuns(hs, Runs(hs))
  {
    RunsFlatten(hs);
    RunsGrouped(hs);
    RunsSeparated(hs);
  }

  lemma FlattenEmpty(gs: seq<seq<Hunk>>)
    requires Grouped(gs)
    ensures |Flatten(gs)| == 0 <==> |gs| == 0
  {
  }

  /** Conversely, the maximal runs of `hs` are unique: any grouping with the
      properties of `IsMaximalRuns` is `Runs(hs)`. */
  lemma {:induction false} MaximalRunsAreRuns(hs: seq<Hunk>, gs: seq<seq<Hunk>>)
    requires IsMaximalRuns(hs, gs)
    ensures gs == Runs(hs)
    decreases |hs|
  {
    FlattenEmpty(gs);
    if |hs| > 0 {
      var n := |gs|;
      var p := gs[..n - 1];
      var g := gs[n - 1];
      var h := hs[|hs| - 1];
      var pre := hs[..|hs| - 1];
      assert Flatten(gs) == Flatten(p) + g;
      assert |g| > 0 && h == g[|g| - 1];
      if |g| == 1 {
        SplitLastSingleton(hs, gs);
      } else {
        SplitLastLonger(hs, gs);
      }
    }
  }

  /** Dropping groups from the end keeps a grouping grouped and separated. */
  lemma PrefixKeepsShape(gs: seq<seq<Hunk>>, m: nat)
    requires Grouped(gs) && Separated(gs) && m <= |gs|
    ensures Grouped(gs[..m]) && Separated(gs[..m])
  {
    var p: seq<seq<Hunk>> := gs[..m];
    forall i, j | 0 <= i < |p| && 0 <= j < |p| && j == i + 1
      ensures p[i] != [] && p[j] != [] && p[i][0].dst.file != p[j][0].dst.file
    {
      assert p[i] == gs[i] && p[j] == gs[j];
    }
  }

  /** The last hunk of a flattened grouping is the last hunk of its last group. */
  lemma FlattenLast(gs: seq<seq<Hunk>>)
    requires |gs| > 0 && |gs[|gs| - 1]| > 0
    ensures |Flatten(gs)| > 0
    ensures Flatten(gs)[|Flatten(gs)| - 1] == gs[|gs| - 1][|gs[|gs| - 1]| - 1]
  {
  }

  /** The step of `MaximalRunsAreRuns` when the last group is one hunk. */
  lemma {:induction false} SplitLastSingleton(hs: seq<Hunk>, gs: seq<seq<Hunk>>)
    requires IsMaximalRuns(hs, gs) && |gs| > 0 && |gs[|gs| - 1]| == 1
    ensures gs == Runs(hs)
    decreases |hs|, 0
  {
    var n := |gs|;
    var p := gs[..n - 1];
    var g := gs[n - 1];
    assert gs == p + [g];
    assert Flatten(gs) == Flatten(p) + g;
    var h := g[0];
    assert g == [h];
    var pre := hs[..|hs| - 1];
    assert pre == Flatten(p);
    PrefixKeepsShape(gs, n - 1);
    MaximalRunsAreRuns(pre, p);
    if |hs| > 1 {
      FlattenEmpty(p);
      var lastg := p[|p| - 1];
      FlattenLast(p);
      assert hs[|hs| - 2] == lastg[|lastg| - 1];
      assert gs[n - 2] == lastg;
      assert lastg[|lastg| - 1].dst.file == lastg[0].dst.file != h.dst.file;
      assert Runs(hs) == Runs(pre) + [[h]];
    } else {
      assert pre == [];
      assert Runs(hs) == Runs(pre) + [[h]];
    }
  }

  /** The step of `MaximalRunsAreRuns` when the last group has several hunks. */
  lemma {:induction false} SplitLastLonger(hs: seq<Hunk>, gs: seq<seq<Hunk>>)
    requires IsMaximalRuns(hs, gs) && |gs| > 0 && |gs[|gs| - 1]| > 1
    ensures gs == Runs(hs)
    decreases |hs|, 0
  {
    var n := |gs|;
    var p := gs[..n - 1];
    var g := gs[n - 1];
    assert gs == p + [g];
    assert Flatten(gs) == Flatten(p) + g;
    var h := g[|g| - 1];
    var pre := hs[..|hs| - 1];
    var g' := g[..|g| - 1];
    var p' := p + [g'];
    assert p'[..|p'| - 1] == p;
    assert g == g' + [h];
    assert pre == Flatten(p) + g';
    assert Grouped(p') by {
      forall k | 0 <= k < |p'|
        ensures |p'[k]| > 0 && SameFile(p'[k])
      {
        if k < n - 1 { assert p'[k] == gs[k]; }
      }
    }
    assert Separated(p') by {
      forall i, j | 0 <= i < j < |p'| && j == i + 1
        ensures p'[i] != [] && p'[j] != [] && p'[i][0].dst.file != p'[j][0].dst.file
      {
        assert p'[i][0] == gs[i][0] && p'[j][0] == gs[j][0];
      }
    }
    MaximalRunsAreRuns(pre, p');
    assert hs[|hs| - 2] == g[|g| - 2];
    assert g[|g| - 2].dst.file == g[0].dst.file == h.dst.file;
    assert Runs(hs) == p'[..|p'| - 1] + [p'[|p'| - 1] + [h]];
  }

  /** There is one run per destination-file change, plus one. */
  lemma {:induction false} RunsCount(hs: seq<Hunk>)
    requires |hs| > 0
    ensures |Runs(hs)| == 1 + Changes(hs)
  {
    if |hs| > 1 {
      RunsCount(hs[..|hs| - 1]);
    }
  }

  /** A non-empty sequence of hunks on one destination file is a single run. */
  lemma {:induction false} OneFileOneRun(hs: seq<Hunk>)
    requires |hs| > 0 && SameFile(hs)
    ensures Runs(hs) == [hs]
  {
    if |hs| > 1 {
      var pre := hs[..|hs| - 1];
      assert SameFile(pre);
      OneFileOneRun(pre);
      assert hs[|hs| - 2].dst.file == hs[0].dst.file == hs[|hs| - 1].dst.file;
      assert Runs(hs) == Runs(pre)[..0] + [Runs(pre)[0] + [hs[|hs| - 1]]];
      assert hs == pre + [hs[|hs| - 1]];
    } else {
      assert hs[..0] == [];
      assert hs == [hs[0]];
    }
  }

  /** Runs never reach across a change of destination file: cutting the
      input where the file changes cuts its runs in the same place. */
  lemma {:induction false} RunsSplit(a: seq<Hunk>, b: seq<Hunk>)
    requires |a| > 0 && |b| > 0 && a[|a| - 1].dst.file != b[0].dst.file
    ensures Runs(a + b) == Runs(a) + Runs(b)
    decreases |b|
  {
    var ab := a + b;
    var x := b[|b| - 1];
    if |b| == 1 {
      assert ab[..|ab| - 1] == a;
      assert Runs(ab) == Runs(a) + [[x]];
    } else {
      var b' := b[..|b| - 1];
      assert ab[..|ab| - 1] == a + b';
      RunsSplit(a, b');
      var p, q := Runs(a), Runs(b');
      assert Runs(a + b') == p + q;
      if b[|b| - 2].dst.file == x.dst.file {
        assert ab[|ab| - 2] == b[|b| - 2];
        assert Runs(ab) == (p + q)[..|p + q| - 1] + [q[|q| - 1] + [x]];
        assert Runs(b) == q[..|q| - 1] + [q[|q| - 1] + [x]];
        assert (p + q)[..|p + q| - 1] == p + q[..|q| - 1];
      } else {
        assert ab[|ab| - 2] == b[|b| - 2];
        assert Runs(ab) == (p + q) + [[x]];
        assert Runs(b) == q + [[x]];
      }
    }
  }
}
