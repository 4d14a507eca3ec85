/**
 * Choosing the build nodes that will host cluster instances: keep the nodes
 * that are online, have an executor and carry the selection label (ignoring
 * case), shuffle them, and take up to the requested number of them, skipping
 * the node the build runs on (it is the DAS node and is always used).
 */
module NodeSelection {
  import opened JavaText
  import opened Nodes

  /* ---------------------------------------------------- sequence helpers */

  /** The elements of s that satisfy p, in their order in s. */
  function Filter<T>(s: seq<T>, p: T -> bool): (r: seq<T>)
    ensures |r| <= |s|
  {
    if |s| == 0 then [] else (if p(s[0]) then [s[0]] else []) + Filter(s[1..], p)
  }

  lemma {:induction false} FilterAppend<T>(a: seq<T>, b: seq<T>, p: T -> bool)
    ensures Filter(a + b, p) == Filter(a, p) + Filter(b, p)
  {
    if |a| == 0 {
      assert a + b == b;
    } else {
      var ab := a + b;
      assert ab[0] == a[0];
      assert ab[1..] == a[1..] + b;
      FilterAppend(a[1..], b, p);
      var h := if p(a[0]) then [a[0]] else [];
      assert Filter(ab, p) == h + Filter(a[1..] + b, p);
      assert Filter(a, p) == h + Filter(a[1..], p);
    }
  }

  lemma {:induction false} FilterMembers<T>(s: seq<T>, p: T -> bool)
    ensures forall x :: x in Filter(s, p) <==> x in s && p(x)
  {
    if |s| > 0 {
      FilterMembers(s[1..], p);
      assert s == [s[0]] + s[1..];
    }
  }

  /** xs is obtained from ys by deleting elements: an order-preserving subsequence. */
  predicate SubseqOf<T(==)>(xs: seq<T>, ys: seq<T>)
    decreases |ys|
  {
    |xs| == 0 || (|ys| > 0 && ((xs[0] == ys[0] && SubseqOf(xs[1..], ys[1..])) || SubseqOf(xs, ys[1..])))
  }

  lemma {:induction false} FilterSubseq<T>(s: seq<T>, p: T -> bool)
    ensures SubseqOf(Filter(s, p), s)
  {
    if |s| > 0 {
      FilterSubseq(s[1..], p);
      var r := Filter(s, p);
      if p(s[0]) {
        assert r[0] == s[0] && r[1..] == Filter(s[1..], p);
      } else {
        assert r == Filter(s[1..], p);
      }
    }
  }

  lemma {:induction false} SubseqPrefix<T>(xs: seq<T>, ys: seq<T>, m: nat)
    requires SubseqOf(xs, ys) && m <= |xs|
    ensures SubseqOf(xs[..m], ys)
    decreases |ys|
  {
    if m > 0 {
      if xs[0] == ys[0] && SubseqOf(xs[1..], ys[1..]) {
        SubseqPrefix(xs[1..], ys[1..], m - 1);
        assert xs[..m][1..] == xs[1..][..m - 1];
      } else {
        SubseqPrefix(xs, ys[1..], m);
      }
    }
  }

  /* ----------------------------------------------------------- the filter */

  /** The node carries a label equal to `wanted` ignoring case. */
  predicate HasLabel(n: Node, wanted: string) {
    exists l :: l in n.labels && EqualsIgnoreCase(l, wanted)
  }

  /** getAvailableSlaveNodes keeps a node when it is online, has an executor and matches the label. */
  predicate IsCandidate(n: Node, wanted: string) {
    n.online && n.numExecutors > 0 && HasLabel(n, wanted)
  }

  /** The candidate nodes of the pool, in pool order. */
  function Candidates(pool: seq<Node>, wanted: string): seq<Node> {
    Filter(pool, n => IsCandidate(n, wanted))
  }

  /** The candidates are exactly the online, executor-bearing, label-matching nodes of the pool, in pool order. */
  lemma CandidatesExactly(pool: seq<Node>, wanted: string)
    ensures forall n :: n in Candidates(pool, wanted) <==> n in pool && IsCandidate(n, wanted)
    ensures SubseqOf(Candidates(pool, wanted), pool)
  {
    FilterMembers(pool, n => IsCandidate(n, wanted));
    FilterSubseq(pool, n => IsCandidate(n, wanted));
  }

  /* ---------------------------------------------------------- the shuffle */

  /**
   * Collections.shuffle: for i from |s| down to 2, swap position i-1 with position
   * Random.nextInt(i); draws supplies the random numbers, nextInt(i) being draw % i
   * (a missing draw counts as 0).
   */
  function Shuffle<T>(s: seq<T>, draws: seq<nat>): (r: seq<T>)
    ensures multiset(r) == multiset(s)
    decreases |s|
  {
    if |s| <= 1 then s
    else
      var n := |s|;
      var j := (if |draws| > 0 then draws[0] else 0) % n;
      var rest := if |draws| > 0 then draws[1..] else [];
      var front := if j == n - 1 then s[..n - 1] else s[..j] + [s[n - 1]] + s[j + 1..n - 1];
      assert multiset(front) + multiset{s[j]} == multiset(s) by {
        if j == n - 1 {
          assert s == s[..n - 1] + [s[j]];
        } else {
          assert s == s[..j] + [s[j]] + s[j + 1..n - 1] + [s[n - 1]];
        }
      }
      Shuffle(front, rest) + [s[j]]
  }

  /** The nodes getAvailableSlaveNodes returns: the candidates, shuffled. */
  method AvailableSlaveNodes(wanted: string, pool: seq<Node>, draws: seq<nat>) returns (slaves: seq<Node>)
    ensures slaves == Shuffle(Candidates(pool, wanted), draws)
    ensures multiset(slaves) == multiset(Candidates(pool, wanted))
  {
    slaves := [];
    var k := 0;
    while k < |pool|
      invariant 0 <= k <= |pool|
      invariant slaves == Candidates(pool[..k], wanted)
    {
      var n := pool[k];
      FilterAppend(pool[..k], [n], m => IsCandidate(m, wanted));
      assert pool[..k + 1] == pool[..k] + [n];
      if !n.online {
        // skipped: node is offline
      } else if n.numExecutors <= 0 {
        // skipped: no executors
      } else {
        var labelMatched := false;
        var li := 0;
        while li < |n.labels|
          invariant 0 <= li <= |n.labels|
          invariant labelMatched <==> exists l :: l in n.labels[..li] && EqualsIgnoreCase(l, wanted)
        {
          assert n.labels[..li + 1] == n.labels[..li] + [n.labels[li]];
          if EqualsIgnoreCase(n.labels[li], wanted) {
            labelMatched := true;
            assert n.labels[..li + 1] <= n.labels;
            break;
          }
          li := li + 1;
        }
        assert labelMatched <==> HasLabel(n, wanted) by {
          if !labelMatched {
            assert n.labels[..li] == n.labels;
          }
        }
        if labelMatched {
          slaves := slaves + [n];
        }
      }
      k := k + 1;
    }
    assert pool[..k] == pool;
    slaves := Shuffle(slaves, draws);
  }

  /* -------------------------------------------------------- the selection */

  /** s without the current node, order kept. */
  function Without(s: seq<Node>, current: Node): seq<Node> {
    Filter(s, n => n != current)
  }

  lemma WithoutAppend(a: seq<Node>, b: seq<Node>, current: Node)
    ensures Without(a + b, current) == Without(a, current) + Without(b, current)
  {
    FilterAppend(a, b, n => n != current);
  }

  lemma WithoutSnoc(s: seq<Node>, k: nat, current: Node)
    requires k < |s|
    ensures Without(s[..k + 1], current) == Without(s[..k], current) + (if s[k] == current then [] else [s[k]])
  {
    WithoutAppend(s[..k], [s[k]], current);
    assert s[..k + 1] == s[..k] + [s[k]];
  }

  /** The first numNodes nodes of random other than current (all of them when fewer). */
  function Selection(random: seq<Node>, current: Node, numNodes: int): seq<Node> {
    var w := Without(random, current);
    if numNodes <= 0 then [] else if numNodes < |w| then w[..numNodes] else w
  }

  /**
   * selectSlaveNodesForInstanceDeployment: walks the shuffled candidates, skips the
   * current node and stops once numNodes nodes are selected.
   */
  method SelectSlaveNodesForInstanceDeployment(
    numNodes: int, wanted: string, pool: seq<Node>, current: Node, draws: seq<nat>)
    returns (selected: seq<Node>)
    ensures selected == Selection(Shuffle(Candidates(pool, wanted), draws), current, numNodes)
  {
    var randomSlaves := AvailableSlaveNodes(wanted, pool, draws);
    selected := [];
    var i := 0;
    var k := 0;
    while k < |randomSlaves|
      invariant 0 <= k <= |randomSlaves|
      invariant i == |selected|
      invariant selected == Without(randomSlaves[..k], current)
      invariant numNodes <= 0 ==> i == 0
      invariant numNodes > 0 ==> i <= numNodes
    {
      if i >= numNodes {
        break;
      }
      var n := randomSlaves[k];
      WithoutSnoc(randomSlaves, k, current);
      k := k + 1;
      if n == current {
        continue;
      }
      selected := selected + [n];
      i := i + 1;
    }
    SelectionFromPrefix(randomSlaves, current, numNodes, k, selected);
  }

  /** Where the selection loop stops, it has built the selection. */
  lemma SelectionFromPrefix(random: seq<Node>, current: Node, numNodes: int, k: nat, selected: seq<Node>)
    requires k <= |random| && selected == Without(random[..k], current)
    requires k < |random| ==> |selected| >= numNodes
    requires numNodes <= 0 ==> |selected| == 0
    requires numNodes > 0 ==> |selected| <= numNodes
    ensures selected == Selection(random, current, numNodes)
  {
    WithoutAppend(random[..k], random[k..], current);
    assert random == random[..k] + random[k..];
    var w := Without(random, current);
    assert w == selected + Without(random[k..], current);
    if numNodes > 0 && k < |random| {
      assert w[..numNodes] == selected;
    }
  }

  /* --------------------------------------------------------------- lemmas */

  /**
   * The selection holds at most numNodes nodes, never the current node, only candidates
   * of the pool, and keeps the shuffled order; it is short of numNodes only when every
   * other candidate was taken.
   */
  lemma SelectionProperties(pool: seq<Node>, wanted: string, current: Node, draws: seq<nat>, numNodes: int)
    ensures var random := Shuffle(Candidates(pool, wanted), draws);
      var sel := Selection(random, current, numNodes);
      && |sel| <= (if numNodes < 0 then 0 else numNodes)
      && current !in sel
      && (forall n :: n in sel ==> n in pool && IsCandidate(n, wanted))
      && SubseqOf(sel, random)
      && (0 <= |sel| < numNodes ==> sel == Without(random, current))
  {
    var c := Candidates(pool, wanted);
    var random := Shuffle(c, draws);
    SelectionOf(random, current, numNodes);
    CandidatesExactly(pool, wanted);
    forall n | n in random ensures n in c {
      assert multiset(random)[n] > 0;
    }
  }

  /** The selection from any sequence: a bounded prefix of it without the current node. */
  lemma SelectionOf(random: seq<Node>, current: Node, numNodes: int)
    ensures var sel := Selection(random, current, numNodes);
      && |sel| <= (if numNodes < 0 then 0 else numNodes)
      && (forall n :: n in sel ==> n in random && n != current)
      && SubseqOf(sel, random)
      && (0 <= |sel| < numNodes ==> sel == Without(random, current))
  {
    var w := Without(random, current);
    var sel := Selection(random, current, numNodes);
    FilterMembers(random, n => n != current);
    FilterSubseq(random, n => n != current);
    assert sel == w[..|sel|];
    SubseqPrefix(w, random, |sel|);
    forall n | n in sel ensures n in w {
    }
  }

  lemma {:induction false} WithoutLength(s: seq<Node>, x: Node)
    ensures |Without(s, x)| == |s| - multiset(s)[x]
  {
    if |s| > 0 {
      WithoutLength(s[1..], x);
      assert s == [s[0]] + s[1..];
    }
  }

  /**
   * Whether enough nodes are found does not depend on the shuffle: the selection has
   * the same length for any two sequences of random draws.
   */
  lemma SelectionLengthIndependentOfShuffle(
    pool: seq<Node>, wanted: string, current: Node, d1: seq<nat>, d2: seq<nat>, numNodes: int)
    ensures |Selection(Shuffle(Candidates(pool, wanted), d1), current, numNodes)|
         == |Selection(Shuffle(Candidates(pool, wanted), d2), current, numNodes)|
  {
    var c := Candidates(pool, wanted);
    SameMultisetSameSelectionLength(Shuffle(c, d1), Shuffle(c, d2), current, numNodes);
  }

  lemma SameMultisetSameSelectionLength(r1: seq<Node>, r2: seq<Node>, current: Node, numNodes: int)
    requires multiset(r1) == multiset(r2)
    ensures |Selection(r1, current, numNodes)| == |Selection(r2, current, numNodes)|
  {
    WithoutLength(r1, current);
    WithoutLength(r2, current);
    assert |r1| == |multiset(r1)| == |multiset(r2)| == |r2|;
  }
}
