/** The Merkle tree of a block's transactions (src/main.h, CBlock). */
module Merkle {
  import opened Sequences
  import opened Bytes
  import opened Transactions

  /** The hash of two hashes laid end to end. */
  type PairHash = (Hash, Hash) -> Hash

  /** A level from the one below: neighbours are hashed together, and a last odd one with itself. */
  function Up(h: PairHash, level: seq<Hash>): (r: seq<Hash>)
    ensures |r| == (|level| + 1) / 2
    ensures forall k | 0 <= k < |r| :: r[k] == h(level[2 * k], level[Min(2 * k + 1, |level| - 1)])
  {
    UpTo(h, level, (|level| + 1) / 2)
  }

  function UpTo(h: PairHash, level: seq<Hash>, n: nat): (r: seq<Hash>)
    requires n <= (|level| + 1) / 2
    ensures |r| == n && forall k | 0 <= k < n :: r[k] == h(level[2 * k], level[Min(2 * k + 1, |level| - 1)])
  {
    if n == 0 then []
    else UpTo(h, level, n - 1) + [h(level[2 * (n - 1)], level[Min(2 * n - 1, |level| - 1)])]
  }

  /** All levels, one after the other. */
  function Flat(h: PairHash, level: seq<Hash>): (r: seq<Hash>)
    ensures |r| == 0 <==> |level| == 0
    decreases |level|
  {
    if |level| <= 1 then level else level + Flat(h, Up(h, level))
  }

  // The tree from the root down

  /** The number of nodes d levels up. */
  function Width(n: nat, d: nat): nat {
    if d == 0 then n else (Width(n, d - 1) + 1) / 2
  }

  /** The k-th node d levels up: its two children hashed together, the last child standing in for a missing one. */
  function Node(h: PairHash, leaves: seq<Hash>, d: nat, k: nat): Hash
    requires k < Width(|leaves|, d)
    decreases d
  {
    if d == 0 then leaves[k]
    else
      h(Node(h, leaves, d - 1, 2 * k), Node(h, leaves, d - 1, Min(2 * k + 1, Width(|leaves|, d - 1) - 1)))
  }

  function Depth(n: nat): nat
    decreases n
  {
    if n <= 1 then 0 else 1 + Depth((n + 1) / 2)
  }

  /** The root: zero for an empty block. */
  function Root(h: PairHash, leaves: seq<Hash>): Hash {
    if leaves == [] then NULL_HASH
    else
      TopWidth(|leaves|);
      Node(h, leaves, Depth(|leaves|), 0)
  }

  lemma {:induction false} WidthUp(n: nat, d: nat)
    ensures Width((n + 1) / 2, d) == Width(n, d + 1)
  {
    if d > 0 {
      WidthUp(n, d - 1);
    }
  }

  lemma {:induction false} TopWidth(n: nat)
    requires n > 0
    ensures Width(n, Depth(n)) == 1
  {
    if n > 1 {
      TopWidth((n + 1) / 2);
      WidthUp(n, Depth((n + 1) / 2));
    }
  }

  /** Going up a level first gives the same nodes. */
  lemma {:induction false} NodeUp(h: PairHash, leaves: seq<Hash>, d: nat, k: nat)
    requires k < Width(|leaves|, d + 1)
    ensures k < Width(|Up(h, leaves)|, d) && Node(h, leaves, d + 1, k) == Node(h, Up(h, leaves), d, k)
    decreases d, 1
  {
    WidthUp(|leaves|, d);
    if d == 0 {
      assert Up(h, leaves)[k] == h(leaves[2 * k], leaves[Min(2 * k + 1, |leaves| - 1)]);
    } else {
      NodeUpHigher(h, leaves, Up(h, leaves), d, k);
    }
  }

  lemma NodeIsPair(h: PairHash, leaves: seq<Hash>, d: nat, k: nat)
    requires k < Width(|leaves|, d + 1)
    ensures 2 * k < Width(|leaves|, d) && Min(2 * k + 1, Width(|leaves|, d) - 1) < Width(|leaves|, d)
    ensures Node(h, leaves, d + 1, k)
            == h(Node(h, leaves, d, 2 * k), Node(h, leaves, d, Min(2 * k + 1, Width(|leaves|, d) - 1)))
  {
  }

  lemma {:induction false} NodeUpHigher(h: PairHash, leaves: seq<Hash>, up: seq<Hash>, d: nat, k: nat)
    requires d > 0 && k < Width(|leaves|, d + 1) && up == Up(h, leaves)
    ensures k < Width(|up|, d) && Node(h, leaves, d + 1, k) == Node(h, up, d, k)
    decreases d, 0
  {
    hide Up, Width, Node;
    WidthUp(|leaves|, d);
    WidthUp(|leaves|, d - 1);
    NodeIsPair(h, leaves, d, k);
    NodeIsPair(h, up, d - 1, k);
    NodeUp(h, leaves, d - 1, 2 * k);
    NodeUp(h, leaves, d - 1, Min(2 * k + 1, Width(|leaves|, d) - 1));
  }

  lemma RootUp(h: PairHash, level: seq<Hash>)
    requires |level| > 1
    ensures Root(h, level) == Root(h, Up(h, level))
  {
    TopWidth(|level|);
    NodeUp(h, level, Depth(|level|) - 1, 0);
  }

  /** The last entry of the flat array is the root of the tree. */
  lemma {:induction false} FlatEndsInRoot(h: PairHash, level: seq<Hash>)
    requires level != []
    ensures var f := Flat(h, level); f[|f| - 1] == Root(h, level)
    decreases |level|
  {
    if |level| > 1 {
      FlatEndsInRoot(h, Up(h, level));
      RootUp(h, level);
    }
  }

  /** Where the level d steps up begins in the flat array. */
  function Offset(n: nat, d: nat): nat {
    if d == 0 then 0 else Offset(n, d - 1) + Width(n, d - 1)
  }

  lemma {:induction false} OffsetUp(n: nat, d: nat)
    ensures Offset(n, d + 1) == n + Offset((n + 1) / 2, d)
  {
    if d > 0 {
      OffsetUp(n, d - 1);
      WidthUp(n, d - 1);
    }
  }

  lemma IndexBehind(a: seq<Hash>, b: seq<Hash>, i: nat)
    requires i < |b|
    ensures (a + b)[|a| + i] == b[i]
  {
  }

  /** The flat array holds every node of the tree, level by level. */
  lemma {:induction false} FlatRefinesTree(h: PairHash, leaves: seq<Hash>, d: nat, k: nat)
    requires leaves != [] && d <= Depth(|leaves|) && k < Width(|leaves|, d)
    ensures var f := Flat(h, leaves);
      Offset(|leaves|, d) + k < |f| && f[Offset(|leaves|, d) + k] == Node(h, leaves, d, k)
    decreases d, 1
  {
    if d == 0 {
      FlatFront(h, leaves, k);
    } else {
      FlatRefinesHigher(h, leaves, d, k);
    }
  }

  lemma {:induction false} FlatRefinesHigher(h: PairHash, leaves: seq<Hash>, d: nat, k: nat)
    requires leaves != [] && 0 < d <= Depth(|leaves|) && k < Width(|leaves|, d)
    ensures var f := Flat(h, leaves);
      Offset(|leaves|, d) + k < |f| && f[Offset(|leaves|, d) + k] == Node(h, leaves, d, k)
    decreases d, 0
  {
    hide Flat, Node, Width, Offset;
    var up, n := Up(h, leaves), |leaves|;
    WidthUp(n, d - 1);
    OffsetUp(n, d - 1);
    NodeUp(h, leaves, d - 1, k);
    FlatRefinesTree(h, up, d - 1, k);
    FlatBehind(h, leaves, Offset(|up|, d - 1) + k);
  }

  lemma FlatFront(h: PairHash, level: seq<Hash>, i: nat)
    requires i < |level|
    ensures i < |Flat(h, level)| && Flat(h, level)[i] == level[i]
  {
    hide Up;
  }

  lemma FlatBehind(h: PairHash, level: seq<Hash>, i: nat)
    requires |level| > 1 && i < |Flat(h, Up(h, level))|
    ensures |level| + i < |Flat(h, level)| && Flat(h, level)[|level| + i] == Flat(h, Up(h, level))[i]
  {
    hide Up;
    IndexBehind(level, Flat(h, Up(h, level)), i);
  }

  // Branches

  /** nIndex ^ 1 */
  function Sibling(i: nat): nat {
    if i % 2 == 0 then i + 1 else i - 1
  }

  function Branch(h: PairHash, level: seq<Hash>, i: nat): seq<Hash>
    decreases |level|
  {
    if |level| <= 1 then [] else [level[Min(Sibling(i), |level| - 1)]] + Branch(h, Up(h, level), i / 2)
  }

  /** An index below zero keeps its sign when it is shifted. */
  function Fold(h: PairHash, hash: Hash, branch: seq<Hash>, i: int): Hash
    decreases |branch|
  {
    if branch == [] then hash
    else Fold(h, Join(h, hash, branch[0], i), branch[1..], i / 2)
  }

  function Join(h: PairHash, hash: Hash, other: Hash, i: int): Hash {
    Apply(h, Pair(hash, other, i))
  }

  /** What is hashed at a step of the way up. */
  function Pair(hash: Hash, other: Hash, i: int): (Hash, Hash) {
    if i % 2 == 1 then (other, hash) else (hash, other)
  }

  function Apply(h: PairHash, p: (Hash, Hash)): Hash {
    h(p.0, p.1)
  }

  lemma PairAbove(h: PairHash, level: seq<Hash>, i: nat)
    requires i < |level| && |level| > 1
    ensures Up(h, level)[i / 2] == Join(h, level[i], level[Min(Sibling(i), |level| - 1)], i)
  {
    var k := i / 2;
    assert Up(h, level)[k] == h(level[2 * k], level[Min(2 * k + 1, |level| - 1)]);
    if i % 2 == 1 {
      assert i == 2 * k + 1;
    } else {
      assert i == 2 * k;
    }
  }

  /** The branch of every transaction leads to the root. */
  lemma {:induction false} BranchLeadsToRoot(h: PairHash, level: seq<Hash>, i: nat)
    requires i < |level|
    ensures Fold(h, level[i], Branch(h, level, i), i) == Root(h, level)
    decreases |level|
  {
    if |level| > 1 {
      PairAbove(h, level, i);
      BranchLeadsToRoot(h, Up(h, level), i / 2);
      RootUp(h, level);
      assert Branch(h, level, i)[1..] == Branch(h, Up(h, level), i / 2);
    }
  }

  /** Two pairs that a hash function does not tell apart. */
  datatype Clash = Clash(p: (Hash, Hash), q: (Hash, Hash))

  predicate IsCollision(h: PairHash, c: Clash) {
    c.p != c.q && Apply(h, c.p) == Apply(h, c.q)
  }

  /** The lowest step at which another hash and branch differ from the block's own but lead to the same node. */
  function BranchClash(h: PairHash, level: seq<Hash>, i: nat, hash: Hash, branch: seq<Hash>): Clash
    requires i < |level| && |branch| == |Branch(h, level, i)|
    decreases |level|
  {
    if |level| <= 1 then Clash((hash, hash), (hash, hash))
    else
      var other := level[Min(Sibling(i), |level| - 1)];
      var p, q := Pair(hash, branch[0], i), Pair(level[i], other, i);
      if p != q && Apply(h, p) == Apply(h, q) then Clash(p, q)
      else BranchClash(h, Up(h, level), i / 2, Apply(h, p), branch[1..])
  }

  /**
   * A branch of the right length leads to the root exactly for the transaction at that place with its own branch, or
   * else two pairs hashed on the way collide.
   */
  lemma {:induction false} BranchProves(h: PairHash, level: seq<Hash>, i: nat, hash: Hash, branch: seq<Hash>)
    requires i < |level| && |branch| == |Branch(h, level, i)|
    ensures hash == level[i] && branch == Branch(h, level, i) ==> Fold(h, hash, branch, i) == Root(h, level)
    ensures Fold(h, hash, branch, i) == Root(h, level) ==>
      (hash == level[i] && branch == Branch(h, level, i)) || IsCollision(h, BranchClash(h, level, i, hash, branch))
    decreases |level|
  {
    if |level| > 1 {
      BranchSteps(h, level, i);
      hide Up, Root, IsCollision, Branch, Pair, Apply, Sibling, Min;
      BranchProves(h, Up(h, level), i / 2, Apply(h, Pair(hash, branch[0], i)), branch[1..]);
      BranchStep(h, level, i, hash, branch);
    } else {
      hide IsCollision;
    }
  }

  /** The branch proves as much one step up as at the bottom. */
  lemma BranchStep(h: PairHash, level: seq<Hash>, i: nat, hash: Hash, branch: seq<Hash>)
    requires i < |level| && |level| > 1 && |branch| == |Branch(h, level, i)| > 0
    ensures var other := level[Min(Sibling(i), |level| - 1)];
      var p, q := Pair(hash, branch[0], i), Pair(level[i], other, i);
      && (p == q <==> hash == level[i] && branch[0] == other)
      && (hash == level[i] && branch == Branch(h, level, i) <==> p == q && branch[1..] == Branch(h, Up(h, level), i / 2))
      && Fold(h, hash, branch, i) == Fold(h, Apply(h, p), branch[1..], i / 2)
      && Up(h, level)[i / 2] == Apply(h, q) && Root(h, level) == Root(h, Up(h, level))
      && (p != q && Apply(h, p) == Apply(h, q) ==> IsCollision(h, Clash(p, q)))
  {
    PairAbove(h, level, i);
    RootUp(h, level);
    BranchSteps(h, level, i);
    hide Up, Root, Branch, Apply, Sibling, Min;
    assert branch == [branch[0]] + branch[1..];
  }

  lemma BranchSteps(h: PairHash, level: seq<Hash>, i: nat)
    requires i < |level| && |level| > 1
    ensures Branch(h, level, i) == [level[Min(Sibling(i), |level| - 1)]] + Branch(h, Up(h, level), i / 2)
  {
  }

  // Which lists share a root

  /** For one: a list of odd length and the one with its last transaction repeated. */
  lemma LastRepeated(h: PairHash, leaves: seq<Hash>)
    requires |leaves| > 1 && |leaves| % 2 == 1
    ensures Root(h, leaves + [leaves[|leaves| - 1]]) == Root(h, leaves)
  {
    var twice := leaves + [leaves[|leaves| - 1]];
    assert Up(h, twice) == Up(h, leaves);
    RootUp(h, leaves);
    RootUp(h, twice);
  }

  function Pow2(d: nat): (r: nat)
    ensures r > 0
  {
    if d == 0 then 1 else 2 * Pow2(d - 1)
  }

  /** The leaves under a node, repeated wherever the last node of a level stands in for a missing one. */
  function Under(leaves: seq<Hash>, d: nat, k: nat): (r: seq<Hash>)
    requires k < Width(|leaves|, d)
    ensures |r| == Pow2(d) && forall x | x in r :: x in leaves
    decreases d
  {
    if d == 0 then [leaves[k]]
    else Under(leaves, d - 1, 2 * k) + Under(leaves, d - 1, Min(2 * k + 1, Width(|leaves|, d - 1) - 1))
  }

  /** The list that fills the tree. */
  function Padded(leaves: seq<Hash>): (r: seq<Hash>)
    requires leaves != []
    ensures |r| == Pow2(Depth(|leaves|))
  {
    TopWidth(|leaves|);
    Under(leaves, Depth(|leaves|), 0)
  }

  /** The root of a full tree. */
  function Full(h: PairHash, s: seq<Hash>, d: nat): Hash
    requires |s| == Pow2(d)
  {
    if d == 0 then s[0] else h(Full(h, s[..Pow2(d - 1)], d - 1), Full(h, s[Pow2(d - 1)..], d - 1))
  }

  lemma {:induction false} NodeIsFull(h: PairHash, leaves: seq<Hash>, d: nat, k: nat)
    requires k < Width(|leaves|, d)
    ensures Node(h, leaves, d, k) == Full(h, Under(leaves, d, k), d)
    decreases d
  {
    if d > 0 {
      var k2 := Min(2 * k + 1, Width(|leaves|, d - 1) - 1);
      var a, b := Under(leaves, d - 1, 2 * k), Under(leaves, d - 1, k2);
      NodeIsFull(h, leaves, d - 1, 2 * k);
      NodeIsFull(h, leaves, d - 1, k2);
      assert (a + b)[..Pow2(d - 1)] == a && (a + b)[Pow2(d - 1)..] == b;
    }
  }

  lemma RootIsFull(h: PairHash, leaves: seq<Hash>)
    requires leaves != []
    ensures Root(h, leaves) == Full(h, Padded(leaves), Depth(|leaves|))
  {
    TopWidth(|leaves|);
    NodeIsFull(h, leaves, Depth(|leaves|), 0);
  }

  /** Where two full trees with the same root first differ on the way down. */
  function FullClash(h: PairHash, s: seq<Hash>, t: seq<Hash>, d: nat): Clash
    requires |s| == |t| == Pow2(d)
  {
    if d == 0 then Clash((s[0], s[0]), (s[0], s[0]))
    else
      var half := Pow2(d - 1);
      var p := (Full(h, s[..half], d - 1), Full(h, s[half..], d - 1));
      var q := (Full(h, t[..half], d - 1), Full(h, t[half..], d - 1));
      if p != q then Clash(p, q)
      else if s[..half] != t[..half] then FullClash(h, s[..half], t[..half], d - 1)
      else FullClash(h, s[half..], t[half..], d - 1)
  }

  lemma Halves(s: seq<Hash>, t: seq<Hash>, half: nat)
    requires half <= |s| == |t| && s[..half] == t[..half] && s[half..] == t[half..]
    ensures s == t
  {
    assert s == s[..half] + s[half..] && t == t[..half] + t[half..];
  }

  lemma {:induction false} FullDiffers(h: PairHash, s: seq<Hash>, t: seq<Hash>, d: nat)
    requires |s| == |t| == Pow2(d) && Full(h, s, d) == Full(h, t, d)
    ensures s == t || IsCollision(h, FullClash(h, s, t, d))
  {
    if d == 0 {
      assert s == [s[0]] && t == [t[0]];
    } else {
      var half := Pow2(d - 1);
      if Full(h, s[..half], d - 1) == Full(h, t[..half], d - 1) && Full(h, s[half..], d - 1) == Full(h, t[half..], d - 1) {
        FullDiffers(h, s[..half], t[..half], d - 1);
        FullDiffers(h, s[half..], t[half..], d - 1);
        if s[..half] == t[..half] && s[half..] == t[half..] {
          Halves(s, t, half);
        }
      }
    }
  }

  /** The level k steps up. */
  function Lifted(h: PairHash, leaves: seq<Hash>, k: nat): (r: seq<Hash>)
    requires leaves != [] && k <= Depth(|leaves|)
    ensures r != [] && Depth(|r|) == Depth(|leaves|) - k
    decreases k
  {
    if k == 0 then leaves else Lifted(h, Up(h, leaves), k - 1)
  }

  lemma {:induction false} RootLifted(h: PairHash, leaves: seq<Hash>, k: nat)
    requires leaves != [] && k <= Depth(|leaves|)
    ensures Root(h, Lifted(h, leaves, k)) == Root(h, leaves)
    decreases k
  {
    hide Up, Root;
    if k > 0 {
      RootUp(h, leaves);
      RootLifted(h, Up(h, leaves), k - 1);
    }
  }

  /**
   * Two lists of one depth have the same root exactly if they fill their trees to the same list, or else two pairs
   * collide.
   */
  lemma SameRootExactlyWhen(h: PairHash, x: seq<Hash>, y: seq<Hash>)
    requires x != [] && y != [] && Depth(|x|) == Depth(|y|)
    ensures Padded(x) == Padded(y) ==> Root(h, x) == Root(h, y)
    ensures Root(h, x) == Root(h, y) ==>
      Padded(x) == Padded(y) || IsCollision(h, FullClash(h, Padded(x), Padded(y), Depth(|y|)))
  {
    RootIsFull(h, x);
    RootIsFull(h, y);
    hide IsCollision, Root, Padded, Full;
    if Root(h, x) == Root(h, y) {
      FullDiffers(h, Padded(x), Padded(y), Depth(|y|));
    }
  }

  /** A deeper list is compared by its level at the other's depth. */
  lemma SameRootAcrossDepths(h: PairHash, x: seq<Hash>, y: seq<Hash>)
    requires x != [] && y != [] && Depth(|x|) >= Depth(|y|)
    ensures var z := Lifted(h, x, Depth(|x|) - Depth(|y|));
      && (Padded(z) == Padded(y) ==> Root(h, x) == Root(h, y))
      && (Root(h, x) == Root(h, y) ==>
            Padded(z) == Padded(y) || IsCollision(h, FullClash(h, Padded(z), Padded(y), Depth(|y|))))
  {
    hide IsCollision, Root, Padded, Full, Lifted;
    var k := Depth(|x|) - Depth(|y|);
    RootLifted(h, x, k);
    SameRootExactlyWhen(h, Lifted(h, x, k), y);
  }

  lemma Doubled(k: nat, d: nat)
    requires d > 0
    ensures k * Pow2(d) == (2 * k) * Pow2(d - 1) && (2 * k + 1) * Pow2(d - 1) == (2 * k) * Pow2(d - 1) + Pow2(d - 1)
  {
    var half := Pow2(d - 1);
    assert k * (2 * half) == (2 * k) * half && (2 * k + 1) * half == (2 * k) * half + half;
  }

  /** The i-th leaf lies under its node at the place that is left. */
  lemma {:induction false} PaddedPrefix(leaves: seq<Hash>, d: nat, k: nat, j: nat, i: nat)
    requires k < Width(|leaves|, d) && j < Pow2(d) && i == k * Pow2(d) + j && i < |leaves|
    ensures Under(leaves, d, k)[j] == leaves[i]
    decreases d
  {
    if d > 0 {
      Doubled(k, d);
      var half := Pow2(d - 1);
      assert Under(leaves, d, k) == Under(leaves, d - 1, 2 * k)
                                    + Under(leaves, d - 1, Min(2 * k + 1, Width(|leaves|, d - 1) - 1));
      if j < half {
        hide Under, Width;
        PaddedPrefix(leaves, d - 1, 2 * k, j, i);
      } else {
        WidthCovers(|leaves|, d - 1, 2 * k + 1, j - half);
        hide Under, Width;
        PaddedPrefix(leaves, d - 1, 2 * k + 1, j - half, i);
      }
    }
  }

  /** A node above some leaf exists. */
  lemma {:induction false} WidthCovers(n: nat, d: nat, k: nat, j: nat)
    requires k * Pow2(d) + j < n && j < Pow2(d)
    ensures k < Width(n, d)
    decreases d
  {
    if d > 0 {
      Doubled(k, d);
      WidthCovers(n, d - 1, 2 * k, 0);
    }
  }

  lemma {:induction false} DepthCovers(n: nat)
    requires n > 0
    ensures n <= Pow2(Depth(n))
  {
    if n > 1 {
      DepthCovers((n + 1) / 2);
    }
  }

  lemma PaddedBegins(leaves: seq<Hash>)
    requires leaves != []
    ensures |leaves| <= |Padded(leaves)| && Padded(leaves)[..|leaves|] == leaves
    ensures forall x | x in Padded(leaves) :: x in leaves
  {
    var d := Depth(|leaves|);
    DepthCovers(|leaves|);
    TopWidth(|leaves|);
    forall j | 0 <= j < |leaves| ensures Padded(leaves)[j] == leaves[j] {
      PaddedPrefix(leaves, d, 0, j, j);
    }
  }

  lemma {:induction false} DepthOfFull(d: nat)
    ensures Depth(Pow2(d)) == d
  {
    if d > 0 {
      DepthOfFull(d - 1);
    }
  }

  /** Any list shares its root with the one that fills its tree, which is longer unless the tree was full. */
  lemma FilledSharesRoot(h: PairHash, leaves: seq<Hash>)
    requires leaves != []
    ensures Root(h, Padded(leaves)) == Root(h, leaves)
    ensures Padded(leaves) == leaves <==> |leaves| == Pow2(Depth(|leaves|))
  {
    var filled := Padded(leaves);
    DepthOfFull(Depth(|leaves|));
    PaddedBegins(leaves);
    PaddedBegins(filled);
    assert Padded(filled) == filled;
    RootIsFull(h, leaves);
    RootIsFull(h, filled);
  }

  predicate NoTwice(s: seq<Hash>) {
    forall i, j | 0 <= i < j < |s| :: s[i] != s[j]
  }

  lemma PaddedAt(leaves: seq<Hash>, i: nat)
    requires i < |leaves|
    ensures i < |Padded(leaves)| && Padded(leaves)[i] == leaves[i]
  {
    PaddedBegins(leaves);
    assert Padded(leaves)[..|leaves|][i] == leaves[i];
  }

  lemma PaddedNotShorter(x: seq<Hash>, y: seq<Hash>)
    requires x != [] && y != [] && NoTwice(y) && Padded(x) == Padded(y)
    ensures |x| >= |y|
  {
    hide Padded;
    if |x| < |y| {
      PaddedBegins(x);
      PaddedAt(y, |x|);
      var e := Padded(x)[|x|];
      assert e in Padded(x) && e in x;
      var i :| 0 <= i < |x| && x[i] == e;
      PaddedAt(x, i);
      PaddedAt(y, i);
      assert false;
    }
  }

  /** Without repeats the filled tree tells the list. */
  lemma PaddedInjective(x: seq<Hash>, y: seq<Hash>)
    requires x != [] && y != [] && NoTwice(x) && NoTwice(y)
    ensures Padded(x) == Padded(y) <==> x == y
  {
    if Padded(x) == Padded(y) {
      PaddedNotShorter(x, y);
      PaddedNotShorter(y, x);
      PaddedBegins(x);
      PaddedBegins(y);
    }
  }

  /** So among lists of one depth without repeats the root determines the list, or two pairs collide. */
  lemma RootDetermines(h: PairHash, x: seq<Hash>, y: seq<Hash>)
    requires x != [] && y != [] && Depth(|x|) == Depth(|y|) && NoTwice(x) && NoTwice(y) && Root(h, x) == Root(h, y)
    ensures x == y || IsCollision(h, FullClash(h, Padded(x), Padded(y), Depth(|y|)))
  {
    SameRootExactlyWhen(h, x, y);
    PaddedInjective(x, y);
  }

  // The source's loops

  class Block {
    const h: PairHash
    const txHashes: seq<Hash>
    var vMerkleTree: seq<Hash>

    ghost predicate Valid()
      reads this
    {
      vMerkleTree == [] || vMerkleTree == Flat(h, txHashes)
    }

    constructor (h: PairHash, txHashes: seq<Hash>)
      ensures Valid() && this.h == h && this.txHashes == txHashes
    {
      this.h, this.txHashes, vMerkleTree := h, txHashes, [];
    }

    method BuildMerkleTree() returns (root: Hash)
      modifies this
      ensures Valid() && vMerkleTree == Flat(h, txHashes) && root == Root(h, txHashes)
    {
      vMerkleTree := [];
      for i := 0 to |txHashes|
        invariant vMerkleTree == txHashes[..i]
      {
        vMerkleTree := vMerkleTree + [txHashes[i]];
      }
      ghost var done: seq<Hash>, level := [], txHashes;
      var j, nSize := 0, |txHashes|;
      assert txHashes[..nSize] == txHashes;
      hide Up, Root;
      while nSize > 1
        invariant |level| == nSize && |done| == j && vMerkleTree == done + level && IsRest(h, txHashes, done, level)
        decreases nSize
      {
        BuildLevel(j, nSize, done, level);
        NextRest(h, txHashes, done, level);
        done, level := done + level, Up(h, level);
        j := j + nSize;
        nSize := (nSize + 1) / 2;
      }
      root := if vMerkleTree == [] then NULL_HASH else vMerkleTree[|vMerkleTree| - 1];
      if txHashes != [] {
        FlatEndsInRoot(h, txHashes);
      }
    }

    /** The flat array consists of the levels done and those from the given one on. */
    static ghost predicate IsRest(h: PairHash, leaves: seq<Hash>, done: seq<Hash>, level: seq<Hash>) {
      Flat(h, leaves) == done + Flat(h, level)
    }

    static lemma NextRest(h: PairHash, leaves: seq<Hash>, done: seq<Hash>, level: seq<Hash>)
      requires IsRest(h, leaves, done, level) && |level| > 1
      ensures IsRest(h, leaves, done + level, Up(h, level))
    {
      assert done + (level + Flat(h, Up(h, level))) == done + level + Flat(h, Up(h, level));
    }

    static lemma InTheMiddle(a: seq<Hash>, b: seq<Hash>, c: seq<Hash>, i: nat)
      requires i < |b|
      ensures (a + b + c)[|a| + i] == b[i]
    {
    }

    static lemma Longer(a: seq<Hash>, b: seq<Hash>, x: Hash)
      ensures a + b + [x] == a + (b + [x])
    {
    }

    /** Appends the level above the one that begins at j. */
    method BuildLevel(j: nat, nSize: nat, ghost done: seq<Hash>, ghost level: seq<Hash>)
      requires |done| == j && |level| == nSize > 1 && vMerkleTree == done + level
      modifies this
      ensures vMerkleTree == done + level + Up(h, level)
    {
      hide Up, Flat;
      var i := 0;
      while i < nSize
        invariant i % 2 == 0 && i <= nSize + 1 && vMerkleTree == done + level + UpTo(h, level, i / 2)
        decreases nSize - i
      {
        var i2 := Min(i + 1, nSize - 1);
        ghost var up := UpTo(h, level, i / 2);
        InTheMiddle(done, level, up, i);
        InTheMiddle(done, level, up, i2);
        Longer(done + level, up, h(level[i], level[i2]));
        vMerkleTree := vMerkleTree + [h(vMerkleTree[j + i], vMerkleTree[j + i2])];
        i := i + 2;
      }
    }

    method GetMerkleBranch(nIndex: nat) returns (vMerkleBranch: seq<Hash>)
      requires Valid()
      modifies this
      ensures Valid() && vMerkleBranch == Branch(h, txHashes, nIndex)
    {
      if vMerkleTree == [] {
        var root := BuildMerkleTree();
      }
      vMerkleBranch := [];
      ghost var done: seq<Hash>, level := [], txHashes;
      var j, nSize, index := 0, |txHashes|, nIndex;
      hide Up;
      while nSize > 1
        invariant |level| == nSize && |done| == j && vMerkleTree == Flat(h, txHashes) && IsRest(h, txHashes, done, level)
        invariant IsBranchRest(h, txHashes, nIndex, vMerkleBranch, level, index)
        decreases nSize
      {
        var i := Min(Sibling(index), nSize - 1);
        LevelAt(h, txHashes, done, level, i);
        NextRest(h, txHashes, done, level);
        NextBranch(h, txHashes, nIndex, vMerkleBranch, level, index);
        vMerkleBranch := vMerkleBranch + [vMerkleTree[j + i]];
        done, level := done + level, Up(h, level);
        index, j := index / 2, j + nSize;
        nSize := (nSize + 1) / 2;
      }
      assert vMerkleBranch + [] == vMerkleBranch;
    }

    static lemma LevelAt(h: PairHash, leaves: seq<Hash>, done: seq<Hash>, level: seq<Hash>, i: nat)
      requires IsRest(h, leaves, done, level) && |level| > 1 && i < |level|
      ensures |done| + i < |Flat(h, leaves)| && Flat(h, leaves)[|done| + i] == level[i]
    {
      assert Flat(h, level)[i] == level[i];
      IndexBehind(done, Flat(h, level), i);
    }

    static ghost predicate IsBranchRest(h: PairHash, leaves: seq<Hash>, nIndex: nat, branch: seq<Hash>,
                                        level: seq<Hash>, index: nat)
    {
      Branch(h, leaves, nIndex) == branch + Branch(h, level, index)
    }

    static lemma NextBranch(h: PairHash, leaves: seq<Hash>, nIndex: nat, branch: seq<Hash>, level: seq<Hash>, index: nat)
      requires IsBranchRest(h, leaves, nIndex, branch, level, index) && |level| > 1
      ensures var other := level[Min(Sibling(index), |level| - 1)];
        IsBranchRest(h, leaves, nIndex, branch + [other], Up(h, level), index / 2)
    {
      var other := level[Min(Sibling(index), |level| - 1)];
      assert branch + ([other] + Branch(h, Up(h, level), index / 2)) == branch + [other] + Branch(h, Up(h, level), index / 2);
    }
  }

  /** An index of -1 marks a transaction that is in no block. */
  method CheckMerkleBranch(h: PairHash, hash: Hash, vMerkleBranch: seq<Hash>, nIndex: int) returns (r: Hash)
    ensures r == if nIndex == -1 then NULL_HASH else Fold(h, hash, vMerkleBranch, nIndex)
  {
    if nIndex == -1 {
      return NULL_HASH;
    }
    var index := nIndex;
    r := hash;
    assert vMerkleBranch[0..] == vMerkleBranch;
    for k := 0 to |vMerkleBranch|
      invariant Fold(h, hash, vMerkleBranch, nIndex) == Fold(h, r, vMerkleBranch[k..], index)
    {
      assert vMerkleBranch[k..][1..] == vMerkleBranch[k + 1..];
      var otherside := vMerkleBranch[k];
      r := if index % 2 == 1 then h(otherside, r) else h(r, otherside);
      index := index / 2;
    }
  }
}
