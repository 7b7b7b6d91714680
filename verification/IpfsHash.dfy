/** Merkle roots over file hashes, and the verification of a file set against a
    stored root.  SHA-256 is a parameter `h`: nothing is assumed about it except
    that its digests have one width, and, where a theorem needs it, that no two of
    the strings actually hashed collide. */
module IpfsHash {

  type Hash = string -> string

  /** The loop of `merkleRoot`, one level at a time. */
  method MerkleRoot(h: Hash, leaves: seq<string>) returns (root: string)
    ensures root == Root(h, leaves)
  {
    if |leaves| == 0 { return h("empty"); }
    if |leaves| == 1 { return leaves[0]; }

    var level := leaves;
    ghost var k := 0;
    while |level| > 1
      invariant |level| == Width(|leaves|, k) >= 1
      invariant forall i :: 0 <= i < |level| ==> level[i] == Node(h, leaves, k, i)
      invariant Height(|leaves|) == k + Height(|level|)
      decreases |level|
    {
      var next: seq<string> := [];
      var i := 0;
      while i < |level|
        invariant i <= |level| + 1 && i % 2 == 0
        invariant |next| == i / 2
        invariant forall j :: 0 <= j < |next| ==> next[j] == Node(h, leaves, k + 1, j)
      {
        var left := level[i];
        var right := if i + 1 < |level| then level[i + 1] else left;
        assert left == Node(h, leaves, k, 2 * (i / 2));
        next := next + [h(left + right)];
        i := i + 2;
      }
      level := next;
      k := k + 1;
    }
    root := level[0];
  }

  // ---- The tree, from the root down -----------------------------------------

  /** Number of nodes `k` levels above `n` leaves. */
  function Width(n: nat, k: nat): nat {
    if k == 0 then n else (Width(n, k - 1) + 1) / 2
  }

  /** Number of levels above the leaves of a tree with `n` of them. */
  function Height(n: nat): nat {
    if n <= 1 then 0 else 1 + Height((n + 1) / 2)
  }

  /** The string hashed to make node `i` of level `k`; an only child is doubled. */
  function Children(h: Hash, leaves: seq<string>, k: nat, i: nat): string
    requires k >= 1 && i < Width(|leaves|, k)
    decreases k, 0
  {
    var left := Node(h, leaves, k - 1, 2 * i);
    left + if 2 * i + 1 < Width(|leaves|, k - 1) then Node(h, leaves, k - 1, 2 * i + 1) else left
  }

  function Node(h: Hash, leaves: seq<string>, k: nat, i: nat): string
    requires i < Width(|leaves|, k)
    decreases k, 1
  {
    if k == 0 then leaves[i] else h(Children(h, leaves, k, i))
  }

  lemma {:induction false} WidthAtHeight(n: nat, k: nat)
    requires n >= 1
    ensures Width(n, k + Height(Width(n, k))) == 1
    decreases Width(n, k)
  {
    WidthPositive(n, k);
    if Width(n, k) > 1 {
      assert Width(n, k + 1) == (Width(n, k) + 1) / 2;
      WidthAtHeight(n, k + 1);
    }
  }

  lemma WidthPositive(n: nat, k: nat)
    requires n >= 1
    ensures 1 <= Width(n, k) <= n
  {}

  function Root(h: Hash, leaves: seq<string>): string {
    if |leaves| == 0 then h("empty")
    else
      WidthAtHeight(|leaves|, 0);
      Node(h, leaves, Height(|leaves|), 0)
  }

  // ---- The root binds the leaves --------------------------------------------

  ghost predicate FixedWidth(h: Hash, w: nat) {
    forall x :: |h(x)| == w
  }

  ghost predicate CollisionFree(h: Hash, inputs: set<string>) {
    forall x, y :: x in inputs && y in inputs && h(x) == h(y) ==> x == y
  }

  /** Every string hashed while the tree over `leaves` is built. */
  ghost function Hashed(h: Hash, leaves: seq<string>): set<string> {
    set k, i | 1 <= k <= Height(|leaves|) && 0 <= i < Width(|leaves|, k) :: Children(h, leaves, k, i)
  }

  ghost predicate SameLevel(h: Hash, a: seq<string>, b: seq<string>, k: nat)
    requires |a| == |b|
  {
    forall i :: 0 <= i < Width(|a|, k) ==> Node(h, a, k, i) == Node(h, b, k, i)
  }

  lemma NodeWidth(h: Hash, leaves: seq<string>, w: nat, k: nat, i: nat)
    requires FixedWidth(h, w) && forall x | x in leaves :: |x| == w
    requires i < Width(|leaves|, k)
    ensures |Node(h, leaves, k, i)| == w
  {}

  lemma ChildrenSplit(h: Hash, leaves: seq<string>, w: nat, k: nat, i: nat)
    requires FixedWidth(h, w) && forall x | x in leaves :: |x| == w
    requires k >= 1 && i < Width(|leaves|, k)
    ensures Children(h, leaves, k, i)[..w] == Node(h, leaves, k - 1, 2 * i)
    ensures 2 * i + 1 < Width(|leaves|, k - 1) ==> Children(h, leaves, k, i)[w..] == Node(h, leaves, k - 1, 2 * i + 1)
  {
    NodeWidth(h, leaves, w, k - 1, 2 * i);
  }

  lemma HashBinds(h: Hash, a: seq<string>, b: seq<string>, k: nat, i: nat)
    requires |a| == |b| && 1 <= k <= Height(|a|) && i < Width(|a|, k)
    requires CollisionFree(h, Hashed(h, a) + Hashed(h, b)) && Node(h, a, k, i) == Node(h, b, k, i)
    ensures Children(h, a, k, i) == Children(h, b, k, i)
  {
    var x, y := Children(h, a, k, i), Children(h, b, k, i);
    assert x in Hashed(h, a) && y in Hashed(h, b);
    assert h(x) == h(y);
  }

  /** Two equal nodes have equal children. */
  lemma NodeBinds(h: Hash, w: nat, a: seq<string>, b: seq<string>, k: nat, i: nat, j: nat)
    requires |a| == |b| && k < Height(|a|) && j < Width(|a|, k) && i < Width(|a|, k + 1) && 2 * i <= j <= 2 * i + 1
    requires FixedWidth(h, w) && (forall x | x in a :: |x| == w) && (forall x | x in b :: |x| == w)
    requires Children(h, a, k + 1, i) == Children(h, b, k + 1, i)
    ensures Node(h, a, k, j) == Node(h, b, k, j)
  {
    ChildrenSplit(h, a, w, k + 1, i);
    ChildrenSplit(h, b, w, k + 1, i);
  }

  lemma {:induction false} LevelsBind(h: Hash, w: nat, a: seq<string>, b: seq<string>, k: nat)
    requires |a| == |b| && k <= Height(|a|)
    requires FixedWidth(h, w) && (forall x | x in a :: |x| == w) && (forall x | x in b :: |x| == w)
    requires CollisionFree(h, Hashed(h, a) + Hashed(h, b))
    requires SameLevel(h, a, b, k)
    ensures a == b
  {
    if k == 0 {
      forall i | 0 <= i < |a| ensures a[i] == b[i] {
        assert Node(h, a, 0, i) == Node(h, b, 0, i);
      }
    } else {
      var below := k - 1;
      forall j | 0 <= j < Width(|a|, below) ensures Node(h, a, below, j) == Node(h, b, below, j) {
        var i := j / 2;
        assert Width(|a|, k) == (Width(|a|, below) + 1) / 2;
        assert Node(h, a, k, i) == Node(h, b, k, i);
        HashBinds(h, a, b, k, i);
        NodeBinds(h, w, a, b, below, i, j);
      }
      LevelsBind(h, w, a, b, below);
    }
  }

  lemma RootIsTop(h: Hash, a: seq<string>)
    requires |a| > 0
    ensures Width(|a|, Height(|a|)) == 1 && Root(h, a) == Node(h, a, Height(|a|), 0)
  {
    WidthAtHeight(|a|, 0);
  }

  lemma RootLevel(h: Hash, a: seq<string>, b: seq<string>)
    requires |a| == |b| > 0
    ensures Root(h, a) == Root(h, b) <==> SameLevel(h, a, b, Height(|a|))
  {
    RootIsTop(h, a);
    RootIsTop(h, b);
  }

  /** Two lists of digests of one length have one root exactly when they are one list. */
  lemma RootBinds(h: Hash, w: nat, a: seq<string>, b: seq<string>)
    requires |a| == |b|
    requires FixedWidth(h, w) && (forall x | x in a :: |x| == w) && (forall x | x in b :: |x| == w)
    requires CollisionFree(h, Hashed(h, a) + Hashed(h, b))
    ensures Root(h, a) == Root(h, b) <==> a == b
  {
    if |a| > 0 {
      RootLevel(h, a, b);
      if Root(h, a) == Root(h, b) { LevelsBind(h, w, a, b, Height(|a|)); }
    }
  }

  // ---- The root does not bind the count --------------------------------------

  ghost predicate Digests(leaves: seq<string>, w: nat) {
    forall i :: 0 <= i < |leaves| ==> |leaves[i]| == w
  }

  /** Does a list of digests of another length have the same root? */
  ghost predicate OtherLengthSameRoot(h: Hash, w: nat, a: seq<string>) {
    exists b: seq<string> :: |b| != |a| && Digests(b, w) && Root(h, b) == Root(h, a)
  }

  lemma NodeIsDigest(h: Hash, leaves: seq<string>, w: nat, k: nat, i: nat)
    requires FixedWidth(h, w) && Digests(leaves, w) && i < Width(|leaves|, k)
    ensures |Node(h, leaves, k, i)| == w
    ensures k > 0 ==> |Children(h, leaves, k, i)| == 2 * w
    decreases k
  {
    if k > 0 {
      NodeIsDigest(h, leaves, w, k - 1, 2 * i);
      if 2 * i + 1 < Width(|leaves|, k - 1) { NodeIsDigest(h, leaves, w, k - 1, 2 * i + 1); }
    }
  }

  lemma RootIsDigest(h: Hash, a: seq<string>, w: nat)
    requires FixedWidth(h, w) && Digests(a, w)
    ensures |Root(h, a)| == w
    ensures |a| > 1 ==> exists s :: |s| == 2 * w && h(s) == Root(h, a)
  {
    if |a| > 0 {
      RootIsTop(h, a);
      NodeIsDigest(h, a, w, Height(|a|), 0);
      if |a| > 1 { assert h(Children(h, a, Height(|a|), 0)) == Root(h, a); }
    }
  }

  /** A pair of leaves is hashed as the string they make up. */
  lemma PairRoot(h: Hash, s: string, w: nat)
    requires |s| == 2 * w
    ensures Root(h, [s[..w], s[w..]]) == h(s)
  {
    var b := [s[..w], s[w..]];
    RootIsTop(h, b);
    assert Height(2) == 1 + Height(1) && Width(2, 1) == 1;
    assert Children(h, b, 1, 0) == Node(h, b, 0, 0) + Node(h, b, 0, 1) == s;
  }

  /** The count has to be trusted along with the root: every list other than of one leaf
      shares its root with a list of another length, the root itself as a single leaf; and a
      single leaf does exactly when it is the digest of `empty` or of two digests' width. */
  lemma CountIsNeededIff(h: Hash, w: nat, a: seq<string>)
    requires FixedWidth(h, w) && Digests(a, w)
    ensures OtherLengthSameRoot(h, w, a) <==>
              |a| != 1 || a[0] == h("empty") || exists s :: |s| == 2 * w && h(s) == a[0]
  {
    RootIsDigest(h, a, w);
    if |a| != 1 {
      var b := [Root(h, a)];
      assert |b| != |a| && Digests(b, w) && Root(h, b) == Root(h, a);
    } else {
      RootIsTop(h, a);
      if b: seq<string> :| |b| != |a| && Digests(b, w) && Root(h, b) == Root(h, a) {
        RootIsDigest(h, b, w);
      }
      if a[0] == h("empty") {
        var none: seq<string> := [];
        assert |none| != |a| && Digests(none, w) && Root(h, none) == Root(h, a);
      }
      if s :| |s| == 2 * w && h(s) == a[0] {
        PairRoot(h, s, w);
        var b := [s[..w], s[w..]];
        assert |b| != |a| && Digests(b, w) && Root(h, b) == Root(h, a);
      }
    }
  }

  /** Even among lists of two leaves or more: doubling the last leaf of an odd list of at
      least three never changes the root. */
  lemma OddListHidesItsLength(h: Hash, a: seq<string>)
    requires |a| >= 3 && |a| % 2 == 1
    ensures Root(h, a + [a[|a| - 1]]) == Root(h, a)
  {
    var n, b := |a|, a + [a[|a| - 1]];
    assert Height(n) == 1 + Height((n + 1) / 2) && Height(n + 1) == 1 + Height((n + 2) / 2);
    WidthAtHeight(n, 0);
    PaddedNode(h, a, Height(n), 0);
  }

  lemma {:induction false} PaddedNode(h: Hash, a: seq<string>, k: nat, i: nat)
    requires |a| >= 3 && |a| % 2 == 1 && k >= 1 && i < Width(|a|, k)
    ensures Width(|a| + 1, k) == Width(|a|, k)
    ensures Node(h, a + [a[|a| - 1]], k, i) == Node(h, a, k, i)
  {
    var b := a + [a[|a| - 1]];
    if k == 1 {
      assert Width(|a| + 1, 1) == Width(|a|, 1) == (|a| + 1) / 2;
      assert Children(h, b, 1, i) == Children(h, a, 1, i);
    } else {
      PaddedNode(h, a, k - 1, 2 * i);
      if 2 * i + 1 < Width(|a|, k - 1) { PaddedNode(h, a, k - 1, 2 * i + 1); }
    }
  }

  // ---- Verifying a set of files ---------------------------------------------

  datatype Verification = Verification(valid: bool, fileResults: seq<bool>, rootMatch: bool)

  function HashAll(h: Hash, buffers: seq<string>): (hashes: seq<string>)
    ensures |hashes| == |buffers|
    ensures forall i :: 0 <= i < |buffers| ==> hashes[i] == h(buffers[i])
  {
    seq(|buffers|, i requires 0 <= i < |buffers| => h(buffers[i]))
  }

  /** The digests of the files and their root. */
  method HashFiles(h: Hash, buffers: seq<string>) returns (hashes: seq<string>, root: string)
    ensures hashes == HashAll(h, buffers) && root == Root(h, hashes)
    ensures VerifyFiles(h, buffers, hashes, root).valid
  {
    hashes := HashAll(h, buffers);
    root := MerkleRoot(h, hashes);
    ghost var r := VerifyFiles(h, buffers, hashes, root);
    assert forall i :: 0 <= i < |buffers| ==> r.fileResults[i];
    ghost var leaves := seq(|buffers|, i requires 0 <= i < |buffers| => if r.fileResults[i] then hashes[i]
        else "invalid");
    assert leaves == hashes && r.rootMatch == (Root(h, leaves) == root);
  }

  function VerifyFiles(h: Hash, buffers: seq<string>, storedHashes: seq<string>, storedRoot: string): Verification {
    if |buffers| != |storedHashes| then Verification(false, [], false)
    else
      var fileResults := seq(|buffers|, i requires 0 <= i < |buffers| => h(buffers[i]) == storedHashes[i]);
      var recomputed := seq(|buffers|, i requires 0 <= i < |buffers| => if fileResults[i] then storedHashes[i]
          else "invalid");
      var rootMatch := Root(h, recomputed) == storedRoot;
      Verification((forall ok | ok in fileResults :: ok) && rootMatch, fileResults, rootMatch)
  }

  /** Against the root and count of the original files, verification succeeds exactly
      when every buffer has the digest of its original and the stored hashes are those
      digests. */
  lemma VerifyFilesIsExact(h: Hash, w: nat, original: seq<string>, buffers: seq<string>, storedHashes: seq<string>)
    requires FixedWidth(h, w) && |buffers| == |original|
    requires CollisionFree(h, Hashed(h, HashAll(h, original)) + Hashed(h, HashAll(h, buffers)))
    ensures VerifyFiles(h, buffers, storedHashes, Root(h, HashAll(h, original))).valid <==>
              HashAll(h, buffers) == HashAll(h, original) == storedHashes
  {
    var leaves, now := HashAll(h, original), HashAll(h, buffers);
    RootBinds(h, w, leaves, now);
    if |buffers| == |storedHashes| {
      var r := VerifyFiles(h, buffers, storedHashes, Root(h, leaves));
      var recomputed := seq(|buffers|, i requires 0 <= i < |buffers| => if r.fileResults[i] then storedHashes[i]
          else "invalid");
      assert r.rootMatch == (Root(h, recomputed) == Root(h, leaves));
      if forall ok | ok in r.fileResults :: ok {
        forall i | 0 <= i < |buffers| ensures recomputed[i] == storedHashes[i] == now[i] {
          assert r.fileResults[i] in r.fileResults;
        }
        assert recomputed == storedHashes == now;
      } else {
        var i :| 0 <= i < |buffers| && !r.fileResults[i];
        assert now[i] != storedHashes[i];
      }
      if now == storedHashes == leaves {
        assert forall i :: 0 <= i < |buffers| ==> r.fileResults[i];
        assert recomputed == storedHashes;
      }
    }
  }
}
