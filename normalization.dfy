/**
 * Rebalancing of the overlap training data: the rows of the ground-truth
 * mapping are put into ten bins by their overlap value, each non-empty bin
 * among the eight lowest is resampled with replacement to the size of the
 * [0.8, 0.9) bin, and the bins are concatenated in ascending order and
 * written next to the input under the prefix 'normalized_'.
 *
 * The random draws of np.random.choice are an input: for each of the eight
 * lowest bins, the indices it drew.
 */
module OverlapNormalization {
  import opened Wrappers
  import Initialization

  /** One row of the ground-truth mapping; column 3 holds the overlap. */
  type Row = seq<real>

  /** Why normalize_data raises: gt_map[:, 3] on rows with fewer than four columns. */
  datatype NormError = MissingOverlapColumn

  /** Every row has an overlap column. */
  predicate Wide(rows: seq<Row>)
  {
    forall i :: 0 <= i < |rows| ==> |rows[i]| > 3
  }

  /** The mask of bin k: below 0.1, [k/10, (k+1)/10) for k in 1..8, and [0.9, 1] for k = 9. */
  predicate InBin(k: int, v: real)
  {
    if k == 0 then v < 0.1
    else if 1 <= k <= 8 then k as real / 10.0 <= v < (k + 1) as real / 10.0
    else if k == 9 then 0.9 <= v <= 1.0
    else false
  }

  /** v is in one of the first n bins. */
  predicate InFirstBins(n: nat, v: real)
  {
    exists k :: 0 <= k < n && InBin(k, v)
  }

  /** gt_map[mask_k]: the rows of bin k, in their input order. */
  function Bin(rows: seq<Row>, k: int): seq<Row>
    requires Wide(rows)
    decreases |rows|
  {
    if rows == [] then []
    else
      var last := rows[|rows| - 1];
      Bin(rows[..|rows| - 1], k) + if InBin(k, last[3]) then [last] else []
  }

  /** The rows whose overlap is in one of the first n bins, in input order. */
  function InFirst(rows: seq<Row>, n: nat): seq<Row>
    requires Wide(rows)
    decreases |rows|
  {
    if rows == [] then []
    else
      var last := rows[|rows| - 1];
      InFirst(rows[..|rows| - 1], n) + if InFirstBins(n, last[3]) then [last] else []
  }

  /** np.concatenate of a sequence of blocks. */
  function Stack(blocks: seq<seq<Row>>): seq<Row>
    decreases |blocks|
  {
    if blocks == [] then [] else Stack(blocks[..|blocks| - 1]) + blocks[|blocks| - 1]
  }

  /** The ten bins, in ascending order. */
  function Bins(rows: seq<Row>): (bins: seq<seq<Row>>)
    requires Wide(rows)
  {
    seq(10, k => Bin(rows, k))
  }

  /** bin[np.random.choice(len(bin), m)] for the drawn indices. */
  function Pick(bin: seq<Row>, draws: seq<int>): seq<Row>
    requires forall j :: 0 <= j < |draws| ==> 0 <= draws[j] < |bin|
  {
    seq(|draws|, j requires 0 <= j < |draws| => bin[draws[j]])
  }

  /**
   * What np.random.choice can return: for each non-empty bin among the eight
   * lowest, len(bin_80_89) indices into that bin.
   */
  predicate DrawsFit(rows: seq<Row>, draws: seq<seq<int>>)
    requires Wide(rows)
  {
    && |draws| == 8
    && forall k :: 0 <= k < 8 && |Bin(rows, k)| > 0 ==>
         |draws[k]| == |Bin(rows, 8)| && forall j :: 0 <= j < |draws[k]| ==> 0 <= draws[k][j] < |Bin(rows, k)|
  }

  /** Bin k after the resampling step. */
  function Balanced(rows: seq<Row>, draws: seq<seq<int>>, k: int): seq<Row>
    requires Wide(rows) && DrawsFit(rows, draws) && 0 <= k < 10
  {
    if k < 8 && |Bin(rows, k)| > 0 then Pick(Bin(rows, k), draws[k]) else Bin(rows, k)
  }

  /** The blocks of the output: the balanced bins in ascending order. */
  function BalancedBlocks(rows: seq<Row>, draws: seq<seq<int>>): (blocks: seq<seq<Row>>)
    requires Wide(rows) && DrawsFit(rows, draws)
    ensures |blocks| == 10 && forall k :: 0 <= k < 10 ==> blocks[k] == Balanced(rows, draws, k)
  {
    seq(10, k requires 0 <= k < 10 => Balanced(rows, draws, k))
  }

  /** normalize_data on the loaded mapping: the balanced bins concatenated in ascending order. */
  function Normalize(rows: seq<Row>, draws: seq<seq<int>>): Result<seq<Row>, NormError>
    requires Wide(rows) ==> DrawsFit(rows, draws)
  {
    if !Wide(rows) then Failure(MissingOverlapColumn)
    else Success(Stack(BalancedBlocks(rows, draws)))
  }

  // ---------------------------------------------------------------- the bins

  /** No overlap value is in two bins. */
  lemma BinsDisjoint(k1: int, k2: int, v: real)
    requires k1 != k2
    ensures !(InBin(k1, v) && InBin(k2, v))
  {
  }

  /** An overlap value is in some bin exactly when it is at most 1: larger values are dropped. */
  lemma {:induction false} BinsCover(v: real)
    ensures InFirstBins(10, v) <==> v <= 1.0
  {
    if v < 0.1 {
      assert InBin(0, v);
    } else if v >= 0.9 {
      if v <= 1.0 {
        assert InBin(9, v);
      }
    } else {
      var k := (v * 10.0).Floor;
      assert k as real <= v * 10.0 < k as real + 1.0;
      assert 1 <= k <= 8;
      assert InBin(k, v);
    }
  }

  /** The rows of a bin are exactly the input rows whose overlap is in it. */
  lemma {:induction false} BinMembers(rows: seq<Row>, k: int, r: Row)
    requires Wide(rows)
    ensures r in Bin(rows, k) <==> r in rows && InBin(k, r[3])
    decreases |rows|
  {
    if rows != [] {
      var init := rows[..|rows| - 1];
      BinMembers(init, k, r);
      assert rows == init + [rows[|rows| - 1]];
    }
  }

  /** The first n + 1 bins are the first n and bin n, which shares no value with them. */
  lemma FirstBinsStep(n: nat, v: real)
    ensures InFirstBins(n + 1, v) <==> InFirstBins(n, v) || InBin(n, v)
    ensures InBin(n, v) ==> !InFirstBins(n, v)
  {
    if InBin(n, v) {
      forall k | 0 <= k < n
        ensures !InBin(k, v)
      {
        BinsDisjoint(k, n, v);
      }
    }
  }

  lemma {:induction false} InFirstStep(rows: seq<Row>, n: nat)
    requires Wide(rows)
    ensures multiset(InFirst(rows, n + 1)) == multiset(InFirst(rows, n)) + multiset(Bin(rows, n))
    decreases |rows|
  {
    if rows != [] {
      InFirstStep(rows[..|rows| - 1], n);
      FirstBinsStep(n, rows[|rows| - 1][3]);
    }
  }

  lemma {:induction false} StackOfFirstBins(rows: seq<Row>, n: nat)
    requires Wide(rows) && n <= 10
    ensures multiset(Stack(Bins(rows)[..n])) == multiset(InFirst(rows, n))
    decreases n
  {
    if n == 0 {
      assert InFirst(rows, 0) == [] by {
        InFirstEmpty(rows);
      }
    } else {
      StackOfFirstBins(rows, n - 1);
      InFirstStep(rows, n - 1);
      assert Bins(rows)[..n][..n - 1] == Bins(rows)[..n - 1];
    }
  }

  lemma {:induction false} InFirstEmpty(rows: seq<Row>)
    requires Wide(rows)
    ensures InFirst(rows, 0) == []
    decreases |rows|
  {
    if rows != [] {
      InFirstEmpty(rows[..|rows| - 1]);
    }
  }

  /** The rows with overlap at most 1, in input order. */
  function Kept(rows: seq<Row>): seq<Row>
    requires Wide(rows)
    decreases |rows|
  {
    if rows == [] then []
    else
      var last := rows[|rows| - 1];
      Kept(rows[..|rows| - 1]) + if last[3] <= 1.0 then [last] else []
  }

  lemma {:induction false} InFirstTenIsKept(rows: seq<Row>)
    requires Wide(rows)
    ensures InFirst(rows, 10) == Kept(rows)
    decreases |rows|
  {
    if rows != [] {
      InFirstTenIsKept(rows[..|rows| - 1]);
      BinsCover(rows[|rows| - 1][3]);
    }
  }

  /**
   * Binning loses and duplicates nothing but the rows whose overlap exceeds 1:
   * the ten bins together are a permutation of the rows with overlap at most 1.
   */
  lemma {:induction false} BinsPartition(rows: seq<Row>)
    requires Wide(rows)
    ensures multiset(Stack(Bins(rows))) == multiset(Kept(rows))
  {
    StackOfFirstBins(rows, 10);
    InFirstTenIsKept(rows);
    assert Bins(rows)[..10] == Bins(rows);
  }

  // ---------------------------------------------------------------- the resampling

  /**
   * Each non-empty bin among the eight lowest becomes exactly len(bin_80_89)
   * rows drawn from itself; empty bins stay empty; the two top bins are kept.
   */
  lemma {:induction false} BalancedBins(rows: seq<Row>, draws: seq<seq<int>>, k: int)
    requires Wide(rows) && DrawsFit(rows, draws) && 0 <= k < 10
    ensures k < 8 ==> |Balanced(rows, draws, k)| == if |Bin(rows, k)| > 0 then |Bin(rows, 8)| else 0
    ensures k >= 8 ==> Balanced(rows, draws, k) == Bin(rows, k)
    ensures forall r :: r in Balanced(rows, draws, k) ==> r in Bin(rows, k)
  {
    if k < 8 && |Bin(rows, k)| > 0 {
      var b := Balanced(rows, draws, k);
      forall r | r in b
        ensures r in Bin(rows, k)
      {
        var j :| 0 <= j < |b| && b[j] == r;
        assert r == Bin(rows, k)[draws[k][j]];
      }
    }
  }

  /** A row of a concatenation comes from one of the blocks. */
  lemma {:induction false} StackMembers(blocks: seq<seq<Row>>, r: Row)
    ensures r in Stack(blocks) <==> exists k :: 0 <= k < |blocks| && r in blocks[k]
    decreases |blocks|
  {
    if blocks != [] {
      var init := blocks[..|blocks| - 1];
      StackMembers(init, r);
      if exists k :: 0 <= k < |init| && r in init[k] {
        var k :| 0 <= k < |init| && r in init[k];
        assert blocks[k] == init[k];
      }
      if exists k :: 0 <= k < |blocks| && r in blocks[k] {
        var k :| 0 <= k < |blocks| && r in blocks[k];
        if k < |init| {
          assert init[k] == blocks[k];
        }
      }
    }
  }

  /** The length of a concatenation. */
  function TotalLength(blocks: seq<seq<Row>>): nat
    decreases |blocks|
  {
    if blocks == [] then 0 else TotalLength(blocks[..|blocks| - 1]) + |blocks[|blocks| - 1]|
  }

  lemma {:induction false} StackLength(blocks: seq<seq<Row>>)
    ensures |Stack(blocks)| == TotalLength(blocks)
    decreases |blocks|
  {
    if blocks != [] {
      StackLength(blocks[..|blocks| - 1]);
    }
  }

  /** A concatenation lists its blocks one after another: block k occupies the positions after blocks 0..k-1. */
  lemma {:induction false} StackOrder(blocks: seq<seq<Row>>, k: int, j: int)
    requires 0 <= k < |blocks| && 0 <= j < |blocks[k]|
    ensures TotalLength(blocks[..k]) + j < |Stack(blocks)|
    ensures Stack(blocks)[TotalLength(blocks[..k]) + j] == blocks[k][j]
    decreases |blocks|
  {
    var init := blocks[..|blocks| - 1];
    StackLength(init);
    if k < |blocks| - 1 {
      StackOrder(init, k, j);
      assert init[..k] == blocks[..k];
      assert init[k] == blocks[k];
    } else {
      assert blocks[..k] == init;
    }
  }

  /** The bin of an overlap value at most 1. */
  function BinOf(v: real): (k: int)
    requires v <= 1.0
    ensures 0 <= k < 10 && InBin(k, v)
  {
    if v < 0.1 then 0
    else if v < 0.2 then 1
    else if v < 0.3 then 2
    else if v < 0.4 then 3
    else if v < 0.5 then 4
    else if v < 0.6 then 5
    else if v < 0.7 then 6
    else if v < 0.8 then 7
    else if v < 0.9 then 8
    else 9
  }

  /** A value in bin k is at most 1 and BinOf names bin k. */
  lemma BinOfUnique(k: int, v: real)
    requires InBin(k, v)
    ensures v <= 1.0 && BinOf(v) == k
  {
  }

  /** A row of balanced bin k is an input row whose overlap is in bin k. */
  lemma BlockRow(rows: seq<Row>, draws: seq<seq<int>>, k: int, r: Row)
    requires Wide(rows) && DrawsFit(rows, draws) && 0 <= k < 10
    requires r in Balanced(rows, draws, k)
    ensures r in rows && |r| > 3 && InBin(k, r[3]) && BinOf(r[3]) == k
  {
    BalancedBins(rows, draws, k);
    BinMembers(rows, k, r);
    BinOfUnique(k, r[3]);
  }

  /**
   * A successful normalisation keeps only input rows with overlap at most 1,
   * each row coming from its own bin.
   */
  lemma {:induction false} NormalizedFromInput(rows: seq<Row>, draws: seq<seq<int>>)
    requires Wide(rows) ==> DrawsFit(rows, draws)
    requires Normalize(rows, draws).Success?
    ensures forall r :: r in Normalize(rows, draws).value ==> r in rows && |r| > 3 && r[3] <= 1.0
  {
    var blocks := BalancedBlocks(rows, draws);
    assert Normalize(rows, draws).value == Stack(blocks);
    forall r | r in Stack(blocks)
      ensures r in rows && |r| > 3 && r[3] <= 1.0
    {
      StackMembers(blocks, r);
      var k :| 0 <= k < 10 && r in blocks[k];
      BlockRow(rows, draws, k, r);
    }
  }

  /** Row i is no later a bin than row j, both overlaps being at most 1. */
  predicate BinsInOrder(out: seq<Row>, i: int, j: int)
    requires 0 <= i < |out| && 0 <= j < |out|
  {
    |out[i]| > 3 && |out[j]| > 3 && out[i][3] <= 1.0 && out[j][3] <= 1.0 && BinOf(out[i][3]) <= BinOf(out[j][3])
  }

  /** Rows listed in ascending bin order. */
  predicate InBinOrder(out: seq<Row>)
  {
    forall i, j :: 0 <= i < j < |out| ==> BinsInOrder(out, i, j)
  }

  /** A successful normalisation lists its rows in ascending bin order. */
  lemma {:induction false} NormalizedInBinOrder(rows: seq<Row>, draws: seq<seq<int>>)
    requires Wide(rows) ==> DrawsFit(rows, draws)
    requires Normalize(rows, draws).Success?
    ensures InBinOrder(Normalize(rows, draws).value)
  {
    var out := Stack(BalancedBlocks(rows, draws));
    assert Normalize(rows, draws).value == out;
    forall i, j | 0 <= i < j < |out|
      ensures BinsInOrder(out, i, j)
    {
      OrderedPair(rows, draws, i, j);
    }
  }

  lemma {:induction false} OrderedPair(rows: seq<Row>, draws: seq<seq<int>>, i: int, j: int)
    requires Wide(rows) && DrawsFit(rows, draws)
    requires 0 <= i < j < |Stack(BalancedBlocks(rows, draws))|
    ensures BinsInOrder(Stack(BalancedBlocks(rows, draws)), i, j)
  {
    var blocks := BalancedBlocks(rows, draws);
    var ki, ji := Locate(blocks, i);
    var kj, jj := Locate(blocks, j);
    BlockRow(rows, draws, ki, blocks[ki][ji]);
    BlockRow(rows, draws, kj, blocks[kj][jj]);
    if kj < ki {
      PrefixGrows(blocks, kj, ki);
    }
  }

  /** A position of a concatenation lies in one block, after the blocks before it. */
  lemma {:induction false} Locate(blocks: seq<seq<Row>>, i: int) returns (k: int, j: int)
    requires 0 <= i < |Stack(blocks)|
    ensures 0 <= k < |blocks| && 0 <= j < |blocks[k]|
    ensures i == TotalLength(blocks[..k]) + j && Stack(blocks)[i] == blocks[k][j]
    decreases |blocks|
  {
    var init := blocks[..|blocks| - 1];
    StackLength(init);
    if i < |Stack(init)| {
      k, j := Locate(init, i);
      assert init[..k] == blocks[..k];
    } else {
      k, j := |blocks| - 1, i - |Stack(init)|;
      assert blocks[..k] == init;
    }
  }

  /** Later blocks start no earlier than the end of earlier ones. */
  lemma {:induction false} PrefixGrows(blocks: seq<seq<Row>>, a: int, b: int)
    requires 0 <= a < b <= |blocks|
    ensures TotalLength(blocks[..a]) + |blocks[a]| <= TotalLength(blocks[..b])
    decreases b - a
  {
    assert blocks[..a + 1][..a] == blocks[..a];
    if a + 1 < b {
      PrefixGrows(blocks, a + 1, b);
    }
  }

  // ---------------------------------------------------------------- the output file

  /** The text before the last '/', trailing slashes removed unless it is all slashes (os.path.dirname). */
  function Dirname(p: string): string
  {
    var head := p[..Initialization.LastIndex(p, '/') + 1];
    if head != [] && exists i :: 0 <= i < |head| && head[i] != '/' then StripSlashes(head) else head
  }

  /** s.rstrip('/'). */
  function StripSlashes(s: string): (t: string)
    ensures |t| <= |s| && t == s[..|t|]
    ensures t == [] || t[|t| - 1] != '/'
    ensures forall i :: |t| <= i < |s| ==> s[i] == '/'
    decreases |s|
  {
    if s != [] && s[|s| - 1] == '/' then StripSlashes(s[..|s| - 1]) else s
  }

  /** os.path.join(a, b). */
  function Join(a: string, b: string): string
  {
    if b != [] && b[0] == '/' then b
    else if a == [] || a[|a| - 1] == '/' then a + b
    else a + "/" + b
  }

  /** The path normalize_data saves to: 'normalized_' + basename, in the input's directory. */
  function OutputPath(p: string): string
  {
    Join(Dirname(p), "normalized_" + Initialization.Basename(p))
  }

  /** np.savez_compressed appends '.npz' unless the name already ends with it. */
  function SavedPath(p: string): string
  {
    var out := OutputPath(p);
    if |out| >= 4 && out[|out| - 4..] == ".npz" then out else out + ".npz"
  }

  /** After a prefix that is empty or ends in '/', and a name without '/', the last '/' closes the prefix. */
  lemma LastSlashOfJoin(prefix: string, name: string)
    requires '/' !in name && (prefix == [] || prefix[|prefix| - 1] == '/')
    ensures Initialization.LastIndex(prefix + name, '/') == |prefix| - 1
  {
    var s := prefix + name;
    assert forall j :: |prefix| <= j < |s| ==> s[j] == name[j - |prefix|];
    assert prefix != [] ==> s[|prefix| - 1] == '/';
  }

  /** Joining a name without '/' onto any directory leaves that name as the basename. */
  lemma BasenameOfJoin(d: string, name: string)
    requires name != [] && '/' !in name
    ensures Initialization.Basename(Join(d, name)) == name
  {
    var prefix := if d == [] || d[|d| - 1] == '/' then d else d + "/";
    assert Join(d, name) == prefix + name;
    LastSlashOfJoin(prefix, name);
    assert (prefix + name)[|prefix|..] == name;
  }

  /** The output file's own name is the input's with the prefix 'normalized_'. */
  lemma {:induction false} OutputBasename(p: string)
    ensures Initialization.Basename(OutputPath(p)) == "normalized_" + Initialization.Basename(p)
  {
    var name := "normalized_" + Initialization.Basename(p);
    assert '/' !in name;
    BasenameOfJoin(Dirname(p), name);
  }

  /** The directory of a path whose last '/' is not doubled: the text before that '/', or "/" at the root. */
  lemma DirnameSingleSlash(p: string)
    requires var i := Initialization.LastIndex(p, '/'); i < 1 || p[i - 1] != '/'
    ensures var i := Initialization.LastIndex(p, '/');
      Dirname(p) == if i == -1 then "" else if i == 0 then "/" else p[..i]
  {
    var i := Initialization.LastIndex(p, '/');
    var head := p[..i + 1];
    if i == 0 {
      assert head == "/";
    } else if i > 0 {
      assert head[i - 1] != '/';
      assert head[..i] == p[..i];
      assert StripSlashes(head) == StripSlashes(head[..i]);
    }
  }

  /**
   * Unless the directory part ends in a doubled slash, the output sits in the
   * input's own directory: 'normalized_' is inserted right after the last '/'.
   */
  lemma {:induction false} OutputBesideInput(p: string)
    requires var i := Initialization.LastIndex(p, '/'); i < 1 || p[i - 1] != '/'
    ensures var i := Initialization.LastIndex(p, '/');
      OutputPath(p) == p[..i + 1] + "normalized_" + p[i + 1..]
  {
    var i := Initialization.LastIndex(p, '/');
    DirnameSingleSlash(p);
    if i > 0 {
      assert p[..i] + "/" == p[..i + 1];
    }
  }
}
