/**
 * The bookkeeping of save_feature_volumes: every requested key is either
 * found as a stored volume (and loaded) or queued for generation; the queue is
 * cut into network batches of at most batchSize names, and the generated
 * volumes are saved under the names of their keys.
 */
module FeatureVolumes {
  import opened Grid
  import opened Names
  import opened Interning

  /** The file looked up under feature_volumes/: the key's name with the .npz extension. */
  function VolumeFile(k: Key): string
  {
    FileName(k) + ".npz"
  }

  /** The path handed to savez_compressed: '.npz' is appended for frame indices only. */
  function SaveTarget(k: Key): string
  {
    match k
    case CoordKey(_, _) => FileName(k)
    case IndexKey(_) => FileName(k) + ".npz"
  }

  predicate Stored(k: Key, existing: set<string>)
  {
    VolumeFile(k) in existing
  }

  /** The keys queued for generation, in input order. */
  function Missing(keys: seq<Key>, existing: set<string>): (m: seq<Key>)
    ensures |m| <= |keys|
  {
    if keys == [] then []
    else
      var last := keys[|keys| - 1];
      Missing(keys[..|keys| - 1], existing) + if Stored(last, existing) then [] else [last]
  }

  /** The files loaded, in input order. */
  function Found(keys: seq<Key>, existing: set<string>): (f: seq<string>)
    ensures |f| <= |keys|
  {
    if keys == [] then []
    else
      var last := keys[|keys| - 1];
      Found(keys[..|keys| - 1], existing) + if Stored(last, existing) then [VolumeFile(last)] else []
  }

  /** The is_new flags: 0 for a key whose file is stored, 1 otherwise. */
  function Flags(keys: seq<Key>, existing: set<string>): (f: seq<real>)
    ensures |f| == |keys|
  {
    if keys == [] then []
    else
      var last := keys[|keys| - 1];
      Flags(keys[..|keys| - 1], existing) + [if Stored(last, existing) then 0.0 else 1.0]
  }

  lemma {:induction false} FlagsAt(keys: seq<Key>, existing: set<string>, i: int)
    requires 0 <= i < |keys|
    ensures Flags(keys, existing)[i] == if Stored(keys[i], existing) then 0.0 else 1.0
    decreases |keys|
  {
    if i < |keys| - 1 {
      FlagsAt(keys[..|keys| - 1], existing, i);
    }
  }

  /** One more key: it joins the queue or the loaded files, depending on its file. */
  lemma {:induction false} LookupSnoc(keys: seq<Key>, k: Key, existing: set<string>)
    ensures Missing(keys + [k], existing) == Missing(keys, existing) + if Stored(k, existing) then [] else [k]
    ensures Found(keys + [k], existing) == Found(keys, existing) + if Stored(k, existing) then [VolumeFile(k)] else []
    ensures Flags(keys + [k], existing) == Flags(keys, existing) + [if Stored(k, existing) then 0.0 else 1.0]
  {
    assert (keys + [k])[..|keys|] == keys;
  }

  /** Every entry is either loaded or queued, never both and never neither. */
  lemma {:induction false} FoundOrMissing(keys: seq<Key>, existing: set<string>)
    ensures |Found(keys, existing)| + |Missing(keys, existing)| == |keys|
    decreases |keys|
  {
    if keys != [] {
      FoundOrMissing(keys[..|keys| - 1], existing);
    }
  }

  /** A key is queued iff it was requested and its file is absent. */
  lemma {:induction false} MissingMembers(keys: seq<Key>, existing: set<string>)
    ensures forall k :: k in Missing(keys, existing) <==> k in keys && !Stored(k, existing)
    decreases |keys|
  {
    if keys != [] {
      var init := keys[..|keys| - 1];
      var last := keys[|keys| - 1];
      MissingMembers(init, existing);
      forall k
        ensures k in keys <==> k in init || k == last
      {
        if k in keys {
          var i :| 0 <= i < |keys| && keys[i] == k;
          if i < |keys| - 1 { assert init[i] == k; }
        }
      }
    }
  }

  /** Only stored files are loaded. */
  lemma {:induction false} FoundStored(keys: seq<Key>, existing: set<string>)
    ensures forall f :: f in Found(keys, existing) ==> f in existing
    decreases |keys|
  {
    if keys != [] {
      FoundStored(keys[..|keys| - 1], existing);
    }
  }

  function NamesOf(ks: seq<Key>): (ns: seq<string>)
    ensures |ns| == |ks| && forall j :: 0 <= j < |ks| ==> ns[j] == FileName(ks[j])
  {
    seq(|ks|, j requires 0 <= j < |ks| => FileName(ks[j]))
  }

  /** Two queued keys get the same generation name only when they are the same key. */
  lemma {:induction false} NamesDistinct(ks: seq<Key>, i: int, j: int)
    requires 0 <= i < |ks| && 0 <= j < |ks|
    ensures NamesOf(ks)[i] == NamesOf(ks)[j] <==> ks[i] == ks[j]
  {
    if NamesOf(ks)[i] == NamesOf(ks)[j] {
      FileNameInjective(ks[i], ks[j]);
    }
  }

  lemma NamesSnoc(ks: seq<Key>, k: Key)
    ensures NamesOf(ks + [k]) == NamesOf(ks) + [FileName(k)]
  {
    assert forall j :: 0 <= j < |ks| ==> (ks + [k])[j] == ks[j];
  }

  function TargetsOf(ks: seq<Key>): (ts: seq<string>)
    ensures |ts| == |ks| && forall j :: 0 <= j < |ks| ==> ts[j] == SaveTarget(ks[j])
  {
    seq(|ks|, j requires 0 <= j < |ks| => SaveTarget(ks[j]))
  }

  /** loop_idx * batch_size, built up one batch at a time so that the batch arithmetic stays linear. */
  function Start(bs: nat, l: nat): nat
  {
    if l == 0 then 0 else Start(bs, l - 1) + bs
  }

  lemma {:induction false} StartIsProduct(bs: nat, l: nat)
    ensures Start(bs, l) == l * bs
  {
    if l > 0 {
      StartIsProduct(bs, l - 1);
      assert l * bs == (l - 1) * bs + bs;
    }
  }

  lemma {:induction false} StartMonotone(bs: nat, a: nat, b: nat)
    requires a <= b
    ensures Start(bs, a) <= Start(bs, b)
    decreases b
  {
    if a < b {
      StartMonotone(bs, a, b - 1);
    }
  }

  /** The number of network passes: generation_size / batch_size, rounded up. */
  function BatchCount(g: nat, bs: nat): (n: nat)
    requires bs > 0
    ensures g == 0 ==> n == 0
    ensures g > 0 ==> n > 0 && Start(bs, n - 1) < g <= Start(bs, n)
  {
    var q := g / bs;
    var r := g % bs;
    StartIsProduct(bs, q);
    if r == 0 then q else q + 1
  }

  /** Where batch l stops: the end of the queue for a short last batch, a full batch otherwise. */
  function BatchEnd(g: nat, bs: nat, l: nat): (e: nat)
    requires bs > 0 && l < BatchCount(g, bs)
    ensures Start(bs, l) < e <= g && e - Start(bs, l) <= bs
    ensures l + 1 < BatchCount(g, bs) ==> e == Start(bs, l + 1)
    ensures l + 1 == BatchCount(g, bs) ==> e == g
  {
    var n := BatchCount(g, bs);
    StartMonotone(bs, l, n - 1);
    StartMonotone(bs, l + 1, if l + 1 < n then n - 1 else l + 1);
    if g - Start(bs, l) < bs then g else Start(bs, l) + bs
  }

  /** The names sent to the network in batch l. */
  function Batch(names: seq<string>, bs: nat, l: nat): seq<string>
    requires bs > 0 && l < BatchCount(|names|, bs)
  {
    var end := BatchEnd(|names|, bs, l);
    names[Start(bs, l)..end]
  }

  function Flatten(batches: seq<seq<string>>): seq<string>
  {
    if batches == [] then [] else Flatten(batches[..|batches| - 1]) + batches[|batches| - 1]
  }

  /**
   * The batches partition the queue: laid end to end, the first k of them are
   * exactly the queue's first min(k * bs, g) names, so all of them are the
   * whole queue, each name sent once and in order.
   */
  lemma {:induction false} BatchesCover(names: seq<string>, bs: nat, k: nat)
    requires bs > 0 && k <= BatchCount(|names|, bs)
    ensures Flatten(seq(k, l requires 0 <= l < k => Batch(names, bs, l)))
      == names[..if Start(bs, k) < |names| then Start(bs, k) else |names|]
  {
    var bt := seq(k, l requires 0 <= l < k => Batch(names, bs, l));
    if k > 0 {
      var prev := seq(k - 1, l requires 0 <= l < k - 1 => Batch(names, bs, l));
      BatchesCover(names, bs, k - 1);
      assert bt[..k - 1] == prev;
      var s := Start(bs, k - 1);
      var e := BatchEnd(|names|, bs, k - 1);
      FlattenStep(names, bt, prev, s, e);
    }
  }

  /** Appending the next slice to slices that cover a prefix covers the longer prefix. */
  lemma FlattenStep(names: seq<string>, bt: seq<seq<string>>, prev: seq<seq<string>>, s: int, e: int)
    requires bt != [] && prev == bt[..|bt| - 1]
    requires 0 <= s <= e <= |names| && Flatten(prev) == names[..s] && bt[|bt| - 1] == names[s..e]
    ensures Flatten(bt) == names[..e]
  {
    assert names[..s] + names[s..e] == names[..e];
  }

  /** np.savez_compressed's file: the path as given when it ends in '.npz', the path plus '.npz' otherwise. */
  function SavezFile(path: string): string
  {
    if |path| >= 4 && path[|path| - 4..] == ".npz" then path else path + ".npz"
  }

  /** A coordinate name ends in a decimal digit, never in '.npz'. */
  lemma {:induction false} CoordNameEndsInDigit(x: int, y: int)
    ensures var n := CoordName(x, y); |n| > 0 && IsDigit(n[|n| - 1])
  {
    var a := if y < 0 then -y else y;
    var k := CoordPartForm(y);
    var r := a % 100;
    assert Padded(k, a / 100, r) == ((Zeros(k) + Decimal(a / 100)) + ".") + [Digit(r / 10), Digit(r % 10)];
  }

  /**
   * A generated volume is written where the lookup searches: for a coordinate
   * key savez_compressed appends '.npz' to the target, and for an index key the
   * target already carries it; either way the file is the key's volume file.
   */
  lemma {:induction false} SavedFileIsLookedUp(k: Key)
    ensures SavezFile(SaveTarget(k)) == VolumeFile(k)
    ensures k.CoordKey? ==> SaveTarget(k) + ".npz" == VolumeFile(k)
    ensures k.IndexKey? ==> SaveTarget(k) == VolumeFile(k)
  {
    match k
    case CoordKey(x, y) =>
      var n := CoordName(x, y);
      CoordNameEndsInDigit(x, y);
      if |n| >= 4 {
        assert n[|n| - 4..][3] == n[|n| - 1];
      }
    case IndexKey(i) =>
      var p := IndexName(i) + ".npz";
      assert p[|p| - 4..] == ".npz";
  }

  /** How save_feature_volumes ends. */
  datatype SaveOutcome =
    | Completed
    | ZeroBatchSize   // generation_size % batch_size with batch_size 0 raises ZeroDivisionError
    | NoSuchKey       // the network returned more volumes than keys are left: coordinate_for_generation[...] raises IndexError

  /** The name batches sent to the network, the targets saved so far, and how the batch loop ended. */
  datatype Generation = Generation(requests: seq<seq<string>>, saved: seq<string>, outcome: SaveOutcome)

  /**
   * One pass of the batch loop: the batch is sent to the network, which returns
   * count volumes; with saving, volume i goes under the target of queue[start + i],
   * and a volume past the end of the queue raises IndexError.
   */
  function BatchStep(gen: Generation, queue: seq<Key>, batch: seq<string>, start: nat, count: nat, saveNew: bool): Generation
    requires start <= |queue|
  {
    var requests := gen.requests + [batch];
    if !saveNew then Generation(requests, gen.saved, Completed)
    else if start + count <= |queue| then Generation(requests, gen.saved + TargetsOf(queue)[start..start + count], Completed)
    else Generation(requests, gen.saved + TargetsOf(queue)[start..], NoSuchKey)
  }

  /**
   * The first k passes of the batch loop for a positive batch size, where the
   * network returns returned(batch) volumes for a batch; the loop ends at the
   * first pass that raises.
   */
  function Batches(queue: seq<Key>, names: seq<string>, bs: nat, returned: seq<string> -> nat, saveNew: bool, k: nat): Generation
    requires bs > 0 && |names| == |queue| && k <= BatchCount(|names|, bs)
  {
    if k == 0 then Generation([], [], Completed)
    else
      var prev := Batches(queue, names, bs, returned, saveNew, k - 1);
      if prev.outcome != Completed then prev
      else
        var batch := Batch(names, bs, k - 1);
        assert Start(bs, k - 1) < BatchEnd(|names|, bs, k - 1) <= |names|;
        BatchStep(prev, queue, batch, Start(bs, k - 1), returned(batch), saveNew)
  }

  /** Python's a % b: the remainder takes the sign of the divisor. */
  function PyMod(a: int, b: int): int
    requires b != 0
  {
    if b > 0 then a % b else -((-a) % (-b))
  }

  /** int(a / b) for a >= 0: the quotient truncated toward zero. */
  function TruncDiv(a: nat, b: int): int
    requires b != 0
  {
    if b > 0 then a / b else -(a / -b)
  }

  /** loop_range: generation_size / batch_size, plus one when the division leaves a remainder. */
  function LoopRange(g: nat, bs: int): int
    requires bs != 0
  {
    if PyMod(g, bs) == 0 then TruncDiv(g, bs) else TruncDiv(g, bs) + 1
  }

  /** For a positive batch size loop_range is the ceiling of the division. */
  lemma {:induction false} LoopRangePositive(g: nat, bs: int)
    requires bs > 0
    ensures LoopRange(g, bs) == BatchCount(g, bs)
  {
  }

  /**
   * For a negative batch size range(loop_range) runs at most once, and only for
   * a queue shorter than -batch_size; the slice [0:batch_size] it sends is then empty.
   */
  lemma {:induction false} NegativeLoopRange(g: nat, bs: int)
    requires bs < 0 && g > 0
    ensures LoopRange(g, bs) <= 1
    ensures LoopRange(g, bs) == 1 <==> g < -bs
    ensures g < -bs ==> SliceEnd(bs, g) == 0
  {
    var b := -bs;
    if g < b {
      DivModOf(g, b, 0, g);
      DivModOf(-(g as int), b, -1, b - g);
    } else {
      QuotientAtLeastOne(g, b);
    }
  }

  /** The Euclidean quotient and remainder are the unique q, r with a == q * b + r and 0 <= r < b. */
  lemma {:induction false} DivModOf(a: int, b: int, q: int, r: int)
    requires b > 0 && 0 <= r < b && a == q * b + r
    ensures a / b == q && a % b == r
  {
    var q', r' := a / b, a % b;
    assert (q - q') * b == r' - r;
    if q - q' >= 1 {
      MulAtLeast(q - q', b);
    } else if q' - q >= 1 {
      MulAtLeast(q' - q, b);
    }
  }

  lemma {:induction false} MulAtLeast(d: int, b: int)
    requires d >= 1 && b > 0
    ensures d * b >= b
  {
  }

  lemma {:induction false} QuotientAtLeastOne(g: nat, b: int)
    requires 0 < b <= g
    ensures g / b >= 1
  {
    assert g == (g / b) * b + g % b;
  }

  /**
   * The batch loop for a negative batch size: no pass at all, or, for a queue
   * shorter than -batch_size, one pass that sends the empty slice [0:batch_size].
   */
  function NegativeBatches(queue: seq<Key>, names: seq<string>, bs: int, returned: seq<string> -> nat, saveNew: bool): Generation
    requires bs < 0 && |names| == |queue|
  {
    if |names| < -bs then
      var batch := names[..SliceEnd(bs, |names|)];
      BatchStep(Generation([], [], Completed), queue, batch, 0, returned(batch), saveNew)
    else Generation([], [], Completed)
  }

  /** The generation part of save_feature_volumes for a non-empty queue, for every batch size. */
  function Generated(queue: seq<Key>, names: seq<string>, bs: int, returned: seq<string> -> nat, saveNew: bool): Generation
    requires |names| == |queue|
  {
    if bs == 0 then Generation([], [], ZeroBatchSize)
    else if bs > 0 then Batches(queue, names, bs, returned, saveNew, BatchCount(|names|, bs))
    else NegativeBatches(queue, names, bs, returned, saveNew)
  }

  /** A pass that raised ends the loop: later passes leave the result as it was. */
  lemma {:induction false} FailureSticks(queue: seq<Key>, names: seq<string>, bs: nat, returned: seq<string> -> nat,
                                         saveNew: bool, l: nat, k: nat)
    requires bs > 0 && |names| == |queue| && l <= k <= BatchCount(|names|, bs)
    requires Batches(queue, names, bs, returned, saveNew, l).outcome != Completed
    ensures Batches(queue, names, bs, returned, saveNew, k) == Batches(queue, names, bs, returned, saveNew, l)
    decreases k
  {
    if l < k {
      FailureSticks(queue, names, bs, returned, saveNew, l, k - 1);
    }
  }

  /** A loop that did not raise sent the batches in order, one request per batch. */
  lemma {:induction false} BatchesSent(queue: seq<Key>, names: seq<string>, bs: nat, returned: seq<string> -> nat,
                                       saveNew: bool, k: nat)
    requires bs > 0 && |names| == |queue| && k <= BatchCount(|names|, bs)
    requires Batches(queue, names, bs, returned, saveNew, k).outcome == Completed
    ensures var gen := Batches(queue, names, bs, returned, saveNew, k);
      |gen.requests| == k && forall l :: 0 <= l < k ==> gen.requests[l] == Batch(names, bs, l)
  {
    if k > 0 {
      var prev := Batches(queue, names, bs, returned, saveNew, k - 1);
      BatchesSent(queue, names, bs, returned, saveNew, k - 1);
      var gen := Batches(queue, names, bs, returned, saveNew, k);
      assert gen.requests == prev.requests + [Batch(names, bs, k - 1)];
      forall l | 0 <= l < k
        ensures gen.requests[l] == Batch(names, bs, l)
      {
        if l < k - 1 {
          assert gen.requests[l] == prev.requests[l];
        }
      }
    }
  }

  /**
   * When the network returns one volume per name it is sent, the loop never
   * raises and (with saving) has saved the target of every queued key its
   * batches held so far, in queue order.
   */
  lemma {:induction false} OneVolumePerName(queue: seq<Key>, names: seq<string>, bs: nat, returned: seq<string> -> nat,
                                            saveNew: bool, k: nat)
    requires bs > 0 && |names| == |queue| && k <= BatchCount(|names|, bs)
    requires forall batch :: returned(batch) == |batch|
    ensures var gen := Batches(queue, names, bs, returned, saveNew, k);
      && gen.outcome == Completed
      && gen.saved == if saveNew then TargetsOf(queue)[..Handled(|names|, bs, k)] else []
  {
    if k > 0 {
      OneVolumePerName(queue, names, bs, returned, saveNew, k - 1);
      var s := Start(bs, k - 1);
      var e := BatchEnd(|names|, bs, k - 1);
      var batch := Batch(names, bs, k - 1);
      HandledBefore(|names|, bs, k - 1);
      StepOneVolume(Batches(queue, names, bs, returned, saveNew, k - 1), queue, batch, s, e, returned(batch), saveNew);
    }
  }

  /** One pass that saves exactly the batch's keys extends the saved prefix of the targets to the batch's end. */
  lemma StepOneVolume(prev: Generation, queue: seq<Key>, batch: seq<string>, s: nat, e: nat, count: nat, saveNew: bool)
    requires s <= e <= |queue| && count == e - s && prev.outcome == Completed
    requires prev.saved == if saveNew then TargetsOf(queue)[..s] else []
    ensures var gen := BatchStep(prev, queue, batch, s, count, saveNew);
      gen.outcome == Completed && gen.saved == if saveNew then TargetsOf(queue)[..e] else []
  {
    var t := TargetsOf(queue);
    assert t[..s] + t[s..e] == t[..e];
  }

  /** How many queued names the first k batches hold. */
  function Handled(g: nat, bs: nat, k: nat): (n: nat)
    requires bs > 0 && k <= BatchCount(g, bs)
    ensures n <= g
  {
    if k == 0 then 0 else BatchEnd(g, bs, k - 1)
  }

  /** Batch l starts where the earlier batches stop. */
  lemma HandledBefore(g: nat, bs: nat, l: nat)
    requires bs > 0 && l < BatchCount(g, bs)
    ensures Handled(g, bs, l) == Start(bs, l)
  {
    if l > 0 {
      var e := BatchEnd(g, bs, l - 1);
    }
  }

  /** With one volume per name, every queued key's volume is saved (when saving) and the loop completes. */
  lemma {:induction false} EveryVolumeSaved(queue: seq<Key>, names: seq<string>, bs: nat, returned: seq<string> -> nat, saveNew: bool)
    requires bs > 0 && |names| == |queue| > 0
    requires forall batch :: returned(batch) == |batch|
    ensures var gen := Generated(queue, names, bs, returned, saveNew);
      && gen.outcome == Completed && gen.saved == (if saveNew then TargetsOf(queue) else [])
      && |gen.requests| == BatchCount(|names|, bs)
      && forall l :: 0 <= l < |gen.requests| ==> gen.requests[l] == Batch(names, bs, l)
  {
    var n := BatchCount(|names|, bs);
    OneVolumePerName(queue, names, bs, returned, saveNew, n);
    BatchesSent(queue, names, bs, returned, saveNew, n);
    assert Handled(|names|, bs, n) == |names|;
    assert TargetsOf(queue)[..|queue|] == TargetsOf(queue);
  }

  /**
   * save_feature_volumes: isNew[i] is 0 for a key whose file is stored and 1
   * otherwise; the stored files are loaded in order, the others queued with
   * their names; a non-empty queue goes to the network batch by batch, and with
   * saveNew every generated volume is saved under its key's target. The network
   * returns returned(batch) volumes for a batch of names.
   */
  method SaveFeatureVolumes(keys: seq<Key>, existing: set<string>, batchSize: int, saveNew: bool, returned: seq<string> -> nat)
    returns (isNew: array<real>, loaded: seq<string>, queue: seq<Key>, names: seq<string>, gen: Generation)
    ensures fresh(isNew) && isNew.Length == |keys|
    ensures forall i :: 0 <= i < |keys| ==> isNew[i] == if Stored(keys[i], existing) then 0.0 else 1.0
    ensures loaded == Found(keys, existing)
    ensures queue == Missing(keys, existing) && names == NamesOf(queue)
    ensures queue == [] ==> gen == Generation([], [], Completed)
    ensures queue != [] ==> gen == Generated(queue, names, batchSize, returned, saveNew)
  {
    isNew, loaded, queue, names := Lookup(keys, existing);
    gen := Generation([], [], Completed);
    var g := |names|;
    if g > 0 {
      if batchSize == 0 {
        return isNew, loaded, queue, names, Generation([], [], ZeroBatchSize);
      }
      var loopRange := if PyMod(g, batchSize) == 0 then TruncDiv(g, batchSize) else TruncDiv(g, batchSize) + 1;
      if batchSize > 0 {
        LoopRangePositive(g, batchSize);
        gen := Generate(queue, names, batchSize, loopRange, saveNew, returned);
      } else {
        NegativeLoopRange(g, batchSize);
        if loopRange > 0 {
          var batch := names[0..SliceEnd(batchSize, g)];
          gen := Generation([batch], [], Completed);
          if saveNew {
            var saved, outcome := SaveBatch(queue, [], 0, returned(batch));
            gen := Generation([batch], saved, outcome);
          }
        }
      }
    }
  }

  /** The first loop of save_feature_volumes: look every key's file up and sort it into loaded or queued. */
  method Lookup(keys: seq<Key>, existing: set<string>)
    returns (isNew: array<real>, loaded: seq<string>, queue: seq<Key>, names: seq<string>)
    ensures fresh(isNew) && isNew.Length == |keys|
    ensures forall i :: 0 <= i < |keys| ==> isNew[i] == if Stored(keys[i], existing) then 0.0 else 1.0
    ensures loaded == Found(keys, existing)
    ensures queue == Missing(keys, existing) && names == NamesOf(queue)
  {
    isNew := new real[|keys|](i => 1.0);
    loaded, queue, names := [], [], [];
    for i := 0 to |keys|
      invariant loaded == Found(keys[..i], existing)
      invariant queue == Missing(keys[..i], existing) && names == NamesOf(queue)
      invariant isNew[..i] == Flags(keys[..i], existing)
      invariant forall j :: i <= j < |keys| ==> isNew[j] == 1.0
    {
      PrefixSnoc(keys, i);
      LookupSnoc(keys[..i], keys[i], existing);
      NamesSnoc(queue, keys[i]);
      var path := VolumeFile(keys[i]);
      if path in existing {
        loaded := loaded + [path];
        isNew[i] := 0.0;
      } else {
        queue := queue + [keys[i]];
        names := names + [FileName(keys[i])];
      }
      assert isNew[..i + 1] == isNew[..i] + [isNew[i]];
    }
    assert keys[..|keys|] == keys;
    assert isNew[..] == isNew[..|keys|];
    forall i | 0 <= i < |keys|
      ensures isNew[i] == if Stored(keys[i], existing) then 0.0 else 1.0
    {
      FlagsAt(keys, existing, i);
    }
  }

  /**
   * The batch loop for a positive batch size: send batch loop_idx, then save the
   * volumes the network returned for it; an IndexError ends the loop.
   */
  method Generate(queue: seq<Key>, names: seq<string>, batchSize: int, loopRange: int, saveNew: bool, returned: seq<string> -> nat)
    returns (gen: Generation)
    requires |names| == |queue| > 0 && batchSize > 0 && loopRange == BatchCount(|names|, batchSize)
    ensures gen == Batches(queue, names, batchSize, returned, saveNew, loopRange)
  {
    gen := Generation([], [], Completed);
    var l := 0;
    while l < loopRange && gen.outcome == Completed
      invariant 0 <= l <= loopRange
      invariant gen == Batches(queue, names, batchSize, returned, saveNew, l)
    {
      var batch, start, batchEnd := NextBatch(names, batchSize, l);
      var volumes := returned(batch);
      var requests := gen.requests + [batch];
      if saveNew {
        var saved, outcome := SaveBatch(queue, gen.saved, start, volumes);
        gen := Generation(requests, saved, outcome);
      } else {
        gen := gen.(requests := requests);
      }
      l := l + 1;
    }
    if l < loopRange {
      FailureSticks(queue, names, batchSize, returned, saveNew, l, loopRange);
    }
  }

  /** Where batch l starts and stops, and the names it sends. */
  method NextBatch(names: seq<string>, batchSize: nat, l: nat) returns (batch: seq<string>, start: nat, end: nat)
    requires batchSize > 0 && l < BatchCount(|names|, batchSize)
    ensures start == Start(batchSize, l) && end == BatchEnd(|names|, batchSize, l)
    ensures batch == Batch(names, batchSize, l)
  {
    var g := |names|;
    ghost var e := BatchEnd(g, batchSize, l);
    start := l * batchSize;
    StartIsProduct(batchSize, l);
    if g - start < batchSize {
      end := g;
    } else {
      assert (l + 1) * batchSize == start + batchSize;
      end := (l + 1) * batchSize;
    }
    batch := names[start..end];
  }

  /** Saving the volume of queue[b] extends the targets saved from queue[a..b] by one. */
  lemma SaveSnoc(queue: seq<Key>, saved: seq<string>, a: int, b: int)
    requires 0 <= a <= b < |queue|
    ensures saved + TargetsOf(queue)[a..b] + [SaveTarget(queue[b])] == saved + TargetsOf(queue)[a..b + 1]
  {
    var t := TargetsOf(queue);
    assert t[a..b + 1] == t[a..b] + [t[b]];
  }

  /**
   * The save loop of one batch: for i in range(len(feature_volumes_new)), the
   * i-th new volume goes under the target of queue[start + i]; an index past
   * the end of the queue raises IndexError after the volumes before it are saved.
   */
  method SaveBatch(queue: seq<Key>, saved: seq<string>, start: nat, count: nat) returns (out: seq<string>, outcome: SaveOutcome)
    requires start <= |queue|
    ensures start + count <= |queue| ==> out == saved + TargetsOf(queue)[start..start + count] && outcome == Completed
    ensures start + count > |queue| ==> out == saved + TargetsOf(queue)[start..] && outcome == NoSuchKey
  {
    out := saved;
    for i := 0 to count
      invariant start + i <= |queue|
      invariant out == saved + TargetsOf(queue)[start..start + i]
    {
      if start + i == |queue| {
        assert TargetsOf(queue)[start..] == TargetsOf(queue)[start..start + i];
        return out, NoSuchKey;
      }
      SaveSnoc(queue, saved, start, start + i);
      out := out + [SaveTarget(queue[start + i])];
    }
    outcome := Completed;
  }
}
