/** Cutting a list into consecutive batches, and the dispatch of a job's plan in chunks of batches. */
module Batching {

  // Batches read and sent at once while a job is enqueued.
  const DISPATCH_PARALLELISM: nat := 16

  function Min(a: int, b: int): int {
    if a < b then a else b
  }

  // The flat cut: every batch has `size` items except perhaps the last.
  function Batches<T>(items: seq<T>, size: nat): seq<seq<T>>
    requires size > 0
  {
    if |items| <= size then (if items == [] then [] else [items])
    else [items[..size]] + Batches(items[size..], size)
  }

  function Flatten<T>(batches: seq<seq<T>>): seq<T> {
    if batches == [] then [] else batches[0] + Flatten(batches[1..])
  }

  function Lengths<T>(batches: seq<seq<T>>): seq<nat> {
    seq(|batches|, b requires 0 <= b < |batches| => |batches[b]|)
  }

  function Sum(counts: seq<nat>): nat {
    if counts == [] then 0 else counts[0] + Sum(counts[1..])
  }

  // One queue message per batch: its index and its documents.
  datatype Sent<T> = Sent(batchIndex: nat, documents: seq<T>)

  function Messages<T>(batches: seq<seq<T>>): seq<Sent<T>> {
    seq(|batches|, b requires 0 <= b < |batches| => Sent(b, batches[b]))
  }

  function Ceiling(n: nat, size: nat): nat
    requires size > 0
  {
    if n % size == 0 then n / size else n / size + 1
  }

  // Where batch b starts: b * size, by repeated addition.
  function Offset(b: nat, size: nat): nat {
    if b == 0 then 0 else Offset(b - 1, size) + size
  }

  lemma {:induction false} OffsetIsProduct(b: nat, size: nat)
    ensures Offset(b, size) == b * size
  {
    if b > 0 {
      OffsetIsProduct(b - 1, size);
      assert b * size == (b - 1) * size + size;
    }
  }

  lemma {:induction false} OffsetOrder(a: nat, b: nat, size: nat)
    requires a < b
    ensures Offset(a, size) + size <= Offset(b, size)
  {
    if a < b - 1 {
      OffsetOrder(a, b - 1, size);
    }
  }

  lemma {:induction false} OffsetSplit(a: nat, b: nat, size: nat)
    ensures Offset(a + b, size) == Offset(a, size) + Offset(b, size)
  {
    if b > 0 {
      OffsetSplit(a, b - 1, size);
      assert a + b - 1 == a + (b - 1);
    }
  }

  lemma {:induction false} OffsetNested(a: nat, k: nat, size: nat)
    ensures Offset(a, Offset(k, size)) == Offset(a * k, size)
  {
    if a == 0 {
    } else {
      OffsetNested(a - 1, k, size);
      OffsetSplit((a - 1) * k, k, size);
      assert (a - 1) * k + k == a * k;
    }
  }

  lemma FirstBatch<T>(items: seq<T>, size: nat)
    requires size > 0 && Batches(items, size) != []
    ensures items != [] && Batches(items, size)[0] == items[..Min(|items|, size)]
  {
    if |items| <= size {
      assert items[..|items|] == items;
    }
  }

  lemma BatchBehind<T>(items: seq<T>, size: nat, b: nat)
    requires size > 0 && 0 < b < |Batches(items, size)|
    ensures |items| > size && b - 1 < |Batches(items[size..], size)|
    ensures Batches(items, size)[b] == Batches(items[size..], size)[b - 1]
  {
  }

  // Batch b holds the items from b*size up to the next multiple of size; none is empty.
  lemma {:induction false} BatchAt<T>(items: seq<T>, size: nat, b: nat)
    requires size > 0 && b < |Batches(items, size)|
    ensures Offset(b, size) < |items|
    ensures Batches(items, size)[b] == items[Offset(b, size)..Min(|items|, Offset(b, size) + size)]
    decreases b
  {
    if b == 0 {
      FirstBatch(items, size);
    } else {
      hide Batches;
      BatchBehind(items, size, b);
      ShiftOffset(b - 1, size);
      BatchAt(items[size..], size, b - 1);
      SliceBehind(items, size, Offset(b - 1, size), Min(|items| - size, Offset(b - 1, size) + size));
    }
  }

  lemma SliceBehind<T>(items: seq<T>, size: nat, lo: nat, hi: nat)
    requires size <= |items| && lo <= hi <= |items| - size
    ensures items[size..][lo..hi] == items[lo + size..hi + size]
  {
  }

  lemma {:induction false} BatchesReachEnd<T>(items: seq<T>, size: nat)
    requires size > 0
    ensures |items| <= Offset(|Batches(items, size)|, size)
    ensures items != [] <==> Batches(items, size) != []
    decreases |items|
  {
    if |items| > size {
      BatchesReachEnd(items[size..], size);
      ShiftOffset(|Batches(items[size..], size)|, size);
    } else if items != [] {
      ShiftOffset(0, size);
    }
  }

  // The batches put back together are the list.
  lemma {:induction false} FlattenUndoesBatches<T>(items: seq<T>, size: nat)
    requires size > 0
    ensures Flatten(Batches(items, size)) == items
    decreases |items|
  {
    var cut := Batches(items, size);
    if |items| > size {
      FlattenUndoesBatches(items[size..], size);
      assert cut[1..] == Batches(items[size..], size);
    } else if items != [] {
      assert cut[1..] == [];
    }
  }

  lemma {:induction false} ShiftOffset(b: nat, size: nat)
    ensures Offset(b + 1, size) == size + Offset(b, size)
  {
  }

  // As many batches as the rounded-up quotient, and counts that add up to the whole plan.
  lemma {:induction false} BatchTotals<T>(items: seq<T>, size: nat)
    requires size > 0
    ensures |Batches(items, size)| == Ceiling(|items|, size)
    ensures Sum(Lengths(Batches(items, size))) == |items|
  {
    FlattenUndoesBatches(items, size);
    SumOfLengths(Batches(items, size));
    BatchesReachEnd(items, size);
    if items != [] {
      BatchAt(items, size, |Batches(items, size)| - 1);
    }
    CeilingIsUnique(|items|, size, |Batches(items, size)|);
  }

  lemma CeilingIsUnique(n: nat, size: nat, count: nat)
    requires size > 0
    requires if n == 0 then count == 0 else count > 0 && Offset(count - 1, size) < n <= Offset(count, size)
    ensures count == Ceiling(n, size)
  {
    var c, q := Ceiling(n, size), n / size;
    OffsetIsProduct(q, size);
    assert n == q * size + n % size;
    if count < c {
      if count + 1 < c { OffsetOrder(count, c - 1, size); }
    } else if count > c {
      if c < count - 1 { OffsetOrder(c, count - 1, size); }
    }
  }

  lemma {:induction false} SumOfLengths<T>(batches: seq<seq<T>>)
    ensures Sum(Lengths(batches)) == |Flatten(batches)|
  {
    if batches != [] {
      SumOfLengths(batches[1..]);
      assert Lengths(batches)[1..] == Lengths(batches[1..]);
    }
  }

  // Cutting off whole batches first does not change the cut.
  lemma {:induction false} CutAfterWholeBatches<T>(items: seq<T>, size: nat, k: nat)
    requires size > 0 && Offset(k, size) <= |items|
    ensures k <= |Batches(items, size)|
    ensures Batches(items[..Offset(k, size)], size) == Batches(items, size)[..k]
    ensures Batches(items[Offset(k, size)..], size) == Batches(items, size)[k..]
    decreases k
  {
    hide Batches;
    if k > 0 {
      ShiftOffset(k - 1, size);
      var rest := items[size..];
      var head := items[..Offset(k, size)];
      BatchesUnfold(items, size);
      BatchesUnfold(head, size);
      CutAfterWholeBatches(rest, size, k - 1);
      assert items[Offset(k, size)..] == rest[Offset(k - 1, size)..];
      assert head[size..] == rest[..Offset(k - 1, size)] && head[..size] == items[..size];
    } else {
      assert items[0..] == items && items[..0] == [];
      BatchesOfNothing(items[..0], size);
    }
  }

  lemma BatchesUnfold<T>(items: seq<T>, size: nat)
    requires 0 < size <= |items|
    ensures Batches(items, size) == [items[..size]] + Batches(items[size..], size)
  {
    if |items| == size {
      assert items[..size] == items;
    }
  }

  lemma BatchesOfNothing<T>(items: seq<T>, size: nat)
    requires size > 0 && items == []
    ensures Batches(items, size) == []
  {
  }

  method SplitIntoBatches<T>(items: seq<T>, size: nat) returns (batches: seq<seq<T>>)
    requires size > 0
    ensures batches == Batches(items, size)
  {
    batches := [];
    var i := 0;
    ghost var flat := Batches(items, size);
    while i < |items|
      invariant i == Offset(|batches|, size)
      invariant |batches| <= |flat|
      invariant batches == flat[..|batches|]
    {
      BatchesReachEnd(items, size);
      BatchAt(items, size, |batches|);
      batches := batches + [items[i..Min(|items|, i + size)]];
      i := i + size;
    }
    if |batches| < |flat| {
      BatchAt(items, size, |batches|);
      assert false;
    }
  }

  // The dispatch loop: chunks of DISPATCH_PARALLELISM batches, each chunk cut into batches whose
  // indexes follow the previous chunk's. What it sends is the flat cut of the plan, each index once.
  method Dispatch<T>(plan: seq<T>, batchSize: nat) returns (rows: seq<nat>, sent: seq<Sent<T>>)
    requires batchSize > 0
    ensures rows == Lengths(Batches(plan, batchSize))
    ensures sent == Messages(Batches(plan, batchSize))
  {
    BatchTotals(plan, batchSize);
    ghost var flat := Batches(plan, batchSize);
    var totalBatches := Ceiling(|plan|, batchSize);
    rows := [];
    for b := 0 to totalBatches
      invariant |rows| == b
      invariant rows == Lengths(flat)[..b]
    {
      RowCount(plan, batchSize, b);
      rows := rows + [Min(batchSize, |plan| - b * batchSize)];
    }

    var chunkSize := DISPATCH_PARALLELISM * batchSize;
    assert chunkSize > 0;
    OffsetIsProduct(DISPATCH_PARALLELISM, batchSize);
    var chunks := SplitIntoBatches(plan, chunkSize);
    sent := [];
    for chunkIndex := 0 to |chunks|
      invariant |sent| == Min(|flat|, chunkIndex * DISPATCH_PARALLELISM)
      invariant sent == Messages(flat)[..|sent|]
    {
      ChunkIsWholeBatches(plan, batchSize, chunkIndex);
      var batches := SplitIntoBatches(chunks[chunkIndex], batchSize);
      sent := SendChunk(flat, chunkIndex * DISPATCH_PARALLELISM, batches, sent);
    }
    ChunksCoverPlan(plan, batchSize);
  }

  // Sends the batches of one chunk, numbered from `first`.
  method SendChunk<T>(ghost flat: seq<seq<T>>, first: nat, batches: seq<seq<T>>, before: seq<Sent<T>>)
    returns (sent: seq<Sent<T>>)
    requires |before| == first && first + |batches| <= |flat|
    requires before == Messages(flat)[..first]
    requires batches == flat[first..first + |batches|]
    ensures sent == Messages(flat)[..first + |batches|]
  {
    sent := before;
    for j := 0 to |batches|
      invariant sent == Messages(flat)[..first + j]
    {
      assert flat[first + j] == batches[j];
      sent := sent + [Sent(first + j, batches[j])];
    }
  }

  lemma RowCount<T>(plan: seq<T>, size: nat, b: nat)
    requires size > 0 && b < |Batches(plan, size)|
    ensures |Batches(plan, size)[b]| == Min(size, |plan| - b * size)
    ensures Min(size, |plan| - b * size) >= 0
  {
    BatchAt(plan, size, b);
    OffsetIsProduct(b, size);
  }

  // Chunk c cut into batches is the stretch of the flat cut that starts at batch 16*c.
  lemma ChunkIsWholeBatches<T>(plan: seq<T>, size: nat, c: nat)
    requires size > 0 && Offset(DISPATCH_PARALLELISM, size) > 0
    requires c < |Batches(plan, Offset(DISPATCH_PARALLELISM, size))|
    ensures c * DISPATCH_PARALLELISM < |Batches(plan, size)|
    ensures Batches(Batches(plan, Offset(DISPATCH_PARALLELISM, size))[c], size)
         == Batches(plan, size)[c * DISPATCH_PARALLELISM..Min(|Batches(plan, size)|, (c + 1) * DISPATCH_PARALLELISM)]
  {
    var width := Offset(DISPATCH_PARALLELISM, size);
    var first := c * DISPATCH_PARALLELISM;
    BatchAt(plan, width, c);
    OffsetNested(c, DISPATCH_PARALLELISM, size);
    CutAfterWholeBatches(plan, size, first);
    var rest := plan[Offset(first, size)..];
    var chunk := Batches(plan, width)[c];
    assert chunk == rest[..Min(|rest|, width)];
    FirstChunk(rest, size);
    BatchesReachEnd(rest, size);
  }

  // The first 16 batches of a cut are the cut of the first 16 batches' items.
  lemma FirstChunk<T>(rest: seq<T>, size: nat)
    requires size > 0
    ensures Batches(rest[..Min(|rest|, Offset(DISPATCH_PARALLELISM, size))], size)
         == Batches(rest, size)[..Min(|Batches(rest, size)|, DISPATCH_PARALLELISM)]
  {
    var width, n := Offset(DISPATCH_PARALLELISM, size), |Batches(rest, size)|;
    if |rest| <= width {
      assert rest[..|rest|] == rest;
      if n > DISPATCH_PARALLELISM {
        BatchAt(rest, size, n - 1);
        if n - 1 > DISPATCH_PARALLELISM { OffsetOrder(DISPATCH_PARALLELISM, n - 1, size); }
      }
    } else {
      CutAfterWholeBatches(rest, size, DISPATCH_PARALLELISM);
    }
  }

  lemma ChunksCoverPlan<T>(plan: seq<T>, size: nat)
    requires size > 0 && Offset(DISPATCH_PARALLELISM, size) > 0
    ensures |Batches(plan, size)| <= |Batches(plan, Offset(DISPATCH_PARALLELISM, size))| * DISPATCH_PARALLELISM
  {
    var width := Offset(DISPATCH_PARALLELISM, size);
    var chunks, n := |Batches(plan, width)|, |Batches(plan, size)|;
    BatchesReachEnd(plan, width);
    OffsetNested(chunks, DISPATCH_PARALLELISM, size);
    if n > 0 {
      BatchAt(plan, size, n - 1);
    }
    if n - 1 > chunks * DISPATCH_PARALLELISM {
      OffsetOrder(chunks * DISPATCH_PARALLELISM, n - 1, size);
    }
  }
}
