/**
 * The sparse long-array benchmark fixture: a generator of reference arrays in
 * two shapes (uniform and packed), and the replay of a reference array into a
 * store through one `set` call per non-sentinel entry.
 *
 * The random source is an oracle (`Draws`); the four backend stores are one
 * abstract store (`LongStore`): a map from index to value over a default.
 */
module LongArrays {
  import opened JavaTypes
  import opened Wrappers

  /** The value that marks an absent entry. */
  const Sentinel: Long := -1

  /** The only values a reference array may hold: the sentinel or a non-negative long. */
  predicate IsSentinelOrValue(x: Long)
  {
    x == Sentinel || x >= 0
  }

  datatype Distribution = Uniform | Packed

  /**
   * What `new Random(0)` hands to the generator, taken as an oracle:
   * `start` is what `nextInt(maxIndex)` returns, `keep[i]` is whether
   * `nextDouble() >= sparseness` at index `i`, and `longs` is the stream of
   * `nextLong()` results.
   */
  datatype Draws = Draws(start: int, keep: seq<bool>, longs: seq<Long>)

  /** The exceptions `createPrimitive` can throw. */
  datatype Error =
    | NegativeArraySize  // `new long[size]` with `size < 0`
    | IllegalBound       // `nextInt(maxIndex)` with `maxIndex <= 0`

  // ---------------------------------------------------------------------------
  // Rejection sampling: the values `randomLong` hands out are the
  // non-negative draws of the stream, in order.
  // ---------------------------------------------------------------------------

  /** The non-negative elements of `s`, in order. */
  ghost function NonNegatives(s: seq<Long>): (r: seq<Long>)
    ensures |r| <= |s|
    ensures forall k :: 0 <= k < |r| ==> r[k] >= 0
    decreases |s|
  {
    if s == [] then []
    else NonNegatives(s[..|s| - 1]) + (if s[|s| - 1] >= 0 then [s[|s| - 1]] else [])
  }

  lemma {:induction false} NonNegativesAppend(a: seq<Long>, b: seq<Long>)
    ensures NonNegatives(a + b) == NonNegatives(a) + NonNegatives(b)
    decreases |b|
  {
    if b == [] {
      assert a + b == a;
    } else {
      var n := |b| - 1;
      assert (a + b)[..|a + b| - 1] == a + b[..n];
      NonNegativesAppend(a, b[..n]);
    }
  }

  /** A stretch of negative draws contributes nothing. */
  lemma {:induction false} NonNegativesOfNegatives(s: seq<Long>)
    requires forall k :: 0 <= k < |s| ==> s[k] < 0
    ensures NonNegatives(s) == []
    decreases |s|
  {
    if s != [] {
      NonNegativesOfNegatives(s[..|s| - 1]);
    }
  }

  /** A run of non-negative values is kept whole. */
  lemma {:induction false} NonNegativesOfValues(s: seq<Long>)
    requires forall k :: 0 <= k < |s| ==> s[k] >= 0
    ensures NonNegatives(s) == s
    decreases |s|
  {
    if s != [] {
      NonNegativesOfValues(s[..|s| - 1]);
    }
  }

  /** The values drawn from a prefix of the stream are a prefix of all values drawn. */
  lemma NonNegativesPrefix(s: seq<Long>, p: nat)
    requires p <= |s|
    ensures NonNegatives(s) == NonNegatives(s[..p]) + NonNegatives(s[p..])
  {
    assert s == s[..p] + s[p..];
    NonNegativesAppend(s[..p], s[p..]);
  }

  /** A stretch that yields a value holds a non-negative draw. */
  lemma {:induction false} ValueHasDraw(s: seq<Long>)
    requires NonNegatives(s) != []
    ensures exists k :: 0 <= k < |s| && s[k] >= 0
    decreases |s|
  {
    var n := |s| - 1;
    if s[n] < 0 {
      ValueHasDraw(s[..n]);
      var k :| 0 <= k < n && s[..n][k] >= 0;
      assert s[k] >= 0;
    }
  }

  /** If fewer values were taken from `s[..p]` than `s` holds, a non-negative draw lies at or after `p`. */
  lemma NextValueExists(s: seq<Long>, p: nat)
    requires p <= |s|
    requires |NonNegatives(s[..p])| < |NonNegatives(s)|
    ensures exists j :: p <= j < |s| && s[j] >= 0
  {
    NonNegativesPrefix(s, p);
    var rest := s[p..];
    ValueHasDraw(rest);
    var k :| 0 <= k < |rest| && rest[k] >= 0;
    assert s[p + k] >= 0;
  }

  /** Negative draws followed by one non-negative draw add exactly that draw to the values drawn. */
  lemma SkipNegatives(longs: seq<Long>, from: nat, next: nat)
    requires from < next <= |longs| && longs[next - 1] >= 0
    requires forall j :: from <= j < next - 1 ==> longs[j] < 0
    ensures NonNegatives(longs[..next]) == NonNegatives(longs[..from]) + [longs[next - 1]]
  {
    var v := longs[next - 1];
    var skipped := longs[from..next - 1];
    assert longs[..next] == longs[..from] + skipped + [v];
    NonNegativesAppend(longs[..from] + skipped, [v]);
    NonNegativesAppend(longs[..from], skipped);
    NonNegativesOfNegatives(skipped);
    assert NonNegatives([v]) == NonNegatives([v][..0]) + [v];
  }

  /**
   * `randomLong`: draws from the stream starting at `from` until a draw is
   * non-negative. Negative draws are skipped, never reported. Returns the
   * value and the position after it.
   */
  method RandomLong(longs: seq<Long>, from: nat) returns (v: Long, next: nat)
    requires exists j :: from <= j < |longs| && longs[j] >= 0
    ensures from < next <= |longs|
    ensures v == longs[next - 1] && v >= 0
    ensures forall j :: from <= j < next - 1 ==> longs[j] < 0
    ensures NonNegatives(longs[..next]) == NonNegatives(longs[..from]) + [v]
  {
    next := from;
    v := longs[next];
    next := next + 1;
    while v < 0
      invariant from < next <= |longs|
      invariant v == longs[next - 1]
      invariant forall j :: from <= j < next - 1 ==> longs[j] < 0
      invariant v < 0 ==> exists j :: next <= j < |longs| && longs[j] >= 0
      decreases |longs| - next
    {
      v := longs[next];
      next := next + 1;
    }
    SkipNegatives(longs, from, next);
  }

  /** With `c` of the values used up at `pos` and more to come, a non-negative draw lies ahead. */
  lemma DrawAhead(longs: seq<Long>, pos: nat, c: nat)
    requires pos <= |longs| && c < |NonNegatives(longs)|
    requires NonNegatives(longs[..pos]) == NonNegatives(longs)[..c]
    ensures exists j :: pos <= j < |longs| && longs[j] >= 0
  {
    NextValueExists(longs, pos);
  }

  /** The value `randomLong` returns after `c` values have been used is value number `c`. */
  lemma DrawnInOrder(longs: seq<Long>, pos: nat, next: nat, c: nat, v: Long)
    requires pos <= next <= |longs| && c < |NonNegatives(longs)|
    requires NonNegatives(longs[..pos]) == NonNegatives(longs)[..c]
    requires NonNegatives(longs[..next]) == NonNegatives(longs[..pos]) + [v]
    ensures v == NonNegatives(longs)[c]
    ensures NonNegatives(longs[..next]) == NonNegatives(longs)[..c + 1]
  {
    NonNegativesPrefix(longs, next);
  }

  // ---------------------------------------------------------------------------
  // The two shapes of a reference array.
  // ---------------------------------------------------------------------------

  ghost predicate AllValues(vals: seq<Long>)
  {
    forall k :: 0 <= k < |vals| ==> vals[k] >= 0
  }

  /** The number of `true` decisions in `s`. */
  ghost function CountTrue(s: seq<bool>): (r: nat)
    ensures r <= |s|
    decreases |s|
  {
    if s == [] then 0 else CountTrue(s[..|s| - 1]) + (if s[|s| - 1] then 1 else 0)
  }

  lemma {:induction false} CountTruePrefix(s: seq<bool>, i: nat)
    requires i <= |s|
    ensures CountTrue(s[..i]) <= CountTrue(s)
    decreases |s|
  {
    if i < |s| {
      assert s[..|s| - 1][..i] == s[..i];
      CountTruePrefix(s[..|s| - 1], i);
    } else {
      assert s[..i] == s;
    }
  }

  /**
   * The uniform shape: index `i` holds the sentinel when `keep[i]` is false,
   * and otherwise the next value drawn from `vals`.
   */
  ghost function UniformArray(keep: seq<bool>, vals: seq<Long>): (r: seq<Long>)
    requires CountTrue(keep) <= |vals| && AllValues(vals)
    ensures |r| == |keep|
    ensures forall i :: 0 <= i < |keep| ==> IsSentinelOrValue(r[i]) && (r[i] == Sentinel <==> !keep[i])
    decreases |keep|
  {
    if keep == [] then []
    else
      var n := |keep| - 1;
      UniformArray(keep[..n], vals) + [if keep[n] then vals[CountTrue(keep[..n])] else Sentinel]
  }

  /** Dropping the sentinels from a uniform array gives back the drawn values, in order. */
  lemma {:induction false} UniformValues(keep: seq<bool>, vals: seq<Long>)
    requires CountTrue(keep) <= |vals| && AllValues(vals)
    ensures NonNegatives(UniformArray(keep, vals)) == vals[..CountTrue(keep)]
    decreases |keep|
  {
    if keep != [] {
      var n := |keep| - 1;
      var prefix := UniformArray(keep[..n], vals);
      var c := CountTrue(keep[..n]);
      var x := if keep[n] then vals[c] else Sentinel;
      UniformValues(keep[..n], vals);
      assert UniformArray(keep, vals) == prefix + [x];
      NonNegativesAppend(prefix, [x]);
      assert [x][..0] == [];
      if keep[n] {
        assert CountTrue(keep) == c + 1;
        assert vals[..c + 1] == vals[..c] + [vals[c]];
      } else {
        assert CountTrue(keep) == c;
      }
    }
  }

  /** `n` sentinels, as `Arrays.fill(array, -1L)` leaves them. */
  ghost function Fill(n: nat): seq<Long>
  {
    seq(n, _ => Sentinel)
  }

  lemma FillHasNoValues(n: nat)
    ensures NonNegatives(Fill(n)) == []
  {
    NonNegativesOfNegatives(Fill(n));
  }

  /** The packed shape: sentinels, then `blockSize` drawn values from `start` on, then sentinels. */
  ghost function PackedArray(size: nat, start: nat, blockSize: nat, vals: seq<Long>): seq<Long>
    requires start + blockSize <= size && blockSize <= |vals|
  {
    Fill(start) + vals[..blockSize] + Fill(size - start - blockSize)
  }

  /** Entry `i` of a packed array is the `(i - start)`-th drawn value inside the block and the sentinel outside. */
  lemma PackedAt(size: nat, start: nat, blockSize: nat, vals: seq<Long>)
    requires start + blockSize <= size && blockSize <= |vals|
    ensures |PackedArray(size, start, blockSize, vals)| == size
    ensures forall i :: 0 <= i < size ==>
      PackedArray(size, start, blockSize, vals)[i] ==
        if start <= i < start + blockSize then vals[i - start] else Sentinel
  {
    var before, block, after := Fill(start), vals[..blockSize], Fill(size - start - blockSize);
    var p := before + block + after;
    assert PackedArray(size, start, blockSize, vals) == p;
    forall i | 0 <= i < size
      ensures p[i] == if start <= i < start + blockSize then vals[i - start] else Sentinel
    {
      if i < start {
        assert p[i] == before[i];
      } else if i < start + blockSize {
        assert p[i] == block[i - start];
      } else {
        assert p[i] == after[i - start - blockSize];
      }
    }
  }

  /** Writing value `i` at `start + i` grows the block by one. */
  lemma PackedGrow(size: nat, start: nat, i: nat, vals: seq<Long>)
    requires start + i < size && i < |vals|
    ensures PackedArray(size, start, i + 1, vals) == PackedArray(size, start, i, vals)[start + i := vals[i]]
  {
    PackedAt(size, start, i, vals);
    PackedAt(size, start, i + 1, vals);
  }

  /** Dropping the sentinels from a packed array gives the first `blockSize` drawn values, in order. */
  lemma PackedValues(size: nat, start: nat, blockSize: nat, vals: seq<Long>)
    requires start + blockSize <= size && blockSize <= |vals| && AllValues(vals)
    ensures NonNegatives(PackedArray(size, start, blockSize, vals)) == vals[..blockSize]
  {
    var before, block, after := Fill(start), vals[..blockSize], Fill(size - start - blockSize);
    assert PackedArray(size, start, blockSize, vals) == (before + block) + after;
    FillHasNoValues(start);
    FillHasNoValues(size - start - blockSize);
    PrefixOfValues(vals, blockSize);
    NonNegativesAppend(before, block);
    assert NonNegatives(before + block) == block;
    NonNegativesAppend(before + block, after);
  }

  lemma PrefixOfValues(vals: seq<Long>, n: nat)
    requires n <= |vals| && AllValues(vals)
    ensures NonNegatives(vals[..n]) == vals[..n]
  {
    NonNegativesOfValues(vals[..n]);
  }

  /**
   * The packed array is one run: exactly the indices of `[start, start + blockSize)`
   * hold values, every other index holds the sentinel, and when the block starts
   * before `size - blockSize` the last index is the sentinel.
   */
  lemma PackedIsOneRun(size: nat, start: nat, blockSize: nat, vals: seq<Long>)
    requires start + blockSize <= size && blockSize <= |vals| && AllValues(vals)
    ensures |PackedArray(size, start, blockSize, vals)| == size
    ensures forall i :: 0 <= i < size ==>
      IsSentinelOrValue(PackedArray(size, start, blockSize, vals)[i]) &&
      (PackedArray(size, start, blockSize, vals)[i] != Sentinel <==> start <= i < start + blockSize)
    ensures start + blockSize < size ==> PackedArray(size, start, blockSize, vals)[size - 1] == Sentinel
  {
    PackedAt(size, start, blockSize, vals);
  }

  /**
   * When the draws suffice for `createPrimitive` on these arguments: the
   * oracle's `start` lies in `[0, size - blockSize)` as `nextInt` promises,
   * there is one decision per index, and the stream holds enough
   * non-negative draws. `blockSize` is `Math.round(size * (1.0 - sparseness))`,
   * which lies in `[0, size]` for a sparseness in `[0, 1]`.
   */
  ghost predicate DrawsSuffice(size: int, blockSize: int, distribution: Distribution, draws: Draws)
  {
    size >= 0 ==>
      match distribution
      case Packed =>
        0 <= blockSize <= size &&
        (blockSize < size ==> 0 <= draws.start < size - blockSize && blockSize <= |NonNegatives(draws.longs)|)
      case Uniform =>
        size <= |draws.keep| && CountTrue(draws.keep[..size]) <= |NonNegatives(draws.longs)|
  }

  /** The reference array `createPrimitive` builds from these draws. */
  ghost function Generated(size: nat, blockSize: int, distribution: Distribution, draws: Draws): seq<Long>
    requires DrawsSuffice(size, blockSize, distribution, draws)
    requires distribution == Packed ==> blockSize < size
  {
    match distribution
    case Packed => PackedArray(size, draws.start, blockSize, NonNegatives(draws.longs))
    case Uniform => UniformArray(draws.keep[..size], NonNegatives(draws.longs))
  }

  /**
   * Either distribution yields an array of length `size` holding only the
   * sentinel and non-negative values; a packed array always ends in the
   * sentinel, since its block starts strictly before `size - blockSize`.
   */
  lemma GeneratedShape(size: nat, blockSize: int, distribution: Distribution, draws: Draws)
    requires DrawsSuffice(size, blockSize, distribution, draws)
    requires distribution == Packed ==> blockSize < size
    ensures |Generated(size, blockSize, distribution, draws)| == size
    ensures forall i :: 0 <= i < size ==> IsSentinelOrValue(Generated(size, blockSize, distribution, draws)[i])
    ensures distribution == Packed ==> Generated(size, blockSize, distribution, draws)[size - 1] == Sentinel
  {
    if distribution == Packed {
      PackedIsOneRun(size, draws.start, blockSize, NonNegatives(draws.longs));
    }
  }

  /**
   * The packed branch of `createPrimitive` after `nextInt`: fill `arr` with the
   * sentinel, then write `blockSize` values from `randomLong` from `startIndex` on.
   */
  method FillPacked(arr: array<Long>, startIndex: nat, blockSize: nat, longs: seq<Long>)
    requires startIndex + blockSize <= arr.Length && blockSize <= |NonNegatives(longs)|
    modifies arr
    ensures arr[..] == PackedArray(arr.Length, startIndex, blockSize, NonNegatives(longs))
  {
    ghost var vals := NonNegatives(longs);
    forall i | 0 <= i < arr.Length {
      arr[i] := Sentinel;
    }
    PackedAt(arr.Length, startIndex, 0, vals);
    assert arr[..] == PackedArray(arr.Length, startIndex, 0, vals);
    var pos := 0;
    var i := 0;
    while i < blockSize
      invariant 0 <= i <= blockSize
      invariant pos <= |longs|
      invariant NonNegatives(longs[..pos]) == vals[..i]
      invariant arr[..] == PackedArray(arr.Length, startIndex, i, vals)
    {
      DrawAhead(longs, pos, i);
      var v, next := RandomLong(longs, pos);
      DrawnInOrder(longs, pos, next, i, v);
      pos := next;
      PackedGrow(arr.Length, startIndex, i, vals);
      arr[i + startIndex] := v;
      i := i + 1;
    }
  }

  /** One more index of a uniform array: the decision at `i` adds the sentinel or the next value. */
  lemma UniformStep(keep: seq<bool>, vals: seq<Long>, i: nat)
    requires i < |keep| && CountTrue(keep) <= |vals| && AllValues(vals)
    ensures CountTrue(keep[..i + 1]) == CountTrue(keep[..i]) + (if keep[i] then 1 else 0)
    ensures CountTrue(keep[..i + 1]) <= CountTrue(keep)
    ensures UniformArray(keep[..i + 1], vals) ==
      UniformArray(keep[..i], vals) + [if keep[i] then vals[CountTrue(keep[..i])] else Sentinel]
  {
    assert keep[..i + 1][..i] == keep[..i];
    CountTruePrefix(keep, i + 1);
  }

  /**
   * The uniform branch of `createPrimitive`: index `i` gets a value from
   * `randomLong` when `keep[i]` holds and the sentinel otherwise.
   */
  method FillUniform(arr: array<Long>, keep: seq<bool>, longs: seq<Long>)
    requires arr.Length <= |keep| && CountTrue(keep[..arr.Length]) <= |NonNegatives(longs)|
    modifies arr
    ensures arr[..] == UniformArray(keep[..arr.Length], NonNegatives(longs))
  {
    ghost var vals := NonNegatives(longs);
    ghost var decisions := keep[..arr.Length];
    var pos := 0;
    var i := 0;
    while i < arr.Length
      invariant 0 <= i <= arr.Length
      invariant pos <= |longs|
      invariant CountTrue(decisions[..i]) <= CountTrue(decisions)
      invariant NonNegatives(longs[..pos]) == vals[..CountTrue(decisions[..i])]
      invariant arr[..i] == UniformArray(decisions[..i], vals)
    {
      UniformStep(decisions, vals, i);
      ghost var c := CountTrue(decisions[..i]);
      if keep[i] {
        DrawAhead(longs, pos, c);
        var v, next := RandomLong(longs, pos);
        DrawnInOrder(longs, pos, next, c, v);
        pos := next;
        arr[i] := v;
      } else {
        arr[i] := Sentinel;
      }
      assert arr[..i + 1] == arr[..i] + [arr[i]];
      i := i + 1;
    }
    assert arr[..] == arr[..i];
    assert decisions[..i] == decisions;
  }

  /**
   * `createPrimitive`: builds the reference array of length `size` in the
   * given distribution, or fails as the Java code throws.
   */
  method CreatePrimitive(size: Int, blockSize: Int, distribution: Distribution, draws: Draws)
    returns (r: Result<array<Long>, Error>)
    requires DrawsSuffice(size, blockSize, distribution, draws)
    ensures r == Failure(NegativeArraySize) <==> size < 0
    ensures r == Failure(IllegalBound) <==> 0 <= size && distribution == Packed && blockSize == size
    ensures r.Success? ==> fresh(r.value) && r.value[..] == Generated(size, blockSize, distribution, draws)
  {
    if size < 0 {
      return Failure(NegativeArraySize);
    }
    var arr := new Long[size];
    if distribution == Packed {
      var maxIndex := size - blockSize;
      if maxIndex <= 0 {
        return Failure(IllegalBound);
      }
      var startIndex := draws.start;
      FillPacked(arr, startIndex, blockSize, draws.longs);
    } else {
      FillUniform(arr, draws.keep, draws.longs);
    }
    return Success(arr);
  }

  // ---------------------------------------------------------------------------
  // Replaying a reference array into a store.
  // ---------------------------------------------------------------------------

  /** One `set(index, value)` call. */
  datatype Write = Write(index: nat, value: Long)

  /** The `set` calls the replay loops issue for `values`: one per non-sentinel entry, in index order. */
  ghost function Writes(values: seq<Long>): seq<Write>
    decreases |values|
  {
    if values == [] then []
    else
      var n := |values| - 1;
      Writes(values[..n]) + (if values[n] >= 0 then [Write(n, values[n])] else [])
  }

  /** The entries a store holds after the calls `writes`, starting from the entries `m`. */
  ghost function Apply(m: map<nat, Long>, writes: seq<Write>): map<nat, Long>
    decreases |writes|
  {
    if writes == [] then m
    else
      var w := writes[|writes| - 1];
      Apply(m, writes[..|writes| - 1])[w.index := w.value]
  }

  /** The non-sentinel entries of `values`, by index. */
  ghost function Replayed(values: seq<Long>): map<nat, Long>
  {
    map i: nat | i < |values| && values[i] >= 0 :: values[i]
  }

  /** What `get(i)` reads from the entries `m` over the default `initial`. */
  function Lookup(m: map<nat, Long>, initial: Long, i: nat): Long
  {
    if i in m then m[i] else initial
  }

  /** The replay issues `set(i, v)` exactly when `values[i]` is not negative and `v == values[i]`. */
  lemma {:induction false} WritesExactly(values: seq<Long>)
    ensures forall w :: w in Writes(values) <==>
      w.index < |values| && values[w.index] >= 0 && w.value == values[w.index]
    decreases |values|
  {
    if values != [] {
      var n := |values| - 1;
      WritesExactly(values[..n]);
    }
  }

  /** The `set` calls come in strictly ascending index order, so each index is written at most once. */
  lemma {:induction false} WritesAscending(values: seq<Long>)
    ensures forall j, k :: 0 <= j < k < |Writes(values)| ==> Writes(values)[j].index < Writes(values)[k].index
    decreases |values|
  {
    if values != [] {
      var n := |values| - 1;
      WritesAscending(values[..n]);
      WritesExactly(values[..n]);
      var prefix := Writes(values[..n]);
      forall k | 0 <= k < |prefix|
        ensures prefix[k].index < n
      {
        assert prefix[k] in prefix;
      }
    }
  }

  /** The values written are the non-sentinel entries, in order: nothing else reaches the store. */
  lemma {:induction false} WritesValues(values: seq<Long>)
    ensures |Writes(values)| == |NonNegatives(values)|
    ensures forall k :: 0 <= k < |Writes(values)| ==> Writes(values)[k].value == NonNegatives(values)[k]
    decreases |values|
  {
    if values != [] {
      WritesValues(values[..|values| - 1]);
    }
  }

  lemma ReplayedStep(values: seq<Long>, n: nat)
    requires n < |values|
    ensures Replayed(values[..n + 1]) ==
      if values[n] >= 0 then Replayed(values[..n])[n := values[n]] else Replayed(values[..n])
  {
    var longer, shorter := values[..n + 1], values[..n];
    assert forall i :: 0 <= i < n ==> longer[i] == shorter[i];
  }

  /** Applying the logged `set` calls to entries `m` gives `m` overlaid with the non-sentinel entries. */
  lemma {:induction false} ApplyWrites(m: map<nat, Long>, values: seq<Long>)
    ensures Apply(m, Writes(values)) == m + Replayed(values)
    decreases |values|
  {
    if values == [] {
      assert Replayed(values) == map[];
    } else {
      var n := |values| - 1;
      var prefix := Writes(values[..n]);
      ApplyWrites(m, values[..n]);
      ReplayStep(values, n);
      assert values[..n + 1] == values;
      if values[n] >= 0 {
        var w := Write(n, values[n]);
        assert Writes(values) == prefix + [w];
        assert (prefix + [w])[..|prefix|] == prefix;
        OverlayUpdate(m, Replayed(values[..n]), n, values[n]);
      } else {
        assert Writes(values) == prefix;
      }
    }
  }

  /**
   * Replaying a reference array onto a store that starts at the sentinel
   * everywhere gives back the reference array at every index.
   */
  lemma ReplayRoundTrip(values: seq<Long>)
    ensures forall i :: 0 <= i < |values| && IsSentinelOrValue(values[i]) ==>
      Lookup(Apply(map[], Writes(values)), Sentinel, i) == values[i]
  {
    ApplyWrites(map[], values);
    assert map[] + Replayed(values) == Replayed(values);
  }

  /**
   * The abstract store behind `LongArray`, `SparseLongArray`,
   * `OffHeapLongArray` and `DynamicLongArray`: `length` indices over a
   * default value `initial`, with the `set` calls made so far in `history`.
   */
  class LongStore {
    const length: nat
    const initial: Long
    var entries: map<nat, Long>
    ghost var history: seq<Write>

    /** Every entry is in range, and the entries are those the logged `set` calls leave. */
    ghost predicate Valid()
      reads this
    {
      (forall i :: i in entries ==> i < length) && entries == Apply(map[], history)
    }

    constructor (length: nat, initial: Long)
      ensures Valid()
      ensures this.length == length && this.initial == initial
      ensures entries == map[] && history == []
    {
      this.length := length;
      this.initial := initial;
      entries := map[];
      history := [];
    }

    /** `get(i)`: the value last set at `i`, or the default. */
    function Get(i: nat): Long
      reads this
      requires i < length
    {
      Lookup(entries, initial, i)
    }

    /** `set(i, v)`: afterwards `get(i)` is `v` and every other index reads as before. */
    method Set(i: nat, v: Long)
      requires Valid() && i < length
      modifies this
      ensures Valid()
      ensures entries == old(entries)[i := v]
      ensures history == old(history) + [Write(i, v)]
      ensures Get(i) == v
      ensures forall j: nat :: j < length && j != i ==> Get(j) == old(Get(j))
    {
      entries := entries[i := v];
      history := history + [Write(i, v)];
      assert history[..|history| - 1] == old(history);
    }
  }

  /** One more index of the replay: a non-sentinel entry adds one `set` call and one entry. */
  lemma ReplayStep(values: seq<Long>, i: nat)
    requires i < |values|
    ensures Writes(values[..i + 1]) ==
      Writes(values[..i]) + (if values[i] >= 0 then [Write(i, values[i])] else [])
    ensures Replayed(values[..i + 1]) ==
      if values[i] >= 0 then Replayed(values[..i])[i := values[i]] else Replayed(values[..i])
  {
    assert values[..i + 1][..i] == values[..i];
    ReplayedStep(values, i);
  }

  lemma OverlayUpdate(m: map<nat, Long>, r: map<nat, Long>, i: nat, v: Long)
    ensures (m + r)[i := v] == m + r[i := v]
  {
  }

  /** The loop shared by the four `create*` functions: `set(i, values[i])` for every `values[i] >= 0`, ascending. */
  method Replay(values: array<Long>, store: LongStore)
    requires store.Valid() && values.Length <= store.length
    modifies store
    ensures store.Valid()
    ensures store.history == old(store.history) + Writes(values[..])
    ensures store.entries == old(store.entries) + Replayed(values[..])
  {
    ghost var reference := values[..];
    var i := 0;
    while i < values.Length
      invariant 0 <= i <= values.Length
      invariant store.Valid()
      invariant store.history == old(store.history) + Writes(reference[..i])
      invariant store.entries == old(store.entries) + Replayed(reference[..i])
    {
      var value := values[i];
      ReplayStep(reference, i);
      if value >= 0 {
        OverlayUpdate(old(store.entries), Replayed(reference[..i]), i, value);
        store.Set(i, value);
      }
      i := i + 1;
    }
    assert reference[..i] == reference;
  }

  /** `createPaged`: a `LongArray` whose default `initial` is not part of this model. */
  method CreatePaged(values: array<Long>, initial: Long) returns (store: LongStore)
    ensures fresh(store) && store.Valid()
    ensures store.length == values.Length && store.initial == initial
    ensures store.history == Writes(values[..])
    ensures forall i :: 0 <= i < values.Length ==> store.Get(i) == if values[i] >= 0 then values[i] else initial
  {
    store := new LongStore(values.Length, initial);
    Replay(values, store);
  }

  /** `createSparse`: a `SparseLongArray` whose default `initial` is not part of this model. */
  method CreateSparse(values: array<Long>, initial: Long) returns (store: LongStore)
    ensures fresh(store) && store.Valid()
    ensures store.length == values.Length && store.initial == initial
    ensures store.history == Writes(values[..])
    ensures forall i :: 0 <= i < values.Length ==> store.Get(i) == if values[i] >= 0 then values[i] else initial
  {
    store := new LongStore(values.Length, initial);
    Replay(values, store);
  }

  /** `createOffHeap`: an `OffHeapLongArray` with default `-1L`, which reads back the reference array. */
  method CreateOffHeap(values: array<Long>) returns (store: LongStore)
    ensures fresh(store) && store.Valid()
    ensures store.length == values.Length && store.initial == Sentinel
    ensures store.history == Writes(values[..])
    ensures (forall k :: 0 <= k < values.Length ==> IsSentinelOrValue(values[k])) ==>
      forall i :: 0 <= i < values.Length ==> store.Get(i) == values[i]
  {
    store := new LongStore(values.Length, Sentinel);
    Replay(values, store);
    ReplayRoundTrip(values[..]);
  }

  /** `createChunked`: a `DynamicLongArray` with default `-1L`, which reads back the reference array. */
  method CreateChunked(values: array<Long>) returns (store: LongStore)
    ensures fresh(store) && store.Valid()
    ensures store.length == values.Length && store.initial == Sentinel
    ensures store.history == Writes(values[..])
    ensures (forall k :: 0 <= k < values.Length ==> IsSentinelOrValue(values[k])) ==>
      forall i :: 0 <= i < values.Length ==> store.Get(i) == values[i]
  {
    store := new LongStore(values.Length, Sentinel);
    Replay(values, store);
    ReplayRoundTrip(values[..]);
  }
}
