/**
 * The Bloom filter: a fixed-size bit table and a list of string hash
 * strategies. Adding a string sets, for every strategy, the bit at its hash
 * modulo the table size; a lookup answers yes exactly when all those bits are
 * set. Bits are never cleared, so a string once added is always found (no
 * false negatives); strings never added may be found too (false positives).
 *
 * The first half is the specification on values: the positions a string
 * selects, the table after a sequence of adds, the answer of a lookup and the
 * number of set bits. The class `BloomFilter` is the C# class `BloomFilter`,
 * its `BitArray` an array of bits updated in place, proved against it.
 */
module Bloom {
  import opened StringHashes

  /**
   * What an operation of the filter produces: its value, or the
   * `DivideByZeroException` that reducing a hash modulo a table of size zero
   * throws.
   */
  datatype Outcome<T> = Ok(value: T) | DivideByZero

  /** The quotient `Occupancy` returns: NaN for `0 / 0`, otherwise a number. */
  datatype Ratio = NaN | Value(value: real)

  /**
   * The table index the hash function `hash` selects for `s`: its hash modulo
   * the table size. The unsigned hash and the signed size are both widened to
   * 64 bits before the remainder, so it is never negative.
   */
  function Position(hash: HashFunction, s: string, size: nat): (p: nat)
    requires size > 0
    ensures p < size
  {
    (hash(s) as int) % size
  }

  /** The indices the hash functions select for `s`, one per function, in order. */
  function Positions(hashes: seq<HashFunction>, s: string, size: nat): (ps: seq<nat>)
    requires size > 0 || hashes == []
    ensures |ps| == |hashes|
    ensures forall j :: 0 <= j < |ps| ==> ps[j] < size
  {
    seq(|hashes|, j requires 0 <= j < |hashes| => Position(hashes[j], s, size))
  }

  /** A table of `size` clear bits. */
  function Empty(size: nat): (bits: seq<bool>)
    ensures |bits| == size
    ensures forall i :: 0 <= i < size ==> !bits[i]
  {
    seq(size, _ => false)
  }

  /** `bits` with the bits at `ps` set. */
  function Insert(bits: seq<bool>, ps: seq<nat>): (r: seq<bool>)
    ensures |r| == |bits|
    ensures forall j :: 0 <= j < |ps| && ps[j] < |bits| ==> r[ps[j]]
    ensures forall i :: 0 <= i < |bits| && bits[i] ==> r[i]
    ensures forall i :: 0 <= i < |bits| && i !in ps ==> r[i] == bits[i]
  {
    seq(|bits|, i requires 0 <= i < |bits| => bits[i] || i in ps)
  }

  /** Every position in `ps` is a set bit of `bits`. */
  predicate AllSet(bits: seq<bool>, ps: seq<nat>) {
    forall j :: 0 <= j < |ps| ==> ps[j] < |bits| && bits[ps[j]]
  }

  /** The table of a filter of `size` bits after adding the strings of `added`, in order. */
  function Filled(hashes: seq<HashFunction>, size: nat, added: seq<string>): (bits: seq<bool>)
    requires size > 0 || hashes == []
    ensures |bits| == size
  {
    if added == [] then Empty(size)
    else Insert(Filled(hashes, size, added[..|added| - 1]), Positions(hashes, added[|added| - 1], size))
  }

  /**
   * The answer a lookup of `s` gives on the table `bits`: a division by zero
   * exactly when there is a strategy and no bit, otherwise yes exactly when
   * the bit every strategy selects is set.
   */
  function Query(hashes: seq<HashFunction>, bits: seq<bool>, s: string): (r: Outcome<bool>)
    ensures r.DivideByZero? <==> |bits| == 0 && hashes != []
    ensures r.Ok? ==> (r.value <==> forall j :: 0 <= j < |hashes| ==> bits[Position(hashes[j], s, |bits|)])
  {
    if |bits| == 0 && hashes != [] then DivideByZero
    else
      var ps := Positions(hashes, s, |bits|);
      assert forall j :: 0 <= j < |ps| ==> ps[j] == Position(hashes[j], s, |bits|);
      Ok(AllSet(bits, ps))
  }

  /** The number of set bits. */
  function CountSet(bits: seq<bool>): (n: nat)
    ensures n <= |bits|
  {
    if bits == [] then 0
    else CountSet(bits[..|bits| - 1]) + (if bits[|bits| - 1] then 1 else 0)
  }

  /** Setting bits loses none: whatever was set stays set. */
  lemma InsertKeepsAllSet(bits: seq<bool>, ps: seq<nat>, qs: seq<nat>)
    requires AllSet(bits, qs)
    ensures AllSet(Insert(bits, ps), qs)
  {
  }

  /**
   * No false negatives: every string that was added is found, however many
   * strings were added after it.
   */
  lemma {:induction false} AddedIsFound(hashes: seq<HashFunction>, size: nat, added: seq<string>, s: string)
    requires size > 0 || hashes == []
    requires s in added
    ensures AllSet(Filled(hashes, size, added), Positions(hashes, s, size))
  {
    var last := added[|added| - 1];
    var before := added[..|added| - 1];
    if s == last {
      assert AllSet(Filled(hashes, size, added), Positions(hashes, s, size));
    } else {
      assert s in before by {
        var k :| 0 <= k < |added| && added[k] == s;
        assert k < |added| - 1 && before[k] == s;
      }
      AddedIsFound(hashes, size, before, s);
      InsertKeepsAllSet(Filled(hashes, size, before), Positions(hashes, last, size), Positions(hashes, s, size));
    }
  }

  /** Nothing added, nothing found: on a fresh table every lookup fails, unless there are no strategies. */
  lemma EmptyFindsNothing(hashes: seq<HashFunction>, size: nat, s: string)
    requires size > 0
    ensures Query(hashes, Filled(hashes, size, []), s) == Ok(hashes == [])
  {
    if hashes != [] {
      assert !Filled(hashes, size, [])[Positions(hashes, s, size)[0]];
    }
  }

  /** With no strategies every lookup succeeds: the filter then finds every string. */
  lemma NoStrategiesFindsEverything(bits: seq<bool>, s: string)
    ensures Query([], bits, s) == Ok(true)
  {
  }

  /** Setting the bits at one more position of `ps` is setting that one bit. */
  lemma InsertOneMore(bits: seq<bool>, ps: seq<nat>, j: nat)
    requires j < |ps| && ps[j] < |bits|
    ensures Insert(bits, ps[..j + 1]) == Insert(bits, ps[..j])[ps[j] := true]
  {
    assert ps[..j + 1] == ps[..j] + [ps[j]];
  }

  /** Setting bits that are already set changes nothing. */
  lemma InsertAllSet(bits: seq<bool>, ps: seq<nat>)
    requires AllSet(bits, ps)
    ensures Insert(bits, ps) == bits
  {
    var r := Insert(bits, ps);
    forall i | 0 <= i < |bits| ensures r[i] == bits[i] {
      if i in ps {
        var j :| 0 <= j < |ps| && ps[j] == i;
      }
    }
  }

  /** Adding a string that is already in the filter leaves the table as it was. */
  lemma AddAgainChangesNothing(hashes: seq<HashFunction>, size: nat, added: seq<string>, s: string)
    requires size > 0 || hashes == []
    requires s in added
    ensures Filled(hashes, size, added + [s]) == Filled(hashes, size, added)
  {
    AddedIsFound(hashes, size, added, s);
    assert (added + [s])[..|added|] == added;
    InsertAllSet(Filled(hashes, size, added), Positions(hashes, s, size));
  }

  /** The order of two adds does not matter. */
  lemma AddsCommute(hashes: seq<HashFunction>, size: nat, added: seq<string>, a: string, b: string)
    requires size > 0 || hashes == []
    ensures Filled(hashes, size, added + [a, b]) == Filled(hashes, size, added + [b, a])
  {
    assert (added + [a, b])[..|added| + 1] == added + [a];
    assert (added + [b, a])[..|added| + 1] == added + [b];
    assert (added + [a])[..|added|] == added;
    assert (added + [b])[..|added|] == added;
    var base := Filled(hashes, size, added);
    var pa, pb := Positions(hashes, a, size), Positions(hashes, b, size);
    var x, y := Insert(Insert(base, pa), pb), Insert(Insert(base, pb), pa);
    forall i | 0 <= i < size ensures x[i] == y[i] {
    }
  }

  /** Setting one bit raises the count by one exactly when that bit was clear. */
  lemma {:induction false} CountSetUpdate(bits: seq<bool>, p: nat)
    requires p < |bits|
    ensures CountSet(bits[p := true]) == CountSet(bits) + (if bits[p] then 0 else 1)
  {
    var n := |bits| - 1;
    var b := bits[p := true];
    assert b[..n] == if p < n then bits[..n][p := true] else bits[..n];
    if p < n {
      CountSetUpdate(bits[..n], p);
    }
  }

  /** Setting the bits at `ps` raises the count by at most `|ps|` and never lowers it. */
  lemma {:induction false} InsertCount(bits: seq<bool>, ps: seq<nat>)
    ensures CountSet(bits) <= CountSet(Insert(bits, ps)) <= CountSet(bits) + |ps|
  {
    if ps == [] {
      assert Insert(bits, ps) == bits;
    } else {
      var m := |ps| - 1;
      var before := Insert(bits, ps[..m]);
      InsertCount(bits, ps[..m]);
      var p := ps[m];
      assert ps == ps[..m] + [p];
      if p < |bits| {
        assert Insert(bits, ps) == before[p := true];
        CountSetUpdate(before, p);
      } else {
        assert Insert(bits, ps) == before;
      }
    }
  }

  /** Occupancy bound: `n` adds with `k` strategies set at most `n * k` bits, and never clear one. */
  lemma {:induction false} FilledCount(hashes: seq<HashFunction>, size: nat, added: seq<string>)
    requires size > 0 || hashes == []
    ensures CountSet(Filled(hashes, size, added)) <= |added| * |hashes|
  {
    if added == [] {
      assert CountSet(Empty(size)) == 0 by {
        EmptyCount(size);
      }
    } else {
      var before := added[..|added| - 1];
      FilledCount(hashes, size, before);
      InsertCount(Filled(hashes, size, before), Positions(hashes, added[|added| - 1], size));
      assert |before| * |hashes| + |hashes| == |added| * |hashes| by {
        assert |added| == |before| + 1;
      }
    }
  }

  /** A clear table has no set bits. */
  lemma {:induction false} EmptyCount(size: nat)
    ensures CountSet(Empty(size)) == 0
  {
    if size > 0 {
      assert Empty(size)[..size - 1] == Empty(size - 1);
      EmptyCount(size - 1);
    }
  }

  /** Over the same positive denominator, a smaller numerator gives a smaller fraction; none is negative. */
  lemma FractionMonotone(a: nat, b: nat, d: nat)
    requires a <= b && d > 0
    ensures 0.0 <= a as real / d as real <= b as real / d as real
    ensures a <= d ==> a as real / d as real <= 1.0
  {
    var x, y, z := a as real, b as real, d as real;
    assert x / z * z == x && y / z * z == y;
  }

  /** The C# class `BloomFilter`: the strategies `hashes` and the bit table `table`. */
  class BloomFilter {
    const hashes: seq<HashFunction>
    const table: array<bool>
    /** The strings added so far, in order. */
    ghost var added: seq<string>

    /** The table holds exactly the bits that adding `added` to a clear table sets. */
    ghost predicate Valid()
      reads this, table
    {
      (table.Length > 0 || hashes == []) ==> table[..] == Filled(hashes, table.Length, added)
    }

    /** A filter of `size` clear bits over the given strategies. */
    constructor (size: nat, hashes: seq<HashFunction>)
      ensures Valid() && fresh(table)
      ensures this.hashes == hashes && table.Length == size && added == []
      ensures table[..] == Empty(size)
    {
      this.hashes := hashes;
      table := new bool[size](_ => false);
      added := [];
    }

    /**
     * Sets the bit each strategy selects for `s`. On a table of size zero
     * with at least one strategy the first reduction divides by zero and
     * nothing changes.
     */
    method Add(s: string) returns (r: Outcome<()>)
      requires Valid()
      modifies this, table
      ensures Valid()
      ensures r.Ok? <==> table.Length > 0 || hashes == []
      ensures r.Ok? ==> added == old(added) + [s]
      ensures r.Ok? ==> table[..] == Insert(old(table[..]), Positions(hashes, s, table.Length))
      ensures r.DivideByZero? ==> added == old(added) && table[..] == old(table[..])
    {
      ghost var ps: seq<nat> := if table.Length > 0 then Positions(hashes, s, table.Length) else [];
      var j := 0;
      while j < |hashes|
        invariant 0 <= j <= |hashes|
        invariant table.Length == 0 ==> j == 0
        invariant table.Length > 0 ==> |ps| == |hashes|
        invariant table[..] == Insert(old(table[..]), ps[..j])
        invariant added == old(added)
      {
        if table.Length == 0 {
          return DivideByZero;
        }
        var h := hashes[j](s);
        var p := (h as int) % table.Length;
        assert p == ps[j];
        InsertOneMore(old(table[..]), ps, j);
        ghost var before := table[..];
        table[p] := true;
        assert table[..] == before[p := true];
        j := j + 1;
      }
      assert ps[..j] == ps;
      added := added + [s];
      assert added[..|added| - 1] == old(added);
      r := Ok(());
    }

    /**
     * Whether every bit the strategies select for `s` is set, stopping at the
     * first clear one. A string that was added is always found.
     */
    method Lookup(s: string) returns (r: Outcome<bool>)
      requires Valid()
      ensures r == Query(hashes, table[..], s)
      ensures r.Ok? && s in added ==> r.value
    {
      ghost var ps: seq<nat> := if table.Length > 0 then Positions(hashes, s, table.Length) else [];
      assert table.Length > 0 ==> |ps| == |hashes|;
      assert forall k :: 0 <= k < |ps| ==> ps[k] < table.Length;
      var j := 0;
      while j < |hashes|
        invariant 0 <= j <= |hashes|
        invariant table.Length == 0 ==> j == 0
        invariant forall k :: 0 <= k < j ==> table[ps[k]]
      {
        if table.Length == 0 {
          return DivideByZero;
        }
        var h := hashes[j](s);
        var p := (h as int) % table.Length;
        assert p == ps[j];
        if !table[p] {
          if s in added {
            AddedIsFound(hashes, table.Length, added, s);
          }
          return Ok(false);
        }
        j := j + 1;
      }
      r := Ok(true);
    }

    /** The fraction of set bits, at most the number of adds times the number of strategies over the size. */
    method Occupancy() returns (r: Ratio)
      requires Valid()
      ensures table.Length == 0 ==> r == NaN
      ensures table.Length > 0 ==> r == Value(CountSet(table[..]) as real / table.Length as real)
      ensures r.Value? ==> 0.0 <= r.value <= 1.0
      ensures r.Value? ==> r.value <= (|added| * |hashes|) as real / table.Length as real
    {
      var occupied := 0;
      var i := 0;
      while i < table.Length
        invariant 0 <= i <= table.Length
        invariant occupied == CountSet(table[..i])
      {
        assert table[..i + 1][..i] == table[..i];
        if table[i] {
          occupied := occupied + 1;
        }
        i := i + 1;
      }
      assert table[..i] == table[..];
      if table.Length == 0 {
        return NaN;
      }
      FilledCount(hashes, table.Length, added);
      FractionMonotone(occupied, table.Length, table.Length);
      FractionMonotone(occupied, |added| * |hashes|, table.Length);
      r := Value(occupied as real / table.Length as real);
    }
  }

  /**
   * The strategies `BloomTest.Main` builds its filter over: the runtime's
   * `String.GetHashCode`, then MurmurHash2, then SuperFastHash.
   */
  function TestStrategies(getHashCode: string -> int32): (hs: seq<HashFunction>)
    ensures |hs| == 3
  {
    [AsHashFunction(StandardHash(getHashCode)), AsHashFunction(MurmurHash2Simple), AsHashFunction(SuperFastHashSimple)]
  }

  /** The table size `BloomTest.Main` uses. */
  const TestSize: nat := 1000003

  /**
   * The filter part of `BloomTest.Main` on a word list given as a value: every
   * other word, starting with the first, is added to a filter of `TestSize`
   * bits over `TestStrategies`, then every added word is looked up. No lookup
   * fails, so the `"error!"` exit is never taken; the words left out are
   * counted as false positives when found.
   */
  method TestFilter(getHashCode: string -> int32, words: seq<string>)
    returns (error: bool, positives: seq<string>, falsePositives: nat)
    ensures !error
    ensures positives == seq((|words| + 1) / 2, i requires 0 <= i < (|words| + 1) / 2 => words[2 * i])
    ensures falsePositives <= |words| / 2
  {
    var bloom := new BloomFilter(TestSize, TestStrategies(getHashCode));
    var negatives: seq<string> := [];
    positives := [];
    var toggle := true;
    var n := 0;
    while n < |words|
      invariant 0 <= n <= |words|
      invariant toggle <==> n % 2 == 0
      invariant bloom.Valid() && bloom.table.Length == TestSize && bloom.added == positives
      invariant positives == seq((n + 1) / 2, i requires 0 <= i < (n + 1) / 2 => words[2 * i])
      invariant |negatives| == n / 2
    {
      if toggle {
        positives := positives + [words[n]];
        var _ := bloom.Add(words[n]);
      } else {
        negatives := negatives + [words[n]];
      }
      toggle := !toggle;
      n := n + 1;
    }
    for k := 0 to |positives|
      invariant bloom.Valid() && bloom.table.Length == TestSize && bloom.added == positives
    {
      var found := bloom.Lookup(positives[k]);
      if !found.value {
        error := true;
        return;
      }
    }
    error, falsePositives := false, 0;
    for k := 0 to |negatives|
      invariant bloom.Valid() && bloom.table.Length == TestSize
      invariant falsePositives <= k
    {
      var found := bloom.Lookup(negatives[k]);
      if found.value {
        falsePositives := falsePositives + 1;
      }
    }
  }
}
