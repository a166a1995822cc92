/** include/mgpcl/HashMap.h: a hash map that compares hashes only. */
module HashMap {
  import opened HashTable
  import opened Hasher

  const INT_MIN := -0x8000_0000

  class HashMap<K(!new), V(0, !new)> {
    const hash: K -> int
    // The value a default constructor gives.
    const empty: V
    var buckets: array<Bucket<K, V>>
    var count: nat
    var numElems: int
    // What the map holds, by hash.
    ghost var view: map<int, Pair<K, V>>

    ghost predicate Valid()
      reads this, buckets
    {
      && count == buckets.Length > 0
      && Represents(buckets[..], view)
      && numElems == |view|
      && forall h :: h in view ==> hash(view[h].key) == h
    }

    constructor (hash: K -> int, empty: V, bcount: nat := 32)
      requires bcount > 0
      ensures Valid() && view == map[] && fresh(buckets) && this.hash == hash && this.empty == empty
    {
      this.hash, this.empty := hash, empty;
      buckets := new Bucket<K, V>[bcount](_ => Null);
      count := bcount;
      numElems := 0;
      view := map[];
    }

    /** The loops over a bucket. */
    static method FindHash(pairs: seq<Pair<K, V>>, hc: int) returns (i: int)
      ensures i == Index(pairs, hc)
    {
      i := 0;
      while i < |pairs|
        invariant 0 <= i <= |pairs| && forall j :: 0 <= j < i ==> pairs[j].hash != hc
      {
        if pairs[i].hash == hc {
          IndexIs(pairs, i);
          return;
        }
        i := i + 1;
      }
      i := -1;
    }

    /** The reference the non-constant `get` returns: a missing key gets a new pair, its value not yet written. */
    method Get(key: K) returns (b: nat, i: nat)
      requires Valid() && hash(key) != INT_MIN
      modifies this, buckets
      ensures Valid() && buckets == old(buckets) && count == old(count)
      ensures hash(key) in view && b == Slot(hash(key), count) && i == Index(Pairs(buckets[b]), hash(key))
      ensures view == if hash(key) in old(view) then old(view)
              else old(view)[hash(key) := Pair(hash(key), key, view[hash(key)].value)]
    {
      hide Represents, Slot, Index;
      var hc := hash(key);
      b := Slot(hc, count);
      Found(buckets[..], view, hc);
      if !buckets[b].Null? {
        var at := FindHash(buckets[b].pairs, hc);
        if at >= 0 {
          return b, at;
        }
      }
      var value: V := *;
      i := AddTo(b, Pair(hc, key, value));
    }

    /** Adds a pair to its bucket, and makes the bucket if there is none. */
    method AddTo(b: nat, p: Pair<K, V>) returns (i: nat)
      requires Valid() && p.hash !in view && p.hash == hash(p.key) && b == Slot(p.hash, count)
      modifies this`numElems, this`view, buckets
      ensures Valid() && view == old(view)[p.hash := p] && i == Index(Pairs(buckets[b]), p.hash)
    {
      hide Represents, Slot, Index;
      ghost var before := buckets[..];
      Added(before, view, p);
      i := |Pairs(buckets[b])|;
      buckets[b] := List(Pairs(buckets[b]) + [p]);
      numElems := numElems + 1;
      view := view[p.hash := p];
      assert buckets[..] == before[b := List(Pairs(before[b]) + [p])];
      AtHome(buckets[..], view, b);
      IndexLast(Pairs(buckets[b]));
    }

    /** `map[key] = value` */
    method Put(key: K, value: V)
      requires Valid() && hash(key) != INT_MIN
      modifies this, buckets
      ensures Valid() && buckets == old(buckets) && count == old(count)
      ensures var kept := if hash(key) in old(view) then old(view)[hash(key)].key else key;
              view == old(view)[hash(key) := Pair(hash(key), kept, value)]
    {
      hide Represents, Slot, Index;
      Found(buckets[..], view, hash(key));
      var b, i := Get(key);
      Assign(hash(key), b, i, value);
    }

    /** Writing through the reference. */
    method Assign(hc: int, b: nat, i: nat, value: V)
      requires Valid() && hc in view && b == Slot(hc, count) && i == Index(Pairs(buckets[b]), hc)
      modifies this`view, buckets
      ensures Valid() && view == old(view)[hc := old(view)[hc].(value := value)]
    {
      hide Represents, Slot, Index;
      ghost var before := buckets[..];
      Found(before, view, hc);
      var p := buckets[b].pairs[i].(value := value);
      Updated(before, view, p);
      buckets[b] := List(buckets[b].pairs[i := p]);
      view := view[hc := p];
      assert buckets[..] == before[b := List(Pairs(before[b])[i := p])];
    }

    /** The constant `get`. */
    method GetConst(key: K) returns (value: V)
      requires Valid() && hash(key) != INT_MIN
      ensures value == if hash(key) in view then view[hash(key)].value else empty
    {
      hide Represents, Slot, Index;
      var hc := hash(key);
      var b := buckets[Slot(hc, count)];
      Found(buckets[..], view, hc);
      if b.Null? {
        return empty;
      }
      var i := FindHash(b.pairs, hc);
      value := if i >= 0 then b.pairs[i].value else empty;
    }

    method HasKey(key: K) returns (has: bool)
      requires Valid() && hash(key) != INT_MIN
      ensures has <==> hash(key) in view
    {
      hide Represents, Slot, Index;
      var hc := hash(key);
      var b := buckets[Slot(hc, count)];
      Found(buckets[..], view, hc);
      if b.Null? {
        return false;
      }
      var i := FindHash(b.pairs, hc);
      has := i >= 0;
    }

    method RemoveKey(key: K, delBucket: bool := true)
      requires Valid() && hash(key) != INT_MIN
      modifies this, buckets
      ensures Valid() && buckets == old(buckets) && count == old(count)
      ensures view == old(view) - {hash(key)}
    {
      hide Represents, Slot, Index;
      var hc := hash(key);
      var b := Slot(hc, count);
      Found(buckets[..], view, hc);
      if buckets[b].Null? {
        return;
      }
      var idx := FindHash(buckets[b].pairs, hc);
      if idx >= 0 {
        ghost var before := buckets[..];
        Removed(before, view, hc);
        var left := buckets[b].pairs[..idx] + buckets[b].pairs[idx + 1..];
        buckets[b] := List(left);
        numElems := numElems - 1;
        view := view - {hc};
        assert buckets[..] == before[b := List(left)];
        if left == [] && delBucket {
          Emptied(buckets[..], view, b);
          buckets[b] := Null;
          assert buckets[..] == before[b := List(left)][b := Null];
        }
      }
    }

    /** `clear` leaves the number of elements as it was: the map is sound afterwards exactly when it was empty. */
    method Clear()
      requires Valid()
      modifies this`view, buckets
      ensures buckets == old(buckets) && Represents(buckets[..], view) && view == map[] && numElems == old(numElems)
      ensures Valid() <==> old(view) == map[]
    {
      hide Represents;
      for i := 0 to count
        invariant forall b :: 0 <= b < i ==> buckets[b].Null?
      {
        if !buckets[i].Null? {
          buckets[i] := Null;
        }
      }
      NothingMoved(buckets[..], []);
      view := map[];
    }

    /** Twice as many buckets; nobody can tell by looking keys up. */
    method DoubleBuckets()
      requires Valid()
      modifies this`buckets, this`count
      ensures Valid() && fresh(buckets) && count == 2 * old(count) && view == old(view) && numElems == old(numElems)
    {
      hide Represents, Home, Slot, Index, Flat, Moved;
      var nc := count * 2;
      var ray := new Bucket<K, V>[nc](_ => Null);
      ghost var moved: map<int, Pair<K, V>> := map[];
      ghost var bs, all, t := buckets[..], Flat(buckets[..]), 0;
      Enumerates(bs, view);
      NothingMoved(ray[..], all);
      OffsetFirst(bs);
      for i := 0 to count
        invariant fresh(ray) && ray.Length == nc && count == old(count) && buckets == old(buckets) && buckets[..] == bs
        invariant Represents(ray[..], moved)
        invariant t == Offset(bs, i, 0) <= |all| && Moved(all, t, moved)
      {
        FlatSplit(bs, i);
        if !buckets[i].Null? {
          ghost var start := t;
          for j := 0 to |buckets[i].pairs|
            invariant fresh(ray) && ray.Length == nc && count == old(count) && buckets == old(buckets) &&
                      buckets[..] == bs
            invariant Represents(ray[..], moved)
            invariant t == start + j <= |all| && Moved(all, t, moved)
          {
            OffsetAt(bs, i, j);
            MovedNext(all, t, moved);
            ManualInsert(ray, nc, buckets[i].pairs[j], moved);
            moved := moved[all[t].hash := all[t]];
            t := t + 1;
          }
        }
      }
      assert bs[..count] == bs;
      HashesMatch(bs, view);
      MovedAll(all, moved, view);
      buckets := ray;
      count := nc;
    }
  }

  /** Goes over the pairs bucket by bucket, past the empty ones. */
  class Iterator<K(!new), V(0, !new)> {
    const parent: HashMap<K, V>
    var cPair: int
    var cBucket: int

    /** At a pair, or at the end. */
    ghost predicate At(bs: seq<Bucket<K, V>>)
      reads this
    {
      && 0 <= cBucket <= |bs| && 0 <= cPair
      && (if cBucket < |bs| then cPair < |Pairs(bs[cBucket])| else cPair == 0)
    }

    constructor Begin(src: HashMap<K, V>)
      requires src.count == src.buckets.Length
      ensures parent == src && At(src.buckets[..]) && Offset(src.buckets[..], cBucket, cPair) == 0
    {
      parent := src;
      cPair, cBucket := 0, 0;
      new;
      ghost var bs := src.buckets[..];
      assert bs[..0] == [];
      while cBucket < parent.count && Pairs(parent.buckets[cBucket]) == []
        invariant 0 <= cBucket <= parent.count && cPair == 0
        invariant Flat(bs[..cBucket]) == []
      {
        FlatSplit(bs, cBucket);
        cBucket := cBucket + 1;
      }
    }

    constructor End(src: HashMap<K, V>)
      requires src.count == src.buckets.Length
      ensures parent == src && At(src.buckets[..]) && cBucket == src.count
      ensures Offset(src.buckets[..], cBucket, cPair) == |Flat(src.buckets[..])|
    {
      parent := src;
      cBucket, cPair := src.count, 0;
      new;
      assert src.buckets[..][..src.count] == src.buckets[..];
    }

    method Increment()
      requires parent.count == parent.buckets.Length && At(parent.buckets[..]) && cBucket < parent.count
      modifies this
      ensures At(parent.buckets[..])
      ensures Offset(parent.buckets[..], cBucket, cPair) == old(Offset(parent.buckets[..], cBucket, cPair)) + 1
    {
      ghost var bs := parent.buckets[..];
      FlatSplit(bs, cBucket);
      cPair := cPair + 1;
      if cPair >= |Pairs(parent.buckets[cBucket])| {
        ghost var t := Offset(bs, cBucket, cPair);
        cPair := 0;
        cBucket := cBucket + 1;
        while cBucket < parent.count && Pairs(parent.buckets[cBucket]) == []
          invariant 0 < cBucket <= parent.count && cPair == 0 && Offset(bs, cBucket, 0) == t
        {
          FlatSplit(bs, cBucket);
          cBucket := cBucket + 1;
        }
      }
    }

    /** From anywhere but the first pair. */
    method Decrement()
      requires parent.count == parent.buckets.Length && At(parent.buckets[..])
      requires Offset(parent.buckets[..], cBucket, cPair) > 0
      modifies this
      ensures At(parent.buckets[..]) && cBucket < parent.count
      ensures Offset(parent.buckets[..], cBucket, cPair) == old(Offset(parent.buckets[..], cBucket, cPair)) - 1
    {
      ghost var bs := parent.buckets[..];
      ghost var t := Offset(bs, cBucket, cPair);
      cPair := cPair - 1;
      if cPair < 0 {
        cBucket := cBucket - 1;
        assert bs[..0] == [];
        FlatSplit(bs, cBucket);
        while cBucket >= 0 && Pairs(parent.buckets[cBucket]) == []
          invariant 0 <= cBucket < parent.count && cPair == -1
          invariant |Flat(bs[..cBucket])| + |Pairs(bs[cBucket])| == t
        {
          cBucket := cBucket - 1;
          FlatSplit(bs, cBucket);
        }
        if cBucket < parent.count {
          cPair := |Pairs(parent.buckets[cBucket])| - 1;
        }
      }
    }

    function Current(): Pair<K, V>
      reads this, parent, parent.buckets
      requires At(parent.buckets[..]) && cBucket < parent.buckets.Length
    {
      Pairs(parent.buckets[cBucket])[cPair]
    }
  }

  /** A loop from `begin` to `end` visits every pair of the map once. */
  method VisitAll<K(!new), V(0, !new)>(m: HashMap<K, V>) returns (visited: seq<Pair<K, V>>)
    requires m.Valid()
    ensures Distinct(visited) && |visited| == m.numElems
    ensures forall p :: p in visited <==> p.hash in m.view && m.view[p.hash] == p
  {
    hide Represents, Home, Flat;
    ghost var bs := m.buckets[..];
    Enumerates(bs, m.view);
    visited := [];
    var it := new Iterator.Begin(m);
    var end := new Iterator.End(m);
    while it.cPair != end.cPair || it.cBucket != end.cBucket
      invariant it.parent == m && it.At(bs) && fresh(it) && fresh(end) && it != end
      invariant end.cBucket == m.count && end.cPair == 0 && Offset(bs, end.cBucket, 0) == |Flat(bs)|
      invariant Offset(bs, it.cBucket, it.cPair) == |visited| <= |Flat(bs)| && visited == Flat(bs)[..|visited|]
      decreases |Flat(bs)| - |visited|
    {
      OffsetAt(bs, it.cBucket, it.cPair);
      visited := visited + [it.Current()];
      it.Increment();
    }
  }

  /** Stepping back undoes stepping forward: no two places share an offset. */
  lemma OffsetsDiffer<K, V>(bs: seq<Bucket<K, V>>, b: nat, i: nat, c: nat, j: nat)
    requires b <= |bs| && (if b < |bs| then i < |Pairs(bs[b])| else i == 0)
    requires c <= |bs| && (if c < |bs| then j < |Pairs(bs[c])| else j == 0)
    requires Offset(bs, b, i) == Offset(bs, c, j)
    ensures b == c && i == j
  {
    if b < c {
      FlatGrows(bs, b, c);
    } else if c < b {
      FlatGrows(bs, c, b);
    }
  }

  lemma {:induction false} FlatGrows<K, V>(bs: seq<Bucket<K, V>>, b: nat, c: nat)
    requires b < c <= |bs|
    ensures |Flat(bs[..b])| + |Pairs(bs[b])| <= |Flat(bs[..c])|
  {
    hide Flat;
    FlatSplit(bs, c - 1);
    if b < c - 1 {
      FlatGrows(bs, b, c - 1);
    }
  }

  lemma NothingMoved<K(!new), V(!new)>(bs: seq<Bucket<K, V>>, all: seq<Pair<K, V>>)
    requires |bs| > 0 && forall b :: 0 <= b < |bs| ==> bs[b].Null?
    ensures Represents(bs, map[]) && Moved(all, 0, map[])
  {
  }

  lemma HashesMatch<K, V>(bs: seq<Bucket<K, V>>, view: map<int, Pair<K, V>>)
    requires Represents(bs, view)
    ensures forall h :: h in view ==> view[h].hash == h
  {
  }

  /** `manualInsert` */
  method ManualInsert<K, V>(ray: array<Bucket<K, V>>, cnt: nat, pair: Pair<K, V>, ghost moved: map<int, Pair<K, V>>)
    requires cnt == ray.Length && Represents(ray[..], moved) && pair.hash !in moved
    modifies ray
    ensures Represents(ray[..], moved[pair.hash := pair])
  {
    hide Represents, Slot;
    ghost var before := ray[..];
    Added(before, moved, pair);
    assert ray.Length > 0 by { Nonempty(before, moved); }
    var b := Slot(pair.hash, cnt);
    ray[b] := List(Pairs(ray[b]) + [pair]);
    assert ray[..] == before[b := List(Pairs(before[b]) + [pair])];
  }

  lemma Nonempty<K, V>(bs: seq<Bucket<K, V>>, view: map<int, Pair<K, V>>)
    requires Represents(bs, view)
    ensures |bs| > 0
  {
  }

  /** The pairs among the first `t` that iteration meets. */
  ghost predicate Moved<K(!new), V(!new)>(all: seq<Pair<K, V>>, t: nat, moved: map<int, Pair<K, V>>)
    requires t <= |all|
  {
    && (forall i :: 0 <= i < t ==> all[i].hash in moved && moved[all[i].hash] == all[i])
    && (forall h :: h in moved ==> exists i :: 0 <= i < t && all[i].hash == h)
  }

  lemma MovedNext<K(!new), V(!new)>(all: seq<Pair<K, V>>, t: nat, moved: map<int, Pair<K, V>>)
    requires Distinct(all) && t < |all| && Moved(all, t, moved)
    ensures all[t].hash !in moved && Moved(all, t + 1, moved[all[t].hash := all[t]])
  {
    var moved' := moved[all[t].hash := all[t]];
    forall h | h in moved'
      ensures exists i :: 0 <= i < t + 1 && all[i].hash == h
    {
      if h == all[t].hash {
        assert all[t].hash == h;
      }
    }
  }

  lemma MovedAll<K(!new), V(!new)>(all: seq<Pair<K, V>>, moved: map<int, Pair<K, V>>, view: map<int, Pair<K, V>>)
    requires Moved(all, |all|, moved)
    requires forall p :: p in all <==> p.hash in view && view[p.hash] == p
    requires forall h :: h in view ==> view[h].hash == h
    ensures moved == view
  {
    forall h | h in moved
      ensures h in view && view[h] == moved[h]
    {
      var i :| 0 <= i < |all| && all[i].hash == h;
      assert all[i] in all;
    }
    forall h | h in view
      ensures h in moved
    {
      assert view[h] in all;
    }
  }

  lemma IndexLast<K, V>(pairs: seq<Pair<K, V>>)
    requires pairs != [] && Distinct(pairs)
    ensures Index(pairs, pairs[|pairs| - 1].hash) == |pairs| - 1
  {
    IndexIs(pairs, |pairs| - 1);
  }

  lemma Emptied<K, V>(bs: seq<Bucket<K, V>>, view: map<int, Pair<K, V>>, b: nat)
    requires Represents(bs, view) && b < |bs| && bs[b] == List([])
    ensures Represents(bs[b := Null], view)
  {
    hide Slot, Index;
    var bs' := bs[b := Null];
    forall c | 0 <= c < |bs'|
      ensures Pairs(bs'[c]) == Pairs(bs[c])
    {
    }
  }

  // Whole histories.

  datatype Op<K, V> = PutOp(key: K, value: V) | RemoveOp(key: K) | DoubleOp

  /** What a map that compares keys holds. */
  function Run<K, V>(ops: seq<Op<K, V>>): map<K, V> {
    if ops == [] then map[] else Step(Run(ops[..|ops| - 1]), ops[|ops| - 1])
  }

  function Step<K, V>(m: map<K, V>, op: Op<K, V>): map<K, V> {
    match op
    case PutOp(k, v) => m[k := v]
    case RemoveOp(k) => m - {k}
    case DoubleOp => m
  }

  /** What a map that compares hashes holds. A pair keeps the key it came with. */
  function RunHashes<K, V>(hash: K -> int, ops: seq<Op<K, V>>): map<int, Pair<K, V>> {
    if ops == [] then map[] else StepHash(hash, RunHashes(hash, ops[..|ops| - 1]), ops[|ops| - 1])
  }

  function StepHash<K, V>(hash: K -> int, view: map<int, Pair<K, V>>, op: Op<K, V>): map<int, Pair<K, V>> {
    match op
    case PutOp(k, v) => view[hash(k) := Pair(hash(k), if hash(k) in view then view[hash(k)].key else k, v)]
    case RemoveOp(k) => view - {hash(k)}
    case DoubleOp => view
  }

  /** The least integer has no absolute value, so a key with that hash has no bucket. */
  predicate HasBucket<K, V>(hash: K -> int, op: Op<K, V>) {
    op.DoubleOp? || hash(op.key) != INT_MIN
  }

  method Apply<K(!new), V(0, !new)>(h: HashMap<K, V>, op: Op<K, V>)
    requires h.Valid() && HasBucket(h.hash, op)
    modifies h, h.buckets
    ensures h.Valid() && (h.buckets == old(h.buckets) || fresh(h.buckets))
    ensures h.view == StepHash(h.hash, old(h.view), op)
  {
    hide Represents;
    match op {
      case PutOp(k, v) => h.Put(k, v);
      case RemoveOp(k) => h.RemoveKey(k);
      case DoubleOp => h.DoubleBuckets();
    }
  }

  /** Over any history the buckets hold what a map from hashes does. */
  method ReplayHashes<K(!new), V(0, !new)>(hash: K -> int, empty: V, ops: seq<Op<K, V>>) returns (h: HashMap<K, V>)
    requires forall i :: 0 <= i < |ops| ==> HasBucket(hash, ops[i])
    ensures fresh(h) && h.Valid() && h.hash == hash && h.view == RunHashes(hash, ops) && h.numElems == |h.view|
  {
    hide Represents, HasBucket, StepHash;
    h := new HashMap(hash, empty);
    for i := 0 to |ops|
      invariant fresh(h) && fresh(h.buckets) && h.Valid() && h.hash == hash
      invariant h.view == RunHashes(hash, ops[..i])
    {
      assert ops[..i + 1][..i] == ops[..i];
      Apply(h, ops[i]);
    }
    assert ops[..|ops|] == ops;
  }

  ghost predicate AgreesAt<K, V>(hash: K -> int, view: map<int, Pair<K, V>>, m: map<K, V>, k: K) {
    (k in m <==> hash(k) in view) && (k in m ==> view[hash(k)].value == m[k])
  }

  /** For these keys, looking up the hash is looking up the key. */
  ghost predicate Agrees<K(!new), V>(hash: K -> int, keys: iset<K>, view: map<int, Pair<K, V>>, m: map<K, V>) {
    forall k :: k in keys ==> AgreesAt(hash, view, m, k)
  }

  ghost predicate Over<K, V>(ops: seq<Op<K, V>>, keys: iset<K>) {
    forall i :: 0 <= i < |ops| ==> ops[i].DoubleOp? || ops[i].key in keys
  }

  ghost predicate Injective<K(!new)>(hash: K -> int, keys: iset<K>) {
    forall j, k :: j in keys && k in keys && hash(j) == hash(k) ==> j == k
  }

  ghost predicate AlwaysAgrees<K(!new), V(!new)>(hash: K -> int, keys: iset<K>, value: V) {
    forall ops: seq<Op<K, V>> :: Over(ops, keys) ==> Agrees(hash, keys, RunHashes(hash, ops), Run(ops))
  }

  lemma StepAgrees<K(!new), V>(hash: K -> int, keys: iset<K>, view: map<int, Pair<K, V>>, m: map<K, V>, op: Op<K, V>)
    requires Injective(hash, keys) && Agrees(hash, keys, view, m) && (op.DoubleOp? || op.key in keys)
    ensures Agrees(hash, keys, StepHash(hash, view, op), Step(m, op))
  {
    forall k | k in keys
      ensures AgreesAt(hash, StepHash(hash, view, op), Step(m, op), k)
    {
      assert AgreesAt(hash, view, m, k);
      assert !op.DoubleOp? && hash(k) == hash(op.key) ==> k == op.key;
    }
  }

  lemma {:induction false} HistoryAgrees<K(!new), V>(hash: K -> int, keys: iset<K>, ops: seq<Op<K, V>>)
    requires Injective(hash, keys) && Over(ops, keys)
    ensures Agrees(hash, keys, RunHashes(hash, ops), Run(ops))
    decreases |ops|
  {
    if ops != [] {
      var last := |ops| - 1;
      HistoryAgrees(hash, keys, ops[..last]);
      StepAgrees(hash, keys, RunHashes(hash, ops[..last]), Run(ops[..last]), ops[last]);
    }
  }

  /** One key is found where another was put. */
  lemma CollisionDiffers<K(!new), V>(hash: K -> int, keys: iset<K>, j: K, k: K, value: V) returns (ops: seq<Op<K, V>>)
    requires j in keys && k in keys && j != k && hash(j) == hash(k)
    ensures Over(ops, keys) && !Agrees(hash, keys, RunHashes(hash, ops), Run(ops))
  {
    ops := [PutOp(j, value)];
    var before: seq<Op<K, V>> := [];
    assert ops[..|ops| - 1] == before && ops[|ops| - 1] == PutOp(j, value);
    assert RunHashes(hash, before) == map[] && Run(before) == map[];
    var view, m := RunHashes(hash, ops), Run(ops);
    assert view == StepHash(hash, map[], PutOp(j, value)) && m == Step(map[], PutOp(j, value));
    assert !AgreesAt(hash, view, m, k);
  }

  /** Comparing hashes is as good as comparing keys, over every history on a set of keys, if and only if no two of
      these keys have the same hash. */
  lemma AgreesIffInjective<K(!new), V(!new)>(hash: K -> int, keys: iset<K>, value: V)
    ensures AlwaysAgrees(hash, keys, value) <==> Injective(hash, keys)
  {
    hide Agrees, RunHashes, Run;
    if Injective(hash, keys) {
      forall ops: seq<Op<K, V>> | Over(ops, keys)
        ensures Agrees(hash, keys, RunHashes(hash, ops), Run(ops))
      {
        HistoryAgrees(hash, keys, ops);
      }
    } else {
      var j, k :| j in keys && k in keys && hash(j) == hash(k) && j != k;
      var ops := CollisionDiffers(hash, keys, j, k, value);
    }
  }

  // Maps with integer keys.

  const INT_HASH: Int32 -> int := (k: Int32) => IntHash(k)

  ghost const ALL_KEYS: iset<Int32> := iset k: Int32 | true

  predicate Usable<V>(op: Op<Int32, V>) {
    op.DoubleOp? || op.key != Signed(Unmix(0x8000_0000))
  }

  lemma IntKeysDiffer()
    ensures Injective(INT_HASH, ALL_KEYS)
  {
    hide IntHash;
    forall j: Int32, k: Int32 | INT_HASH(j) == INT_HASH(k)
      ensures j == k
    {
      IntHashInjective(j, k);
    }
  }

  /** As many pairs as keys. */
  lemma SizesAgree<V(!new)>(view: map<int, Pair<Int32, V>>, m: map<Int32, V>)
    requires Agrees(INT_HASH, ALL_KEYS, view, m) && forall h :: h in view ==> INT_HASH(view[h].key) == h
    ensures |view| == |m|
  {
    hide IntHash;
    HashesOfKeys(m.Keys);
    forall h
      ensures h in view <==> h in Image(m.Keys)
    {
      if h in view {
        assert AgreesAt(INT_HASH, view, m, view[h].key);
      }
      if h in Image(m.Keys) {
        var k :| k in m.Keys && IntHash(k) == h;
        assert AgreesAt(INT_HASH, view, m, k);
      }
    }
    assert view.Keys == Image(m.Keys);
  }

  function Image(keys: set<Int32>): set<int> {
    set k | k in keys :: IntHash(k)
  }

  lemma {:induction false} HashesOfKeys(keys: set<Int32>)
    ensures |Image(keys)| == |keys|
  {
    hide IntHash;
    if keys != {} {
      var k :| k in keys;
      var others := keys - {k};
      HashesOfKeys(others);
      forall j | j in others
        ensures IntHash(j) != IntHash(k)
      {
        IntHashInjective(j, k);
      }
      assert Image(keys) == Image(others) + {IntHash(k)};
    }
  }

  lemma UsableHasBucket<V>(op: Op<Int32, V>)
    requires Usable(op)
    ensures HasBucket(INT_HASH, op)
  {
    hide IntHash, Unmix;
    if !op.DoubleOp? {
      OneKeyHasNoBucket(op.key);
    }
  }

  /** Over any history that leaves out the one key without a bucket, comparing hashes is as good as comparing keys. */
  method Replay<V(0, !new)>(empty: V, ops: seq<Op<Int32, V>>) returns (h: HashMap<Int32, V>)
    requires forall i :: 0 <= i < |ops| ==> Usable(ops[i])
    ensures fresh(h) && h.Valid()
    ensures forall k: Int32 :: AgreesAt(INT_HASH, h.view, Run(ops), k)
    ensures h.numElems == |Run(ops)|
  {
    hide Usable, HasBucket, Run, RunHashes, Represents;
    forall i | 0 <= i < |ops|
      ensures HasBucket(INT_HASH, ops[i])
    {
      UsableHasBucket(ops[i]);
    }
    h := ReplayHashes(INT_HASH, empty, ops);
    IntKeysDiffer();
    HistoryAgrees(INT_HASH, ALL_KEYS, ops);
    SizesAgree(h.view, Run(ops));
  }
}
