/** The buckets of a hash map as values: which pair sits where, and the order iteration meets them in. */
module HashTable {

  datatype Pair<K, V> = Pair(hash: int, key: K, value: V)

  /** A slot of the bucket array: the null pointer or a list of pairs. */
  datatype Bucket<K, V> = Null | List(pairs: seq<Pair<K, V>>)

  function Pairs<K, V>(b: Bucket<K, V>): seq<Pair<K, V>> {
    if b.Null? then [] else b.pairs
  }

  /** `abs(hash) % count` */
  function Slot(hash: int, count: nat): (b: nat)
    requires count > 0
    ensures b < count
  {
    (if hash < 0 then -hash else hash) % count
  }

  /** The first pair with this hash; keys are never looked at. */
  function Index<K, V>(pairs: seq<Pair<K, V>>, hash: int): (i: int)
    ensures -1 <= i < |pairs|
    ensures i >= 0 ==> pairs[i].hash == hash
  {
    if pairs == [] then -1
    else if pairs[0].hash == hash then 0
    else var i := Index(pairs[1..], hash); if i < 0 then -1 else i + 1
  }

  lemma {:induction false} IndexFirst<K, V>(pairs: seq<Pair<K, V>>, i: nat)
    requires i < |pairs|
    ensures 0 <= Index(pairs, pairs[i].hash) <= i
  {
    if i > 0 && pairs[0].hash != pairs[i].hash {
      IndexFirst(pairs[1..], i - 1);
    }
  }

  lemma {:induction false} IndexIs<K, V>(pairs: seq<Pair<K, V>>, i: nat)
    requires i < |pairs| && forall j :: 0 <= j < i ==> pairs[j].hash != pairs[i].hash
    ensures Index(pairs, pairs[i].hash) == i
  {
    if i > 0 {
      IndexIs(pairs[1..], i - 1);
    }
  }

  predicate Distinct<K, V>(pairs: seq<Pair<K, V>>) {
    forall i, j :: 0 <= i < j < |pairs| ==> pairs[i].hash != pairs[j].hash
  }

  ghost predicate Home<K, V>(pairs: seq<Pair<K, V>>, b: nat, count: nat, view: map<int, Pair<K, V>>)
    requires count > 0
  {
    && Distinct(pairs)
    && forall i :: 0 <= i < |pairs| ==>
        Slot(pairs[i].hash, count) == b && pairs[i].hash in view && view[pairs[i].hash] == pairs[i]
  }

  /** Every bucket holds pairs of `view` that belong there, and every pair of `view` is in its bucket. */
  ghost predicate Represents<K, V>(bs: seq<Bucket<K, V>>, view: map<int, Pair<K, V>>) {
    && |bs| > 0
    && (forall b :: 0 <= b < |bs| ==> Home(Pairs(bs[b]), b, |bs|, view))
    && (forall h :: h in view ==> view[h].hash == h && Index(Pairs(bs[Slot(h, |bs|)]), h) >= 0)
  }

  lemma Found<K, V>(bs: seq<Bucket<K, V>>, view: map<int, Pair<K, V>>, h: int)
    requires Represents(bs, view)
    ensures var pairs := Pairs(bs[Slot(h, |bs|)]); var i := Index(pairs, h);
            (h in view <==> i >= 0) && (i >= 0 ==> view[h] == pairs[i])
  {
    hide Slot, Index;
    assert Home(Pairs(bs[Slot(h, |bs|)]), Slot(h, |bs|), |bs|, view);
  }

  lemma AtHome<K, V>(bs: seq<Bucket<K, V>>, view: map<int, Pair<K, V>>, b: nat)
    requires Represents(bs, view) && b < |bs|
    ensures Home(Pairs(bs[b]), b, |bs|, view)
  {
  }

  /** One bucket changes: what has to be shown of it. */
  lemma Changed<K, V>(bs: seq<Bucket<K, V>>, view: map<int, Pair<K, V>>, b: nat, bucket: Bucket<K, V>,
                      view': map<int, Pair<K, V>>)
    requires Represents(bs, view) && b < |bs|
    requires Home(Pairs(bucket), b, |bs|, view')
    requires forall h :: Slot(h, |bs|) != b ==> (h in view <==> h in view') && (h in view ==> view[h] == view'[h])
    requires forall h :: h in view' && Slot(h, |bs|) == b ==> view'[h].hash == h && Index(Pairs(bucket), h) >= 0
    ensures Represents(bs[b := bucket], view')
  {
    hide Slot, Index;
    var bs' := bs[b := bucket];
    forall c | 0 <= c < |bs'|
      ensures Home(Pairs(bs'[c]), c, |bs'|, view')
    {
      if c != b {
        assert Home(Pairs(bs[c]), c, |bs|, view);
      }
    }
    forall h | h in view'
      ensures view'[h].hash == h && Index(Pairs(bs'[Slot(h, |bs'|)]), h) >= 0
    {
      assert Slot(h, |bs|) != b ==> h in view;
    }
  }

  lemma Added<K, V>(bs: seq<Bucket<K, V>>, view: map<int, Pair<K, V>>, p: Pair<K, V>)
    requires Represents(bs, view) && p.hash !in view
    ensures var b := Slot(p.hash, |bs|); Represents(bs[b := List(Pairs(bs[b]) + [p])], view[p.hash := p])
  {
    var b := Slot(p.hash, |bs|);
    var pairs, view' := Pairs(bs[b]), view[p.hash := p];
    AtHome(bs, view, b);
    HomeWith(pairs, b, |bs|, view, p);
    hide Slot, Represents, Index, Home;
    forall h | h in view' && Slot(h, |bs|) == b
      ensures view'[h].hash == h && Index(pairs + [p], h) >= 0
    {
      Found(bs, view, h);
      IndexFirst(pairs + [p], if h == p.hash then |pairs| else Index(pairs, h));
    }
    Changed(bs, view, b, List(pairs + [p]), view');
  }

  lemma Updated<K, V>(bs: seq<Bucket<K, V>>, view: map<int, Pair<K, V>>, p: Pair<K, V>)
    requires Represents(bs, view) && p.hash in view
    ensures var b := Slot(p.hash, |bs|); var i := Index(Pairs(bs[b]), p.hash);
            i >= 0 && Represents(bs[b := List(Pairs(bs[b])[i := p])], view[p.hash := p])
  {
    var b := Slot(p.hash, |bs|);
    var pairs, view' := Pairs(bs[b]), view[p.hash := p];
    AtHome(bs, view, b);
    Found(bs, view, p.hash);
    HomeUpdated(pairs, b, |bs|, view, p, Index(pairs, p.hash));
    hide Slot, Represents, Index, Home;
    var i := Index(pairs, p.hash);
    forall h | h in view' && Slot(h, |bs|) == b
      ensures view'[h].hash == h && Index(pairs[i := p], h) >= 0
    {
      Found(bs, view, h);
      IndexFirst(pairs[i := p], Index(pairs, h));
    }
    Changed(bs, view, b, List(pairs[i := p]), view');
  }

  lemma Removed<K, V>(bs: seq<Bucket<K, V>>, view: map<int, Pair<K, V>>, hash: int)
    requires Represents(bs, view) && hash in view
    ensures var b := Slot(hash, |bs|); var i := Index(Pairs(bs[b]), hash);
            i >= 0 && Represents(bs[b := List(Pairs(bs[b])[..i] + Pairs(bs[b])[i + 1..])], view - {hash})
  {
    var b := Slot(hash, |bs|);
    var pairs, view' := Pairs(bs[b]), view - {hash};
    AtHome(bs, view, b);
    Found(bs, view, hash);
    hide Slot, Represents, Index, Home;
    var i := Index(pairs, hash);
    var left := pairs[..i] + pairs[i + 1..];
    HomeWithout(pairs, b, |bs|, view, i);
    forall h | h in view' && Slot(h, |bs|) == b
      ensures view'[h].hash == h && Index(left, h) >= 0
    {
      Found(bs, view, h);
      IndexWithout(pairs, i, Index(pairs, h));
    }
    Changed(bs, view, b, List(left), view');
  }

  lemma HomeWith<K, V>(pairs: seq<Pair<K, V>>, b: nat, count: nat, view: map<int, Pair<K, V>>, p: Pair<K, V>)
    requires count > 0 && Home(pairs, b, count, view) && p.hash !in view && Slot(p.hash, count) == b
    ensures Home(pairs + [p], b, count, view[p.hash := p])
  {
    hide Slot;
  }

  lemma HomeUpdated<K, V>(pairs: seq<Pair<K, V>>, b: nat, count: nat, view: map<int, Pair<K, V>>, p: Pair<K, V>, i: nat)
    requires count > 0 && Home(pairs, b, count, view) && i < |pairs| && pairs[i].hash == p.hash
    ensures Home(pairs[i := p], b, count, view[p.hash := p])
  {
    hide Slot;
  }

  lemma IndexWithout<K, V>(pairs: seq<Pair<K, V>>, i: nat, j: nat)
    requires i < |pairs| && j < |pairs| && i != j
    ensures Index(pairs[..i] + pairs[i + 1..], pairs[j].hash) >= 0
  {
    hide Index;
    var left := pairs[..i] + pairs[i + 1..];
    var k := if j < i then j else j - 1;
    assert left[k] == pairs[j];
    IndexFirst(left, k);
  }

  lemma HomeWithout<K, V>(pairs: seq<Pair<K, V>>, b: nat, count: nat, view: map<int, Pair<K, V>>, i: nat)
    requires count > 0 && Home(pairs, b, count, view) && i < |pairs|
    ensures Home(pairs[..i] + pairs[i + 1..], b, count, view - {pairs[i].hash})
  {
    hide Slot;
    var left := pairs[..i] + pairs[i + 1..];
    assert forall j :: 0 <= j < |left| ==> left[j] == pairs[if j < i then j else j + 1];
  }

  // Iteration.

  function Flat<K, V>(bs: seq<Bucket<K, V>>): seq<Pair<K, V>> {
    if bs == [] then [] else Flat(bs[..|bs| - 1]) + Pairs(bs[|bs| - 1])
  }

  lemma {:induction false} FlatSplit<K, V>(bs: seq<Bucket<K, V>>, b: nat)
    requires b < |bs|
    ensures Flat(bs[..b + 1]) == Flat(bs[..b]) + Pairs(bs[b])
    ensures Flat(bs[..b + 1]) <= Flat(bs)
  {
    assert bs[..b + 1][..b] == bs[..b];
    if b + 1 < |bs| {
      FlatSplit(bs[..|bs| - 1], b);
      assert bs[..|bs| - 1][..b + 1] == bs[..b + 1];
    } else {
      assert bs[..b + 1] == bs;
    }
  }

  /** Where the i-th pair of bucket b comes in the iteration. */
  function Offset<K, V>(bs: seq<Bucket<K, V>>, b: nat, i: nat): nat
    requires b <= |bs|
  {
    |Flat(bs[..b])| + i
  }

  lemma OffsetFirst<K, V>(bs: seq<Bucket<K, V>>)
    ensures Offset(bs, 0, 0) == 0
  {
  }

  lemma OffsetAt<K, V>(bs: seq<Bucket<K, V>>, b: nat, i: nat)
    requires b < |bs| && i < |Pairs(bs[b])|
    ensures Offset(bs, b, i) < |Flat(bs)| && Flat(bs)[Offset(bs, b, i)] == Pairs(bs[b])[i]
  {
    hide Flat;
    FlatSplit(bs, b);
    InLaterPart(Flat(bs[..b]), Pairs(bs[b]), Flat(bs), i);
  }

  lemma InLaterPart<T>(first: seq<T>, second: seq<T>, all: seq<T>, i: nat)
    requires first + second <= all && i < |second|
    ensures |first| + i < |all| && all[|first| + i] == second[i]
  {
    assert (first + second)[|first| + i] == second[i];
  }

  lemma {:induction false} FlatIn<K, V>(bs: seq<Bucket<K, V>>, t: nat) returns (b: nat, i: nat)
    requires t < |Flat(bs)|
    ensures b < |bs| && i < |Pairs(bs[b])| && Offset(bs, b, i) == t && Flat(bs)[t] == Pairs(bs[b])[i]
  {
    var n := |bs| - 1;
    if t < |Flat(bs[..n])| {
      b, i := FlatIn(bs[..n], t);
      assert bs[..n][..b] == bs[..b];
    } else {
      b, i := n, t - |Flat(bs[..n])|;
    }
  }

  /** Iteration meets the pairs of `view`, each once. */
  lemma Enumerates<K, V>(bs: seq<Bucket<K, V>>, view: map<int, Pair<K, V>>)
    requires Represents(bs, view)
    ensures Distinct(Flat(bs))
    ensures forall p :: p in Flat(bs) <==> p.hash in view && view[p.hash] == p
    ensures |Flat(bs)| == |view|
  {
    hide Slot, Index, Flat, Offset, Represents;
    forall s, t | 0 <= s < t < |Flat(bs)|
      ensures Flat(bs)[s].hash != Flat(bs)[t].hash
    {
      FlatDiffers(bs, view, s, t);
    }
    forall p | p in Flat(bs)
      ensures p.hash in view && view[p.hash] == p
    {
      var t :| 0 <= t < |Flat(bs)| && Flat(bs)[t] == p;
      var b, i := FlatIn(bs, t);
      AtHome(bs, view, b);
    }
    forall h | h in view
      ensures view[h] in Flat(bs) && view[h].hash == h
    {
      Found(bs, view, h);
      OffsetAt(bs, Slot(h, |bs|), Index(Pairs(bs[Slot(h, |bs|)]), h));
    }
    HashCount(Flat(bs));
    assert Hashes(Flat(bs)) == view.Keys;
  }

  /** Iteration meets them in the order of what is left when the number of buckets divides the size of the hash. */
  lemma InOrder<K, V>(bs: seq<Bucket<K, V>>, view: map<int, Pair<K, V>>, s: nat, t: nat)
    requires Represents(bs, view) && s < t < |Flat(bs)|
    ensures var h, h' := Flat(bs)[s].hash, Flat(bs)[t].hash;
            (if h < 0 then -h else h) % |bs| <= (if h' < 0 then -h' else h') % |bs|
  {
    hide Flat, Represents, Offset;
    var b, i := SlotOf(bs, view, s);
    var c, j := SlotOf(bs, view, t);
    if c < b {
      OffsetsGrow(bs, c, j, b, i);
    }
  }

  lemma SlotOf<K, V>(bs: seq<Bucket<K, V>>, view: map<int, Pair<K, V>>, t: nat) returns (b: nat, i: nat)
    requires Represents(bs, view) && t < |Flat(bs)|
    ensures b < |bs| && i < |Pairs(bs[b])| && Offset(bs, b, i) == t && Slot(Flat(bs)[t].hash, |bs|) == b
  {
    hide Flat, Represents, Offset;
    b, i := FlatIn(bs, t);
    AtHome(bs, view, b);
  }

  lemma {:induction false} OffsetsGrow<K, V>(bs: seq<Bucket<K, V>>, c: nat, j: nat, b: nat, i: nat)
    requires c < b <= |bs| && j < |Pairs(bs[c])|
    ensures Offset(bs, c, j) < Offset(bs, b, i)
    decreases b
  {
    hide Flat;
    FlatSplit(bs, b - 1);
    if c < b - 1 {
      OffsetsGrow(bs, c, j, b - 1, 0);
    }
  }

  lemma FlatDiffers<K, V>(bs: seq<Bucket<K, V>>, view: map<int, Pair<K, V>>, s: nat, t: nat)
    requires Represents(bs, view) && s < t < |Flat(bs)|
    ensures Flat(bs)[s].hash != Flat(bs)[t].hash
  {
    var b, i := FlatIn(bs, s);
    var c, j := FlatIn(bs, t);
    AtHome(bs, view, b);
    AtHome(bs, view, c);
    hide Slot, Flat, Represents;
  }

  function Hashes<K, V>(pairs: seq<Pair<K, V>>): set<int> {
    set i | 0 <= i < |pairs| :: pairs[i].hash
  }

  lemma {:induction false} HashCount<K, V>(pairs: seq<Pair<K, V>>)
    requires Distinct(pairs)
    ensures |Hashes(pairs)| == |pairs|
  {
    if pairs != [] {
      var n := |pairs| - 1;
      HashCount(pairs[..n]);
      assert Hashes(pairs) == Hashes(pairs[..n]) + {pairs[n].hash};
      assert pairs[n].hash !in Hashes(pairs[..n]);
    }
  }
}
