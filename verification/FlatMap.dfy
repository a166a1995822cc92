/** include/mgpcl/FlatMap.h over `ConstString` keys, which compare by hash only (include/mgpcl/String.h). */
module FlatMap {
  import opened Chars

  function Wrap32(n: int): (r: int)
    ensures -0x8000_0000 <= r < 0x8000_0000
  {
    var m := n % 0x1_0000_0000;
    if m < 0x8000_0000 then m else m - 0x1_0000_0000
  }

  /** `TString::hash`: the string as a number in base 31, in wrapping 32-bit arithmetic. */
  function Hash(s: string): (h: int)
    ensures -0x8000_0000 <= h < 0x8000_0000
  {
    if s == "" then 0 else Wrap32(Hash(s[..|s| - 1]) * 31 + Signed(s[|s| - 1]))
  }

  /** One more byte: the hash so far times 31, plus the byte as a signed number, up to a multiple of 2^32. */
  lemma HashMore(s: string, c: char)
    requires c as int < 0x100
    ensures var signed := if c as int < 0x80 then c as int else c as int - 0x100;
            (Hash(s + [c]) - (Hash(s) * 31 + signed)) % 0x1_0000_0000 == 0
  {
    hide Hash;
    HashStep(s, c);
    WrapCongruent(Hash(s) * 31 + Signed(c));
  }

  lemma HashStep(s: string, c: char)
    ensures Hash(s + [c]) == Wrap32(Hash(s) * 31 + Signed(c))
  {
    assert (s + [c])[..|s|] == s;
  }

  lemma WrapCongruent(n: int)
    ensures (Wrap32(n) - n) % 0x1_0000_0000 == 0
  {
    var q, m := n / 0x1_0000_0000, n % 0x1_0000_0000;
    assert n == q * 0x1_0000_0000 + m;
    assert Wrap32(n) - n == (if m < 0x8000_0000 then -q else -q - 1) * 0x1_0000_0000;
  }

  lemma NoHash()
    ensures Hash("") == 0
  {
  }

  datatype ConstString = ConstString(text: string, hash: int) {
    predicate Equals(k: ConstString) {
      hash == k.hash
    }

    predicate Greater(k: ConstString) {
      hash > k.hash
    }
  }

  function Const(s: string): ConstString {
    ConstString(s, Hash(s))
  }

  datatype Pair<V> = Pair(key: ConstString, value: V)

  ghost predicate Sorted<V>(data: seq<Pair<V>>) {
    forall i, j :: 0 <= i < j < |data| ==> data[i].key.hash < data[j].key.hash
  }

  /** The map a sorted list stands for, from hashes to values. */
  ghost function Contents<V>(data: seq<Pair<V>>): map<int, V> {
    if data == [] then map[]
    else Contents(data[..|data| - 1])[data[|data| - 1].key.hash := data[|data| - 1].value]
  }

  /** How many entries come before hash h. */
  function Rank<V>(data: seq<Pair<V>>, h: int): (r: nat)
    ensures r <= |data|
  {
    if data == [] || data[0].key.hash >= h then 0 else 1 + Rank(data[1..], h)
  }

  /** What `put` leaves: a new value in the entry with the same hash, or a new entry in order. */
  function Inserted<V>(data: seq<Pair<V>>, key: ConstString, value: V): (r: seq<Pair<V>>) {
    var p := Rank(data, key.hash);
    if p < |data| && data[p].key.Equals(key) then data[p := data[p].(value := value)]
    else data[..p] + [Pair(key, value)] + data[p..]
  }

  /** Whichever is put first, the entries are in the order of their hashes. */
  lemma PutInOrder<V>(low: ConstString, high: ConstString, v: V, w: V)
    requires low.hash < high.hash
    ensures Inserted(Inserted([], low, v), high, w) == [Pair(low, v), Pair(high, w)]
    ensures Inserted(Inserted([], high, w), low, v) == [Pair(low, v), Pair(high, w)]
    ensures Inserted(Inserted([], low, v), low, w) == [Pair(low, w)]
  {
    assert Rank([Pair(low, v)][1..], high.hash) == 0;
  }

  lemma {:induction false} RankSplits<V>(data: seq<Pair<V>>, h: int)
    requires Sorted(data)
    ensures forall i :: 0 <= i < Rank(data, h) ==> data[i].key.hash < h
    ensures forall i :: Rank(data, h) <= i < |data| ==> data[i].key.hash >= h
    ensures forall i :: Rank(data, h) < i < |data| ==> data[i].key.hash > h
  {
    if data != [] && data[0].key.hash < h {
      RankSplits(data[1..], h);
      assert forall i :: 1 <= i < |data| ==> data[i] == data[1..][i - 1];
    }
  }

  /** What one look at the middle of a binary search tells. */
  lemma RankAt<V>(data: seq<Pair<V>>, h: int, pos: nat)
    requires Sorted(data) && pos < |data|
    ensures data[pos].key.hash < h ==> pos < Rank(data, h)
    ensures data[pos].key.hash == h ==> Rank(data, h) == pos
    ensures data[pos].key.hash > h ==> Rank(data, h) <= pos
  {
    hide Rank;
    RankSplits(data, h);
  }

  lemma InsertedSorted<V>(data: seq<Pair<V>>, key: ConstString, value: V)
    requires Sorted(data)
    ensures Sorted(Inserted(data, key, value))
  {
    RankSplits(data, key.hash);
  }

  ghost predicate EntryIn<V>(data: seq<Pair<V>>, m: map<int, V>, i: nat)
    requires i < |data|
  {
    data[i].key.hash in m && m[data[i].key.hash] == data[i].value
  }

  ghost predicate HasHash<V>(data: seq<Pair<V>>, h: int) {
    exists i :: 0 <= i < |data| && data[i].key.hash == h
  }

  ghost predicate Represents<V>(data: seq<Pair<V>>, m: map<int, V>) {
    (forall i :: 0 <= i < |data| ==> EntryIn(data, m, i)) && (forall h :: h in m ==> HasHash(data, h))
  }

  lemma RepresentsOne<V>(data: seq<Pair<V>>, m: map<int, V>, n: map<int, V>)
    requires Represents(data, m) && Represents(data, n)
    ensures m == n
  {
    forall h
      ensures h in m <==> h in n
      ensures h in m && h in n ==> m[h] == n[h]
    {
      if h in m {
        assert HasHash(data, h);
        var i :| 0 <= i < |data| && data[i].key.hash == h;
        assert EntryIn(data, m, i) && EntryIn(data, n, i);
      }
      if h in n {
        assert HasHash(data, h);
        var i :| 0 <= i < |data| && data[i].key.hash == h;
        assert EntryIn(data, m, i) && EntryIn(data, n, i);
      }
    }
  }

  lemma {:induction false} ContentsRepresent<V>(data: seq<Pair<V>>)
    requires Sorted(data)
    ensures Represents(data, Contents(data))
  {
    if data != [] {
      var init := data[..|data| - 1];
      ContentsRepresent(init);
      forall i | 0 <= i < |data|
        ensures EntryIn(data, Contents(data), i)
      {
        assert i < |init| ==> EntryIn(init, Contents(init), i);
      }
      forall h | h in Contents(data)
        ensures HasHash(data, h)
      {
        if h != data[|data| - 1].key.hash {
          assert HasHash(init, h);
          var i :| 0 <= i < |init| && init[i].key.hash == h;
          assert data[i].key.hash == h;
        }
      }
    }
  }

  /** r is data with e put in at p. */
  ghost predicate Placed<V>(data: seq<Pair<V>>, p: nat, e: Pair<V>, r: seq<Pair<V>>) {
    && p <= |data| && |r| == |data| + 1 && r[p] == e
    && (forall i :: 0 <= i < p ==> r[i] == data[i])
    && (forall i :: p < i < |r| ==> r[i] == data[i - 1])
  }

  lemma PlacedBySlices<V>(data: seq<Pair<V>>, p: nat, e: Pair<V>)
    requires p <= |data|
    ensures Placed(data, p, e, data[..p] + [e] + data[p..])
  {
  }

  /** A new entry at its place. */
  lemma PlacedContents<V>(data: seq<Pair<V>>, p: nat, e: Pair<V>, r: seq<Pair<V>>, m: map<int, V>, n: map<int, V>)
    requires Placed(data, p, e, r) && !HasHash(data, e.key.hash) && Represents(data, m)
    requires n == m[e.key.hash := e.value]
    ensures Represents(r, n)
  {
    forall i | 0 <= i < |r|
      ensures EntryIn(r, n, i)
    {
      if i != p {
        var j := if i < p then i else i - 1;
        assert r[i] == data[j] && EntryIn(data, m, j);
        assert data[j].key.hash != e.key.hash;
      }
    }
    forall h | h in n
      ensures HasHash(r, h)
    {
      if h == e.key.hash {
        assert r[p].key.hash == h;
      } else {
        assert HasHash(data, h);
        var j :| 0 <= j < |data| && data[j].key.hash == h;
        assert r[if j < p then j else j + 1].key.hash == h;
      }
    }
  }

  /** And taking it out again. */
  lemma UnplacedContents<V>(data: seq<Pair<V>>, p: nat, e: Pair<V>, r: seq<Pair<V>>, m: map<int, V>, n: map<int, V>)
    requires Placed(r, p, e, data) && !HasHash(r, e.key.hash) && Represents(data, m)
    requires n == m - {e.key.hash}
    ensures Represents(r, n)
  {
    forall i | 0 <= i < |r|
      ensures EntryIn(r, n, i)
    {
      var j := if i < p then i else i + 1;
      assert r[i] == data[j] && EntryIn(data, m, j);
      assert r[i].key.hash != e.key.hash;
    }
    forall h | h in n
      ensures HasHash(r, h)
    {
      assert HasHash(data, h);
      var j :| 0 <= j < |data| && data[j].key.hash == h;
      assert j != p;
      assert r[if j < p then j else j - 1].key.hash == h;
    }
  }

  /** A new value in an old entry. */
  lemma ReplacedContents<V>(data: seq<Pair<V>>, p: nat, value: V)
    requires Sorted(data) && p < |data|
    ensures Represents(data[p := data[p].(value := value)], Contents(data)[data[p].key.hash := value])
  {
    var r, m := data[p := data[p].(value := value)], Contents(data)[data[p].key.hash := value];
    ContentsRepresent(data);
    assert forall i :: 0 <= i < |data| && i != p ==> data[i].key.hash != data[p].key.hash;
    hide Sorted, Contents;
    forall i | 0 <= i < |r|
      ensures EntryIn(r, m, i)
    {
      assert EntryIn(data, Contents(data), i);
    }
    forall h | h in m
      ensures HasHash(r, h)
    {
      if h != data[p].key.hash {
        assert HasHash(data, h);
      }
      var j :| 0 <= j < |data| && data[j].key.hash == h;
      assert r[j].key.hash == h;
    }
  }

  lemma InsertedHashes<V>(data: seq<Pair<V>>, key: ConstString, value: V, h: int)
    requires Sorted(data)
    ensures HasHash(Inserted(data, key, value), h) <==> h == key.hash || HasHash(data, h)
    ensures |Inserted(data, key, value)| == if HasHash(data, key.hash) then |data| else |data| + 1
  {
    var r, p := Inserted(data, key, value), Rank(data, key.hash);
    RankSplits(data, key.hash);
    if p < |data| && data[p].key.Equals(key) {
      ReplacedHashes(data, r, h);
    } else {
      PlacedBySlices(data, p, Pair(key, value));
      PlacedHashes(data, p, Pair(key, value), r, h);
    }
  }

  lemma ReplacedHashes<V>(data: seq<Pair<V>>, r: seq<Pair<V>>, h: int)
    requires |r| == |data| && forall i :: 0 <= i < |data| ==> r[i].key.hash == data[i].key.hash
    ensures HasHash(r, h) <==> HasHash(data, h)
  {
    if HasHash(data, h) {
      var i :| 0 <= i < |data| && data[i].key.hash == h;
      assert r[i].key.hash == h;
    }
  }

  lemma PlacedHashes<V>(data: seq<Pair<V>>, p: nat, e: Pair<V>, r: seq<Pair<V>>, h: int)
    requires Placed(data, p, e, r)
    ensures HasHash(r, h) <==> h == e.key.hash || HasHash(data, h)
  {
    if HasHash(data, h) {
      var i :| 0 <= i < |data| && data[i].key.hash == h;
      assert r[if i < p then i else i + 1].key.hash == h;
    }
    if HasHash(r, h) {
      var i :| 0 <= i < |r| && r[i].key.hash == h;
      if i != p {
        assert data[if i < p then i else i - 1].key.hash == h;
      }
    }
  }

  /** `put` is map update on hashes. */
  lemma InsertedContents<V>(data: seq<Pair<V>>, key: ConstString, value: V)
    requires Sorted(data)
    ensures Contents(Inserted(data, key, value)) == Contents(data)[key.hash := value]
  {
    var r := Inserted(data, key, value);
    var p := Rank(data, key.hash);
    InsertedSorted(data, key, value);
    ContentsRepresent(r);
    if p < |data| && data[p].key.Equals(key) {
      ReplacedContents(data, p, value);
    } else {
      RankSplits(data, key.hash);
      PlacedBySlices(data, p, Pair(key, value));
      ContentsRepresent(data);
      PlacedContents(data, p, Pair(key, value), r, Contents(data), Contents(data)[key.hash := value]);
    }
    RepresentsOne(r, Contents(r), Contents(data)[key.hash := value]);
  }

  lemma RemovedBySlices<V>(data: seq<Pair<V>>, p: nat)
    requires p < |data|
    ensures Placed(data[..p] + data[p + 1..], p, data[p], data)
  {
  }

  lemma UnplacedSorted<V>(data: seq<Pair<V>>, p: nat, r: seq<Pair<V>>)
    requires Sorted(data) && p < |data| && Placed(r, p, data[p], data)
    ensures Sorted(r) && !HasHash(r, data[p].key.hash)
  {
    forall i, j | 0 <= i < j < |r|
      ensures r[i].key.hash < r[j].key.hash
    {
      assert r[i] == data[if i < p then i else i + 1] && r[j] == data[if j < p then j else j + 1];
    }
    forall i | 0 <= i < |r|
      ensures r[i].key.hash != data[p].key.hash
    {
      assert r[i] == data[if i < p then i else i + 1];
    }
  }

  lemma RemovedContents<V>(data: seq<Pair<V>>, pos: nat)
    requires Sorted(data) && pos < |data|
    ensures Sorted(data[..pos] + data[pos + 1..])
    ensures Contents(data[..pos] + data[pos + 1..]) == Contents(data) - {data[pos].key.hash}
  {
    var r := data[..pos] + data[pos + 1..];
    RemovedBySlices(data, pos);
    UnplacedSorted(data, pos, r);
    ContentsRepresent(data);
    ContentsRepresent(r);
    UnplacedContents(data, pos, data[pos], r, Contents(data), Contents(data) - {data[pos].key.hash});
    RepresentsOne(r, Contents(r), Contents(data) - {data[pos].key.hash});
  }

  class FlatMap<V> {
    var data: seq<Pair<V>>

    constructor ()
      ensures data == []
    {
      data := [];
    }

    method Put(key: ConstString, value: V)
      requires Sorted(data)
      modifies this
      ensures Sorted(data) && data == Inserted(old(data), key, value)
      ensures Contents(data) == Contents(old(data))[key.hash := value]
    {
      InsertedSorted(data, key, value);
      InsertedContents(data, key, value);
      hide Contents, Sorted, Rank;
      if data == [] {
        data := data + [Pair(key, value)];
      } else {
        var begin, end := 0, |data|;
        while begin != end
          invariant 0 <= begin <= Rank(data, key.hash) <= end <= |data|
          invariant data == old(data)
          invariant var p := Rank(data, key.hash); p < |data| && data[p].key.hash == key.hash ==> p < end
          decreases end - begin
        {
          var pos := (begin + end) / 2;
          RankAt(data, key.hash, pos);
          if key.Equals(data[pos].key) {
            data := data[pos := data[pos].(value := value)];
            return;
          } else if key.Greater(data[pos].key) {
            begin := pos + 1;
          } else {
            end := pos;
          }
        }
        data := data[..begin] + [Pair(key, value)] + data[begin..];
      }
    }

    /** The search shared by `getIfExists`, `hasKey` and `removeKey`. */
    method Find(key: ConstString) returns (pos: int)
      requires Sorted(data)
      ensures pos == -1 <==> key.hash !in Contents(data)
      ensures pos != -1 ==>
              0 <= pos < |data| && data[pos].key.hash == key.hash && data[pos].value == Contents(data)[key.hash]
    {
      ContentsRepresent(data);
      RankSplits(data, key.hash);
      hide Contents;
      pos := -1;
      if data != [] {
        var begin, end := 0, |data|;
        while begin != end
          invariant 0 <= begin <= Rank(data, key.hash) <= end <= |data|
          invariant Rank(data, key.hash) < |data| && data[Rank(data, key.hash)].key.hash == key.hash ==>
                    Rank(data, key.hash) < end
          decreases end - begin
        {
          var mid := (begin + end) / 2;
          if key.Equals(data[mid].key) {
            assert EntryIn(data, Contents(data), mid);
            return mid;
          } else if key.Greater(data[mid].key) {
            begin := mid + 1;
          } else {
            end := mid;
          }
        }
      }
      assert !HasHash(data, key.hash);
    }

    method GetIfExists(key: ConstString) returns (found: bool, value: seq<V>)
      requires Sorted(data)
      ensures found <==> key.hash in Contents(data)
      ensures value == if found then [Contents(data)[key.hash]] else []
    {
      var pos := Find(key);
      found, value := pos >= 0, [];
      if found {
        value := [data[pos].value];
      }
    }

    method HasKey(key: ConstString) returns (found: bool)
      requires Sorted(data)
      ensures found <==> key.hash in Contents(data)
    {
      var pos := Find(key);
      found := pos >= 0;
    }

    method RemoveKey(key: ConstString) returns (found: bool)
      requires Sorted(data)
      modifies this
      ensures found <==> key.hash in Contents(old(data))
      ensures Sorted(data) && Contents(data) == Contents(old(data)) - {key.hash}
    {
      var pos := Find(key);
      found := pos >= 0;
      if found {
        RemovedContents(data, pos);
        data := data[..pos] + data[pos + 1..];
      }
    }
  }
}
