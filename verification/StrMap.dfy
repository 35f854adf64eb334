/** src/ngx_http_lookaround_strmap.c: a hash table from strings to pointers or strings.
    A removed pair stays in its bucket as a tombstone. */
module StrMap {

  datatype Option<T> = None | Some(value: T)

  /** What a pair's value points to: an object, or a string in a buffer of `room` bytes. */
  datatype Value = Ptr(address: nat) | Text(chars: string, room: nat)

  /** A pair without key or without value is dead: lookups pass over it. */
  datatype Pair = Pair(key: Option<string>, value: Option<Value>)

  type Bucket = seq<Pair>

  predicate Live(p: Pair) { p.key.Some? && p.value.Some? }

  predicate Matches(p: Pair, key: string) { Live(p) && p.key.value == key }

  /** get_pair: the first live pair with the key, or the end. */
  function Find(b: Bucket, key: string, i: nat): (r: nat)
    requires i <= |b|
    ensures i <= r <= |b| && (r < |b| ==> Matches(b[r], key)) && forall j :: i <= j < r ==> !Matches(b[j], key)
    decreases |b| - i
  {
    if i == |b| || Matches(b[i], key) then i else Find(b, key, i + 1)
  }

  function Lookup(b: Bucket, key: string): Option<Value> {
    var i := Find(b, key, 0);
    if i == |b| then None else b[i].value
  }

  /** No two live pairs have the same key. */
  ghost predicate OneEach(b: Bucket) {
    forall i, j :: 0 <= i < j < |b| && Live(b[i]) && Live(b[j]) ==> b[i].key != b[j].key
  }

  /** A string fits in its buffer with the zero that ends it. */
  predicate Fits(p: Pair) { p.value.Some? && p.value.value.Text? ==> |p.value.value.chars| < p.value.value.room }

  ghost predicate BucketOk(b: Bucket) { OneEach(b) && forall i :: 0 <= i < |b| ==> Fits(b[i]) }

  /** How many pairs there are, dead ones included. */
  function Total(bs: seq<Bucket>): nat { if bs == [] then 0 else |bs[0]| + Total(bs[1..]) }

  lemma {:induction false} TotalChange(bs: seq<Bucket>, i: nat, b: Bucket)
    requires i < |bs|
    ensures Total(bs[i := b]) == Total(bs) - |bs[i]| + |b|
  {
    if i == 0 {
      assert bs[0 := b][1..] == bs[1..];
    } else {
      TotalChange(bs[1..], i - 1, b);
      assert bs[i := b][1..] == bs[1..][i - 1 := b];
    }
  }

  lemma {:induction false} TotalUpto(bs: seq<Bucket>, i: nat)
    requires i < |bs|
    ensures Total(bs[..i + 1]) == Total(bs[..i]) + |bs[i]|
  {
    if i > 0 {
      TotalUpto(bs[1..], i - 1);
      assert bs[..i + 1][1..] == bs[1..][..i] && bs[..i][1..] == bs[1..][..i - 1];
    }
  }

  /** What one pair of a bucket, or one more pair, does to lookups. */
  lemma Changed(b: Bucket, i: nat, p: Pair, key: string)
    requires BucketOk(b) && i < |b| && Matches(b[i], key) && Fits(p)
    requires p.key == Some(key) || p.key == None
    ensures BucketOk(b[i := p]) && Lookup(b[i := p], key) == (if Live(p) then p.value else None)
    ensures forall k :: k != key ==> Lookup(b[i := p], k) == Lookup(b, k)
  {
    var b' := b[i := p];
    assert forall j :: 0 <= j < |b| && j != i ==> !Matches(b[j], key);
    forall k | k != key ensures Lookup(b', k) == Lookup(b, k) { Same(b, b', k); }
    Only(b', key, i);
  }

  lemma Added(b: Bucket, p: Pair, key: string)
    requires BucketOk(b) && Find(b, key, 0) == |b| && Fits(p) && p.key == Some(key)
    ensures BucketOk(b + [p]) && Lookup(b + [p], key) == p.value
    ensures forall k :: k != key ==> Lookup(b + [p], k) == Lookup(b, k)
  {
    var b' := b + [p];
    assert forall j :: 0 <= j < |b| ==> !Matches(b[j], key);
    forall k | k != key ensures Lookup(b', k) == Lookup(b, k) { Longer(b, b', k); }
    Only(b', key, |b|);
  }

  /** The only pair that can match decides. */
  lemma Only(b: Bucket, key: string, i: nat)
    requires i < |b| && forall j :: 0 <= j < |b| && j != i ==> !Matches(b[j], key)
    ensures Find(b, key, 0) == if Matches(b[i], key) then i else |b|
  {
  }

  lemma Same(b: Bucket, b': Bucket, key: string)
    requires |b'| == |b| && forall j :: 0 <= j < |b| ==> b'[j] == b[j] || (!Matches(b[j], key) && !Matches(b'[j], key))
    ensures Lookup(b', key) == Lookup(b, key)
  {
    var i, i' := Find(b, key, 0), Find(b', key, 0);
    assert i < |b| ==> Matches(b[i], key);
    assert i' < |b| ==> Matches(b'[i'], key);
  }

  lemma Longer(b: Bucket, b': Bucket, key: string)
    requires |b'| == |b| + 1 && b'[..|b|] == b && !Matches(b'[|b|], key)
    ensures Lookup(b', key) == Lookup(b, key)
  {
    var i, i' := Find(b, key, 0), Find(b', key, 0);
    assert forall j :: 0 <= j < |b| ==> b'[j] == b[j];
  }

  /** A buffer with this string in it, and room for it. */
  predicate Holds(v: Value, text: string) { v.Text? && v.chars == text && |text| < v.room }

  /** A lookup finds what the table stands for. */
  ghost predicate Agrees(bs: seq<Bucket>, n: nat, hash: string -> nat, m: map<string, Value>, key: string) {
    n > 0 && |bs| == n && Lookup(bs[hash(key) % n], key) == if key in m then Some(m[key]) else None
  }

  /** One bucket changes, and for one key only. */
  lemma OneKey(bs: seq<Bucket>, bs': seq<Bucket>, n: nat, hash: string -> nat, m: map<string, Value>, m': map<string, Value>, key: string)
    requires |bs| == n == |bs'| && n > 0 && (forall k: string :: Agrees(bs, n, hash, m, k)) && m' - {key} == m - {key}
    requires Agrees(bs', n, hash, m', key)
    requires var i := hash(key) % n; bs' == bs[i := bs'[i]] && forall k :: k != key ==> Lookup(bs'[i], k) == Lookup(bs[i], k)
    ensures forall k: string :: Agrees(bs', n, hash, m', k)
  {
    forall k: string ensures Agrees(bs', n, hash, m', k) {
      if k != key {
        assert Agrees(bs, n, hash, m, k);
        assert k in m' <==> k in m' - {key};
        assert k in m <==> k in m - {key};
        assert k in m ==> m[k] == (m - {key})[k];
        assert k in m' ==> m'[k] == (m' - {key})[k];
      }
    }
  }

  /** A table of n buckets. */
  class StringMap {
    const n: nat
    const hash: string -> nat
    var buckets: seq<Bucket>
    ghost var contents: map<string, Value>   // what the table stands for
    ghost var dead: nat                      // pairs that became dead

    ghost predicate Valid()
      reads this
    {
      && |buckets| == n > 0 && (forall i :: 0 <= i < n ==> BucketOk(buckets[i]))
      && (forall key: string :: Agrees(buckets, n, hash, contents, key))
      && Total(buckets) == |contents| + dead
    }

    /** sm_new */
    constructor (n: nat, hash: string -> nat)
      requires n > 0
      ensures Valid() && contents == map[] && dead == 0 && this.n == n && this.hash == hash
    {
      this.n, this.hash := n, hash;
      buckets := seq(n, _ => []);
      contents, dead := map[], 0;
      new;
      Empty(buckets);
    }

    /** get_pair */
    method GetPair(b: Bucket, key: string) returns (i: nat)
      ensures i == Find(b, key, 0)
    {
      i := 0;
      while i < |b|
        invariant i <= |b| && Find(b, key, i) == Find(b, key, 0)
      {
        if b[i].key.Some? && b[i].value.Some? {
          if b[i].key.value == key { return; }
        }
        i := i + 1;
      }
    }

    /** sm_get_ptrvalue */
    method Get(key: string) returns (value: Option<Value>)
      requires Valid()
      ensures value == if key in contents then Some(contents[key]) else None
    {
      assert Agrees(buckets, n, hash, contents, key);
      var b := buckets[hash(key) % n];
      var i := GetPair(b, key);
      value := if i == |b| then None else b[i].value;
    }

    /** sm_get, for a table of strings: without a buffer it says how long one must be, and
        with one it copies the string if it fits. */
    method GetText(key: string, buffer: bool, size: nat) returns (code: nat, text: Option<string>)
      requires Valid() && (key in contents ==> contents[key].Text?)
      ensures text.Some? <==> key in contents && buffer && |contents[key].chars| < size
      ensures text.Some? ==> text.value == contents[key].chars && code == 1
      ensures text.None? ==> code == if key in contents && !buffer && size == 0 then |contents[key].chars| + 1 else 0
    {
      var v := Get(key);
      if v.None? { return 0, None; }
      if !buffer && size == 0 { return |v.value.chars| + 1, None; }
      if !buffer || |v.value.chars| >= size { return 0, None; }
      return 1, Some(v.value.chars);
    }

    /** One pair gets another value; what else the table holds stays. */
    method SetValue(key: string, i: nat, v: Value)
      requires Valid() && Fits(Pair(Some(key), Some(v)))
      requires i < |buckets[hash(key) % n]| && i == Find(buckets[hash(key) % n], key, 0)
      modifies this
      ensures Valid() && key in old(contents) && contents == old(contents)[key := v] && dead == old(dead)
    {
      ghost var index, was, bs := hash(key) % n, contents, buckets;
      assert Agrees(buckets, n, hash, contents, key);
      var p := Pair(Some(key), Some(v));
      Changed(buckets[index], i, p, key);
      TotalChange(buckets, index, buckets[index][i := p]);
      buckets := buckets[hash(key) % n := buckets[hash(key) % n][i := p]];
      contents := contents[key := v];
      assert contents.Keys == was.Keys;
      OneKey(bs, buckets, n, hash, was, contents, key);
    }

    /** One pair becomes a tombstone. */
    method Bury(key: string, i: nat, p: Pair)
      requires Valid() && !Live(p) && Fits(p) && (p.key == Some(key) || p.key == None)
      requires i < |buckets[hash(key) % n]| && i == Find(buckets[hash(key) % n], key, 0)
      modifies this
      ensures Valid() && key in old(contents) && contents == old(contents) - {key} && dead == old(dead) + 1
    {
      ghost var index, was, bs := hash(key) % n, contents, buckets;
      assert Agrees(buckets, n, hash, contents, key);
      Changed(buckets[index], i, p, key);
      TotalChange(buckets, index, buckets[index][i := p]);
      buckets := buckets[hash(key) % n := buckets[hash(key) % n][i := p]];
      contents := contents - {key};
      dead := dead + 1;
      assert was.Keys == contents.Keys + {key};
      OneKey(bs, buckets, n, hash, was, contents, key);
    }

    /** One pair more. */
    method Append(key: string, p: Pair)
      requires Valid() && Fits(p) && p.key == Some(key) && key !in contents
      modifies this
      ensures Valid()
      ensures contents == if Live(p) then old(contents)[key := p.value.value] else old(contents)
      ensures dead == old(dead) + (if Live(p) then 0 else 1)
    {
      ghost var index, was, bs := hash(key) % n, contents, buckets;
      assert Agrees(buckets, n, hash, contents, key);
      Added(buckets[index], p, key);
      TotalChange(buckets, index, buckets[index] + [p]);
      buckets := buckets[hash(key) % n := buckets[hash(key) % n] + [p]];
      contents := if Live(p) then contents[key := p.value.value] else contents;
      dead := dead + (if Live(p) then 0 else 1);
      assert Live(p) ==> contents.Keys == was.Keys + {key};
      OneKey(bs, buckets, n, hash, was, contents, key);
    }

    /** sm_remove_ptrvalue */
    method Remove(key: string)
      requires Valid()
      modifies this
      ensures Valid() && contents == old(contents) - {key} && dead == old(dead) + (if key in old(contents) then 1 else 0)
    {
      assert Agrees(buckets, n, hash, contents, key);
      var b := buckets[hash(key) % n];
      var i := GetPair(b, key);
      if i == |b| { return; }
      Bury(key, i, Pair(None, None));
    }

    /** sm_put_ptrvalue; `keyRoom` and `pairRoom` say whether memory could be had. */
    method PutPtr(key: string, value: Option<nat>, keyRoom: bool, pairRoom: bool) returns (ok: bool)
      requires Valid()
      modifies this
      ensures Valid() && ok == (key in old(contents) || (keyRoom && pairRoom))
      ensures contents == if !ok then old(contents) else if value.Some? then old(contents)[key := Ptr(value.value)] else old(contents) - {key}
      ensures dead == old(dead) + (if ok && value.None? then 1 else 0)
    {
      assert Agrees(buckets, n, hash, contents, key);
      var b := buckets[hash(key) % n];
      var v := if value.Some? then Some(Ptr(value.value)) else None;
      var i := GetPair(b, key);
      if i < |b| {
        if v.Some? { SetValue(key, i, v.value); } else { Bury(key, i, b[i].(value := None)); }
        return true;
      }
      if !keyRoom || !pairRoom { return false; }
      Append(key, Pair(Some(key), v));
      return true;
    }

    /** sm_put, for a table of strings; the buffer of a longer string is enlarged, that of
        a shorter one kept.  `room` says whether memory could be had. */
    method Put(key: string, value: string, keyRoom: bool, valueRoom: bool, pairRoom: bool) returns (ok: bool)
      requires Valid() && (key in contents ==> contents[key].Text?)
      modifies this
      ensures Valid() && dead == old(dead)
      ensures ok == if key in old(contents) then |old(contents)[key].chars| >= |value| || valueRoom else keyRoom && valueRoom && pairRoom
      ensures ok ==> key in contents && contents == old(contents)[key := contents[key]] && Holds(contents[key], value)
      ensures !ok ==> contents == old(contents)
    {
      assert Agrees(buckets, n, hash, contents, key);
      var b := buckets[hash(key) % n];
      var i := GetPair(b, key);
      if i < |b| {
        var buffer := b[i].value.value;
        assert Fits(b[i]);
        if |buffer.chars| < |value| {
          if !valueRoom { return false; }
          buffer := buffer.(room := |value| + 1);
        }
        SetValue(key, i, buffer.(chars := value));
        return true;
      }
      if !keyRoom || !valueRoom || !pairRoom { return false; }
      Append(key, Pair(Some(key), Some(Text(value, |value| + 1))));
      return true;
    }

    /** sm_get_count: the live keys, and every pair that ever became dead. */
    method GetCount() returns (count: nat)
      requires Valid()
      ensures count == |contents| + dead
    {
      count := 0;
      var i := 0;
      while i < n
        invariant i <= n && count == Total(buckets[..i])
      {
        TotalUpto(buckets, i);
        var j := 0;
        ghost var before := count;
        while j < |buckets[i]|
          invariant j <= |buckets[i]| && count == before + j
        {
          count := count + 1;
          j := j + 1;
        }
        i := i + 1;
      }
      assert buckets[..n] == buckets;
    }
  }

  lemma {:induction false} Empty(bs: seq<Bucket>)
    requires forall i :: 0 <= i < |bs| ==> bs[i] == []
    ensures Total(bs) == 0
  {
    if bs != [] { Empty(bs[1..]); }
  }
}
