/** Sequences of addresses that stand for linked lists. */
module Lists {

  ghost predicate NoRepeats(q: seq<nat>) {
    forall i, j :: 0 <= i < j < |q| ==> q[i] != q[j]
  }

  function Without(q: seq<nat>, h: nat): seq<nat> {
    if q == [] then [] else if q[0] == h then q[1..] else [q[0]] + Without(q[1..], h)
  }

  /** Removing an element leaves the others in their order. */
  lemma {:induction false} WithoutSplit(q: seq<nat>, h: nat) returns (k: nat)
    requires h in q
    ensures k < |q| && q[k] == h && Without(q, h) == q[..k] + q[k + 1..]
  {
    if q[0] == h {
      k := 0;
    } else {
      k := WithoutSplit(q[1..], h);
      k := k + 1;
      assert [q[0]] + (q[1..][..k - 1] + q[1..][k..]) == q[..k] + q[k + 1..];
    }
  }

  /** Where the i-th remaining element was. */
  lemma WithoutAt(q: seq<nat>, h: nat, k: nat, i: nat)
    requires k < |q| && Without(q, h) == q[..k] + q[k + 1..] && i < |q| - 1
    ensures Without(q, h)[i] == q[if i < k then i else i + 1]
  {
  }

  lemma WithoutRepeats(q: seq<nat>, h: nat)
    requires h in q && NoRepeats(q)
    ensures NoRepeats(Without(q, h)) && |Without(q, h)| == |q| - 1 && h !in Without(q, h)
  {
    var k := WithoutSplit(q, h);
    var r := Without(q, h);
    forall i, j | 0 <= i < j < |r| ensures r[i] != r[j] {
      WithoutAt(q, h, k, i);
      WithoutAt(q, h, k, j);
    }
    forall i | 0 <= i < |r| ensures r[i] != h {
      WithoutAt(q, h, k, i);
    }
  }

  lemma {:induction false} WithoutMember(q: seq<nat>, h: nat, g: nat)
    ensures g in Without(q, h) ==> g in q
    ensures g in q && g != h ==> g in Without(q, h)
  {
    if q != [] && q[0] != h { WithoutMember(q[1..], h, g); }
  }

  lemma WithoutLast(q: seq<nat>)
    requires q != [] && NoRepeats(q)
    ensures Without(q, q[|q| - 1]) == q[..|q| - 1]
  {
    var h := q[|q| - 1];
    var k := WithoutSplit(q, h);
    assert k == |q| - 1;
  }
}
