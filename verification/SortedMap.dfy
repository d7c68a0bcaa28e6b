/** A BTreeMap keyed by strings, as far as its iteration order goes. */
module SortedMap {
  import opened Text

  predicate IsLeast(k: string, s: set<string>) {
    k in s && forall x :: x in s ==> x == k || Less(k, x)
  }

  lemma {:induction false} LeastExists(s: set<string>)
    requires s != {}
    ensures exists k :: k in s && IsLeast(k, s)
    decreases |s|
  {
    var x :| x in s;
    if s == {x} {
      assert IsLeast(x, s);
    } else {
      LeastExists(s - {x});
      var k :| k in s - {x} && IsLeast(k, s - {x});
      LessIsStrictOrder(k, x, "");
      if Less(k, x) {
        assert IsLeast(k, s);
      } else {
        forall y | y in s ensures y == x || Less(x, y) {
          LessIsStrictOrder(x, k, y);
        }
        assert IsLeast(x, s);
      }
    }
  }

  lemma LeastIsUnique(s: set<string>, j: string, k: string)
    requires IsLeast(j, s) && IsLeast(k, s)
    ensures j == k
  {
    LessIsStrictOrder(j, k, j);
  }

  function Least(s: set<string>): (k: string)
    requires s != {}
    ensures IsLeast(k, s)
  {
    LeastExists(s);
    assert forall j, k :: IsLeast(j, s) && IsLeast(k, s) ==> j == k by {
      forall j, k | IsLeast(j, s) && IsLeast(k, s) ensures j == k {
        LeastIsUnique(s, j, k);
      }
    }
    var k :| k in s && IsLeast(k, s);
    k
  }

  predicate Ascending(keys: seq<string>) {
    forall i, j :: 0 <= i < j < |keys| ==> Less(keys[i], keys[j])
  }

  function KeysInOrder(s: set<string>): (keys: seq<string>)
    ensures |keys| == |s|
    ensures forall k :: k in keys <==> k in s
    ensures Ascending(keys)
    decreases |s|
  {
    if s == {} then []
    else
      var k := Least(s);
      [k] + KeysInOrder(s - {k})
  }

  function Lookup<V>(m: map<string, V>, keys: seq<string>): (values: seq<V>)
    requires forall k :: k in keys ==> k in m
    ensures |values| == |keys|
  {
    seq(|keys|, i requires 0 <= i < |keys| => m[keys[i]])
  }

  /** into_values and values: the values in ascending key order. */
  function Values<V>(m: map<string, V>): (values: seq<V>) {
    Lookup(m, KeysInOrder(m.Keys))
  }

  lemma AscendingIsDistinct(keys: seq<string>, i: nat, j: nat)
    requires Ascending(keys) && i < j < |keys|
    ensures keys[i] != keys[j]
  {
    LessIsStrictOrder(keys[i], keys[i], keys[i]);
  }
}
