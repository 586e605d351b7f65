/** The iteration order of std::map<std::string, T>: keys in increasing lexicographic order. */
module Ordering {
  predicate Less(a: string, b: string) {
    b != [] && (a == [] || a[0] < b[0] || (a[0] == b[0] && Less(a[1..], b[1..])))
  }

  lemma {:induction false} LessIsStrict(a: string, b: string)
    ensures Less(a, b) ==> !Less(b, a)
    ensures a == b || Less(a, b) || Less(b, a)
  {
    if a != [] && b != [] && a[0] == b[0] {
      LessIsStrict(a[1..], b[1..]);
      assert a == [a[0]] + a[1..] && b == [b[0]] + b[1..];
    }
  }

  lemma {:induction false} LessIsTransitive(a: string, b: string, c: string)
    requires Less(a, b) && Less(b, c)
    ensures Less(a, c)
  {
    if a != [] && a[0] == b[0] && b[0] == c[0] {
      LessIsTransitive(a[1..], b[1..], c[1..]);
    }
  }

  /** Two texts agree on their first k characters, and there the first ends or has the smaller character. */
  predicate DifferAt(a: string, b: string, k: nat) {
    k <= |a| && k < |b| && a[..k] == b[..k] && (k == |a| || a[k] < b[k])
  }

  /** The order of std::string. */
  lemma {:induction false} LessIsLexicographic(a: string, b: string)
    ensures Less(a, b) <==> exists k: nat :: DifferAt(a, b, k)
  {
    if Less(a, b) {
      if a == [] || a[0] < b[0] {
        assert DifferAt(a, b, 0);
      } else {
        LessIsLexicographic(a[1..], b[1..]);
        var k: nat :| DifferAt(a[1..], b[1..], k);
        assert a[..k + 1] == [a[0]] + a[1..][..k] && b[..k + 1] == [b[0]] + b[1..][..k];
        assert DifferAt(a, b, k + 1);
      }
    }
    if k: nat :| DifferAt(a, b, k) {
      if k > 0 {
        assert a[0] == a[..k][0] && b[0] == b[..k][0];
        assert a[1..][..k - 1] == a[..k][1..] && b[1..][..k - 1] == b[..k][1..];
        assert DifferAt(a[1..], b[1..], k - 1);
        LessIsLexicographic(a[1..], b[1..]);
      }
    }
  }

  predicate IsSmallest(x: string, keys: set<string>) {
    x in keys && forall y :: y in keys && y != x ==> Less(x, y)
  }

  lemma {:induction false} SmallestExists(keys: set<string>) returns (x: string)
    requires keys != {}
    ensures IsSmallest(x, keys)
    decreases |keys|
  {
    var k :| k in keys;
    var others := keys - {k};
    if others == {} {
      assert keys == {k};
      return k;
    }
    x := SmallestExists(others);
    LessIsStrict(x, k);
    if Less(k, x) {
      forall y | y in keys && y != k ensures Less(k, y) {
        if y != x {
          LessIsTransitive(k, x, y);
        }
      }
      x := k;
    }
  }

  /** The key std::map::begin() points at. */
  function Smallest(keys: set<string>): (x: string)
    requires keys != {}
    ensures IsSmallest(x, keys)
  {
    assert exists x :: IsSmallest(x, keys) by {
      var x := SmallestExists(keys);
    }
    assert forall x, y :: IsSmallest(x, keys) && IsSmallest(y, keys) ==> x == y by {
      forall x, y | IsSmallest(x, keys) && IsSmallest(y, keys) ensures x == y {
        LessIsStrict(x, y);
      }
    }
    var x :| IsSmallest(x, keys);
    x
  }

  predicate Increasing(order: seq<string>) {
    forall i, j :: 0 <= i < j < |order| ==> Less(order[i], order[j])
  }

  ghost predicate IsOrder(order: seq<string>, keys: set<string>) {
    Increasing(order) && forall k :: k in order <==> k in keys
  }

  /** All keys, in the order a range-based for visits them. */
  ghost function InOrder(keys: set<string>): (order: seq<string>)
    ensures IsOrder(order, keys)
  {
    assert exists order :: IsOrder(order, keys) by {
      var order := OrderExists(keys);
    }
    var order :| IsOrder(order, keys);
    order
  }

  lemma PrependSmallest(first: string, rest: seq<string>, keys: set<string>)
    requires IsSmallest(first, keys) && IsOrder(rest, keys - {first})
    ensures IsOrder([first] + rest, keys)
  {
    var order := [first] + rest;
    forall i, j | 0 <= i < j < |order| ensures Less(order[i], order[j]) {
      assert order[j] == rest[j - 1] && rest[j - 1] in rest;
    }
  }

  lemma {:induction false} OrderExists(keys: set<string>) returns (order: seq<string>)
    ensures IsOrder(order, keys)
    decreases |keys|
  {
    if keys == {} {
      order := [];
    } else {
      var first := Smallest(keys);
      var rest := OrderExists(keys - {first});
      PrependSmallest(first, rest, keys);
      order := [first] + rest;
    }
  }

  lemma OrderHead(order: seq<string>, keys: set<string>)
    requires IsOrder(order, keys) && order != []
    ensures IsSmallest(order[0], keys) && IsOrder(order[1..], keys - {order[0]})
  {
    assert order[0] in order;
    forall y | y in keys && y != order[0] ensures Less(order[0], y) {
      assert y in order;
    }
    forall k ensures k in order[1..] <==> k in keys - {order[0]} {
      assert k in order <==> k == order[0] || k in order[1..];
      if k == order[0] && k in order[1..] {
        LessIsStrict(k, k);
      }
    }
  }

  lemma {:induction false} OrderIsUnique(a: seq<string>, b: seq<string>, keys: set<string>)
    requires IsOrder(a, keys) && IsOrder(b, keys)
    ensures a == b
    decreases |a|
  {
    if a != [] {
      assert a[0] in a;
    }
    if b != [] {
      assert b[0] in b;
    }
    if a != [] && b != [] {
      OrderHead(a, keys);
      OrderHead(b, keys);
      LessIsStrict(a[0], b[0]);
      OrderIsUnique(a[1..], b[1..], keys - {a[0]});
      assert a == [a[0]] + a[1..] && b == [b[0]] + b[1..];
    }
  }

  lemma IncreasingIsDistinct(order: seq<string>, i: nat, j: nat)
    requires Increasing(order) && i < j < |order|
    ensures order[i] != order[j]
  {
    LessIsStrict(order[i], order[j]);
  }

  /** Visit the keys of a std::map. */
  method Visit(keys: set<string>) returns (order: seq<string>)
    ensures order == InOrder(keys)
    decreases |keys|
  {
    if keys == {} {
      order := [];
    } else {
      var first := Smallest(keys);
      var rest := Visit(keys - {first});
      PrependSmallest(first, rest, keys);
      order := [first] + rest;
    }
    OrderIsUnique(order, InOrder(keys), keys);
  }
}
