/** Python's `sorted` on a set of strings: code-point order, shortest first. */
module Keys {
  import opened Common

  predicate Less(a: string, b: string) {
    if b == "" then false
    else if a == "" then true
    else a[0] < b[0] || (a[0] == b[0] && Less(a[1..], b[1..]))
  }

  lemma {:induction false} LessIsTransitive(a: string, b: string, c: string)
    requires Less(a, b) && Less(b, c)
    ensures Less(a, c)
  {
    if a != "" && a[0] == b[0] == c[0] {
      LessIsTransitive(a[1..], b[1..], c[1..]);
    }
  }

  lemma {:induction false} LessIsTotal(a: string, b: string)
    ensures Less(a, b) || a == b || Less(b, a)
    ensures !(Less(a, b) && Less(b, a)) && !Less(a, a)
  {
    if a != "" { assert a == [a[0]] + a[1..]; LessIsTotal(a[1..], a[1..]); }
    if a != "" && b != "" {
      assert b == [b[0]] + b[1..];
      LessIsTotal(a[1..], b[1..]);
    }
  }

  predicate IsFirst(k: string, keys: set<string>) {
    k in keys && forall x :: x in keys && x != k ==> Less(k, x)
  }

  lemma {:induction false} FirstExists(keys: set<string>)
    requires keys != {}
    ensures exists k :: IsFirst(k, keys)
  {
    var x :| x in keys;
    if keys == {x} {
      assert IsFirst(x, keys);
    } else {
      FirstExists(keys - {x});
      var k :| IsFirst(k, keys - {x});
      LessIsTotal(k, x);
      if Less(k, x) {
        assert IsFirst(k, keys);
      } else {
        forall y | y in keys && y != x ensures Less(x, y) {
          if y != k { LessIsTransitive(x, k, y); }
        }
        assert IsFirst(x, keys);
      }
    }
  }

  function First(keys: set<string>): (k: string)
    requires keys != {}
    ensures IsFirst(k, keys)
  {
    FirstExists(keys);
    assert forall a, b | IsFirst(a, keys) && IsFirst(b, keys) :: a == b by {
      forall a, b | IsFirst(a, keys) && IsFirst(b, keys) ensures a == b {
        LessIsTotal(a, b);
      }
    }
    var k :| k in keys && IsFirst(k, keys);
    k
  }

  /** The keys in order, each once. */
  function Sorted(keys: set<string>): (r: seq<string>)
    ensures forall k :: k in r <==> k in keys
    ensures NoRepeats(r)
    ensures forall i, j :: 0 <= i < j < |r| ==> Less(r[i], r[j])
  {
    if keys == {} then [] else var k := First(keys); [k] + Sorted(keys - {k})
  }

  /** The order is the one of dictionaries: at the first difference the smaller character
      decides, and a text that ends there comes first. */
  lemma {:induction false} FirstDifferenceDecides(common: string, c: char, x: string, d: char, y: string)
    requires c < d
    ensures Less(common + [c] + x, common + [d] + y) && Less(common, common + [d] + y)
    decreases |common|
  {
    var a, b := common + [c] + x, common + [d] + y;
    if common != "" {
      assert a[1..] == common[1..] + [c] + x && b[1..] == common[1..] + [d] + y;
      FirstDifferenceDecides(common[1..], c, x, d, y);
    }
  }
}
