/** Byte order on strings and the ordered list of a set: `slices.Sorted(maps.Keys(m))`. */
module OrderedKeys {

  predicate Before(a: string, b: string) {
    if b == "" then false
    else if a == "" then true
    else a[0] < b[0] || (a[0] == b[0] && Before(a[1..], b[1..]))
  }

  predicate Ordered(keys: seq<string>) {
    forall i, j :: 0 <= i < j < |keys| ==> Before(keys[i], keys[j])
  }

  lemma {:induction false} Total(a: string, b: string)
    ensures a == b || Before(a, b) || Before(b, a)
    decreases |a|
  {
    if a != "" && b != "" && a[0] == b[0] {
      Total(a[1..], b[1..]);
      assert a == [a[0]] + a[1..] && b == [b[0]] + b[1..];
    }
  }

  lemma {:induction false} Asymmetric(a: string, b: string)
    ensures !(Before(a, b) && Before(b, a))
    decreases |a|
  {
    if a != "" && b != "" && a[0] == b[0] { Asymmetric(a[1..], b[1..]); }
  }

  lemma {:induction false} Transitive(a: string, b: string, c: string)
    requires Before(a, b) && Before(b, c)
    ensures Before(a, c)
    decreases |a|
  {
    if a != "" && b != "" && c != "" && a[0] == b[0] == c[0] { Transitive(a[1..], b[1..], c[1..]); }
  }

  /** Puts a new key at its place. */
  function Insert(key: string, keys: seq<string>): (r: seq<string>)
    ensures |r| == |keys| + 1
    ensures forall k :: k in r <==> k == key || k in keys
  {
    if keys == [] then [key]
    else if Before(key, keys[0]) then [key] + keys
    else
      var rest := Insert(key, keys[1..]);
      assert keys == [keys[0]] + keys[1..];
      [keys[0]] + rest
  }

  lemma {:induction false} InsertKeepsOrder(key: string, keys: seq<string>)
    requires Ordered(keys) && key !in keys
    ensures Ordered(Insert(key, keys))
    decreases |keys|
  {
    if keys != [] {
      if Before(key, keys[0]) {
        forall i | 0 < i < |keys| ensures Before(key, keys[i]) {
          Transitive(key, keys[0], keys[i]);
        }
      } else {
        Total(key, keys[0]);
        InsertKeepsOrder(key, keys[1..]);
        var rest := Insert(key, keys[1..]);
        forall i | 0 <= i < |rest| ensures Before(keys[0], rest[i]) {
          assert rest[i] == key || rest[i] in keys[1..];
        }
      }
    }
  }

  /** Two ordered lists of the same keys are the same list. */
  lemma {:induction false} OrderedUnique(a: seq<string>, b: seq<string>)
    requires Ordered(a) && Ordered(b) && forall k :: k in a <==> k in b
    ensures a == b
    decreases |a|
  {
    assert b != [] ==> b[0] in b;
    if a != [] {
      assert a[0] in b;
      var i :| 0 <= i < |b| && b[i] == a[0];
      assert b[0] in a;
      var j :| 0 <= j < |a| && a[j] == b[0];
      Asymmetric(a[0], b[0]);
      assert a[0] == b[0];
      forall k ensures k in a[1..] <==> k in b[1..] {
        SameTail(a, b, k);
        SameTail(b, a, k);
      }
      OrderedUnique(a[1..], b[1..]);
      assert a == [a[0]] + a[1..] && b == [b[0]] + b[1..];
    }
  }

  lemma SameTail(a: seq<string>, b: seq<string>, k: string)
    requires a != [] && b != [] && a[0] == b[0] && Ordered(a)
    requires k in a ==> k in b
    ensures k in a[1..] ==> k in b[1..]
  {
    if k in a[1..] {
      var i :| 0 <= i < |a[1..]| && a[1..][i] == k;
      assert Before(a[0], a[i + 1]);
      Asymmetric(k, k);
      assert k in b && k != b[0];
      assert b == [b[0]] + b[1..];
    }
  }

  /** The ordered list of a set of keys. */
  ghost function KeyList(keys: set<string>): (r: seq<string>)
    ensures Ordered(r) && forall k :: k in r <==> k in keys
  {
    if keys == {} then []
    else
      var key :| key in keys;
      InsertKeepsOrder(key, KeyList(keys - {key}));
      Insert(key, KeyList(keys - {key}))
  }

  /** Sorting visits the keys in any order and always returns the one ordered list. */
  method SortedKeys(keys: set<string>) returns (list: seq<string>)
    ensures list == KeyList(keys)
  {
    list := [];
    var rest := keys;
    while rest != {}
      invariant rest <= keys && Ordered(list)
      invariant forall k :: k in list <==> k in keys - rest
      decreases |rest|
    {
      var key :| key in rest;
      InsertKeepsOrder(key, list);
      list := Insert(key, list);
      rest := rest - {key};
    }
    OrderedUnique(list, KeyList(keys));
  }
}
