/** Lists turned into maps by the key of their elements. */
module Indexing {

  ghost predicate Indexed<T>(key: T -> string, items: seq<T>, index: map<string, T>)
  {
    && (forall i :: 0 <= i < |items| ==> key(items[i]) in index && index[key(items[i])] == items[i])
    && (forall k :: k in index ==> index[k] in items && key(index[k]) == k)
  }

  lemma IndexedStep<T>(key: T -> string, items: seq<T>, k: nat, index: map<string, T>)
    requires k < |items| && Indexed(key, items[..k], index) && key(items[k]) !in index
    ensures Indexed(key, items[..k + 1], index[key(items[k]) := items[k]])
  {
    var now, next := items[..k + 1], index[key(items[k]) := items[k]];
    assert now == items[..k] + [items[k]];
    forall i | 0 <= i < |now| ensures key(now[i]) in next && next[key(now[i])] == now[i] {
      if i < k {
        assert key(items[..k][i]) in index;
      }
    }
  }

  lemma IndexedHas<T>(key: T -> string, items: seq<T>, k: nat, index: map<string, T>, x: string)
    requires k <= |items| && Indexed(key, items[..k], index)
    ensures x in index <==> exists i :: 0 <= i < k && key(items[i]) == x
  {
    if x in index {
      var i :| 0 <= i < k && items[..k][i] == index[x];
      assert key(items[i]) == x;
    }
    if i :| 0 <= i < k && key(items[i]) == x {
      assert key(items[..k][i]) in index;
    }
  }
}

/** Grants by key: what the agent accepts from the broker before it touches an object. */
module Grants {
  import opened Bytes
  import opened Indexing
  import opened Counting

  datatype Method = Get | Put | Other

  datatype Grant = Grant(key: string, verb: Method, url: string)

  function KeySet(keys: seq<string>): set<string>
  {
    set key | key in keys
  }

  /** Every grant has the demanded method and an expected key, and no key is granted twice. */
  ghost predicate Orderly(grants: seq<Grant>, allowed: set<string>, verb: Method)
  {
    && (forall i :: 0 <= i < |grants| ==> grants[i].verb == verb && grants[i].key in allowed)
    && (forall i, j :: 0 <= i < j < |grants| ==> grants[i].key != grants[j].key)
  }

  function KeyOf(g: Grant): string
  {
    g.key
  }

  /** `grantsByKeySubset`. */
  method GrantsByKeySubset(grants: seq<Grant>, keys: seq<string>, verb: Method) returns (r: Result<map<string, Grant>>)
    ensures r.Ok? <==> Orderly(grants, KeySet(keys), verb)
    ensures r.Ok? ==> Indexed(KeyOf, grants, r.value) && |r.value| == |grants|
  {
    hide Indexed;
    var allowed := KeySet(keys);
    var byKey: map<string, Grant> := map[];
    assert Indexed(KeyOf, grants[..0], byKey) by {
      NothingIndexed(grants);
    }
    for k := 0 to |grants|
      invariant forall i :: 0 <= i < k ==> grants[i].verb == verb && grants[i].key in allowed
      invariant forall i, j :: 0 <= i < j < k ==> grants[i].key != grants[j].key
      invariant Indexed(KeyOf, grants[..k], byKey) && |byKey| == k
    {
      var g := grants[k];
      IndexedHas(KeyOf, grants, k, byKey, g.key);
      if g.verb != verb || g.key !in allowed {
        return Failed;
      }
      if g.key in byKey {
        var i :| 0 <= i < k && KeyOf(grants[i]) == g.key;
        assert grants[i].key == grants[k].key;
        return Failed;
      }
      forall i | 0 <= i < k ensures grants[i].key != g.key {
        assert KeyOf(grants[i]) == grants[i].key;
      }
      IndexedStep(KeyOf, grants, k, byKey);
      byKey := byKey[g.key := g];
    }
    assert grants[..|grants|] == grants;
    return Ok(byKey);
  }

  lemma NothingIndexed(grants: seq<Grant>)
    ensures Indexed(KeyOf, grants[..0], map[])
  {
  }

  /** `grantsByKey`: as many grants as keys. */
  method GrantsByKey(grants: seq<Grant>, keys: seq<string>, verb: Method) returns (r: Result<map<string, Grant>>)
    ensures r.Ok? <==> Orderly(grants, KeySet(keys), verb) && |grants| == |keys|
    ensures r.Ok? ==> Indexed(KeyOf, grants, r.value)
  {
    var byKey := GrantsByKeySubset(grants, keys, verb);
    if byKey.Failed? || |byKey.value| != |keys| {
      return Failed;
    }
    return byKey;
  }

  ghost predicate Distinct(keys: seq<string>)
  {
    forall i, j :: 0 <= i < j < |keys| ==> keys[i] != keys[j]
  }

  lemma {:induction false} KeyCount(keys: seq<string>)
    ensures var all := KeySet(keys); |all| <= |keys| && (|all| == |keys| ==> Distinct(keys))
  {
    if keys != [] {
      var most, last := keys[..|keys| - 1], keys[|keys| - 1];
      var before := KeySet(most);
      KeyCount(most);
      assert keys == most + [last];
      assert KeySet(keys) == before + {last};
      if last in before {
        assert before + {last} == before;
      }
    }
  }

  /** Counting is enough: accepted grants cover every key, and the keys were distinct. */
  lemma GrantsCoverKeys(grants: seq<Grant>, keys: seq<string>, verb: Method, byKey: map<string, Grant>)
    requires Orderly(grants, KeySet(keys), verb) && |grants| == |keys| && Indexed(KeyOf, grants, byKey) && |byKey| == |grants|
    ensures byKey.Keys == KeySet(keys) && Distinct(keys)
  {
    var all := KeySet(keys);
    KeyCount(keys);
    assert byKey.Keys <= all by {
      forall key | key in byKey ensures key in all {
        var i :| 0 <= i < |grants| && grants[i] == byKey[key];
      }
    }
    assert |byKey.Keys| == |byKey|;
    SubsetSmaller(byKey.Keys, all);
    SubsetOfSameSize(byKey.Keys, all);
  }
}
