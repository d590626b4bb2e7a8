/**
 A sled tree: key/value pairs held in strictly ascending key order, which is the
 order in which the stores scan them.
 */
module SledTree {
  import opened Sequences
  import Lex

  datatype Entry<+V> = Entry(key: string, value: V)

  type Tree<+V> = seq<Entry<V>>

  ghost predicate Ascending<V>(t: Tree<V>) {
    forall i, j :: 0 <= i < j < |t| ==> Lex.Less(t[i].key, t[j].key)
  }

  predicate HasKey<V>(t: Tree<V>, k: string) {
    exists i :: 0 <= i < |t| && t[i].key == k
  }

  function Get<V>(t: Tree<V>, k: string): (r: Option<V>)
    ensures r.Some? <==> HasKey(t, k)
    ensures r.Some? ==> Entry(k, r.value) in t
  {
    if t == [] then None
    else if t[0].key == k then assert t[0] in t; Some(t[0].value)
    else
      assert forall i :: 0 < i < |t| ==> t[i] == t[1..][i - 1];
      Get(t[1..], k)
  }

  /** Insert or overwrite. */
  function Put<V>(t: Tree<V>, k: string, v: V): Tree<V> {
    if t == [] || Lex.Less(k, t[0].key) then [Entry(k, v)] + t
    else if t[0].key == k then [Entry(k, v)] + t[1..]
    else [t[0]] + Put(t[1..], k, v)
  }

  function KeyIsNot<V>(k: string): Entry<V> -> bool {
    (e: Entry<V>) => e.key != k
  }

  function KeyNotIn<V>(keys: seq<string>): Entry<V> -> bool {
    (e: Entry<V>) => e.key !in keys
  }

  function Remove<V>(t: Tree<V>, k: string): Tree<V> {
    Filter(KeyIsNot(k), t)
  }

  function Keys<V>(t: seq<Entry<V>>): seq<string> {
    Map((e: Entry<V>) => e.key, t)
  }

  function Values<V>(t: Tree<V>): seq<V> {
    Map((e: Entry<V>) => e.value, t)
  }

  // ------------------------------------------------------------------ laws

  lemma AscendingDistinct<V>(t: Tree<V>, i: nat, j: nat)
    requires Ascending(t) && i < |t| && j < |t| && t[i].key == t[j].key
    ensures i == j
  {
    Lex.Irreflexive(t[i].key);
  }

  lemma PutMember<V>(t: Tree<V>, k: string, v: V, e: Entry<V>)
    requires Ascending(t)
    ensures e in Put(t, k, v) <==> e == Entry(k, v) || (e in t && e.key != k)
  {
    if t == [] {
    } else if Lex.Less(k, t[0].key) {
      forall i | 0 <= i < |t|
        ensures t[i].key != k
      {
        if i > 0 {
          Lex.Transitive(k, t[0].key, t[i].key);
        }
        Lex.Irreflexive(k);
      }
    } else if t[0].key == k {
      forall i | 0 < i < |t|
        ensures t[i].key != k
      {
        AscendingDistinct(t, 0, if t[i].key == k then i else 0);
      }
    } else {
      PutMember(t[1..], k, v, e);
      assert t == [t[0]] + t[1..];
    }
  }

  lemma PutAscending<V>(t: Tree<V>, k: string, v: V)
    requires Ascending(t)
    ensures Ascending(Put(t, k, v))
  {
    if t == [] {
    } else if Lex.Less(k, t[0].key) {
      forall i | 0 < i < |t|
        ensures Lex.Less(k, t[i].key)
      {
        Lex.Transitive(k, t[0].key, t[i].key);
      }
    } else if t[0].key == k {
    } else {
      PutAscending(t[1..], k, v);
      Lex.Trichotomy(k, t[0].key);
      var r := Put(t[1..], k, v);
      forall i | 0 <= i < |r|
        ensures Lex.Less(t[0].key, r[i].key)
      {
        PutMember(t[1..], k, v, r[i]);
      }
    }
  }

  lemma {:induction false} GetMember<V>(t: Tree<V>, e: Entry<V>)
    requires Ascending(t) && e in t
    ensures Get(t, e.key) == Some(e.value)
  {
    var i :| 0 <= i < |t| && t[i] == e;
    var v := Get(t, e.key).value;
    var j :| 0 <= j < |t| && t[j] == Entry(e.key, v);
    AscendingDistinct(t, i, j);
  }

  lemma GetAbsent<V>(t: Tree<V>, k: string)
    requires forall e :: e in t ==> e.key != k
    ensures Get(t, k) == None
  {
  }

  /** Reading back after a write. */
  lemma GetPut<V>(t: Tree<V>, k: string, v: V, q: string)
    requires Ascending(t)
    ensures Get(Put(t, k, v), q) == if q == k then Some(v) else Get(t, q)
  {
    var p := Put(t, k, v);
    PutAscending(t, k, v);
    if q == k {
      PutMember(t, k, v, Entry(k, v));
      GetMember(p, Entry(k, v));
    } else {
      match Get(t, q)
      case Some(w) =>
        PutMember(t, k, v, Entry(q, w));
        GetMember(p, Entry(q, w));
      case None =>
        forall e | e in p
          ensures e.key != q
        {
          PutMember(t, k, v, e);
        }
        GetAbsent(p, q);
    }
  }

  lemma FilterAscending<V>(p: Entry<V> -> bool, t: Tree<V>)
    requires Ascending(t)
    ensures Ascending(Filter(p, t))
  {
    FilterIsSorted((a: Entry<V>, b: Entry<V>) => Lex.Less(a.key, b.key), p, t);
  }

  lemma GetFilter<V>(p: Entry<V> -> bool, t: Tree<V>, k: string)
    requires Ascending(t)
    ensures Get(Filter(p, t), k) ==
            match Get(t, k)
            case None => None
            case Some(v) => if p(Entry(k, v)) then Some(v) else None
  {
    FilterAscending(p, t);
    match Get(t, k)
    case Some(v) =>
      FilterMember(p, t, Entry(k, v));
      if p(Entry(k, v)) {
        GetMember(Filter(p, t), Entry(k, v));
      } else {
        forall e | e in Filter(p, t)
          ensures e.key != k
        {
          FilterMember(p, t, e);
          if e.key == k {
            GetMember(t, e);
          }
        }
        GetAbsent(Filter(p, t), k);
      }
    case None =>
      forall e | e in Filter(p, t)
        ensures e.key != k
      {
        FilterMember(p, t, e);
      }
      GetAbsent(Filter(p, t), k);
  }

  /** Overwriting an existing key rewrites that entry in place. */
  lemma PutExisting<V>(t: Tree<V>, k: string, v: V)
    requires Ascending(t) && HasKey(t, k)
    ensures Put(t, k, v) == Map((e: Entry<V>) => if e.key == k then Entry(k, v) else e, t)
  {
    var f := (e: Entry<V>) => if e.key == k then Entry(k, v) else e;
    var i :| 0 <= i < |t| && t[i].key == k;
    if i == 0 {
      Lex.Irreflexive(k);
      forall j | 0 < j < |t|
        ensures Map(f, t)[j] == t[j]
      {
        Lex.Irreflexive(t[j].key);
      }
      assert Map(f, t) == [Entry(k, v)] + t[1..];
    } else {
      Lex.Asymmetric(t[0].key, k);
      assert t[1..][i - 1].key == k;
      PutExisting(t[1..], k, v);
    }
  }

  /** Two trees that answer every lookup alike are the same tree. */
  lemma {:induction false} Extensional<V>(a: Tree<V>, b: Tree<V>)
    requires Ascending(a) && Ascending(b)
    requires forall k :: Get(a, k) == Get(b, k)
    ensures a == b
  {
    if a == [] {
      if b != [] {
        GetMember(b, b[0]);
        assert false;
      }
    } else {
      GetMember(a, a[0]);
      assert Get(a, a[0].key) == Get(b, a[0].key);
      GetMember(b, b[0]);
      assert Get(a, b[0].key) == Get(b, b[0].key);
      HeadsEqual(a, b);
      TailLookup(a);
      TailLookup(b);
      assert forall k :: Get(a[1..], k) == if k == a[0].key then None else Get(a, k);
      assert forall k :: Get(b[1..], k) == if k == b[0].key then None else Get(b, k);
      Extensional(a[1..], b[1..]);
      assert a == [a[0]] + a[1..] && b == [b[0]] + b[1..];
    }
  }

  lemma HeadsEqual<V>(a: Tree<V>, b: Tree<V>)
    requires a != [] && b != [] && Ascending(a) && Ascending(b)
    requires Get(b, a[0].key) == Some(a[0].value)
    requires Get(a, b[0].key) == Some(b[0].value)
    ensures a[0] == b[0]
  {
    var i :| 0 <= i < |b| && b[i] == Entry(a[0].key, a[0].value);
    var j :| 0 <= j < |a| && a[j] == Entry(b[0].key, b[0].value);
    if i != 0 && j != 0 {
      Lex.Asymmetric(a[0].key, b[0].key);
    }
  }

  lemma TailLookup<V>(t: Tree<V>)
    requires t != [] && Ascending(t)
    ensures Ascending(t[1..])
    ensures forall k :: Get(t[1..], k) == if k == t[0].key then None else Get(t, k)
  {
    forall e | e in t[1..]
      ensures e.key != t[0].key
    {
      Lex.Irreflexive(e.key);
    }
    GetAbsent(t[1..], t[0].key);
  }

  // --------------------------------------------------------- bulk removal

  lemma RemoveNext<V>(t: Tree<V>, keys: seq<string>, k: string)
    ensures Remove(Filter(KeyNotIn(keys), t), k) == Filter(KeyNotIn(keys + [k]), t)
  {
    FilterTwice(KeyIsNot<V>(k), KeyNotIn<V>(keys), KeyNotIn<V>(keys + [k]), t);
  }

  /** Removing the keys of some entries of a tree removes exactly those entries. */
  lemma RemoveVictims<V>(t: Tree<V>, victims: seq<Entry<V>>, keep: Entry<V> -> bool)
    requires Ascending(t)
    requires forall e :: e in victims ==> e in t
    requires forall e :: e in t ==> (keep(e) <==> e !in victims)
    ensures Filter(KeyNotIn(Keys(victims)), t) == Filter(keep, t)
  {
    forall e | e in t
      ensures KeyNotIn<V>(Keys(victims))(e) == keep(e)
    {
      if e.key in Keys(victims) {
        var i :| 0 <= i < |victims| && victims[i].key == e.key;
        assert victims[i] in t;
        GetMember(t, e);
        GetMember(t, victims[i]);
      }
    }
    FilterCongruence(KeyNotIn<V>(Keys(victims)), keep, t);
  }

  /** The collecting scan all stores share. */
  method Collect<V>(t: Tree<V>, p: Entry<V> -> bool) returns (r: seq<Entry<V>>)
    ensures r == Filter(p, t)
  {
    r := [];
    for i := 0 to |t|
      invariant r == Filter(p, t[..i])
    {
      FilterAppend(p, t[..i], t[i]);
      assert t[..i + 1] == t[..i] + [t[i]];
      if p(t[i]) {
        r := r + [t[i]];
      }
    }
    assert t[..|t|] == t;
  }

  /** The removal loop all stores share. */
  method RemoveAll<V>(t: Tree<V>, keys: seq<string>) returns (r: Tree<V>)
    ensures r == Filter(KeyNotIn(keys), t)
  {
    r := t;
    FilterAll(KeyNotIn<V>(keys[..0]), t);
    for i := 0 to |keys|
      invariant r == Filter(KeyNotIn(keys[..i]), t)
    {
      RemoveNext(t, keys[..i], keys[i]);
      assert keys[..i] + [keys[i]] == keys[..i + 1];
      r := Remove(r, keys[i]);
    }
    assert keys[..|keys|] == keys;
  }
}
