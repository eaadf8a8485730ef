/**
  `std::set<std::string>` and `std::map<std::string, V>`: sequences of names in
  strictly ascending order, and values held in step with them.
 */
module Names {
  import opened Words

  /** `std::string::operator<`: lexicographic, bytes compared as unsigned. */
  predicate Less(a: Text, b: Text) {
    b != [] && (a == [] || a[0] < b[0] || (a[0] == b[0] && Less(a[1..], b[1..])))
  }

  /** The first byte that differs is less, or if none does, the string is shorter. */
  predicate Before(a: Text, b: Text) {
    (|a| < |b| && a == b[..|a|]) || exists k :: 0 <= k < |a| && k < |b| && a[..k] == b[..k] && a[k] < b[k]
  }

  /** The recursive comparison is that order. */
  lemma {:induction false} LessIff(a: Text, b: Text)
    ensures Less(a, b) <==> Before(a, b)
  {
    if a != [] && b != [] && a[0] == b[0] {
      LessIff(a[1..], b[1..]);
      PrefixTail(a, b);
      DiffersTail(a, b);
    } else if a != [] && b != [] {
      assert a[..0] == b[..0];
    }
  }

  lemma PrefixTail(a: Text, b: Text)
    requires a != [] && b != [] && a[0] == b[0]
    ensures |a| < |b| && a == b[..|a|] <==> |a[1..]| < |b[1..]| && a[1..] == b[1..][..|a[1..]|]
  {
    if |a| < |b| {
      assert a == [a[0]] + a[1..] && b[..|a|] == [b[0]] + b[1..][..|a[1..]|];
    }
  }

  lemma DiffersTail(a: Text, b: Text)
    requires a != [] && b != [] && a[0] == b[0]
    ensures (exists k :: 0 <= k < |a| && k < |b| && a[..k] == b[..k] && a[k] < b[k])
       <==> exists k :: 0 <= k < |a[1..]| && k < |b[1..]| && a[1..][..k] == b[1..][..k] && a[1..][k] < b[1..][k]
  {
    var x, y := a[1..], b[1..];
    if k :| 0 <= k < |x| && k < |y| && x[..k] == y[..k] && x[k] < y[k] {
      assert a[..k + 1] == [a[0]] + x[..k] && b[..k + 1] == [b[0]] + y[..k];
      assert a[k + 1] < b[k + 1];
    }
    if k :| 0 <= k < |a| && k < |b| && a[..k] == b[..k] && a[k] < b[k] {
      assert k > 0;
      assert x[..k - 1] == a[..k][1..] && y[..k - 1] == b[..k][1..];
      assert x[k - 1] < y[k - 1];
    }
  }

  lemma {:induction false} LessTransitive(a: Text, b: Text, c: Text)
    requires Less(a, b) && Less(b, c)
    ensures Less(a, c)
  {
    if a != [] && a[0] == b[0] == c[0] {
      LessTransitive(a[1..], b[1..], c[1..]);
    }
  }

  lemma {:induction false} LessTotal(a: Text, b: Text)
    ensures !(Less(a, b) && Less(b, a)) && !Less(a, a)
    ensures Less(a, b) || a == b || Less(b, a)
  {
    if a != [] {
      if b != [] && a[0] == b[0] {
        LessTotal(a[1..], b[1..]);
        assert a == [a[0]] + a[1..] && b == [b[0]] + b[1..];
      }
      LessTotal(a[1..], a[1..]);
    }
  }

  /** The order a set or a map of strings is iterated in. */
  predicate Ascending(names: seq<Text>) {
    forall i, j :: 0 <= i < j < |names| ==> Less(names[i], names[j])
  }

  /** How many leading names come before `k`. */
  function Rank(names: seq<Text>, k: Text): (r: nat)
    ensures r <= |names|
    ensures forall i :: 0 <= i < r ==> Less(names[i], k)
    ensures r < |names| ==> !Less(names[r], k)
  {
    if names == [] || !Less(names[0], k) then 0 else 1 + Rank(names[1..], k)
  }

  /** `k` with everything before it and everything after it stays in order. */
  lemma RankSplits(names: seq<Text>, k: Text)
    requires Ascending(names)
    ensures forall i :: Rank(names, k) < i < |names| ==> Less(k, names[i])
    ensures Rank(names, k) < |names| && names[Rank(names, k)] != k ==> Less(k, names[Rank(names, k)])
    ensures k in names <==> Rank(names, k) < |names| && names[Rank(names, k)] == k
  {
    var r := Rank(names, k);
    if r < |names| {
      LessTotal(names[r], k);
      forall i | r < i < |names| ensures Less(k, names[i]) {
        if names[r] != k {
          LessTransitive(k, names[r], names[i]);
        }
      }
    }
    forall i | 0 <= i < |names| && names[i] == k ensures i == r {
      LessTotal(k, k);
    }
  }

  lemma InsertedAscending(names: seq<Text>, k: Text, i: nat)
    requires Ascending(names) && i <= |names|
    requires forall j :: 0 <= j < i ==> Less(names[j], k)
    requires forall j :: i <= j < |names| ==> Less(k, names[j])
    ensures Ascending(names[..i] + [k] + names[i..])
  {
  }

  lemma InsertedMembers(names: seq<Text>, k: Text, i: nat, n: Text)
    requires i <= |names|
    ensures n in names[..i] + [k] + names[i..] <==> n in names || n == k
  {
  }

  /** `std::set::insert`. */
  function Insert(names: seq<Text>, k: Text): (r: seq<Text>)
    requires Ascending(names)
    ensures Ascending(r) && |names| <= |r| <= |names| + 1
    ensures forall n :: n in r <==> n in names || n == k
  {
    var i := Rank(names, k);
    RankSplits(names, k);
    if i < |names| && names[i] == k then names else
      InsertedAscending(names, k, i);
      var r := names[..i] + [k] + names[i..];
      assert forall n :: n in r <==> n in names || n == k by {
        forall n ensures n in r <==> n in names || n == k { InsertedMembers(names, k, i, n); }
      }
      r
  }

  /** `std::set<std::string>(attributes.begin(), attributes.end())`, in iteration order. */
  function Unique(attributes: seq<Text>): (r: seq<Text>)
    ensures Ascending(r) && |r| <= |attributes|
    ensures forall n :: n in r <==> n in attributes
  {
    if attributes == [] then [] else
      var last := |attributes| - 1;
      assert attributes == attributes[..last] + [attributes[last]];
      Insert(Unique(attributes[..last]), attributes[last])
  }

  lemma RankAtEnd(names: seq<Text>, k: Text)
    requires forall i :: 0 <= i < |names| ==> Less(names[i], k)
    ensures Rank(names, k) == |names|
  {
  }

  /** An ascending list has no duplicates to drop and nothing to reorder. */
  lemma {:induction false} UniqueOfAscending(names: seq<Text>)
    requires Ascending(names)
    ensures Unique(names) == names
  {
    if names != [] {
      var last := |names| - 1;
      UniqueOfAscending(names[..last]);
      RankAtEnd(names[..last], names[last]);
    }
  }

  /** An ascending list is determined by the names it holds. */
  lemma {:induction false} AscendingDetermined(a: seq<Text>, b: seq<Text>)
    requires Ascending(a) && Ascending(b)
    requires forall n :: n in a <==> n in b
    ensures a == b
  {
    assert |a| > 0 ==> a[0] in a;
    assert |b| > 0 ==> b[0] in b;
    if a != [] {
      LessTotal(a[0], b[0]);
      var i :| 0 <= i < |b| && b[i] == a[0];
      var j :| 0 <= j < |a| && a[j] == b[0];
      LessTotal(a[0], a[0]);
      assert a[0] == b[0];
      forall n ensures n in a[1..] <==> n in b[1..] {
        LessTotal(n, n);
        assert n in a <==> n == a[0] || n in a[1..];
        assert n in b <==> n == b[0] || n in b[1..];
        assert a[0] !in a[1..] && b[0] !in b[1..];
      }
      AscendingDetermined(a[1..], b[1..]);
    }
  }

  datatype Association<V> = Props(names: seq<Text>, values: seq<V>)

  /** A `std::map<std::string, V>`. */
  type Props<V> = p: Association<V> | |p.names| == |p.values| && Ascending(p.names)
    witness Props([], [])

  /** `std::map::operator[](k) = v`. */
  function Put<V>(p: Props<V>, k: Text, v: V): (r: Props<V>)
    ensures r.names == Insert(p.names, k)
  {
    var i := Rank(p.names, k);
    if i < |p.names| && p.names[i] == k then Props(p.names, p.values[i := v])
    else
      assert p.names[..i] + [k] + p.names[i..] == Insert(p.names, k);
      Props(p.names[..i] + [k] + p.names[i..], p.values[..i] + [v] + p.values[i..])
  }

  /** `std::map::find`. */
  function Find<V>(p: Props<V>, k: Text): Option<V> {
    var i := Rank(p.names, k);
    if i < |p.names| && p.names[i] == k then Some(p.values[i]) else None
  }

  lemma RankOfMember(names: seq<Text>, i: nat)
    requires Ascending(names) && i < |names|
    ensures Rank(names, names[i]) == i
  {
    RankSplits(names, names[i]);
    LessTotal(names[i], names[i]);
  }

  lemma FindAt<V>(p: Props<V>, i: nat)
    requires i < |p.names|
    ensures Find(p, p.names[i]) == Some(p.values[i])
  {
    RankOfMember(p.names, i);
  }

  lemma FindAbsent<V>(p: Props<V>, n: Text)
    requires n !in p.names
    ensures Find(p, n) == None
  {
  }

  /** Every other entry keeps its value, at the same place or one further on. */
  lemma PutKeeps<V>(p: Props<V>, k: Text, v: V, j: nat)
    requires j < |p.names| && p.names[j] != k
    ensures Find(Put(p, k, v), p.names[j]) == Some(p.values[j])
  {
    hide Less, Insert;
    var q := Put(p, k, v);
    var i := if |q.names| == |p.names| || j < Rank(p.names, k) then j else j + 1;
    assert q.names[i] == p.names[j] && q.values[i] == p.values[j];
    FindAt(q, i);
  }

  /** A map holds what was last put under a name and keeps every other entry. */
  lemma FindPut<V>(p: Props<V>, k: Text, v: V, n: Text)
    ensures Find(Put(p, k, v), n) == if n == k then Some(v) else Find(p, n)
  {
    var q := Put(p, k, v);
    if n == k {
      RankSplits(p.names, k);
      var i := Rank(p.names, k);
      assert q.names[i] == k && q.values[i] == v;
      FindAt(q, i);
    } else if n in p.names {
      var j :| 0 <= j < |p.names| && p.names[j] == n;
      FindAt(p, j);
      PutKeeps(p, k, v, j);
    } else {
      FindAbsent(p, n);
      FindAbsent(q, n);
    }
  }

  /** Entries that arrive in ascending order are appended. */
  lemma PutAtEnd<V>(p: Props<V>, k: Text, v: V)
    requires forall i :: 0 <= i < |p.names| ==> Less(p.names[i], k)
    ensures Put(p, k, v) == Props(p.names + [k], p.values + [v])
  {
  }
}
