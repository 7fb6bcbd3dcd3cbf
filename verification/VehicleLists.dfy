/** The list operations the engine applies to vehicle lists: PCU totals, removal, and the sort by
    position, with what each preserves. */
module VehicleLists {
  import opened Vehicles

  ghost predicate NoDup(s: seq<Vehicle>) {
    forall i, j :: 0 <= i < j < |s| ==> s[i] != s[j]
  }

  /** Two lists without repeats and without a common member have none together. */
  lemma NoDupBoth(a: seq<Vehicle>, b: seq<Vehicle>)
    requires NoDup(a) && NoDup(b) && forall v :: v in a ==> v !in b
    ensures NoDup(a + b)
  {
    var s := a + b;
    forall i, j | 0 <= i < j < |s| ensures s[i] != s[j] {
      if i < |a| <= j {
        assert s[i] in a && s[j] in b;
      }
    }
  }

  /** PCU of every vehicle in a list. */
  ghost function Load(vs: seq<Vehicle>): (x: real)
    ensures x >= 0.0
  {
    if vs == [] then 0.0 else Load(vs[..|vs| - 1]) + Pcu(vs[|vs| - 1].class_)
  }

  /** PCU of the vehicles in a list that have not left the network. */
  function ActivePcu(vs: seq<Vehicle>): real
    reads vs`state
  {
    if vs == [] then 0.0
    else
      var last := vs[|vs| - 1];
      ActivePcu(vs[..|vs| - 1]) + if last.state == ExitedNetwork then 0.0 else Pcu(last.class_)
  }

  lemma {:induction false} AllActive(vs: seq<Vehicle>)
    requires forall v :: v in vs ==> v.state != ExitedNetwork
    ensures ActivePcu(vs) == Load(vs)
  {
    if vs != [] {
      AllActive(vs[..|vs| - 1]);
    }
  }

  lemma LoadAppend(vs: seq<Vehicle>, v: Vehicle)
    ensures Load(vs + [v]) == Load(vs) + Pcu(v.class_)
  {
    assert (vs + [v])[..|vs|] == vs;
  }

  lemma {:induction false} LoadInsert(a: seq<Vehicle>, v: Vehicle, b: seq<Vehicle>)
    ensures Load(a + [v] + b) == Load(a + b) + Pcu(v.class_)
  {
    if b == [] {
      assert a + [v] + b == a + [v] && a + b == a;
      LoadAppend(a, v);
    } else {
      var c, w := b[..|b| - 1], b[|b| - 1];
      LoadInsert(a, v, c);
      assert a + [v] + b == (a + [v] + c) + [w] && a + b == (a + c) + [w];
      LoadAppend(a + [v] + c, w);
      LoadAppend(a + c, w);
    }
  }

  /** `list.remove`: drops the (only) occurrence of `x`. */
  function Without(vs: seq<Vehicle>, x: Vehicle): (r: seq<Vehicle>)
  {
    if vs == [] then []
    else if vs[0] == x then vs[1..]
    else [vs[0]] + Without(vs[1..], x)
  }

  lemma {:induction false} WithoutSplit(vs: seq<Vehicle>, x: Vehicle) returns (a: seq<Vehicle>, b: seq<Vehicle>)
    requires x in vs
    ensures vs == a + [x] + b && Without(vs, x) == a + b
  {
    if vs[0] == x {
      a, b := [], vs[1..];
    } else {
      a, b := WithoutSplit(vs[1..], x);
      a := [vs[0]] + a;
      assert vs == [vs[0]] + vs[1..];
    }
  }

  /** A list with `x` in the middle has no repeats when the rest has none and lacks `x`. */
  lemma NoDupMiddle(a: seq<Vehicle>, x: Vehicle, b: seq<Vehicle>)
    ensures NoDup(a + [x] + b) <==> NoDup(a + b) && x !in a && x !in b
  {
    var s, r := a + [x] + b, a + b;
    var n := |a|;
    assert forall i :: 0 <= i < |r| ==> r[i] == s[if i < n then i else i + 1];
    assert s[n] == x;
    if NoDup(s) {
      forall i | 0 <= i < |a| ensures a[i] != x { assert s[i] == a[i]; }
      forall i | 0 <= i < |b| ensures b[i] != x { assert s[n + 1 + i] == b[i]; }
    }
    if NoDup(r) && x !in a && x !in b {
      forall i, j | 0 <= i < j < |s| ensures s[i] != s[j] {
        NoDupMiddlePair(a, x, b, i, j);
      }
    }
  }

  lemma NoDupMiddlePair(a: seq<Vehicle>, x: Vehicle, b: seq<Vehicle>, i: nat, j: nat)
    requires NoDup(a + b) && x !in a && x !in b && i < j < |a| + 1 + |b|
    ensures (a + [x] + b)[i] != (a + [x] + b)[j]
  {
    var s, r, n := a + [x] + b, a + b, |a|;
    if i == n {
      assert s[j] == b[j - n - 1];
    } else if j == n {
      assert s[i] == a[i];
    } else {
      var i', j' := if i < n then i else i - 1, if j < n then j else j - 1;
      assert s[i] == r[i'] && s[j] == r[j'];
    }
  }

  /** Removing one vehicle from a list without repeats. */
  lemma WithoutSpec(vs: seq<Vehicle>, x: Vehicle)
    requires NoDup(vs) && x in vs
    ensures NoDup(Without(vs, x)) && |Without(vs, x)| == |vs| - 1
    ensures forall v :: v in Without(vs, x) <==> v in vs && v != x
    ensures Load(Without(vs, x)) == Load(vs) - Pcu(x.class_)
  {
    var a, b := WithoutSplit(vs, x);
    LoadInsert(a, x, b);
    NoDupMiddle(a, x, b);
  }

  /** What is left of a list, in its order, without the vehicles of `gone`. */
  ghost function Rest(vs: seq<Vehicle>, gone: set<Vehicle>): seq<Vehicle> {
    if vs == [] then []
    else if vs[0] in gone then Rest(vs[1..], gone)
    else [vs[0]] + Rest(vs[1..], gone)
  }

  lemma {:induction false} RestOfAbsent(vs: seq<Vehicle>, gone: set<Vehicle>, x: Vehicle)
    requires x !in vs
    ensures Rest(vs, gone + {x}) == Rest(vs, gone)
  {
    if vs != [] {
      RestOfAbsent(vs[1..], gone, x);
    }
  }

  lemma {:induction false} RestOfNone(vs: seq<Vehicle>)
    ensures Rest(vs, {}) == vs
  {
    if vs != [] {
      RestOfNone(vs[1..]);
    }
  }

  /** Taking vehicles off one by one keeps the order of the others. */
  lemma {:induction false} RestWithout(vs: seq<Vehicle>, gone: set<Vehicle>, x: Vehicle)
    requires NoDup(vs) && x in vs && x !in gone
    ensures Without(Rest(vs, gone), x) == Rest(vs, gone + {x})
  {
    hide Without, NoDup;
    var y, tail := vs[0], Rest(vs[1..], gone);
    TailDiffers(vs, x);
    WithoutHead(y, tail, x);
    if y == x {
      RestOfAbsent(vs[1..], gone, x);
    } else {
      RestWithout(vs[1..], gone, x);
    }
  }

  lemma TailDiffers(vs: seq<Vehicle>, x: Vehicle)
    requires NoDup(vs) && x in vs
    ensures NoDup(vs[1..]) && (x == vs[0] <==> x !in vs[1..])
  {
  }

  lemma WithoutHead(y: Vehicle, tail: seq<Vehicle>, x: Vehicle)
    ensures Without([y] + tail, x) == if y == x then tail else [y] + Without(tail, x)
  {
    assert ([y] + tail)[1..] == tail;
  }

  ghost predicate Descending(r: seq<Vehicle>)
    reads r
  {
    forall i, j :: 0 <= i < j < |r| ==> r[i].position >= r[j].position
  }

  /** `r` lists the vehicles of `vs`, each once. */
  ghost predicate Reorders(r: seq<Vehicle>, vs: seq<Vehicle>) {
    NoDup(r) && |r| == |vs| && Load(r) == Load(vs)
    && (forall v :: v in r ==> v in vs) && (forall v :: v in vs ==> v in r)
  }

  lemma ReordersFacts(r: seq<Vehicle>, vs: seq<Vehicle>)
    requires Reorders(r, vs)
    ensures NoDup(r) && forall v :: v in r <==> v in vs
  {
  }

  /** The list sorted by descending position. */
  method SortByPosition(vs: seq<Vehicle>) returns (r: seq<Vehicle>)
    requires NoDup(vs)
    ensures Reorders(r, vs) && Descending(r)
  {
    r := [];
    for n := 0 to |vs|
      invariant Reorders(r, vs[..n]) && Descending(r)
    {
      assert vs[..n + 1] == vs[..n] + [vs[n]];
      r := InsertByPosition(r, vs[n]);
      LoadAppend(vs[..n], vs[n]);
    }
    assert vs[..|vs|] == vs;
  }

  lemma DescendingMiddle(a: seq<Vehicle>, v: Vehicle, b: seq<Vehicle>)
    requires Descending(a + b)
    requires forall i :: 0 <= i < |a| ==> a[i].position >= v.position
    requires forall i :: 0 <= i < |b| ==> b[i].position <= v.position
    ensures Descending(a + [v] + b)
  {
    var s, r, n := a + [v] + b, a + b, |a|;
    forall i, j | 0 <= i < j < |s| ensures s[i].position >= s[j].position {
      if i == n {
        assert s[j] == b[j - n - 1];
      } else if j == n {
        assert s[i] == a[i];
      } else {
        var i', j' := if i < n then i else i - 1, if j < n then j else j - 1;
        assert s[i] == r[i'] && s[j] == r[j'];
      }
    }
  }

  method InsertByPosition(r: seq<Vehicle>, v: Vehicle) returns (s: seq<Vehicle>)
    requires NoDup(r) && Descending(r) && v !in r
    ensures NoDup(s) && Descending(s) && |s| == |r| + 1
    ensures Load(s) == Load(r) + Pcu(v.class_) && forall x :: x in s <==> x in r || x == v
  {
    var k := 0;
    while k < |r| && r[k].position >= v.position
      invariant 0 <= k <= |r|
      invariant forall i :: 0 <= i < k ==> r[i].position >= v.position
    {
      k := k + 1;
    }
    hide NoDup, Load;
    InsertAt(r, k, v);
    s := r[..k] + [v] + r[k..];
  }

  lemma TailBelow(r: seq<Vehicle>, k: nat, j: nat, v: Vehicle)
    requires k <= j < |r| && Descending(r) && r[k].position < v.position
    ensures r[j].position <= v.position
  {
  }

  lemma InsertAt(r: seq<Vehicle>, k: nat, v: Vehicle)
    requires k <= |r| && NoDup(r) && Descending(r) && v !in r
    requires forall i :: 0 <= i < k ==> r[i].position >= v.position
    requires k < |r| ==> r[k].position < v.position
    ensures var s := r[..k] + [v] + r[k..];
            NoDup(s) && Descending(s) && Load(s) == Load(r) + Pcu(v.class_) && forall x :: x in s <==> x in r || x == v
  {
    hide NoDup, Load, Descending;
    var a, b := r[..k], r[k..];
    assert a + b == r;
    LoadInsert(a, v, b);
    NoDupMiddle(a, v, b);
    InMiddle(a, v, b);
    forall i | 0 <= i < |b| ensures b[i].position <= v.position {
      TailBelow(r, k, k + i, v);
    }
    DescendingMiddle(a, v, b);
  }

  lemma InMiddle(a: seq<Vehicle>, v: Vehicle, b: seq<Vehicle>)
    ensures forall x :: x in a + [v] + b <==> x in a + b || x == v
  {
  }

  /** Going one step further along a list without repeats. */
  lemma PrefixStep(vs: seq<Vehicle>, i: nat)
    requires NoDup(vs) && i < |vs|
    ensures vs[..i + 1] == vs[..i] + [vs[i]] && vs[i] !in vs[..i]
    ensures i > 0 ==> vs[i - 1] != vs[i]
  {
  }

  lemma OthersDiffer(vs: seq<Vehicle>, i: nat)
    requires NoDup(vs) && i < |vs|
    ensures forall j :: 0 <= j < |vs| && j != i ==> vs[j] != vs[i]
  {
  }

  /** A list without repeats has as many elements as the set of its vehicles. */
  lemma {:induction false} DistinctCount(vs: seq<Vehicle>)
    requires NoDup(vs)
    ensures |set v | v in vs| == |vs|
  {
    if vs != [] {
      var rest, last := vs[..|vs| - 1], vs[|vs| - 1];
      DistinctCount(rest);
      assert vs == rest + [last] && last !in rest;
      assert (set v | v in vs) == (set v | v in rest) + {last};
    }
  }
}
