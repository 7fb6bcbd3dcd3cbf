/** Entity ids of the form `urn:ngsi-ld:Type:local` and their isolation namespaces:
    `contracts/canonical_json.py` and `Visualize/tools/k45_oracles.py`. */
module EntityIds {
  import opened Options

  datatype Result<+T> = Ok(value: T) | ValueError

  const PREFIX := "urn:ngsi-ld:"

  // ----- strings -----

  predicate StartsWith(s: string, p: string) {
    |p| <= |s| && s[..|p|] == p
  }

  predicate OccursAt(s: string, p: string, i: nat) {
    i + |p| <= |s| && s[i..i + |p|] == p
  }

  /** `str.find` from position `i`: the first occurrence. */
  function FindFrom(s: string, p: string, i: nat): (r: Option<nat>)
    ensures r.Some? ==> OccursAt(s, p, r.value) && i <= r.value && forall j: nat :: i <= j < r.value ==> !OccursAt(s, p, j)
    ensures r.None? ==> forall j: nat :: i <= j ==> !OccursAt(s, p, j)
    decreases |s| - i
  {
    if i + |p| > |s| then None
    else if OccursAt(s, p, i) then Some(i)
    else FindFrom(s, p, i + 1)
  }

  predicate Contains(s: string, p: string) {
    FindFrom(s, p, 0).Some?
  }

  /** `str.replace(p, by, 1)`. */
  function ReplaceFirst(s: string, p: string, q: string): string {
    match FindFrom(s, p, 0)
    case None => s
    case Some(i) => s[..i] + q + s[i + |p|..]
  }

  /** The position of the first separator, or the length. */
  function Until(s: string, c: char): (i: nat)
    ensures i <= |s| && c !in s[..i] && (i < |s| ==> s[i] == c)
  {
    if s == "" || s[0] == c then 0
    else
      var rest := Until(s[1..], c);
      assert s[..rest + 1] == [s[0]] + s[1..][..rest];
      rest + 1
  }

  function Lower(s: string): string {
    seq(|s|, i requires 0 <= i < |s| => if 'A' <= s[i] <= 'Z' then (s[i] as int + 32) as char else s[i])
  }

  /** Capital letters become the small letters at their place in the alphabet; nothing else changes. */
  lemma LowerSpec(s: string, i: nat)
    requires i < |s|
    ensures |Lower(s)| == |s|
    ensures 'A' <= s[i] <= 'Z' ==> 'a' <= Lower(s)[i] <= 'z' && Lower(s)[i] as int - 'a' as int == s[i] as int - 'A' as int
    ensures !('A' <= s[i] <= 'Z') ==> Lower(s)[i] == s[i]
  {
  }

  predicate Blank(c: char) {
    c == ' ' || c == '\t' || c == '\n' || c == '\r'
  }

  function Strip(s: string): string {
    if s != "" && Blank(s[0]) then Strip(s[1..])
    else if s != "" && Blank(s[|s| - 1]) then Strip(s[..|s| - 1])
    else s
  }

  // ----- ids -----

  /** What follows the type and its colon, without one leading isolation namespace. */
  function StripPrior(local: string): string {
    if StartsWith(local, "shadow:") then local[7..]
    else if StartsWith(local, "test:") then local[5..]
    else local
  }

  function NodeIdFromEntityId(id: string): Result<string> {
    if !StartsWith(id, PREFIX) then ValueError
    else
      var rest := id[|PREFIX|..];
      var i := Until(rest, ':');
      if i == |rest| then ValueError
      else Ok(NodeOf(StripPrior(rest[i + 1..])))
  }

  function NodeOf(local: string): string {
    var head := local[..Until(local, ':')];
    head[..Until(head, '-')]
  }

  function ToNamespacedEntityId(id: string, namespace: string): Result<string> {
    var ns := Lower(Strip(namespace));
    if ns == "" || ns == "production" then Ok(id)
    else if ':' in ns then ValueError
    else if Contains(id, Marker(ns)) then Ok(id)
    else if !StartsWith(id, PREFIX) then ValueError
    else
      var rest := id[|PREFIX|..];
      var i := Until(rest, ':');
      var local := if i == |rest| then "" else rest[i + 1..];
      if local == "" then ValueError
      else Ok(PREFIX + rest[..i] + ":" + ns + ":" + StripPrior(local))
  }

  function Marker(ns: string): string {
    ":" + ns + ":"
  }

  function ToShadowEntityId(id: string): Result<string> {
    ToNamespacedEntityId(id, "shadow")
  }

  function NormalizeShadowId(id: string): string {
    if Contains(id, ":shadow:") then ReplaceFirst(id, ":shadow:", ":") else id
  }

  /** The namespace stands for the token `ns` and is not the production namespace. */
  ghost predicate Token(namespace: string, ns: string) {
    ns == Lower(Strip(namespace)) && ns != "" && ns != "production" && ':' !in ns
  }

  /** An id with its type and a local part. */
  ghost predicate Shape(id: string, kind: string, local: string) {
    ':' !in kind && id == PREFIX + kind + ":" + local
  }

  // ----- occurrences -----

  lemma Found(s: string, p: string, i: nat)
    requires OccursAt(s, p, i)
    ensures Contains(s, p)
  {
  }

  lemma OccursInLeft(a: string, b: string, p: string, i: nat)
    requires i + |p| <= |a|
    ensures OccursAt(a + b, p, i) <==> OccursAt(a, p, i)
  {
    assert (a + b)[i..i + |p|] == a[i..i + |p|];
  }

  lemma OccursInRight(a: string, b: string, p: string, i: nat)
    requires i + |p| <= |b|
    ensures OccursAt(a + b, p, |a| + i) <==> OccursAt(b, p, i)
  {
    assert (a + b)[|a| + i..|a| + i + |p|] == b[i..i + |p|];
  }

  lemma InMarker(ns: string, k: nat)
    requires k < |ns| + 2
    ensures |Marker(ns)| == |ns| + 2
    ensures Marker(ns)[k] == if k == 0 || k == |ns| + 1 then ':' else ns[k - 1]
  {
  }

  /** An occurrence of a marker: a colon at both ends and characters of the token between. */
  lemma AtMarker(s: string, ns: string, i: nat, k: nat)
    requires OccursAt(s, Marker(ns), i) && i <= k < i + |ns| + 2
    ensures k < |s| && s[k] == if k == i || k == i + |ns| + 1 then ':' else ns[k - i - 1]
  {
    InMarker(ns, k - i);
    assert s[i..i + |Marker(ns)|][k - i] == s[k];
  }

  /** A marker cannot straddle a colon: it occurs in `a:b` exactly if it occurs in `a:` or in `:b`. */
  lemma MarkerSplit(a: string, b: string, ns: string)
    requires ':' !in ns
    ensures Contains(a + ":" + b, Marker(ns)) <==> Contains(a + ":", Marker(ns)) || Contains(":" + b, Marker(ns))
  {
    var s, m := a + ":" + b, Marker(ns);
    hide OccursAt, Contains, Marker;
    assert s == a + (":" + b);
    InMarker(ns, 0);
    if Contains(s, m) {
      var i := PositionOf(s, m);
      if i + |m| <= |a| + 1 {
        OccursInLeft(a + ":", b, m, i);
        Found(a + ":", m, i);
      } else {
        ColonSplits(a, b, ns, i);
        OccursInRight(a, ":" + b, m, i - |a|);
        Found(":" + b, m, i - |a|);
      }
    }
    if Contains(a + ":", m) {
      var i := PositionOf(a + ":", m);
      OccursInLeft(a + ":", b, m, i);
      Found(s, m, i);
    }
    if Contains(":" + b, m) {
      var i := PositionOf(":" + b, m);
      OccursInRight(a, ":" + b, m, i);
      Found(s, m, |a| + i);
    }
  }

  lemma PositionOf(s: string, p: string) returns (i: nat)
    requires Contains(s, p)
    ensures OccursAt(s, p, i) && i + |p| <= |s|
  {
    i := FindFrom(s, p, 0).value;
  }

  lemma ColonSplits(a: string, b: string, ns: string, i: nat)
    requires ':' !in ns && OccursAt(a + ":" + b, Marker(ns), i) && i + |Marker(ns)| > |a| + 1
    ensures |a| <= i
  {
    if i < |a| {
      InMarker(ns, 0);
      AtMarker(a + ":" + b, ns, i, |a|);
    }
  }

  /** Between two colons only the token itself makes a marker. */
  lemma MarkerOfToken(a: string, ns: string)
    requires ':' !in a && ':' !in ns
    ensures Contains(":" + a + ":", Marker(ns)) <==> a == ns
  {
    var s := ":" + a + ":";
    if a == ns {
      assert OccursAt(s, Marker(ns), 0);
    }
    if Contains(s, Marker(ns)) {
      var i := PositionOf(s, Marker(ns));
      AtMarker(s, ns, i, i);
      AtMarker(s, ns, i, i + |ns| + 1);
      assert i == 0 && |a| == |ns|;
      forall k | 0 <= k < |a| ensures a[k] == ns[k] {
        AtMarker(s, ns, 0, k + 1);
      }
    }
  }

  // ----- the shape of an id -----

  lemma UntilIs(s: string, c: char, k: nat)
    requires k < |s| && s[k] == c && c !in s[..k]
    ensures Until(s, c) == k
  {
    if s[0] != c {
      assert s[..k][0] == s[0];
      forall x | x in s[1..][..k - 1] ensures x in s[..k] {
        var j :| 0 <= j < k - 1 && s[1..][..k - 1][j] == x;
        assert s[..k][j + 1] == x;
      }
      UntilIs(s[1..], c, k - 1);
    }
  }

  lemma UntilColon(kind: string, local: string)
    requires ':' !in kind
    ensures Until(kind + ":" + local, ':') == |kind|
    ensures (kind + ":" + local)[..|kind|] == kind && (kind + ":" + local)[|kind| + 1..] == local
  {
    assert (kind + ":" + local)[..|kind|] == kind;
    UntilIs(kind + ":" + local, ':', |kind|);
  }

  lemma AfterPrefix(id: string, kind: string, local: string)
    requires Shape(id, kind, local)
    ensures StartsWith(id, PREFIX) && id[|PREFIX|..] == kind + ":" + local && ':' !in kind
  {
    assert id == PREFIX + (kind + ":" + local);
  }

  /** Namespacing an id of the given shape. */
  lemma NamespacedShape(id: string, kind: string, local: string, namespace: string, ns: string)
    requires Shape(id, kind, local) && local != "" && Token(namespace, ns)
    ensures ToNamespacedEntityId(id, namespace) ==
            Ok(if Contains(id, Marker(ns)) then id else PREFIX + kind + ":" + ns + ":" + StripPrior(local))
  {
    hide Shape, Contains, StartsWith, Until, StripPrior, Lower, Strip;
    AfterPrefix(id, kind, local);
    UntilColon(kind, local);
  }

  lemma NodeShape(id: string, kind: string, local: string)
    requires Shape(id, kind, local)
    ensures NodeIdFromEntityId(id) == Ok(NodeOf(StripPrior(local)))
  {
    hide Shape, Contains, StartsWith, Until, StripPrior, NodeOf;
    AfterPrefix(id, kind, local);
    UntilColon(kind, local);
  }

  /** The id in the namespace `ns`. */
  function Placed(kind: string, ns: string, local: string): string {
    PREFIX + kind + ":" + ns + ":" + local
  }

  lemma PlacedShape(kind: string, ns: string, local: string)
    requires ':' !in kind
    ensures Shape(Placed(kind, ns, local), kind, ns + ":" + local)
    ensures Contains(Placed(kind, ns, local), Marker(ns))
  {
    var id := Placed(kind, ns, local);
    assert id == PREFIX + kind + ":" + (ns + ":" + local);
    var i := |PREFIX + kind|;
    assert id == (PREFIX + kind) + (Marker(ns) + local);
    OccursInRight(PREFIX + kind, Marker(ns) + local, Marker(ns), 0);
    Found(id, Marker(ns), i);
  }

  /** Which markers an id has once it is in the namespace `ns`: `ns` itself, and those it would have
      without a namespace. */
  lemma PlacedMarkers(kind: string, ns: string, local: string, other: string)
    requires ':' !in kind && ':' !in ns && ':' !in other
    ensures Contains(Placed(kind, ns, local), Marker(other)) <==>
            other == ns || Contains(PREFIX + kind + ":" + local, Marker(other))
  {
    var a, m := PREFIX + kind, Marker(other);
    MarkerSplit(a, local, other);
    assert Placed(kind, ns, local) == a + ":" + (ns + ":" + local);
    MarkerSplit(a, ns + ":" + local, other);
    assert ":" + (ns + ":" + local) == (":" + ns) + ":" + local;
    MarkerSplit(":" + ns, local, other);
    assert (":" + ns) + ":" == ":" + ns + ":";
    MarkerOfToken(ns, other);
  }

  /** A local part starts with the token `ns` and a colon exactly if its first field is `ns`. */
  lemma StartsWithToken(ns: string, local: string, other: string)
    requires ':' !in ns && ':' !in other
    ensures StartsWith(ns + ":" + local, other + ":") <==> ns == other
  {
    var s, p := ns + ":" + local, other + ":";
    if StartsWith(s, p) {
      UntilColon(ns, local);
      assert p[..|other|] == other;
      assert s[..|other|] == s[..|p|][..|other|] == other;
      assert s[|other|] == s[..|p|][|other|] == ':';
      UntilIs(s, ':', |other|);
    }
    if ns == other {
      assert s[..|p|] == p;
    }
  }

  /** Putting an id in a namespace and taking the namespace off. */
  lemma StripPlaced(ns: string, local: string)
    requires ':' !in ns
    ensures StripPrior(ns + ":" + local) == if ns == "shadow" || ns == "test" then local else ns + ":" + local
  {
    StartsWithToken(ns, local, "shadow");
    StartsWithToken(ns, local, "test");
    assert "shadow" + ":" == "shadow:" && "test" + ":" == "test:";
    UntilColon(ns, local);
  }

  lemma Tokens()
    ensures Token("shadow", "shadow") && Token("test", "test")
    ensures Marker("shadow") == ":shadow:" && Marker("test") == ":test:"
  {
    assert Strip("shadow") == "shadow" && Strip("test") == "test";
    assert Lower("shadow") == "shadow" && Lower("test") == "test";
  }

  // ----- the guarantees -----

  /** Putting an id in a namespace twice is putting it there once: for every id and namespace. */
  lemma NamespacingIdempotent(id: string, namespace: string)
    requires ToNamespacedEntityId(id, namespace).Ok?
    ensures ToNamespacedEntityId(ToNamespacedEntityId(id, namespace).value, namespace) == ToNamespacedEntityId(id, namespace)
  {
    var ns := Lower(Strip(namespace));
    hide Contains, Lower, Strip, StripPrior;
    if Token(namespace, ns) && !Contains(id, Marker(ns)) {
      var rest := id[|PREFIX|..];
      var i := Until(rest, ':');
      PlacedShape(rest[..i], ns, StripPrior(rest[i + 1..]));
    }
  }

  ghost predicate HasShape(id: string) {
    exists kind, local :: Shape(id, kind, local) && local != ""
  }

  lemma ShapeFromParts(id: string)
    requires StartsWith(id, PREFIX)
    requires var i := Until(id[|PREFIX|..], ':'); i + 1 < |id| - |PREFIX|
    ensures HasShape(id)
  {
    var rest := id[|PREFIX|..];
    var i := Until(rest, ':');
    hide Until, Shape;
    FromParts(id, i);
    assert rest[i + 1..] != "";
  }

  lemma FromParts(id: string, i: nat)
    requires StartsWith(id, PREFIX)
    requires i < |id| - |PREFIX| && id[|PREFIX|..][i] == ':' && ':' !in id[|PREFIX|..][..i]
    ensures Shape(id, id[|PREFIX|..][..i], id[|PREFIX|..][i + 1..])
  {
    var rest := id[|PREFIX|..];
    assert rest == rest[..i] + ":" + rest[i + 1..];
    assert id == PREFIX + rest;
    assert PREFIX + rest == PREFIX + rest[..i] + ":" + rest[i + 1..];
  }

  /** A namespaced id is refused exactly if it has no such marker and no type with a local part. */
  lemma NamespacedOkIff(id: string, namespace: string, ns: string)
    requires Token(namespace, ns)
    ensures ToNamespacedEntityId(id, namespace).Ok? <==> Contains(id, Marker(ns)) || HasShape(id)
  {
    hide Contains, Lower, Strip, StripPrior, HasShape, Marker, Until, Shape, OccursAt;
    if ToNamespacedEntityId(id, namespace).Ok? && !Contains(id, Marker(ns)) {
      ShapeFromParts(id);
    }
    if HasShape(id) {
      var kind, local := ShapeOf(id);
      NamespacedShape(id, kind, local, namespace, ns);
    }
  }

  lemma ShapeOf(id: string) returns (kind: string, local: string)
    requires HasShape(id)
    ensures Shape(id, kind, local) && local != ""
  {
    kind, local :| Shape(id, kind, local) && local != "";
  }

  /** The node of an id survives the namespace exactly for the two known namespaces, for an id that is
      left alone, and for a namespace that happens to begin with the node's name. */
  lemma NodeKeptIff(id: string, kind: string, local: string, namespace: string, ns: string)
    requires Shape(id, kind, local) && local != "" && Token(namespace, ns)
    ensures ToNamespacedEntityId(id, namespace).Ok? && NodeIdFromEntityId(id).Ok?
    ensures NodeIdFromEntityId(ToNamespacedEntityId(id, namespace).value) == NodeIdFromEntityId(id) <==>
            ns == "shadow" || ns == "test" || Contains(id, Marker(ns)) || NodeOf(ns + ":") == NodeOf(StripPrior(local))
  {
    hide Contains, StripPrior, NodeOf, NodeIdFromEntityId, ToNamespacedEntityId;
    NamespacedShape(id, kind, local, namespace, ns);
    NodeShape(id, kind, local);
    PlacedShape(kind, ns, StripPrior(local));
    NodeShape(Placed(kind, ns, StripPrior(local)), kind, ns + ":" + StripPrior(local));
    StripPlaced(ns, StripPrior(local));
    NodeOfFirst(ns, StripPrior(local));
    NodeOfFirst(ns, "");
    assert ns + ":" + "" == ns + ":";
  }

  /** Only the first field of the local part matters for the node. */
  lemma NodeOfFirst(ns: string, local: string)
    requires ':' !in ns
    ensures NodeOf(ns + ":" + local) == ns[..Until(ns, '-')]
  {
    UntilColon(ns, local);
  }

  /** Going through the shadow namespace to the test namespace gives the same id as going there
      directly, unless a test marker hides behind the one leading namespace that is taken off. */
  lemma ShadowThenTestIff(id: string, kind: string, local: string)
    requires Shape(id, kind, local) && local != ""
    ensures ToShadowEntityId(id).Ok? && ToNamespacedEntityId(id, "test").Ok?
    ensures ToNamespacedEntityId(ToShadowEntityId(id).value, "test") == ToNamespacedEntityId(id, "test") <==>
            Contains(id, ":shadow:") || !Contains(PREFIX + kind + ":" + StripPrior(local), ":test:")
  {
    Tokens();
    var bare := StripPrior(local);
    var shadow, test := Placed(kind, "shadow", bare), Placed(kind, "test", bare);
    hide Contains, StripPrior, ToNamespacedEntityId, Token, Marker, Placed, Shape;
    NamespacedShape(id, kind, local, "shadow", "shadow");
    NamespacedShape(id, kind, local, "test", "test");
    KindHasNoColon(id, kind, local);
    if !Contains(id, ":shadow:") {
      PlacedShape(kind, "shadow", bare);
      PlacedMarkers(kind, "shadow", bare, "test");
      NamespacedShape(shadow, kind, "shadow" + ":" + bare, "test", "test");
      StripPlaced("shadow", bare);
      PlacedMarkers(kind, "test", bare, "shadow");
      BareId(id, kind, local);
      PlacedNames(kind, bare);
    }
  }

  lemma KindHasNoColon(id: string, kind: string, local: string)
    requires Shape(id, kind, local)
    ensures ':' !in kind && id == PREFIX + kind + ":" + local
  {
  }

  lemma PlacedNames(kind: string, local: string)
    ensures Placed(kind, "shadow", local) == PREFIX + kind + ":" + "shadow" + ":" + local
    ensures Placed(kind, "test", local) == PREFIX + kind + ":" + "test" + ":" + local
  {
  }

  /** An id without a shadow marker is bare, or in the test namespace. */
  lemma BareId(id: string, kind: string, local: string)
    requires Shape(id, kind, local) && !Contains(id, ":shadow:")
    ensures id == PREFIX + kind + ":" + StripPrior(local) || id == Placed(kind, "test", StripPrior(local))
    ensures id == PREFIX + kind + ":" + StripPrior(local) <==> !StartsWith(local, "test:")
  {
    if StartsWith(local, "shadow:") {
      assert local == "shadow" + ":" + local[7..];
      PlacedShape(kind, "shadow", local[7..]);
      assert Placed(kind, "shadow", local[7..]) == id;
      Tokens();
    }
  }

  /** Normalising undoes the shadow namespace exactly for the ids that are in no known namespace: those
      without a shadow marker whose local part does not begin with the test namespace. */
  lemma NormalizeUndoesShadowIff(id: string, kind: string, local: string)
    requires Shape(id, kind, local) && local != ""
    ensures ToShadowEntityId(id).Ok?
    ensures NormalizeShadowId(ToShadowEntityId(id).value) == id <==>
            !Contains(id, ":shadow:") && !StartsWith(local, "test:")
  {
    Tokens();
    NamespacedShape(id, kind, local, "shadow", "shadow");
    if Contains(id, ":shadow:") {
      ReplaceShortens(id);
    } else {
      NormalizePlaced(id, kind, local, StripPrior(local));
      BareId(id, kind, local);
    }
  }

  lemma ReplaceShortens(id: string)
    requires Contains(id, ":shadow:")
    ensures NormalizeShadowId(id) != id
  {
    var i := FindFrom(id, ":shadow:", 0).value;
    assert |NormalizeShadowId(id)| == |id| - 7;
  }

  /** The first shadow marker of a shadow id is the one that was inserted. */
  lemma NormalizePlaced(id: string, kind: string, local: string, bare: string)
    requires Shape(id, kind, local) && !Contains(id, ":shadow:")
    ensures NormalizeShadowId(Placed(kind, "shadow", bare)) == PREFIX + kind + ":" + bare
  {
    Tokens();
    var a, s := PREFIX + kind, Placed(kind, "shadow", bare);
    assert s == a + (":shadow:" + bare);
    hide Contains, OccursAt, Placed;
    MarkerSplit(a, local, "shadow");
    OccursInRight(a, ":shadow:" + bare, ":shadow:", 0);
    assert OccursAt(":shadow:" + bare, ":shadow:", 0) by {
      Leading(":shadow:", bare);
    }
    forall j: nat | j < |a| ensures !OccursAt(s, ":shadow:", j) {
      if OccursAt(s, ":shadow:", j) {
        NotBefore(kind, bare, j);
      }
    }
    FirstIs(s, ":shadow:", |a|);
    assert s[..|a|] == a && s[|a| + 8..] == bare;
    Found(s, ":shadow:", |a|);
  }

  lemma Leading(p: string, s: string)
    ensures OccursAt(p + s, p, 0)
  {
  }

  lemma FirstIs(s: string, p: string, k: nat)
    requires OccursAt(s, p, k) && forall j: nat :: j < k ==> !OccursAt(s, p, j)
    ensures FindFrom(s, p, 0) == Some(k)
  {
  }

  lemma NotBefore(kind: string, bare: string, i: nat)
    requires ':' !in kind && i < |PREFIX + kind| && OccursAt(Placed(kind, "shadow", bare), ":shadow:", i)
    ensures Contains(PREFIX + kind + ":", ":shadow:")
  {
    var a, s := PREFIX + kind, Placed(kind, "shadow", bare);
    Tokens();
    assert s == a + ":" + ("shadow:" + bare) == (a + ":") + ("shadow:" + bare);
    if i + 8 > |a| + 1 {
      ColonSplits(a, "shadow:" + bare, "shadow", i);
    } else {
      OccursInLeft(a + ":", "shadow:" + bare, ":shadow:", i);
      Found(a + ":", ":shadow:", i);
    }
  }

  lemma TestPrefixShows(id: string, kind: string, local: string)
    requires Shape(id, kind, local)
    ensures StartsWith(local, "test:") ==> Contains(id, ":test:")
  {
    if StartsWith(local, "test:") {
      assert local == "test" + ":" + local[5..];
      PlacedShape(kind, "test", local[5..]);
      assert Placed(kind, "test", local[5..]) == id;
      Tokens();
    }
  }

  /** The promise for production ids: everything above holds for an id with neither marker. */
  lemma ProductionIds(id: string, kind: string, local: string)
    requires Shape(id, kind, local) && local != "" && !Contains(id, ":shadow:") && !Contains(id, ":test:")
    ensures ToShadowEntityId(id).Ok? && NormalizeShadowId(ToShadowEntityId(id).value) == id
    ensures ToNamespacedEntityId(ToShadowEntityId(id).value, "test") == ToNamespacedEntityId(id, "test")
    ensures NodeIdFromEntityId(ToShadowEntityId(id).value) == NodeIdFromEntityId(id)
  {
    Tokens();
    TestPrefixShows(id, kind, local);
    hide Contains, StartsWith, StripPrior, ToNamespacedEntityId, NodeIdFromEntityId, NormalizeShadowId, Shape, Token;
    NormalizeUndoesShadowIff(id, kind, local);
    BareId(id, kind, local);
    ShadowThenTestIff(id, kind, local);
    NodeKeptIff(id, kind, local, "shadow", "shadow");
  }
}
